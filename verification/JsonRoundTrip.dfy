/** Reading what was written gives the value back, in both styles. The proof goes
    through the token sequence of a value, which does not depend on the style. */
module JsonRoundTrip {
  import opened Wrappers
  import opened Json
  import Decimal
  import Hex

  // ---------- the tokens of a value ----------

  function ValueTokens(v: Json, tail: seq<Token>): seq<Token>
    decreases v, 0
  {
    match v
    case Null => [TNull] + tail
    case Bool(b) => [TBool(b)] + tail
    case Num(n) => [TNum(n)] + tail
    case Str(s) => [TStr(s)] + tail
    case Arr(items) => if items == [] then [LBracket, RBracket] + tail else [LBracket] + ItemTokens(items, tail)
    case Obj(fields) => if fields == [] then [LBrace, RBrace] + tail else [LBrace] + FieldTokens(fields, tail)
  }

  function ItemTokens(items: seq<Json>, tail: seq<Token>): seq<Token>
    requires items != []
    decreases items, 1
  {
    ValueTokens(items[0], if |items| == 1 then [RBracket] + tail else [Comma] + ItemTokens(items[1..], tail))
  }

  function FieldTokens(fields: seq<Field>, tail: seq<Token>): seq<Token>
    requires fields != []
    decreases fields, 1
  {
    [TStr(fields[0].name), Colon] + ValueTokens(fields[0].value,
      if |fields| == 1 then [RBrace] + tail else [Comma] + FieldTokens(fields[1..], tail))
  }

  // ---------- from tokens back to the value ----------

  lemma ValueTokensStart(v: Json, tail: seq<Token>)
    ensures ValueTokens(v, tail) != [] && ValueTokens(v, tail)[0] !in {RBracket, RBrace, Comma, Colon}
  {
  }

  lemma {:induction false} ReadValueTokens(v: Json, tail: seq<Token>)
    ensures ReadValue(ValueTokens(v, tail)) == Done(v, tail)
    decreases v, 0
  {
    var t := ValueTokens(v, tail);
    match v
    case Arr(items) =>
      if items != [] {
        ReadItemTokens(items, tail);
        assert t[1..] == ItemTokens(items, tail);
        ItemTokensStart(items, tail);
      } else {
        assert t[2..] == tail;
      }
    case Obj(fields) =>
      if fields != [] {
        ReadFieldTokens(fields, tail);
        assert t[1..] == FieldTokens(fields, tail);
      } else {
        assert t[2..] == tail;
      }
    case _ =>
      assert t[1..] == tail;
  }

  lemma ItemTokensStart(items: seq<Json>, tail: seq<Token>)
    requires items != []
    ensures ItemTokens(items, tail) != [] && ItemTokens(items, tail)[0] != RBracket
  {
    ValueTokensStart(items[0], if |items| == 1 then [RBracket] + tail else [Comma] + ItemTokens(items[1..], tail));
  }

  lemma {:induction false} ReadItemTokens(items: seq<Json>, tail: seq<Token>)
    requires items != []
    ensures ReadItems(ItemTokens(items, tail)) == Done(items, tail)
    decreases items, 1
  {
    if |items| == 1 {
      var after := [RBracket] + tail;
      ReadValueTokens(items[0], after);
      assert after[1..] == tail && items == [items[0]];
    } else {
      var after := [Comma] + ItemTokens(items[1..], tail);
      ReadValueTokens(items[0], after);
      ReadItemTokens(items[1..], tail);
      assert after[1..] == ItemTokens(items[1..], tail) && items == [items[0]] + items[1..];
    }
  }

  lemma {:induction false} ReadFieldTokens(fields: seq<Field>, tail: seq<Token>)
    requires fields != []
    ensures ReadFields(FieldTokens(fields, tail)) == Done(fields, tail)
    decreases fields, 1
  {
    var t := FieldTokens(fields, tail);
    assert fields[0] == Field(fields[0].name, fields[0].value);
    if |fields| == 1 {
      var after := [RBrace] + tail;
      assert t[2..] == ValueTokens(fields[0].value, after);
      ReadValueTokens(fields[0].value, after);
      assert after[1..] == tail && fields == [fields[0]];
    } else {
      var after := [Comma] + FieldTokens(fields[1..], tail);
      assert t[2..] == ValueTokens(fields[0].value, after);
      ReadValueTokens(fields[0].value, after);
      ReadFieldTokens(fields[1..], tail);
      assert after[1..] == FieldTokens(fields[1..], tail) && fields == [fields[0]] + fields[1..];
    }
  }

  /** The reader accepts nothing else: whatever it reads as v are the tokens of v. */
  lemma {:induction false} ReadValueOnly(t: seq<Token>)
    requires ReadValue(t).Done?
    ensures t == ValueTokens(ReadValue(t).value, ReadValue(t).rest)
    decreases |t|, 0
  {
    assert t == [t[0]] + t[1..];
    match t[0]
    case LBracket =>
      if |t| > 1 && t[1] == RBracket { assert t == [LBracket, RBracket] + t[2..]; } else { ReadItemsOnly(t[1..]); }
    case LBrace =>
      if |t| > 1 && t[1] == RBrace { assert t == [LBrace, RBrace] + t[2..]; } else { ReadFieldsOnly(t[1..]); }
    case _ =>
  }

  lemma {:induction false} ReadItemsOnly(t: seq<Token>)
    requires ReadItems(t).Done?
    ensures ReadItems(t).value != [] && t == ItemTokens(ReadItems(t).value, ReadItems(t).rest)
    decreases |t|, 1
  {
    ReadValueOnly(t);
    var rest := ReadValue(t).rest;
    assert rest == [rest[0]] + rest[1..];
    if rest[0] == Comma {
      ReadItemsOnly(rest[1..]);
      var items := ReadItems(t).value;
      assert items[0] == ReadValue(t).value && items[1..] == ReadItems(rest[1..]).value;
    }
  }

  lemma {:induction false} ReadFieldsOnly(t: seq<Token>)
    requires ReadFields(t).Done?
    ensures ReadFields(t).value != [] && t == FieldTokens(ReadFields(t).value, ReadFields(t).rest)
    decreases |t|, 1
  {
    assert t == [t[0], t[1]] + t[2..];
    ReadValueOnly(t[2..]);
    var rest := ReadValue(t[2..]).rest;
    assert rest == [rest[0]] + rest[1..];
    if rest[0] == Comma {
      ReadFieldsOnly(rest[1..]);
      var fields := ReadFields(t).value;
      assert fields[0] == Field(t[0].s, ReadValue(t[2..]).value) && fields[1..] == ReadFields(rest[1..]).value;
    }
  }

  /** A text is read as v exactly when its tokens are the tokens of v: two texts of
      one value differ only in whitespace and in how characters are escaped. */
  lemma ParseExactly(s: string, v: Json)
    ensures Parse(s) == Some(v) <==> Tokens(s) == Some(ValueTokens(v, []))
  {
    if Parse(s) == Some(v) { ReadValueOnly(Tokens(s).value); }
    if Tokens(s) == Some(ValueTokens(v, [])) { ReadValueTokens(v, []); }
  }

  // ---------- from text to tokens ----------

  /** A number ends where the text goes on with something else. */
  predicate EndsNumber(s: string) {
    s == "" || (!Decimal.IsDigit(s[0]) && s[0] !in {'.', 'e', 'E'})
  }

  lemma {:induction false} ReadWrittenRun(ds: string, tail: string)
    requires Decimal.AllDigits(ds) && (tail == "" || !Decimal.IsDigit(tail[0]))
    ensures ReadRun(ds + tail) == (ds, tail)
  {
    if ds == "" {
      assert ds + tail == tail;
    } else {
      ReadWrittenRun(ds[1..], tail);
      assert (ds + tail)[1..] == ds[1..] + tail;
      assert [ds[0]] + ds[1..] == ds;
    }
  }

  lemma ReadWrittenInt(i: IntDigits, tail: string)
    requires tail == "" || !Decimal.IsDigit(tail[0])
    ensures ReadInt(i + tail) == Done(i, tail)
  {
    if i == "0" {
      assert (i + tail)[1..] == tail;
    } else {
      ReadWrittenRun(i, tail);
      assert (i + tail)[0] == i[0];
    }
  }

  lemma ReadWrittenDigits(ds: Digits, tail: string)
    requires tail == "" || !Decimal.IsDigit(tail[0])
    ensures ReadDigits(ds + tail) == Done(ds, tail)
  {
    ReadWrittenRun(ds, tail);
    assert (ds + tail)[0] == ds[0];
  }

  lemma ReadWrittenFraction(f: Option<Digits>, tail: string)
    requires tail == "" || (!Decimal.IsDigit(tail[0]) && tail[0] != '.')
    ensures ReadFraction(WriteFraction(f, tail)) == Done(f, tail)
  {
    if f.Some? {
      assert WriteFraction(f, tail)[1..] == f.value + tail;
      ReadWrittenDigits(f.value, tail);
    }
  }

  lemma ReadWrittenExponent(e: Option<Exponent>, tail: string)
    requires EndsNumber(tail)
    ensures ReadExponent(WriteExponent(e, tail)) == Done(e, tail)
  {
    if e.Some? {
      var ds := e.value.digits;
      var text := ds + tail;
      var t := WriteExponent(e, tail)[1..];
      assert text[0] == ds[0];
      assert t == (match e.value.sign case NoSign => "" case Plus => "+" case Minus => "-") + text;
      assert t[if e.value.sign == NoSign then 0 else 1..] == text;
      assert e.value.sign == NoSign ==> t == text;
      ReadWrittenDigits(ds, tail);
    }
  }

  lemma ReadWrittenNumber(n: Numeral, tail: string)
    requires EndsNumber(tail)
    ensures ReadNumber(WriteNumber(n, tail)) == Done(n, tail)
  {
    var exponent := WriteExponent(n.exponent, tail);
    var fraction := WriteFraction(n.fraction, exponent);
    ReadWrittenExponent(n.exponent, tail);
    ReadWrittenFraction(n.fraction, exponent);
    ReadWrittenInt(n.whole, fraction);
    var s := WriteNumber(n, tail);
    assert (n.whole + fraction)[0] == n.whole[0];
    if n.negative { assert s[1..] == n.whole + fraction; }
  }

  lemma ReadNumberToken(n: Numeral, tail: string)
    requires EndsNumber(tail)
    ensures var s := WriteNumber(n, tail); s != "" && !IsSpace(s[0]) && ReadToken(s) == Done(TNum(n), tail)
  {
    var s := WriteNumber(n, tail);
    ReadWrittenNumber(n, tail);
    assert s[0] == '-' || Decimal.IsDigit(s[0]);
    assert "null"[0] == 'n' && "true"[0] == 't' && "false"[0] == 'f';
  }

  /** A written character is read back as that character. */
  lemma ReadWrittenChar(c: char, tail: string)
    ensures var s := WriteChar(c, tail);
            && s != "" && s[0] != '"' && s[0] >= ' '
            && (if s[0] == '\\' then ReadEscape(s[1..]) else Done(s[0], s[1..])) == Done(c, tail)
  {
    var s := WriteChar(c, tail);
    if c == '"' || c == '\\' || c == 8 as char || c == '\t' || c == '\n' || c == 12 as char || c == '\r' {
      assert s[2..] == tail && s[1..][1..] == s[2..];
    } else if c < ' ' {
      assert s[1..][1..] == s[2..] && s[2..][4..] == tail;
      assert s[2] == '0' && s[3] == '0' && s[4] == Hex.DigitChar(c as int / 16) && s[5] == Hex.DigitChar(c as int % 16);
      assert Hex.DigitValue('0') == Some(0);
      assert Hex4(s[2..]) == Done(c as int, tail);
    } else {
      assert s[1..] == tail;
    }
  }

  lemma {:induction false} ReadWrittenString(s: string, tail: string)
    ensures ReadString(WriteStringBody(s, tail)) == Done(s, tail)
  {
    if s == "" {
      assert ("\"" + tail)[1..] == tail;
    } else {
      ReadWrittenString(s[1..], tail);
      ReadWrittenChar(s[0], WriteStringBody(s[1..], tail));
      assert [s[0]] + s[1..] == s;
    }
  }

  /** A text whose tokens are `ts`. */
  ghost predicate Lexes(s: string, ts: seq<Token>) { Tokens(s) == Some(ts) }

  lemma LexPunct(c: char, t: Token, tail: string, ts: seq<Token>)
    requires (c == '[' && t == LBracket) || (c == ']' && t == RBracket) || (c == '{' && t == LBrace)
          || (c == '}' && t == RBrace) || (c == ':' && t == Colon) || (c == ',' && t == Comma)
    requires Lexes(tail, ts)
    ensures Lexes([c] + tail, [t] + ts)
  {
    assert ([c] + tail)[1..] == tail;
  }

  lemma LexString(s: string, tail: string, ts: seq<Token>)
    requires Lexes(tail, ts)
    ensures Lexes(WriteString(s, tail), [TStr(s)] + ts)
  {
    ReadWrittenString(s, tail);
    assert WriteString(s, tail)[1..] == WriteStringBody(s, tail);
  }

  lemma {:induction false} LexSpaces(n: nat, tail: string, ts: seq<Token>)
    requires Lexes(tail, ts)
    ensures Lexes(WriteSpaces(n, tail), ts)
  {
    if n > 0 {
      LexSpaces(n - 1, tail, ts);
      assert WriteSpaces(n, tail)[1..] == WriteSpaces(n - 1, tail);
    }
  }

  lemma LexBreak(style: Style, depth: nat, tail: string, ts: seq<Token>)
    requires Lexes(tail, ts)
    ensures Lexes(WriteBreak(style, depth, tail), ts)
    ensures EndsNumber(tail) ==> EndsNumber(WriteBreak(style, depth, tail))
  {
    LexSpaces(2 * depth, tail, ts);
    if style == Pretty {
      assert WriteBreak(style, depth, tail)[1..] == WriteSpaces(2 * depth, tail);
    }
  }

  lemma LexLiteral(v: Json, style: Style, depth: nat, tail: string, ts: seq<Token>)
    requires v.Null? || v.Bool?
    requires Lexes(tail, ts)
    ensures Lexes(Write(v, style, depth, tail), ValueTokens(v, ts))
  {
    var s := Write(v, style, depth, tail);
    var word := if v.Null? then "null" else if v.b then "true" else "false";
    assert s == word + tail && s[|word|..] == tail && s[0] == word[0];
    if v.Bool? {
      assert !("null" <= s);
      if !v.b { assert !("true" <= s); }
    }
  }

  lemma {:induction false} LexValue(v: Json, style: Style, depth: nat, tail: string, ts: seq<Token>)
    requires EndsNumber(tail) && Lexes(tail, ts)
    ensures Lexes(Write(v, style, depth, tail), ValueTokens(v, ts))
    decreases v, 0
  {
    match v
    case Num(n) =>
      ReadNumberToken(n, tail);
    case Str(s) => LexString(s, tail, ts);
    case Arr(items) =>
      if items == [] {
        LexPunct(']', RBracket, tail, ts);
        LexPunct('[', LBracket, "]" + tail, [RBracket] + ts);
        assert "[]" + tail == ['['] + ("]" + tail);
        assert [LBracket] + ([RBracket] + ts) == [LBracket, RBracket] + ts;
      } else {
        LexItems(items, style, depth, tail, ts);
        LexPunct('[', LBracket, WriteItems(items, style, depth, tail), ItemTokens(items, ts));
      }
    case Obj(fields) =>
      if fields == [] {
        LexPunct('}', RBrace, tail, ts);
        LexPunct('{', LBrace, "}" + tail, [RBrace] + ts);
        assert "{}" + tail == ['{'] + ("}" + tail);
        assert [LBrace] + ([RBrace] + ts) == [LBrace, RBrace] + ts;
      } else {
        LexFields(fields, style, depth, tail, ts);
        LexPunct('{', LBrace, WriteFields(fields, style, depth, tail), FieldTokens(fields, ts));
      }
    case _ => LexLiteral(v, style, depth, tail, ts);
  }

  lemma {:induction false} LexItems(items: seq<Json>, style: Style, depth: nat, tail: string, ts: seq<Token>)
    requires items != [] && Lexes(tail, ts)
    ensures Lexes(WriteItems(items, style, depth, tail), ItemTokens(items, ts))
    decreases items, 1
  {
    var after, afterTokens;
    if |items| == 1 {
      LexPunct(']', RBracket, tail, ts);
      LexBreak(style, depth, "]" + tail, [RBracket] + ts);
      after, afterTokens := WriteBreak(style, depth, "]" + tail), [RBracket] + ts;
    } else {
      LexItems(items[1..], style, depth, tail, ts);
      LexPunct(',', Comma, WriteItems(items[1..], style, depth, tail), ItemTokens(items[1..], ts));
      after, afterTokens := "," + WriteItems(items[1..], style, depth, tail), [Comma] + ItemTokens(items[1..], ts);
    }
    LexValue(items[0], style, depth + 1, after, afterTokens);
    LexBreak(style, depth + 1, Write(items[0], style, depth + 1, after), ValueTokens(items[0], afterTokens));
  }

  lemma {:induction false} LexFields(fields: seq<Field>, style: Style, depth: nat, tail: string, ts: seq<Token>)
    requires fields != [] && Lexes(tail, ts)
    ensures Lexes(WriteFields(fields, style, depth, tail), FieldTokens(fields, ts))
    decreases fields, 1
  {
    var after, afterTokens;
    if |fields| == 1 {
      LexPunct('}', RBrace, tail, ts);
      LexBreak(style, depth, "}" + tail, [RBrace] + ts);
      after, afterTokens := WriteBreak(style, depth, "}" + tail), [RBrace] + ts;
    } else {
      LexFields(fields[1..], style, depth, tail, ts);
      LexPunct(',', Comma, WriteFields(fields[1..], style, depth, tail), FieldTokens(fields[1..], ts));
      after, afterTokens := "," + WriteFields(fields[1..], style, depth, tail), [Comma] + FieldTokens(fields[1..], ts);
    }
    LexValue(fields[0].value, style, depth + 1, after, afterTokens);
    LexMember(fields[0].name, style, depth, Write(fields[0].value, style, depth + 1, after),
      ValueTokens(fields[0].value, afterTokens));
  }

  /** A member name in front of the text of its value. */
  lemma LexMember(name: string, style: Style, depth: nat, value: string, ts: seq<Token>)
    requires Lexes(value, ts)
    ensures Lexes(WriteBreak(style, depth + 1,
                             WriteString(name, ":" + WriteSpaces(if style == Compact then 0 else 1, value))),
                  [TStr(name), Colon] + ts)
  {
    var gap := if style == Compact then 0 else 1;
    LexSpaces(gap, value, ts);
    LexPunct(':', Colon, WriteSpaces(gap, value), ts);
    LexString(name, ":" + WriteSpaces(gap, value), [Colon] + ts);
    assert [TStr(name)] + ([Colon] + ts) == [TStr(name), Colon] + ts;
    LexBreak(style, depth + 1, WriteString(name, ":" + WriteSpaces(gap, value)), [TStr(name), Colon] + ts);
  }

  /** Every value is read back from either of its texts. */
  lemma ParseOfPrint(v: Json, style: Style)
    ensures Parse(Print(v, style)) == Some(v)
  {
    LexValue(v, style, 0, "", []);
    ReadValueTokens(v, []);
  }
}
