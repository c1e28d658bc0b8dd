/** JSON text as RFC 8259 defines it and as serde_json writes it. Writing is
    given in both styles used by the program (compact and pretty); every write
    function takes the text that follows, `tail`, so the text of a value is
    `Write(v, style, 0, "")`. */
module Json {
  import opened Wrappers
  import Decimal
  import Hex

  /** A value read from the front of a text, and what follows it. */
  datatype Read<+T, +R> = Fail | Done(value: T, rest: R)

  // ---------- numbers (RFC 8259, section 6) ----------

  type Digits = s: string | s != "" && Decimal.AllDigits(s) witness "0"

  /** The integer part: one 0, or digits that do not start with 0. */
  type IntDigits = s: string | s != "" && Decimal.AllDigits(s) && (s[0] == '0' ==> s == "0") witness "0"

  datatype Sign = NoSign | Plus | Minus

  datatype Exponent = Exponent(upper: bool, sign: Sign, digits: Digits)

  /** A number as it is spelled; reading and writing keep the spelling. */
  datatype Numeral = Numeral(negative: bool, whole: IntDigits, fraction: Option<Digits>, exponent: Option<Exponent>)

  function WriteExponent(e: Option<Exponent>, tail: string): string {
    if e.None? then tail
    else
      (if e.value.upper then "E" else "e")
      + ((match e.value.sign case NoSign => "" case Plus => "+" case Minus => "-") + (e.value.digits + tail))
  }

  function WriteFraction(f: Option<Digits>, tail: string): string {
    if f.None? then tail else "." + (f.value + tail)
  }

  function WriteNumber(n: Numeral, tail: string): string {
    var unsigned := n.whole + WriteFraction(n.fraction, WriteExponent(n.exponent, tail));
    if n.negative then "-" + unsigned else unsigned
  }

  /** The longest run of digits at the front, possibly empty. */
  function ReadRun(s: string): (r: (string, string))
    ensures Decimal.AllDigits(r.0) && |r.0| + |r.1| == |s|
    ensures r.0 != "" ==> r.0[0] == s[0]
    ensures s != "" && Decimal.IsDigit(s[0]) ==> r.0 != ""
  {
    if s == "" || !Decimal.IsDigit(s[0]) then ("", s)
    else
      var (ds, rest) := ReadRun(s[1..]);
      ([s[0]] + ds, rest)
  }

  function ReadDigits(s: string): (r: Read<Digits, string>)
    ensures r.Done? ==> |r.rest| < |s|
  {
    if s == "" || !Decimal.IsDigit(s[0]) then Fail else Done(ReadRun(s).0, ReadRun(s).1)
  }

  function ReadInt(s: string): (r: Read<IntDigits, string>)
    ensures r.Done? ==> |r.rest| < |s|
  {
    if s == "" || !Decimal.IsDigit(s[0]) then Fail
    else if s[0] == '0' then Done("0", s[1..])
    else Done(ReadRun(s).0, ReadRun(s).1)
  }

  function ReadFraction(s: string): (r: Read<Option<Digits>, string>)
    ensures r.Done? ==> |r.rest| <= |s|
  {
    if s == "" || s[0] != '.' then Done(None, s)
    else
      match ReadDigits(s[1..])
      case Fail => Fail
      case Done(ds, rest) => Done(Some(ds), rest)
  }

  function ReadExponent(s: string): (r: Read<Option<Exponent>, string>)
    ensures r.Done? ==> |r.rest| <= |s|
  {
    if s == "" || (s[0] != 'e' && s[0] != 'E') then Done(None, s)
    else
      var t := s[1..];
      var sign := if t != "" && t[0] == '+' then Plus else if t != "" && t[0] == '-' then Minus else NoSign;
      match ReadDigits(if sign == NoSign then t else t[1..])
      case Fail => Fail
      case Done(ds, rest) => Done(Some(Exponent(s[0] == 'E', sign, ds)), rest)
  }

  function ReadNumber(s: string): (r: Read<Numeral, string>)
    ensures r.Done? ==> |r.rest| < |s|
  {
    var negative := s != "" && s[0] == '-';
    match ReadInt(if negative then s[1..] else s)
    case Fail => Fail
    case Done(i, rest) =>
      match ReadFraction(rest)
      case Fail => Fail
      case Done(f, rest') =>
        match ReadExponent(rest')
        case Fail => Fail
        case Done(e, rest'') => Done(Numeral(negative, i, f, e), rest'')
  }

  // ---------- values ----------

  datatype Json =
    | Null
    | Bool(b: bool)
    | Num(n: Numeral)
    | Str(s: string)
    | Arr(items: seq<Json>)
    | Obj(fields: seq<Field>)

  datatype Field = Field(name: string, value: Json)

  datatype Style = Compact | Pretty

  // ---------- writing ----------

  /** The escapes serde_json emits; every other character stands for itself. */
  function WriteChar(c: char, tail: string): string {
    if c == '"' then "\\\"" + tail
    else if c == '\\' then "\\\\" + tail
    else if c == 8 as char then "\\b" + tail
    else if c == '\t' then "\\t" + tail
    else if c == '\n' then "\\n" + tail
    else if c == 12 as char then "\\f" + tail
    else if c == '\r' then "\\r" + tail
    else if c < ' ' then "\\u00" + [Hex.DigitChar(c as int / 16), Hex.DigitChar(c as int % 16)] + tail
    else [c] + tail
  }

  /** The characters of s and the closing quote. */
  function WriteStringBody(s: string, tail: string): string {
    if s == "" then "\"" + tail else WriteChar(s[0], WriteStringBody(s[1..], tail))
  }

  function WriteString(s: string, tail: string): string { "\"" + WriteStringBody(s, tail) }

  function WriteSpaces(n: nat, tail: string): string {
    if n == 0 then tail else " " + WriteSpaces(n - 1, tail)
  }

  /** In the pretty style every element starts a line, indented by two. */
  function WriteBreak(style: Style, depth: nat, tail: string): string {
    if style == Compact then tail else "\n" + WriteSpaces(2 * depth, tail)
  }

  function Write(v: Json, style: Style, depth: nat, tail: string): string
    decreases v, 0
  {
    match v
    case Null => "null" + tail
    case Bool(b) => if b then "true" + tail else "false" + tail
    case Num(n) => WriteNumber(n, tail)
    case Str(s) => WriteString(s, tail)
    case Arr(items) =>
      if items == [] then "[]" + tail else "[" + WriteItems(items, style, depth, tail)
    case Obj(fields) =>
      if fields == [] then "{}" + tail else "{" + WriteFields(fields, style, depth, tail)
  }

  function WriteItems(items: seq<Json>, style: Style, depth: nat, tail: string): string
    requires items != []
    decreases items, 1
  {
    WriteBreak(style, depth + 1, Write(items[0], style, depth + 1,
      if |items| == 1 then WriteBreak(style, depth, "]" + tail)
      else "," + WriteItems(items[1..], style, depth, tail)))
  }

  function WriteFields(fields: seq<Field>, style: Style, depth: nat, tail: string): string
    requires fields != []
    decreases fields, 1
  {
    var after := if |fields| == 1 then WriteBreak(style, depth, "}" + tail)
                 else "," + WriteFields(fields[1..], style, depth, tail);
    WriteBreak(style, depth + 1, WriteString(fields[0].name,
      ":" + WriteSpaces(if style == Compact then 0 else 1, Write(fields[0].value, style, depth + 1, after))))
  }

  /** `serde_json::to_vec` and `serde_json::to_vec_pretty`, as text. */
  function Print(v: Json, style: Style): string { Write(v, style, 0, "") }

  // ---------- reading: tokens ----------

  datatype Token =
    | LBracket | RBracket | LBrace | RBrace | Colon | Comma
    | TNull | TBool(b: bool)
    | TNum(n: Numeral)
    | TStr(s: string)

  function Hex4(s: string): (r: Read<nat, string>)
    ensures r.Done? ==> r.value < 0x1_0000 && |r.rest| + 4 == |s|
  {
    if |s| < 4 then Fail
    else
      match (Hex.DigitValue(s[0]), Hex.DigitValue(s[1]), Hex.DigitValue(s[2]), Hex.DigitValue(s[3]))
      case (Some(a), Some(b), Some(c), Some(d)) => Done(4096 * a + 256 * b + 16 * c + d, s[4..])
      case _ => Fail
  }

  /** The character after \u: a scalar value, or a high surrogate that a second
      \u escape with a low surrogate completes. A lone surrogate is an error. */
  function ReadUnicode(s: string): (r: Read<char, string>)
    ensures r.Done? ==> |r.rest| < |s|
  {
    match Hex4(s)
    case Fail => Fail
    case Done(hi, rest) =>
      if hi < 0xD800 || 0xE000 <= hi then Done(hi as char, rest)
      else if 0xDC00 <= hi || !("\\u" <= rest) then Fail
      else
        match Hex4(rest[2..])
        case Fail => Fail
        case Done(lo, rest') =>
          if 0xDC00 <= lo < 0xE000
          then Done((0x1_0000 + (hi - 0xD800) * 1024 + (lo - 0xDC00)) as char, rest')
          else Fail
  }

  /** The character an escape sequence denotes, read after the backslash. */
  function ReadEscape(s: string): (r: Read<char, string>)
    ensures r.Done? ==> |r.rest| < |s|
  {
    if s == "" then Fail
    else if s[0] == '"' || s[0] == '\\' || s[0] == '/' then Done(s[0], s[1..])
    else if s[0] == 'b' then Done(8 as char, s[1..])
    else if s[0] == 'f' then Done(12 as char, s[1..])
    else if s[0] == 'n' then Done('\n', s[1..])
    else if s[0] == 'r' then Done('\r', s[1..])
    else if s[0] == 't' then Done('\t', s[1..])
    else if s[0] == 'u' then ReadUnicode(s[1..])
    else Fail
  }

  /** The characters up to the closing quote; control characters must be escaped
      (RFC 8259, section 7). */
  function ReadString(s: string): (r: Read<string, string>)
    ensures r.Done? ==> |r.rest| < |s|
    decreases |s|
  {
    if s == "" then Fail
    else if s[0] == '"' then Done("", s[1..])
    else if s[0] < ' ' then Fail
    else
      match (if s[0] == '\\' then ReadEscape(s[1..]) else Done(s[0], s[1..]))
      case Fail => Fail
      case Done(c, rest) =>
        match ReadString(rest)
        case Fail => Fail
        case Done(cs, rest') => Done([c] + cs, rest')
  }

  function ReadToken(s: string): (r: Read<Token, string>)
    requires s != ""
    ensures r.Done? ==> |r.rest| < |s|
  {
    if s[0] == '[' then Done(LBracket, s[1..])
    else if s[0] == ']' then Done(RBracket, s[1..])
    else if s[0] == '{' then Done(LBrace, s[1..])
    else if s[0] == '}' then Done(RBrace, s[1..])
    else if s[0] == ':' then Done(Colon, s[1..])
    else if s[0] == ',' then Done(Comma, s[1..])
    else if s[0] == '"' then
      match ReadString(s[1..])
      case Fail => Fail
      case Done(v, rest) => Done(TStr(v), rest)
    else if "null" <= s then Done(TNull, s[4..])
    else if "true" <= s then Done(TBool(true), s[4..])
    else if "false" <= s then Done(TBool(false), s[5..])
    else
      match ReadNumber(s)
      case Fail => Fail
      case Done(n, rest) => Done(TNum(n), rest)
  }

  /** Insignificant whitespace (RFC 8259, section 2). */
  predicate IsSpace(c: char) { c == ' ' || c == '\t' || c == '\n' || c == '\r' }

  function Tokens(s: string): Option<seq<Token>>
    decreases |s|
  {
    if s == "" then Some([])
    else if IsSpace(s[0]) then Tokens(s[1..])
    else
      match ReadToken(s)
      case Fail => None
      case Done(t, rest) =>
        match Tokens(rest)
        case None => None
        case Some(ts) => Some([t] + ts)
  }

  // ---------- reading: values ----------

  function ReadValue(t: seq<Token>): (r: Read<Json, seq<Token>>)
    ensures r.Done? ==> |r.rest| < |t|
    decreases |t|, 0
  {
    if t == [] then Fail
    else
      match t[0]
      case TNull => Done(Null, t[1..])
      case TBool(b) => Done(Bool(b), t[1..])
      case TNum(n) => Done(Num(n), t[1..])
      case TStr(s) => Done(Str(s), t[1..])
      case LBracket =>
        if |t| > 1 && t[1] == RBracket then Done(Arr([]), t[2..])
        else
          (match ReadItems(t[1..])
           case Fail => Fail
           case Done(items, rest) => Done(Arr(items), rest))
      case LBrace =>
        if |t| > 1 && t[1] == RBrace then Done(Obj([]), t[2..])
        else
          (match ReadFields(t[1..])
           case Fail => Fail
           case Done(fields, rest) => Done(Obj(fields), rest))
      case _ => Fail
  }

  function ReadItems(t: seq<Token>): (r: Read<seq<Json>, seq<Token>>)
    ensures r.Done? ==> |r.rest| < |t|
    decreases |t|, 1
  {
    match ReadValue(t)
    case Fail => Fail
    case Done(v, rest) =>
      if rest == [] then Fail
      else if rest[0] == RBracket then Done([v], rest[1..])
      else if rest[0] == Comma then
        match ReadItems(rest[1..])
        case Fail => Fail
        case Done(vs, rest') => Done([v] + vs, rest')
      else Fail
  }

  function ReadFields(t: seq<Token>): (r: Read<seq<Field>, seq<Token>>)
    ensures r.Done? ==> |r.rest| < |t|
    decreases |t|, 1
  {
    if |t| < 2 || !t[0].TStr? || t[1] != Colon then Fail
    else
      match ReadValue(t[2..])
      case Fail => Fail
      case Done(v, rest) =>
        if rest == [] then Fail
        else if rest[0] == RBrace then Done([Field(t[0].s, v)], rest[1..])
        else if rest[0] == Comma then
          match ReadFields(rest[1..])
          case Fail => Fail
          case Done(fs, rest') => Done([Field(t[0].s, v)] + fs, rest')
        else Fail
  }

  /** A text is one value with nothing after it but whitespace. */
  function Parse(s: string): Option<Json> {
    match Tokens(s)
    case None => None
    case Some(t) =>
      match ReadValue(t)
      case Fail => None
      case Done(v, rest) => if rest == [] then Some(v) else None
  }

  // ---------- numbers as u64 ----------

  const U64: nat := 0x1_0000_0000_0000_0000

  /** An unsigned number is written in plain decimal. */
  function Number(n: nat): Json { Num(Numeral(false, Decimal.Print(n), None, None)) }

  /** Only a plain integer in range is read as a u64: no sign, fraction or exponent. */
  function AsU64(v: Json): (n: Option<nat>)
    ensures n.Some? ==> n.value < U64
  {
    if v.Num? && !v.n.negative && v.n.fraction.None? && v.n.exponent.None? && Decimal.Value(v.n.whole) < U64
    then Some(Decimal.Value(v.n.whole)) else None
  }

  lemma U64RoundTrip(n: nat)
    ensures AsU64(Number(n)) == if n < U64 then Some(n) else None
  {
    Decimal.ValueOfPrint(n);
  }

  /** Nothing but the plain decimal form of a u64 is read as one. */
  lemma AsU64Exactly(v: Json, n: nat)
    ensures AsU64(v) == Some(n) <==> v == Number(n) && n < U64
  {
    U64RoundTrip(n);
    if AsU64(v) == Some(n) { Decimal.PrintOfValue(v.n.whole); }
  }

  // ---------- member lookup ----------

  /** How a derived struct sees its member `name`: unknown members are ignored,
      a repeated one is an error. */
  datatype Lookup = Missing | Found(value: Json) | Repeated

  function Member(fields: seq<Field>, name: string): Lookup {
    if fields == [] then Missing
    else if fields[0].name != name then Member(fields[1..], name)
    else if Member(fields[1..], name) == Missing then Found(fields[0].value)
    else Repeated
  }

  /** How `Value::get` sees the member `name`: the last one wins. */
  function Get(v: Json, name: string): Option<Json> {
    if v.Obj? then GetLast(v.fields, name) else None
  }

  function GetLast(fields: seq<Field>, name: string): Option<Json> {
    if fields == [] then None
    else
      match GetLast(fields[1..], name)
      case Some(v) => Some(v)
      case None => if fields[0].name == name then Some(fields[0].value) else None
  }

  function AsStr(v: Json): Option<string> { if v.Str? then Some(v.s) else None }

  function StrMember(fields: seq<Field>, name: string): Option<string> {
    var m := Member(fields, name);
    if m.Found? then AsStr(m.value) else None
  }

  function U64Member(fields: seq<Field>, name: string): Option<nat> {
    var m := Member(fields, name);
    if m.Found? then AsU64(m.value) else None
  }

  /** All strings of an array, or None when some element is not a string. */
  function AsStrings(items: seq<Json>): Option<seq<string>> {
    if items == [] then Some([])
    else
      match (items[0], AsStrings(items[1..]))
      case (Str(s), Some(rest)) => Some([s] + rest)
      case _ => None
  }

  function Strings(ss: seq<string>): (items: seq<Json>)
    ensures |items| == |ss|
  {
    if ss == [] then [] else [Str(ss[0])] + Strings(ss[1..])
  }

  lemma {:induction false} StringsRoundTrip(ss: seq<string>)
    ensures AsStrings(Strings(ss)) == Some(ss)
  {
    if ss != [] {
      StringsRoundTrip(ss[1..]);
      assert Strings(ss)[1..] == Strings(ss[1..]);
      assert [ss[0]] + ss[1..] == ss;
    }
  }

  /** Exactly the lists of strings are read as such. */
  lemma {:induction false} AsStringsExactly(items: seq<Json>, ss: seq<string>)
    ensures AsStrings(items) == Some(ss) <==> items == Strings(ss)
    decreases |items|
  {
    StringsRoundTrip(ss);
    if items != [] && AsStrings(items) == Some(ss) {
      AsStringsExactly(items[1..], ss[1..]);
      assert items == [items[0]] + items[1..];
    }
  }

  /** A member is found by its name when that occurs once; twice is an error. */
  lemma {:induction false} MemberExactly(fields: seq<Field>, name: string)
    ensures Member(fields, name) == Missing <==> forall i :: 0 <= i < |fields| ==> fields[i].name != name
    ensures Member(fields, name) == Repeated <==>
              exists i, j :: 0 <= i < j < |fields| && fields[i].name == name && fields[j].name == name
  {
    if fields != [] {
      var rest := fields[1..];
      MemberExactly(rest, name);
      assert forall i :: 0 <= i < |rest| ==> rest[i] == fields[i + 1];
      if i :| 0 <= i < |rest| && rest[i].name == name && fields[0].name == name {
        assert fields[i + 1].name == name;
      }
      if i, j :| 0 <= i < j < |rest| && rest[i].name == name && rest[j].name == name {
        assert fields[i + 1].name == name && fields[j + 1].name == name;
      }
      if i, j :| 0 <= i < j < |fields| && fields[i].name == name && fields[j].name == name {
        assert rest[j - 1].name == name;
        if i > 0 { assert rest[i - 1].name == name; }
      }
    }
  }

  /** `Value::get` takes the last member of the name. */
  lemma {:induction false} GetLastExactly(fields: seq<Field>, i: nat)
    requires i < |fields| && forall k :: i < k < |fields| ==> fields[k].name != fields[i].name
    ensures GetLast(fields, fields[i].name) == Some(fields[i].value)
  {
    if i == 0 {
      AbsentMember(fields[1..], fields[0].name);
    } else {
      GetLastExactly(fields[1..], i - 1);
    }
  }

  lemma {:induction false} AbsentMember(fields: seq<Field>, name: string)
    requires forall k :: 0 <= k < |fields| ==> fields[k].name != name
    ensures Member(fields, name) == Missing && GetLast(fields, name) == None
  {
    if fields != [] { AbsentMember(fields[1..], name); }
  }

  /** A member whose name occurs once is found, whatever surrounds it. */
  lemma {:induction false} OnlyMember(fields: seq<Field>, i: nat)
    requires i < |fields|
    requires forall k :: 0 <= k < |fields| && k != i ==> fields[k].name != fields[i].name
    ensures Member(fields, fields[i].name) == Found(fields[i].value)
    ensures GetLast(fields, fields[i].name) == Some(fields[i].value)
  {
    if i == 0 {
      AbsentMember(fields[1..], fields[0].name);
    } else {
      OnlyMember(fields[1..], i - 1);
    }
  }
}
