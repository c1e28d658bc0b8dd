/** The text of what is written, character for character, without reference to the
    writer: every piece of text is given together with what follows it. */
module WireText {
  import opened Wrappers
  import opened Json
  import Decimal
  import Hex

  // ---------- strings ----------

  const HEX := "0123456789abcdef"

  /** How RFC 8259 (section 7) lets a character be written, and how serde_json
      chooses: a short escape if there is one, \u00xx for other control characters,
      and everything else as it is. */
  ghost function Escaped(c: char): string {
    match c as int
    case 8 => "\\b"
    case 9 => "\\t"
    case 10 => "\\n"
    case 12 => "\\f"
    case 13 => "\\r"
    case 34 => "\\\""
    case 92 => "\\\\"
    case n => if n < 32 then ['\\', 'u', '0', '0', HEX[n / 16], HEX[n % 16]] else [c]
  }

  ghost function EscapedAll(s: string): string {
    if s == "" then "" else EscapedAll(s[..|s| - 1]) + Escaped(s[|s| - 1])
  }

  ghost function Quoted(s: string): string { "\"" + EscapedAll(s) + "\"" }

  lemma {:induction false} EscapedFront(c: char, s: string)
    ensures EscapedAll([c] + s) == Escaped(c) + EscapedAll(s)
  {
    if s == "" {
      assert ([c] + s)[..0] == "";
    } else {
      var n := |s| - 1;
      assert ([c] + s)[..n + 1] == [c] + s[..n];
      EscapedFront(c, s[..n]);
      Glue(Escaped(c), EscapedAll(s[..n]), Escaped(s[n]));
      assert ([c] + s)[n + 1] == s[n];
    }
  }

  lemma WrittenChar(c: char, tail: string)
    ensures WriteChar(c, tail) == Escaped(c) + tail
  {
  }

  lemma {:induction false} WrittenBody(s: string, tail: string)
    ensures WriteStringBody(s, tail) == EscapedAll(s) + ("\"" + tail)
  {
    if s != "" {
      WrittenBody(s[1..], tail);
      WrittenChar(s[0], WriteStringBody(s[1..], tail));
      assert s == [s[0]] + s[1..];
      EscapedFront(s[0], s[1..]);
      Glue(Escaped(s[0]), EscapedAll(s[1..]), "\"" + tail);
    }
  }

  /** A string is written as its quoted text. */
  lemma WrittenString(s: string, tail: string)
    ensures WriteString(s, tail) == Quoted(s) + tail
  {
    WrittenBody(s, tail);
    Glue("\"", EscapedAll(s), "\"" + tail);
    Glue("\"" + EscapedAll(s), "\"", tail);
  }

  /** Nothing in s has to be escaped. */
  ghost predicate Plain(s: string) { forall i :: 0 <= i < |s| ==> s[i] >= ' ' && s[i] != '"' && s[i] != '\\' }

  lemma {:induction false} PlainText(s: string)
    requires Plain(s)
    ensures EscapedAll(s) == s
  {
    if s != "" {
      PlainText(s[..|s| - 1]);
      assert s == s[..|s| - 1] + [s[|s| - 1]];
    }
  }

  // ---------- values ----------

  /** Whatever follows, v is written as this text. */
  ghost predicate IsText(v: Json, style: Style, depth: nat, text: string) {
    forall tail: string :: Write(v, style, depth, tail) == text + tail
  }

  lemma StringText(s: string, style: Style, depth: nat)
    ensures IsText(Str(s), style, depth, Quoted(s))
  {
    forall tail: string ensures Write(Str(s), style, depth, tail) == Quoted(s) + tail { WrittenString(s, tail); }
  }

  lemma NumberText(n: nat, style: Style, depth: nat)
    ensures IsText(Number(n), style, depth, Decimal.Print(n))
  {
  }

  ghost function Spaces(n: nat): string { if n == 0 then "" else " " + Spaces(n - 1) }

  /** Where an element starts: right here in compact style; on a line of its own,
      indented by two for every level, in pretty style. */
  ghost function Line(style: Style, depth: nat): string {
    if style == Compact then "" else "\n" + Spaces(2 * depth)
  }

  /** A colon, and a space after it in pretty style only. */
  ghost function Colon(style: Style): string { if style == Compact then ":" else ": " }

  /** The members of an object, each a name and the text of its value. */
  ghost function MembersText(ms: seq<(string, string)>, style: Style, depth: nat): string
    requires ms != []
  {
    var one := Line(style, depth + 1) + ("\"" + ms[0].0 + "\"" + Colon(style) + ms[0].1);
    if |ms| == 1 then one else one + "," + MembersText(ms[1..], style, depth)
  }

  ghost function ObjectOf(ms: seq<(string, string)>, style: Style, depth: nat): string {
    if ms == [] then "{}" else "{" + MembersText(ms, style, depth) + (Line(style, depth) + "}")
  }

  /** The elements of a list of strings. */
  ghost function StringsText(ss: seq<string>, style: Style, depth: nat): string
    requires ss != []
  {
    var one := Line(style, depth + 1) + Quoted(ss[0]);
    if |ss| == 1 then one else one + "," + StringsText(ss[1..], style, depth)
  }

  ghost function ListOf(ss: seq<string>, style: Style, depth: nat): string {
    if ss == [] then "[]" else "[" + StringsText(ss, style, depth) + (Line(style, depth) + "]")
  }

  /** An object starts with its first member. */
  lemma ObjectBegins(ms: seq<(string, string)>, style: Style, depth: nat)
    requires ms != []
    ensures "{" + (Line(style, depth + 1) + ("\"" + ms[0].0 + "\"" + Colon(style) + ms[0].1))
         <= ObjectOf(ms, style, depth)
  {
  }

  // ---------- the writer agrees ----------

  lemma {:induction false} WrittenSpaces(n: nat, tail: string)
    ensures WriteSpaces(n, tail) == Spaces(n) + tail
  {
    if n > 0 { WrittenSpaces(n - 1, tail); }
  }

  lemma WrittenLine(style: Style, depth: nat, text: string, tail: string)
    ensures WriteBreak(style, depth, text + tail) == (Line(style, depth) + text) + tail
  {
    WrittenSpaces(2 * depth, text + tail);
    if style == Pretty {
      Glue("\n", Spaces(2 * depth), text + tail);
      Glue("\n" + Spaces(2 * depth), text, tail);
    }
  }

  lemma WrittenColon(style: Style, text: string)
    ensures ":" + WriteSpaces(if style == Compact then 0 else 1, text) == Colon(style) + text
  {
    assert WriteSpaces(0, text) == text;
    if style == Pretty { assert ":" + " " == ": "; }
  }

  lemma WrittenName(style: Style, name: string, value: string, tail: string)
    requires Plain(name)
    ensures WriteString(name, ":" + WriteSpaces(if style == Compact then 0 else 1, value + tail))
         == ("\"" + name + "\"" + Colon(style) + value) + tail
  {
    var colon, quoted := Colon(style), "\"" + name + "\"";
    WrittenColon(style, value + tail);
    WrittenString(name, colon + (value + tail));
    PlainText(name);
    Glue(colon, value, tail);
    Glue(quoted, colon + value, tail);
    Glue(quoted, colon, value);
  }

  /** Member by member, `ms` says how the fields are written. */
  ghost predicate AreTexts(fields: seq<Field>, ms: seq<(string, string)>, style: Style, depth: nat) {
    && |fields| == |ms|
    && forall i :: 0 <= i < |fields| ==>
         fields[i].name == ms[i].0 && Plain(ms[i].0) && IsText(fields[i].value, style, depth, ms[i].1)
  }

  lemma {:induction false} WrittenMembers(fields: seq<Field>, ms: seq<(string, string)>, style: Style, depth: nat,
                                          tail: string)
    requires fields != [] && AreTexts(fields, ms, style, depth + 1)
    ensures WriteFields(fields, style, depth, tail)
         == MembersText(ms, style, depth) + ((Line(style, depth) + "}") + tail)
    decreases |fields|
  {
    var end := (Line(style, depth) + "}") + tail;
    var member := "\"" + ms[0].0 + "\"" + Colon(style) + ms[0].1;
    if |fields| == 1 {
      WrittenLine(style, depth, "}", tail);
      OneMember(fields[0], ms[0], style, depth, end);
    } else {
      var rest := MembersText(ms[1..], style, depth);
      WrittenMembers(fields[1..], ms[1..], style, depth, tail);
      OneMember(fields[0], ms[0], style, depth, "," + (rest + end));
      Glue(",", rest, end);
      Glue(Line(style, depth + 1) + member, "," + rest, end);
      Glue(Line(style, depth + 1) + member, ",", rest);
    }
  }

  lemma OneMember(field: Field, m: (string, string), style: Style, depth: nat, tail: string)
    requires field.name == m.0 && Plain(m.0) && IsText(field.value, style, depth + 1, m.1)
    ensures WriteBreak(style, depth + 1, WriteString(field.name,
              ":" + WriteSpaces(if style == Compact then 0 else 1, Write(field.value, style, depth + 1, tail))))
         == (Line(style, depth + 1) + ("\"" + m.0 + "\"" + Colon(style) + m.1)) + tail
  {
    WrittenName(style, m.0, m.1, tail);
    WrittenLine(style, depth + 1, "\"" + m.0 + "\"" + Colon(style) + m.1, tail);
  }

  /** An object is written member by member, in order. */
  lemma ObjectText(fields: seq<Field>, ms: seq<(string, string)>, style: Style, depth: nat)
    requires AreTexts(fields, ms, style, depth + 1)
    ensures IsText(Obj(fields), style, depth, ObjectOf(ms, style, depth))
  {
    forall tail: string ensures Write(Obj(fields), style, depth, tail) == ObjectOf(ms, style, depth) + tail {
      if fields != [] {
        var end := Line(style, depth) + "}";
        WrittenMembers(fields, ms, style, depth, tail);
        Glue("{", MembersText(ms, style, depth), end + tail);
        Glue("{" + MembersText(ms, style, depth), end, tail);
      }
    }
  }

  lemma {:induction false} WrittenStrings(ss: seq<string>, style: Style, depth: nat, tail: string)
    requires ss != []
    ensures Strings(ss) != []
    ensures WriteItems(Strings(ss), style, depth, tail)
         == StringsText(ss, style, depth) + ((Line(style, depth) + "]") + tail)
  {
    var items := Strings(ss);
    assert items[0] == Str(ss[0]) && items[1..] == Strings(ss[1..]);
    var end := (Line(style, depth) + "]") + tail;
    var one := Line(style, depth + 1) + Quoted(ss[0]);
    if |ss| == 1 {
      WrittenLine(style, depth, "]", tail);
      WrittenString(ss[0], end);
      WrittenLine(style, depth + 1, Quoted(ss[0]), end);
    } else {
      var rest := StringsText(ss[1..], style, depth);
      WrittenStrings(ss[1..], style, depth, tail);
      WrittenString(ss[0], "," + (rest + end));
      WrittenLine(style, depth + 1, Quoted(ss[0]), "," + (rest + end));
      Glue(",", rest, end);
      Glue(one, "," + rest, end);
      Glue(one, ",", rest);
    }
  }

  lemma ListText(ss: seq<string>, style: Style, depth: nat)
    ensures IsText(Arr(Strings(ss)), style, depth, ListOf(ss, style, depth))
  {
    forall tail: string ensures Write(Arr(Strings(ss)), style, depth, tail) == ListOf(ss, style, depth) + tail {
      if ss != [] {
        var end := Line(style, depth) + "]";
        WrittenStrings(ss, style, depth, tail);
        Glue("[", StringsText(ss, style, depth), end + tail);
        Glue("[" + StringsText(ss, style, depth), end, tail);
      }
    }
  }

  // ---------- values and their texts ----------

  /** A value as the program puts it together: a string, a number, a list of strings,
      nothing, or an object with members in this order. */
  datatype Part = S(s: string) | N(n: nat) | L(ss: seq<string>) | Absent | O(ms: seq<MemberPart>)

  datatype MemberPart = M(name: string, part: Part)

  ghost function ValueOf(p: Part): Json
    decreases p, 0
  {
    match p
    case S(s) => Str(s)
    case N(n) => Number(n)
    case L(ss) => Arr(Strings(ss))
    case Absent => Null
    case O(ps) => Obj(FieldsOf(ps))
  }

  ghost function FieldsOf(ps: seq<MemberPart>): (fields: seq<Field>)
    ensures |fields| == |ps|
    ensures forall i :: 0 <= i < |ps| ==> fields[i] == Field(ps[i].name, ValueOf(ps[i].part))
    decreases ps, 1
  {
    seq(|ps|, i requires 0 <= i < |ps| => Field(ps[i].name, ValueOf(ps[i].part)))
  }

  ghost function TextOf(p: Part, style: Style, depth: nat): string
    decreases p, 0
  {
    match p
    case S(s) => Quoted(s)
    case N(n) => Decimal.Print(n)
    case L(ss) => ListOf(ss, style, depth)
    case Absent => "null"
    case O(ps) => ObjectOf(TextsOf(ps, style, depth + 1), style, depth)
  }

  ghost function TextsOf(ps: seq<MemberPart>, style: Style, depth: nat): (ms: seq<(string, string)>)
    ensures |ms| == |ps|
    ensures forall i :: 0 <= i < |ps| ==> ms[i] == (ps[i].name, TextOf(ps[i].part, style, depth))
    decreases ps, 1
  {
    seq(|ps|, i requires 0 <= i < |ps| => (ps[i].name, TextOf(ps[i].part, style, depth)))
  }

  /** No name of a member needs an escape. */
  ghost predicate PlainNames(p: Part) {
    p.O? ==> forall i :: 0 <= i < |p.ms| ==> Plain(p.ms[i].name) && PlainNames(p.ms[i].part)
  }

  /** Every value is written as its text. */
  lemma {:induction false} PartText(p: Part, style: Style, depth: nat)
    requires PlainNames(p)
    ensures IsText(ValueOf(p), style, depth, TextOf(p, style, depth))
  {
    match p
    case S(s) => StringText(s, style, depth);
    case N(n) => NumberText(n, style, depth);
    case L(ss) => ListText(ss, style, depth);
    case Absent =>
    case O(ps) =>
      var fields, ms := FieldsOf(ps), TextsOf(ps, style, depth + 1);
      forall i | 0 <= i < |ps| ensures IsText(fields[i].value, style, depth + 1, ms[i].1) {
        PartText(ps[i].part, style, depth + 1);
      }
      ObjectText(fields, ms, style, depth);
  }

  lemma PrintedPart(v: Json, p: Part, style: Style)
    requires v == ValueOf(p) && PlainNames(p)
    ensures Print(v, style) == TextOf(p, style, 0)
  {
    PartText(p, style, 0);
    assert Write(v, style, 0, "") == TextOf(p, style, 0) + "";
  }
}
