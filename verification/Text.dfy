/** Decimal numerals, as `format!("{}", n)` and serde_json print them. */
module Decimal {

  predicate IsDigit(c: char) { '0' <= c <= '9' }

  predicate AllDigits(s: string) { forall i :: 0 <= i < |s| ==> IsDigit(s[i]) }

  function DigitChar(d: nat): (c: char)
    requires d < 10
    ensures IsDigit(c) && DigitValue(c) == d
  {
    (d + 48) as char
  }

  function DigitValue(c: char): (d: nat)
    requires IsDigit(c)
    ensures d < 10
  {
    c as int - 48
  }

  function Print(n: nat): (s: string)
    ensures |s| > 0 && AllDigits(s)
    ensures s[0] == '0' ==> n == 0 && s == "0"
  {
    if n < 10 then [DigitChar(n)] else Print(n / 10) + [DigitChar(n % 10)]
  }

  /** The number a string of digits denotes. */
  function Value(s: string): (n: nat)
    requires AllDigits(s)
  {
    if s == "" then 0 else 10 * Value(s[..|s| - 1]) + DigitValue(s[|s| - 1])
  }

  lemma {:induction false} ValueOfPrint(n: nat)
    ensures Value(Print(n)) == n
  {
    if n >= 10 {
      ValueOfPrint(n / 10);
      assert Print(n)[..|Print(n)| - 1] == Print(n / 10);
    } else {
      assert Print(n)[..0] == "";
    }
  }

  /** A number without leading zeros is what is printed for its value. */
  lemma {:induction false} PrintOfValue(s: string)
    requires s != "" && AllDigits(s) && (s[0] == '0' ==> s == "0")
    ensures Print(Value(s)) == s
    ensures s != "0" ==> Value(s) > 0
  {
    var front, last := s[..|s| - 1], s[|s| - 1];
    if front == "" {
      assert s == [last] && Value(front) == 0;
      OneDigit(last);
    } else {
      assert front[0] == s[0];
      PrintOfValue(front);
      LastDigit(Value(front), DigitValue(last));
      OneDigit(last);
      assert Print(Value(s)) == Print(Value(front)) + [DigitChar(DigitValue(last))];
      assert s == front + [last];
    }
  }

  lemma OneDigit(c: char)
    requires IsDigit(c)
    ensures DigitChar(DigitValue(c)) == c && (c != '0' ==> DigitValue(c) > 0)
  {
  }

  lemma LastDigit(n: nat, d: nat)
    requires d < 10
    ensures (10 * n + d) / 10 == n && (10 * n + d) % 10 == d
  {
  }

  lemma PrintInjective(m: nat, n: nat)
    requires Print(m) == Print(n)
    ensures m == n
  {
    ValueOfPrint(m);
    ValueOfPrint(n);
  }
}

/** Bytes, and the hexadecimal text of `hex::encode` and `hex::decode`. */
module Hex {
  import opened Wrappers

  type byte = x: int | 0 <= x < 256

  datatype HexError = OddLength | InvalidDigit

  function DigitChar(d: nat): (c: char)
    requires d < 16
    ensures DigitValue(c) == Some(d)
  {
    if d < 10 then (d + 48) as char else (d + 87) as char
  }

  /** Both letter cases are accepted when reading. */
  function DigitValue(c: char): (d: Option<nat>)
    ensures d.Some? ==> d.value < 16
  {
    if '0' <= c <= '9' then Some(c as int - 48)
    else if 'a' <= c <= 'f' then Some(c as int - 87)
    else if 'A' <= c <= 'F' then Some(c as int - 55)
    else None
  }

  function Encode(bytes: seq<byte>): (s: string)
    ensures |s| == 2 * |bytes|
  {
    if bytes == [] then ""
    else [DigitChar(bytes[0] / 16), DigitChar(bytes[0] % 16)] + Encode(bytes[1..])
  }

  function Decode(s: string): (r: Result<seq<byte>, HexError>)
    ensures r.Ok? ==> 2 * |r.value| == |s|
  {
    if |s| % 2 == 1 then Err(OddLength) else DecodePairs(s)
  }

  function DecodePairs(s: string): (r: Result<seq<byte>, HexError>)
    requires |s| % 2 == 0
    ensures r.Ok? ==> 2 * |r.value| == |s|
    ensures r != Err(OddLength)
  {
    if s == "" then Ok([])
    else
      match (DigitValue(s[0]), DigitValue(s[1]), DecodePairs(s[2..]))
      case (Some(hi), Some(lo), Ok(rest)) => Ok([16 * hi + lo] + rest)
      case _ => Err(InvalidDigit)
  }

  lemma {:induction false} DecodeOfEncode(bytes: seq<byte>)
    ensures Decode(Encode(bytes)) == Ok(bytes)
  {
    if bytes != [] {
      DecodeOfEncode(bytes[1..]);
      assert Encode(bytes)[2..] == Encode(bytes[1..]);
      assert [bytes[0]] + bytes[1..] == bytes;
    }
  }

  /** A byte is written as two lower-case digits, the high one first. */
  lemma {:induction false} EncodedDigits(bytes: seq<byte>, i: nat)
    requires i < |bytes|
    ensures var b: int := bytes[i];
            && Encode(bytes)[2 * i] == "0123456789abcdef"[b / 16]
            && Encode(bytes)[2 * i + 1] == "0123456789abcdef"[b % 16]
  {
    if i > 0 {
      EncodedDigits(bytes[1..], i - 1);
      assert Encode(bytes)[2..] == Encode(bytes[1..]);
      assert Encode(bytes)[2 * i] == Encode(bytes[1..])[2 * (i - 1)];
      assert Encode(bytes)[2 * i + 1] == Encode(bytes[1..])[2 * (i - 1) + 1];
    }
  }

  /** Exactly the texts of evenly many hexadecimal digits are read. */
  lemma {:induction false} DecodesExactlyDigits(s: string)
    ensures Decode(s).Ok? <==> |s| % 2 == 0 && forall i :: 0 <= i < |s| ==> DigitValue(s[i]).Some?
    ensures Decode(s) == Err(OddLength) <==> |s| % 2 == 1
    decreases |s|
  {
    if |s| % 2 == 0 && s != "" {
      DecodesExactlyDigits(s[2..]);
      assert forall i :: 0 <= i < |s[2..]| ==> s[2..][i] == s[i + 2];
      if forall i :: 0 <= i < |s[2..]| ==> DigitValue(s[2..][i]).Some? {
        assert forall i :: 2 <= i < |s| ==> s[i] == s[2..][i - 2];
      }
    }
  }
}

/** UTF-8, the byte form of every text the system signs, stores or sends. */
module Utf8 {
  import opened Wrappers
  import opened Hex

  function EncodeChar(c: char): (b: seq<byte>)
    ensures 1 <= |b| <= 4
  {
    var n := c as int;
    if n < 0x80 then [n]
    else if n < 0x800 then [0xC0 + n / 64, 0x80 + n % 64]
    else if n < 0x1_0000 then [0xE0 + n / 4096, 0x80 + n / 64 % 64, 0x80 + n % 64]
    else [0xF0 + n / 262144, 0x80 + n / 4096 % 64, 0x80 + n / 64 % 64, 0x80 + n % 64]
  }

  function Encode(s: string): seq<byte> {
    if s == "" then [] else EncodeChar(s[0]) + Encode(s[1..])
  }

  predicate IsContinuation(b: byte) { 0x80 <= b < 0xC0 }

  /** The first scalar value of a byte string and its length in bytes; overlong
      forms, surrogates and values above U+10FFFF are rejected. */
  function DecodeChar(b: seq<byte>): (r: Option<(char, nat)>)
    ensures r.Some? ==> 1 <= r.value.1 <= |b|
  {
    if |b| == 0 then None
    else
      var lead: int := b[0];
      if lead < 0x80 then Some((lead as char, 1))
      else if lead < 0xC0 then None
      else if lead < 0xE0 then
        if |b| >= 2 && IsContinuation(b[1]) then Scalar((lead - 0xC0) * 64 + Low(b[1]), 0x80, 2) else None
      else if lead < 0xF0 then
        if |b| >= 3 && IsContinuation(b[1]) && IsContinuation(b[2]) then
          Scalar((lead - 0xE0) * 4096 + Low(b[1]) * 64 + Low(b[2]), 0x800, 3)
        else None
      else if lead < 0xF8 && |b| >= 4
              && IsContinuation(b[1]) && IsContinuation(b[2]) && IsContinuation(b[3]) then
        Scalar((lead - 0xF0) * 262144 + Low(b[1]) * 4096 + Low(b[2]) * 64 + Low(b[3]), 0x1_0000, 4)
      else None
  }

  /** The six payload bits of a continuation byte. */
  function Low(b: byte): nat
    requires IsContinuation(b)
  {
    var n: int := b;
    n - 0x80
  }

  function Scalar(n: nat, least: nat, len: nat): (r: Option<(char, nat)>)
    ensures r.Some? ==> r.value.1 == len && r.value.0 as int == n >= least
  {
    if least <= n && (n < 0xD800 || 0xE000 <= n < 0x11_0000) then Some((n as char, len)) else None
  }

  function Decode(b: seq<byte>): Option<string> {
    if b == [] then Some("")
    else
      match DecodeChar(b)
      case None => None
      case Some((c, len)) =>
        match Decode(b[len..])
        case None => None
        case Some(rest) => Some([c] + rest)
  }

  lemma Digits64(n: nat)
    ensures n == n / 64 * 64 + n % 64
    ensures n / 4096 == n / 64 / 64
    ensures n / 262144 == n / 64 / 64 / 64
    ensures n == n / 4096 * 4096 + n / 64 % 64 * 64 + n % 64
    ensures n == n / 262144 * 262144 + n / 4096 % 64 * 4096 + n / 64 % 64 * 64 + n % 64
  {
  }

  lemma DecodeCharOfEncode(c: char, rest: seq<byte>)
    ensures DecodeChar(EncodeChar(c) + rest) == Some((c, |EncodeChar(c)|))
  {
    var n := c as int;
    var e := EncodeChar(c);
    var b := e + rest;
    assert |b| >= |e| && b[0] == e[0];
    Digits64(n);
    if 0x80 <= n < 0x800 {
      assert b[1] == e[1];
      assert Low(b[1]) == n % 64;
    } else if 0x800 <= n < 0x1_0000 {
      assert b[1] == e[1] && b[2] == e[2];
      assert Low(b[1]) == n / 64 % 64 && Low(b[2]) == n % 64;
    } else if 0x1_0000 <= n {
      assert b[1] == e[1] && b[2] == e[2] && b[3] == e[3];
      assert Low(b[1]) == n / 4096 % 64 && Low(b[2]) == n / 64 % 64 && Low(b[3]) == n % 64;
    }
  }

  lemma {:induction false} DecodeOfEncode(s: string)
    ensures Decode(Encode(s)) == Some(s)
  {
    if s != "" {
      DecodeCharOfEncode(s[0], Encode(s[1..]));
      DecodeOfEncode(s[1..]);
      assert Encode(s)[|EncodeChar(s[0])|..] == Encode(s[1..]);
      assert [s[0]] + s[1..] == s;
    }
  }

  // ---------- cutting ----------

  /** `&s[..n.min(s.len())]`, the first n bytes of a text; None where n falls inside
      a character, which panics. */
  function Cut(s: string, n: nat): Option<string> {
    if s == "" || n == 0 then Some("")
    else
      var len := |EncodeChar(s[0])|;
      if n < len then None
      else
        match Cut(s[1..], n - len)
        case None => None
        case Some(t) => Some([s[0]] + t)
  }

  /** Section 3 of RFC 3629: how many bytes a character takes, and how their low bits
      spell its number after the marks of first and further bytes. */
  lemma EncodeCharExactly(c: char)
    ensures var n, b := c as int, EncodeChar(c);
            && |b| == (if n < 0x80 then 1 else if n < 0x800 then 2 else if n < 0x1_0000 then 3 else 4)
            && (forall i :: 0 < i < |b| ==> 0x80 <= b[i] < 0xC0)
            && (|b| == 1 ==> b[0] == n)
            && (|b| == 2 ==> 0xC0 <= b[0] < 0xE0 && n == (b[0] as int - 0xC0) * 64 + (b[1] as int - 0x80))
            && (|b| == 3 ==> 0xE0 <= b[0] < 0xF0
                             && n == ((b[0] as int - 0xE0) * 64 + (b[1] as int - 0x80)) * 64 + (b[2] as int - 0x80))
            && (|b| == 4 ==> 0xF0 <= b[0] < 0xF8
                             && n == (((b[0] as int - 0xF0) * 64 + (b[1] as int - 0x80)) * 64
                                      + (b[2] as int - 0x80)) * 64 + (b[3] as int - 0x80))
  {
    Digits64(c as int);
  }

  lemma EncodeOne(c: char)
    ensures Encode([c]) == EncodeChar(c)
  {
    assert [c][1..] == "";
  }

  /** A text is encoded character by character. */
  lemma {:induction false} EncodeConcat(s: string, t: string)
    ensures Encode(s + t) == Encode(s) + Encode(t)
  {
    if s == "" {
      assert s + t == t;
    } else {
      assert (s + t)[1..] == s[1..] + t;
      EncodeConcat(s[1..], t);
      Glue(EncodeChar(s[0]), Encode(s[1..]), Encode(t));
    }
  }

  lemma ContinuesExactly(c: char, i: nat)
    requires i < |EncodeChar(c)|
    ensures IsContinuation(EncodeChar(c)[i]) <==> i > 0
  {
  }

  /** A cut panics exactly when the byte it stops before continues a character;
      otherwise it gives the prefix with those bytes. */
  lemma {:induction false} CutExactly(s: string, n: nat)
    ensures Cut(s, n).None? <==> n < |Encode(s)| && IsContinuation(Encode(s)[n])
    ensures Cut(s, n).Some? ==>
              && Cut(s, n).value <= s
              && Encode(Cut(s, n).value) == if n < |Encode(s)| then Encode(s)[..n] else Encode(s)
  {
    if s != "" {
      var e, rest := EncodeChar(s[0]), s[1..];
      assert s == [s[0]] + rest;
      assert Encode(s) == e + Encode(rest);
      if n < |e| {
        ContinuesExactly(s[0], n);
        assert Encode(s)[n] == e[n];
        assert n == 0 ==> Encode(s)[..n] == [];
      } else {
        CutExactly(rest, n - |e|);
        if Cut(rest, n - |e|).Some? { CutMore(s[0], rest, n, Cut(rest, n - |e|).value); }
      }
    }
  }

  lemma CutMore(c: char, rest: string, n: nat, t: string)
    requires n >= |EncodeChar(c)| && t <= rest
    requires var k := n - |EncodeChar(c)|; Encode(t) == if k < |Encode(rest)| then Encode(rest)[..k] else Encode(rest)
    ensures [c] + t <= [c] + rest
    ensures var all := EncodeChar(c) + Encode(rest); Encode([c] + t) == if n < |all| then all[..n] else all
  {
    assert ([c] + t)[1..] == t;
    var all := EncodeChar(c) + Encode(rest);
    if n < |all| { assert all[..n] == EncodeChar(c) + Encode(rest)[..n - |EncodeChar(c)|]; }
  }
}
