/** What the reader of JSON accepts besides what the writer writes, and what it
    refuses: whitespace, spellings of characters, numbers. */
module JsonReading {
  import opened Wrappers
  import opened Json
  import opened WireText
  import Decimal
  import Hex

  // ---------- whitespace (RFC 8259, section 2) ----------

  /** Between tokens exactly space, tab, line feed and carriage return are skipped;
      any other control character is refused. */
  lemma SpaceExactly(c: char, s: string)
    requires c <= ' '
    ensures Tokens([c] + s) == if c in {32 as char, 9 as char, 10 as char, 13 as char} then Tokens(s) else None
  {
    var text := [c] + s;
    assert text[1..] == s && text[0] == c;
    if c !in {32 as char, 9 as char, 10 as char, 13 as char} {
      assert "null"[0] == 'n' && "true"[0] == 't' && "false"[0] == 'f';
      assert ReadToken(text) == Fail;
    }
  }

  // ---------- strings (RFC 8259, section 7) ----------

  /** A control character in a string is refused unless it is escaped. */
  lemma BareControlRefused(c: char, s: string)
    requires c < ' '
    ensures ReadString([c] + s) == Fail
  {
  }

  /** The short escapes. */
  lemma ShortEscapes(tail: string)
    ensures ReadEscape("\"" + tail) == Done('"', tail) && ReadEscape("\\" + tail) == Done('\\', tail)
    ensures ReadEscape("/" + tail) == Done('/', tail) && ReadEscape("b" + tail) == Done(8 as char, tail)
    ensures ReadEscape("f" + tail) == Done(12 as char, tail) && ReadEscape("n" + tail) == Done(10 as char, tail)
    ensures ReadEscape("r" + tail) == Done(13 as char, tail) && ReadEscape("t" + tail) == Done(9 as char, tail)
  {
  }

  /** Four hexadecimal digits. */
  ghost function FourDigits(n: nat): string
    requires n < 0x1_0000
  {
    [HEX[n / 4096], HEX[n / 256 % 16], HEX[n / 16 % 16], HEX[n % 16]]
  }

  lemma DigitRead(d: nat)
    requires d < 16
    ensures Hex.DigitValue(HEX[d]) == Some(d)
  {
  }

  lemma DigitsRead(a: nat, b: nat, c: nat, d: nat, tail: string)
    requires a < 16 && b < 16 && c < 16 && d < 16
    ensures Hex4([HEX[a], HEX[b], HEX[c], HEX[d]] + tail) == Done(4096 * a + 256 * b + 16 * c + d, tail)
  {
    var s := [HEX[a], HEX[b], HEX[c], HEX[d]] + tail;
    DigitRead(a);
    DigitRead(b);
    DigitRead(c);
    DigitRead(d);
    assert s[4..] == tail;
  }

  lemma DigitsOf(n: nat)
    requires n < 0x1_0000
    ensures n / 4096 < 16 && n == 4096 * (n / 4096) + 256 * (n / 256 % 16) + 16 * (n / 16 % 16) + n % 16
  {
    assert n / 4096 == n / 256 / 16 && n / 256 == n / 16 / 16;
  }

  lemma FourDigitsRead(n: nat, tail: string)
    requires n < 0x1_0000
    ensures Hex4(FourDigits(n) + tail) == Done(n, tail)
  {
    DigitsOf(n);
    DigitsRead(n / 4096, n / 256 % 16, n / 16 % 16, n % 16, tail);
  }

  /** Every character may be spelled by its number: one \u escape up to U+FFFF, a pair
      of surrogates above. */
  lemma UnicodeEscapes(c: char, tail: string)
    ensures var n := c as int;
            n < 0x1_0000 ==> ReadEscape("u" + (FourDigits(n) + tail)) == Done(c, tail)
    ensures var n := c as int - 0x1_0000;
            n >= 0 ==> ReadEscape("u" + (FourDigits(0xD800 + n / 1024)
                                         + ("\\u" + (FourDigits(0xDC00 + n % 1024) + tail)))) == Done(c, tail)
  {
    var n := c as int;
    if n < 0x1_0000 {
      FourDigitsRead(n, tail);
      assert ("u" + (FourDigits(n) + tail))[1..] == FourDigits(n) + tail;
    } else {
      var hi, lo := 0xD800 + (n - 0x1_0000) / 1024, 0xDC00 + (n - 0x1_0000) % 1024;
      var second := "\\u" + (FourDigits(lo) + tail);
      FourDigitsRead(hi, second);
      FourDigitsRead(lo, tail);
      assert second[2..] == FourDigits(lo) + tail;
      assert ("u" + (FourDigits(hi) + second))[1..] == FourDigits(hi) + second;
    }
  }

  /** Half a pair of surrogates is no character. */
  lemma LoneSurrogateRefused(n: nat, tail: string)
    requires 0xD800 <= n < 0xE000 && !("\\u" <= tail)
    ensures ReadEscape("u" + (FourDigits(n) + tail)) == Fail
  {
    FourDigitsRead(n, tail);
    assert ("u" + (FourDigits(n) + tail))[1..] == FourDigits(n) + tail;
  }

  // ---------- numbers (RFC 8259, section 6) ----------

  lemma {:induction false} ReadRunOnly(s: string)
    ensures s == ReadRun(s).0 + ReadRun(s).1
  {
    if s != "" && Decimal.IsDigit(s[0]) {
      ReadRunOnly(s[1..]);
      assert s == [s[0]] + s[1..];
    }
  }

  lemma ReadFractionOnly(s: string)
    ensures var r := ReadFraction(s); r.Done? ==> s == WriteFraction(r.value, r.rest)
  {
    if s != "" && s[0] == '.' {
      ReadRunOnly(s[1..]);
      assert s == "." + s[1..];
    }
  }

  lemma ReadExponentOnly(s: string)
    ensures var r := ReadExponent(s); r.Done? ==> s == WriteExponent(r.value, r.rest)
  {
    var r := ReadExponent(s);
    if r.Done? && r.value.Some? {
      var t := s[1..];
      var signed := t != "" && (t[0] == '+' || t[0] == '-');
      ReadRunOnly(if signed then t[1..] else t);
      assert s == [s[0]] + t && (signed ==> t == [t[0]] + t[1..]);
    }
  }

  /** The reader of numbers follows the grammar: what it reads is spelled as an
      integer part without leading zeros, a fraction and an exponent. */
  lemma ReadNumberOnly(s: string)
    ensures var r := ReadNumber(s); r.Done? ==> s == WriteNumber(r.value, r.rest)
  {
    var r := ReadNumber(s);
    if r.Done? {
      var t := if s[0] == '-' then s[1..] else s;
      ReadRunOnly(t);
      var i := ReadInt(t);
      assert t[0] == '0' ==> t == "0" + t[1..];
      ReadFractionOnly(i.rest);
      ReadExponentOnly(ReadFraction(i.rest).rest);
      assert s[0] == '-' ==> s == "-" + t;
    }
  }
}
