/**
 * Character classes and the zero-padded "HH:MM" text shared by the slot
 * grid (display strings) and the booking request (its `dateTime` field).
 */
module Text {
  import opened Wrappers

  /** `\d` in a JavaScript regular expression: ASCII digits only. */
  predicate IsDigit(c: char) {
    '0' <= c <= '9'
  }

  /** `\s` in a JavaScript regular expression (white space and line terminators). */
  predicate IsSpace(c: char) {
    var n := c as int;
    n == 0x09 || n == 0x0A || n == 0x0B || n == 0x0C || n == 0x0D || n == 0x20 ||
    n == 0xA0 || n == 0x1680 || (0x2000 <= n <= 0x200A) || n == 0x2028 || n == 0x2029 ||
    n == 0x202F || n == 0x205F || n == 0x3000 || n == 0xFEFF
  }

  /** `s.replace(/\D/g, "")`: the ASCII digits of `s`, in order. */
  function Digits(s: string): (r: string)
    ensures |r| <= |s|
    ensures forall i :: 0 <= i < |r| ==> IsDigit(r[i])
  {
    if s == [] then [] else (if IsDigit(s[0]) then [s[0]] else []) + Digits(s[1..])
  }

  /** Three consecutive slices put back together give the whole text. */
  lemma Reassemble(s: string, i: nat, j: nat)
    requires i <= j <= |s|
    ensures s[..i] + s[i..j] + s[j..] == s
  {
    assert s[..i] + s[i..j] == s[..j];
    assert s[..j] + s[j..] == s;
  }

  /** Keeping the digits distributes over concatenation. */
  lemma {:induction false} DigitsAppend(a: string, b: string)
    ensures Digits(a + b) == Digits(a) + Digits(b)
  {
    if a == [] {
      assert a + b == b;
    } else {
      assert (a + b)[1..] == a[1..] + b;
      DigitsAppend(a[1..], b);
    }
  }

  /** A text made only of digits is its own digits. */
  lemma {:induction false} DigitsOfDigits(s: string)
    requires forall i :: 0 <= i < |s| ==> IsDigit(s[i])
    ensures Digits(s) == s
  {
    if s != [] {
      DigitsOfDigits(s[1..]);
    }
  }

  function DigitChar(d: nat): (c: char)
    requires d < 10
    ensures IsDigit(c) && DigitValue(c) == d
  {
    ('0' as int + d) as char
  }

  function DigitValue(c: char): (d: nat)
    requires IsDigit(c)
    ensures d < 10
  {
    (c as int - '0' as int) as nat
  }

  /** `n.toString()`: the decimal digits of `n`, without leading zeros. */
  function Decimal(n: nat): (s: string)
    ensures |s| > 0 && forall i :: 0 <= i < |s| ==> IsDigit(s[i])
    ensures n < 10 ==> s == [DigitChar(n)]
  {
    if n < 10 then [DigitChar(n)] else Decimal(n / 10) + [DigitChar(n % 10)]
  }

  /** `n.toString().padStart(2, "0")`: a leading zero below 10, the plain digits otherwise. */
  function Pad2(n: nat): (s: string)
    ensures n < 100 ==> |s| == 2 && IsDigit(s[0]) && IsDigit(s[1])
    ensures n < 100 ==> DigitValue(s[0]) * 10 + DigitValue(s[1]) == n
  {
    if n < 10 then ['0', DigitChar(n)] else Decimal(n)
  }

  /** The display text of a minute of the day: zero-padded hours, a colon, zero-padded minutes. */
  function Hhmm(t: nat): (s: string)
    ensures t < 100 * 60 ==> |s| == 5 && s[2] == ':'
  {
    Pad2(t / 60) + ":" + Pad2(t % 60)
  }

  /** The display text of `hour`:`minute`. */
  lemma HhmmOfTick(hour: nat, minute: nat)
    requires minute < 60
    ensures Hhmm(hour * 60 + minute) == Pad2(hour) + ":" + Pad2(minute)
  {
    var t := hour * 60 + minute;
    assert t / 60 == hour && t % 60 == minute;
  }

  /**
   * Reads "HH:MM" as the date-time string format of ECMAScript does: hours
   * 00-23 with minutes 00-59, or "24:00", the end of the day (minute 1440,
   * the next day's 00:00). Anything else is None.
   */
  function ParseHhmm(s: string): (r: Option<nat>)
    ensures r.Some? ==> r.value <= 24 * 60
    ensures s == "24:00" ==> r == Some(24 * 60)
  {
    if |s| == 5 && IsDigit(s[0]) && IsDigit(s[1]) && s[2] == ':' && IsDigit(s[3]) && IsDigit(s[4]) then
      var h := DigitValue(s[0]) * 10 + DigitValue(s[1]);
      var m := DigitValue(s[3]) * 10 + DigitValue(s[4]);
      if (h < 24 && m < 60) || (h == 24 && m == 0) then Some(h * 60 + m) else None
    else None
  }

  /** Display and parse are inverse on every minute of the day and on the end of the day. */
  lemma ParseHhmmInvertsHhmm(t: nat)
    requires t <= 24 * 60
    ensures ParseHhmm(Hhmm(t)) == Some(t)
  {
    var s := Hhmm(t);
    assert s[..2] == Pad2(t / 60) && s[3..] == Pad2(t % 60);
  }

  /** Only a well-formed "HH:MM" text parses, and it is the display text of what it parses to. */
  lemma HhmmInvertsParseHhmm(s: string)
    requires ParseHhmm(s).Some?
    ensures Hhmm(ParseHhmm(s).value) == s
  {
    var h := DigitValue(s[0]) * 10 + DigitValue(s[1]);
    var m := DigitValue(s[3]) * 10 + DigitValue(s[4]);
    HhmmOfTick(h, m);
    Pad2Digits(s[0], s[1]);
    Pad2Digits(s[3], s[4]);
    assert s == [s[0], s[1]] + ":" + [s[3], s[4]];
  }

  /** Two digit characters are the zero-padded text of the number they spell. */
  lemma Pad2Digits(c0: char, c1: char)
    requires IsDigit(c0) && IsDigit(c1)
    ensures Pad2(DigitValue(c0) * 10 + DigitValue(c1)) == [c0, c1]
  {
    var a, b := DigitValue(c0), DigitValue(c1);
    var n := a * 10 + b;
    assert DigitChar(a) == c0 && DigitChar(b) == c1;
    if n >= 10 {
      assert n / 10 == a && n % 10 == b;
      assert Decimal(a) == [c0];
    }
  }
}
