/**
 * `formatPhone` of the booking widget: keep the digits; when there are at
 * most eleven, put the first two in parentheses followed by a space and
 * hyphenate before the last four; otherwise leave the text as typed.
 */
module PhoneFormat {
  import opened Text
  import opened Validation

  /**
   * `s.replace(/^(\d{2})(\d)/g, "($1) $2")`: a text starting with three
   * digits gets its first two wrapped in parentheses and a space after them.
   */
  function WrapAreaCode(s: string): (r: string)
    ensures Digits(r) == Digits(s)
    ensures |r| == |s| || |r| == |s| + 3
  {
    if |s| >= 3 && IsDigit(s[0]) && IsDigit(s[1]) && IsDigit(s[2]) then
      WrappedDigits(s);
      "(" + s[..2] + ") " + s[2..]
    else s
  }

  /** Wrapping the first two characters adds no digit. */
  lemma WrappedDigits(s: string)
    requires |s| >= 2
    ensures Digits("(" + s[..2] + ") " + s[2..]) == Digits(s)
  {
    var head, rest := s[..2], s[2..];
    PiecesHaveNoDigits();
    NoDigits("(");
    NoDigits(") ");
    DigitsAppend("(", head);
    assert Digits("(" + head) == Digits(head);
    JoinWithoutDigits("(" + head, ") ", rest);
    DigitsAppend(head, rest);
    SplitAt(s, 2);
  }

  lemma SplitAt(s: string, k: nat)
    requires k <= |s|
    ensures s[..k] + s[k..] == s
  {
  }

  /** A piece without digits between two texts contributes nothing to their digits. */
  lemma JoinWithoutDigits(a: string, x: string, b: string)
    requires Digits(x) == []
    ensures Digits(a + x + b) == Digits(a) + Digits(b)
  {
    DigitsAppend(a, x);
    DigitsAppend(a + x, b);
  }

  /** The length of the run of digits that ends the text. */
  function TrailingDigits(s: string): (n: nat)
    ensures n <= |s|
    ensures forall i :: |s| - n <= i < |s| ==> IsDigit(s[i])
    ensures n < |s| ==> !IsDigit(s[|s| - n - 1])
  {
    if s == [] || !IsDigit(s[|s| - 1]) then 0 else 1 + TrailingDigits(s[..|s| - 1])
  }

  /**
   * `s.replace(/(\d{4,5})(\d{4})$/, "$1-$2")`. The leftmost match starts
   * nine digits from the end when the final run has at least nine, eight
   * when it has exactly eight; either way the hyphen lands before the last
   * four digits. A final run shorter than eight leaves the text alone.
   */
  function HyphenateTail(s: string): (r: string)
    ensures Digits(r) == Digits(s)
    ensures r == s || (|r| == |s| + 1 && TrailingDigits(r) == 4)
  {
    if TrailingDigits(s) >= 8 then
      HyphenKeepsDigits(s, |s| - 4);
      FourAfterHyphen(s);
      s[..|s| - 4] + "-" + s[|s| - 4..]
    else s
  }

  /** The hyphen leaves exactly four digits after it. */
  lemma FourAfterHyphen(s: string)
    requires TrailingDigits(s) >= 8
    ensures TrailingDigits(s[..|s| - 4] + "-" + s[|s| - 4..]) == 4
  {
    var tail := s[|s| - 4..];
    forall i | 0 <= i < |tail|
      ensures IsDigit(tail[i])
    {
      assert tail[i] == s[|s| - 4 + i];
    }
    var front := s[..|s| - 4] + "-";
    assert front[|front| - 1] == '-';
    TrailingDigitsAfter(front, tail);
  }

  /** A hyphen put into a text adds no digit. */
  lemma HyphenKeepsDigits(s: string, k: nat)
    requires k <= |s|
    ensures Digits(s[..k] + "-" + s[k..]) == Digits(s)
  {
    var front, tail := s[..k], s[k..];
    PiecesHaveNoDigits();
    NoDigits("-");
    JoinWithoutDigits(front, "-", tail);
    DigitsAppend(front, tail);
    SplitAt(s, k);
  }

  /** The two replacements, in the order `formatPhone` chains them. */
  function FormatDigits(numbers: string): string {
    HyphenateTail(WrapAreaCode(numbers))
  }

  /** `formatPhone(value)`. */
  function FormatPhone(value: string): (r: string)
    ensures |Digits(value)| <= 11 ==> |r| <= 15
    ensures |Digits(value)| > 11 ==> r == value
  {
    var numbers := Digits(value);
    if |numbers| <= 11 then FormatDigits(numbers) else value
  }

  /** A run of digits after a non-digit (or at the start) is the whole trailing run. */
  lemma {:induction false} TrailingDigitsAfter(a: string, d: string)
    requires a == [] || !IsDigit(a[|a| - 1])
    requires forall i :: 0 <= i < |d| ==> IsDigit(d[i])
    ensures TrailingDigits(a + d) == |d|
  {
    if d != [] {
      var init := d[..|d| - 1];
      assert (a + d)[..|a + d| - 1] == a + init;
      TrailingDigitsAfter(a, init);
    } else {
      assert a + d == a;
    }
  }

  /** At most two digits: neither replacement finds a match. */
  lemma FormatDigitsShort(n: string)
    requires |n| <= 2 && forall i :: 0 <= i < |n| ==> IsDigit(n[i])
    ensures FormatDigits(n) == n
  {
    TrailingDigitsAfter([], n);
    assert [] + n == n;
  }

  /** Three to eleven digits: the area code is wrapped and the rest of the digits end the text. */
  lemma WrapDigits(n: string)
    requires 3 <= |n| && forall i :: 0 <= i < |n| ==> IsDigit(n[i])
    ensures WrapAreaCode(n) == "(" + n[..2] + ") " + n[2..]
    ensures TrailingDigits(WrapAreaCode(n)) == |n| - 2
  {
    var w := "(" + n[..2] + ") ";
    assert w[|w| - 1] == ' ';
    TrailingDigitsAfter(w, n[2..]);
  }

  /** Three to nine digits: seven or fewer follow the area code, too few for the hyphen. */
  lemma FormatDigitsMiddle(n: string)
    requires 3 <= |n| <= 9 && forall i :: 0 <= i < |n| ==> IsDigit(n[i])
    ensures FormatDigits(n) == "(" + n[..2] + ") " + n[2..]
  {
    WrapDigits(n);
  }

  /** Ten or eleven digits: the hyphen goes before the last four. */
  lemma FormatDigitsLong(n: string)
    requires 10 <= |n| <= 11 && forall i :: 0 <= i < |n| ==> IsDigit(n[i])
    ensures FormatDigits(n) == "(" + n[..2] + ") " + n[2..|n| - 4] + "-" + n[|n| - 4..]
  {
    WrapDigits(n);
    var w := "(" + n[..2] + ") ";
    var s := w + n[2..];
    assert s[..|s| - 4] == w + n[2..|n| - 4];
    assert s[|s| - 4..] == n[|n| - 4..];
  }

  /** The four shapes `formatPhone` produces, by the number of digits in the input. */
  lemma FormatPhoneCases(value: string)
    ensures var n := Digits(value);
            (|n| > 11 ==> FormatPhone(value) == value) &&
            (|n| <= 2 ==> FormatPhone(value) == n) &&
            (3 <= |n| <= 9 ==> FormatPhone(value) == "(" + n[..2] + ") " + n[2..]) &&
            (10 <= |n| <= 11 ==> FormatPhone(value) == "(" + n[..2] + ") " + n[2..|n| - 4] + "-" + n[|n| - 4..])
  {
    var n := Digits(value);
    if |n| <= 11 {
      assert FormatPhone(value) == FormatDigits(n);
      if |n| <= 2 {
        FormatDigitsShort(n);
      } else if |n| <= 9 {
        FormatDigitsMiddle(n);
      } else {
        FormatDigitsLong(n);
      }
    }
  }

  /** Removing the non-digits from around and between runs of digits. */
  lemma DigitsAround(pre: string, a: string, mid: string, b: string)
    requires forall i :: 0 <= i < |pre| ==> !IsDigit(pre[i])
    requires forall i :: 0 <= i < |mid| ==> !IsDigit(mid[i])
    requires forall i :: 0 <= i < |a| ==> IsDigit(a[i])
    requires forall i :: 0 <= i < |b| ==> IsDigit(b[i])
    ensures Digits(pre + a + mid + b) == a + b
  {
    NoDigits(pre);
    NoDigits(mid);
    DigitsOfDigits(a);
    DigitsOfDigits(b);
    DigitsAppend(pre, a);
    assert Digits(pre + a) == a;
    DigitsAppend(pre + a, mid);
    assert Digits(pre + a + mid) == a;
    DigitsAppend(pre + a + mid, b);
  }

  lemma {:induction false} NoDigits(s: string)
    requires forall i :: 0 <= i < |s| ==> !IsDigit(s[i])
    ensures Digits(s) == []
  {
    if s != [] {
      NoDigits(s[1..]);
    }
  }

  /** What `formatPhone` may add: a parenthesis, a space or a hyphen. */
  predicate IsPunctuation(c: char) {
    c == '(' || c == ')' || c == ' ' || c == '-'
  }

  /** Every character is a digit or punctuation. */
  predicate Punctuated(s: string) {
    forall i :: 0 <= i < |s| ==> IsDigit(s[i]) || IsPunctuation(s[i])
  }

  lemma PunctuatedAppend(a: string, b: string)
    requires Punctuated(a) && Punctuated(b)
    ensures Punctuated(a + b)
  {
    forall i | 0 <= i < |a + b|
      ensures IsDigit((a + b)[i]) || IsPunctuation((a + b)[i])
    {
      if i < |a| {
        assert (a + b)[i] == a[i];
      } else {
        assert (a + b)[i] == b[i - |a|];
      }
    }
  }

  lemma PiecesHaveNoDigits()
    ensures forall i :: 0 <= i < |"("| ==> !IsDigit("("[i])
    ensures forall i :: 0 <= i < |") "| ==> !IsDigit(") "[i])
    ensures forall i :: 0 <= i < |"-"| ==> !IsDigit("-"[i])
  {
  }

  lemma PunctuationPieces()
    ensures Punctuated("(") && Punctuated(") ") && Punctuated("-")
  {
  }

  lemma AllDigitsPunctuated(s: string)
    requires forall i :: 0 <= i < |s| ==> IsDigit(s[i])
    ensures Punctuated(s)
  {
  }

  /** "(" + area code + ") " + rest: the digits are the area code and the rest, the others punctuation. */
  lemma WrappedKeeps(head: string, rest: string)
    requires forall i :: 0 <= i < |head| ==> IsDigit(head[i])
    requires forall i :: 0 <= i < |rest| ==> IsDigit(rest[i])
    ensures Digits("(" + head + ") " + rest) == head + rest
    ensures Punctuated("(" + head + ") " + rest)
  {
    PiecesHaveNoDigits();
    DigitsAround("(", head, ") ", rest);
    WrappedPunctuated(head, rest);
  }

  lemma WrappedPunctuated(head: string, rest: string)
    requires forall i :: 0 <= i < |head| ==> IsDigit(head[i])
    requires forall i :: 0 <= i < |rest| ==> IsDigit(rest[i])
    ensures Punctuated("(" + head + ") " + rest)
  {
    PunctuationPieces();
    AllDigitsPunctuated(head);
    AllDigitsPunctuated(rest);
    PunctuatedAppend("(", head);
    PunctuatedAppend("(" + head, ") ");
    PunctuatedAppend("(" + head + ") ", rest);
  }

  /** The same with a hyphen before the last four digits. */
  lemma HyphenatedKeeps(head: string, mid: string, tail: string)
    requires forall i :: 0 <= i < |head| ==> IsDigit(head[i])
    requires forall i :: 0 <= i < |mid| ==> IsDigit(mid[i])
    requires forall i :: 0 <= i < |tail| ==> IsDigit(tail[i])
    ensures Digits("(" + head + ") " + mid + "-" + tail) == head + mid + tail
    ensures Punctuated("(" + head + ") " + mid + "-" + tail)
  {
    HyphenatedDigits(head, mid, tail);
    HyphenatedPunctuated(head, mid, tail);
  }

  lemma HyphenatedDigits(head: string, mid: string, tail: string)
    requires forall i :: 0 <= i < |head| ==> IsDigit(head[i])
    requires forall i :: 0 <= i < |mid| ==> IsDigit(mid[i])
    requires forall i :: 0 <= i < |tail| ==> IsDigit(tail[i])
    ensures Digits("(" + head + ") " + mid + "-" + tail) == head + mid + tail
  {
    var front := "(" + head + ") " + mid;
    PiecesHaveNoDigits();
    DigitsAround("(", head, ") ", mid);
    NoDigits("-");
    DigitsOfDigits(tail);
    DigitsAppend("-", tail);
    assert [] + tail == tail;
    assert Digits("-" + tail) == tail;
    DigitsAppend(front, "-" + tail);
    JoinTail(front, tail);
  }

  lemma HyphenatedPunctuated(head: string, mid: string, tail: string)
    requires forall i :: 0 <= i < |head| ==> IsDigit(head[i])
    requires forall i :: 0 <= i < |mid| ==> IsDigit(mid[i])
    requires forall i :: 0 <= i < |tail| ==> IsDigit(tail[i])
    ensures Punctuated("(" + head + ") " + mid + "-" + tail)
  {
    WrappedPunctuated(head, mid);
    PunctuationPieces();
    AllDigitsPunctuated(tail);
    PunctuatedAppend("(" + head + ") " + mid, "-");
    PunctuatedAppend("(" + head + ") " + mid + "-", tail);
  }

  /** Three to nine digits: the digits survive and the additions are punctuation. */
  lemma FormatMiddleKeeps(n: string)
    requires 3 <= |n| <= 9 && forall i :: 0 <= i < |n| ==> IsDigit(n[i])
    ensures Digits(FormatDigits(n)) == n && Punctuated(FormatDigits(n))
  {
    FormatDigitsMiddle(n);
    WrappedKeeps(n[..2], n[2..]);
    assert n[..2] + n[2..] == n;
  }

  /** Ten or eleven digits: the digits survive and the additions are punctuation. */
  lemma FormatLongKeeps(n: string)
    requires 10 <= |n| <= 11 && forall i :: 0 <= i < |n| ==> IsDigit(n[i])
    ensures Digits(FormatDigits(n)) == n && Punctuated(FormatDigits(n))
  {
    FormatDigitsLong(n);
    HyphenatedKeeps(n[..2], n[2..|n| - 4], n[|n| - 4..]);
    Reassemble(n, 2, |n| - 4);
  }

  lemma JoinTail(front: string, tail: string)
    ensures front + "-" + tail == front + ("-" + tail)
  {
  }

  /** Formatting at most eleven digits keeps them all, in order, and adds only "(", ")", " " and "-". */
  lemma FormatDigitsKeeps(n: string)
    requires |n| <= 11 && forall i :: 0 <= i < |n| ==> IsDigit(n[i])
    ensures Digits(FormatDigits(n)) == n
    ensures Punctuated(FormatDigits(n))
  {
    if |n| <= 2 {
      FormatDigitsShort(n);
      DigitsOfDigits(n);
    } else if |n| <= 9 {
      FormatMiddleKeeps(n);
    } else {
      FormatLongKeeps(n);
    }
  }

  /** Up to eleven digits, formatting keeps exactly the input's digits, in order. */
  lemma FormatPhoneKeepsDigits(value: string)
    requires |Digits(value)| <= 11
    ensures Digits(FormatPhone(value)) == Digits(value)
  {
    FormatDigitsKeeps(Digits(value));
  }

  /** Up to eleven digits, formatting only adds parentheses, a space and a hyphen. */
  lemma FormatPhoneAddsOnlyPunctuation(value: string)
    requires |Digits(value)| <= 11
    ensures Punctuated(FormatPhone(value))
  {
    FormatDigitsKeeps(Digits(value));
  }

  /** Re-formatting a formatted number changes nothing, so formatting on every keystroke is stable. */
  lemma FormatPhoneIdempotent(value: string)
    ensures FormatPhone(FormatPhone(value)) == FormatPhone(value)
  {
    var n := Digits(value);
    if |n| <= 11 {
      FormatPhoneKeepsDigits(value);
    }
  }

  /** Eleven digits fill the field's 15 characters exactly; ten take 14. */
  lemma FormatPhoneLengths(value: string)
    ensures |Digits(value)| == 11 ==> |FormatPhone(value)| == 15
    ensures |Digits(value)| == 10 ==> |FormatPhone(value)| == 14
  {
    FormatPhoneCases(value);
  }

  /** The text the server checks: the formatted ten- or eleven-digit number without its space. */
  lemma StripFormatted(n: string)
    requires 10 <= |n| <= 11 && forall i :: 0 <= i < |n| ==> IsDigit(n[i])
    ensures StripWhitespace(FormatDigits(n)) == "(" + n[..2] + ")" + n[2..|n| - 4] + "-" + n[|n| - 4..]
  {
    var x := "(" + n[..2] + ")";
    var y := n[2..|n| - 4] + "-" + n[|n| - 4..];
    FormattedAroundSpace(n);
    AreaCodeHasNoSpace(n);
    SubscriberHasNoSpace(n);
    StripOneSpace(x, y);
    JoinAround(n[..2], n[2..|n| - 4], n[|n| - 4..]);
  }

  lemma JoinAround(a: string, b: string, c: string)
    ensures ("(" + a + ")") + (b + "-" + c) == "(" + a + ")" + b + "-" + c
  {
  }

  /** A formatted ten- or eleven-digit number is the bracketed area code, one space, and the hyphenated rest. */
  lemma FormattedAroundSpace(n: string)
    requires 10 <= |n| <= 11 && forall i :: 0 <= i < |n| ==> IsDigit(n[i])
    ensures FormatDigits(n) == ("(" + n[..2] + ")") + " " + (n[2..|n| - 4] + "-" + n[|n| - 4..])
  {
    FormatDigitsLong(n);
    SplitAtSpace(n[..2], n[2..|n| - 4], n[|n| - 4..]);
  }

  lemma SplitAtSpace(a: string, b: string, c: string)
    ensures "(" + a + ") " + b + "-" + c == ("(" + a + ")") + " " + (b + "-" + c)
  {
    assert ") " == ")" + " ";
  }

  lemma AreaCodeHasNoSpace(n: string)
    requires 2 <= |n| && forall i :: 0 <= i < |n| ==> IsDigit(n[i])
    ensures var x := "(" + n[..2] + ")"; forall i :: 0 <= i < |x| ==> !IsSpace(x[i])
  {
    var x := "(" + n[..2] + ")";
    forall i | 0 <= i < |x|
      ensures !IsSpace(x[i])
    {
      assert x[i] == '(' || x[i] == ')' || IsDigit(x[i]);
    }
  }

  lemma SubscriberHasNoSpace(n: string)
    requires 6 <= |n| && forall i :: 0 <= i < |n| ==> IsDigit(n[i])
    ensures var y := n[2..|n| - 4] + "-" + n[|n| - 4..]; forall i :: 0 <= i < |y| ==> !IsSpace(y[i])
  {
    var y := n[2..|n| - 4] + "-" + n[|n| - 4..];
    forall i | 0 <= i < |y|
      ensures !IsSpace(y[i])
    {
      assert y[i] == '-' || IsDigit(y[i]);
    }
  }

  /** Removing the whitespace from two space-free texts joined by one space joins them. */
  lemma StripOneSpace(x: string, y: string)
    requires forall i :: 0 <= i < |x| ==> !IsSpace(x[i])
    requires forall i :: 0 <= i < |y| ==> !IsSpace(y[i])
    ensures StripWhitespace(x + " " + y) == x + y
  {
    var sx := x + " ";
    StripWhitespaceAppend(x, " ");
    StripSpace();
    assert x + [] == x;
    assert StripWhitespace(sx) == x;
    StripWhitespaceAppend(sx, y);
  }

  lemma StripSpace()
    ensures StripWhitespace(" ") == []
  {
    assert IsSpace(' ');
    assert " "[1..] == [];
  }

  /** The stripped text fits the pattern with parentheses and hyphen, and the `9` when eleven digits. */
  lemma StrippedFits(n: string)
    requires (|n| == 10 || (|n| == 11 && n[2] == '9')) && forall i :: 0 <= i < |n| ==> IsDigit(n[i])
    requires n[0] != '0' && n[1] != '0'
    ensures Fits("(" + n[..2] + ")" + n[2..|n| - 4] + "-" + n[|n| - 4..], PhonePattern(true, true, false, |n| == 11, true))
  {
    var s := "(" + n[..2] + ")" + n[2..|n| - 4] + "-" + n[|n| - 4..];
    var p := PhonePattern(true, true, false, |n| == 11, true);
    var k := |n| - 10;
    assert |s| == |p|;
    forall i | 0 <= i < |s|
      ensures InClass(s[i], p[i])
    {
      if i == 0 {
        assert s[i] == '(' && p[i] == Exactly('(');
      } else if i < 3 {
        assert s[i] == n[i - 1] && p[i] == NonZeroDigit;
      } else if i == 3 {
        assert s[i] == ')' && p[i] == Exactly(')');
      } else if i == 4 && k == 1 {
        assert s[i] == n[2] && p[i] == Exactly('9');
      } else if i < 8 + k {
        assert s[i] == n[i - 2] && p[i] == AnyDigit;
      } else if i == 8 + k {
        assert s[i] == '-' && p[i] == Exactly('-');
      } else {
        assert s[i] == n[i - 3] && p[i] == AnyDigit;
      }
    }
  }

  /**
   * What the widget sends passes the server's phone check when the area
   * code has no zero and the number has ten digits, or eleven starting
   * with 9 after the area code.
   */
  lemma FormattedPhoneAccepted(value: string)
    requires var n := Digits(value);
             (|n| == 10 || (|n| == 11 && n[2] == '9')) && n[0] != '0' && n[1] != '0'
    ensures PhoneMatches(StripWhitespace(FormatPhone(value)))
  {
    var n := Digits(value);
    StripFormatted(n);
    StrippedFits(n);
  }

  /** Where the brackets, the area code and the first subscriber digit sit in the stripped text. */
  lemma StrippedPlaces(a: string, b: string, c: string)
    requires |a| == 2 && |b| >= 1
    ensures var s := "(" + a + ")" + b + "-" + c;
            |s| == 5 + |b| + |c| && s[0] == '(' && s[1] == a[0] && s[2] == a[1] && s[3] == ')' && s[4] == b[0]
  {
  }

  /** The first five places of the phone pattern, for each choice of the optional parts. */
  lemma PatternHead(open: bool, close: bool, space: bool, nine: bool, hyphen: bool)
    ensures var p := PhonePattern(open, close, space, nine, hyphen);
            p[0] == (if open then Exactly('(') else NonZeroDigit) &&
            (open ==> p[1] == NonZeroDigit && p[2] == NonZeroDigit) &&
            (open ==> p[3] == (if close then Exactly(')') else if space then Space else if nine then Exactly('9') else AnyDigit)) &&
            (open && close ==> p[4] == (if space then Space else if nine then Exactly('9') else AnyDigit))
  {
  }

  /**
   * Eleven digits without a 9 after the area code are formatted by the
   * widget but refused by the server.
   */
  lemma ElevenDigitsNeedNine(value: string)
    requires var n := Digits(value); |n| == 11 && n[2] != '9'
    ensures !PhoneMatches(StripWhitespace(FormatPhone(value)))
  {
    var n := Digits(value);
    assert FormatPhone(value) == FormatDigits(n);
    StripFormatted(n);
    var s := "(" + n[..2] + ")" + n[2..7] + "-" + n[7..];
    StrippedPlaces(n[..2], n[2..7], n[7..]);
    assert n[2..7][0] == n[2];
    assert |s| == 14 && s[0] == '(' && s[3] == ')' && s[4] == n[2] && IsDigit(s[4]) && s[4] != '9';
    assert !IsSpace(s[4]);
    forall open: bool, close: bool, space: bool, nine: bool, hyphen: bool
      ensures !Fits(s, PhonePattern(open, close, space, nine, hyphen))
    {
      var p := PhonePattern(open, close, space, nine, hyphen);
      PatternHead(open, close, space, nine, hyphen);
      var c0, c3, c4 := s[0], s[3], s[4];
      var k0, k3, k4 := p[0], p[3], p[4];
      assert Fits(s, p) ==> InClass(c0, k0) && InClass(c3, k3) && InClass(c4, k4);
    }
  }

  /** A zero in the area code is formatted by the widget but refused by the server. */
  lemma AreaCodeZeroRefused(value: string)
    requires var n := Digits(value); 10 <= |n| <= 11 && (n[0] == '0' || n[1] == '0')
    ensures !PhoneMatches(StripWhitespace(FormatPhone(value)))
  {
    var n := Digits(value);
    assert FormatPhone(value) == FormatDigits(n);
    StripFormatted(n);
    var s := "(" + n[..2] + ")" + n[2..|n| - 4] + "-" + n[|n| - 4..];
    StrippedPlaces(n[..2], n[2..|n| - 4], n[|n| - 4..]);
    assert s[0] == '(' && (s[1] == '0' || s[2] == '0');
    forall open: bool, close: bool, space: bool, nine: bool, hyphen: bool
      ensures !Fits(s, PhonePattern(open, close, space, nine, hyphen))
    {
      var p := PhonePattern(open, close, space, nine, hyphen);
      PatternHead(open, close, space, nine, hyphen);
      var c0, c1, c2 := s[0], s[1], s[2];
      var k0, k1, k2 := p[0], p[1], p[2];
      assert Fits(s, p) ==> InClass(c0, k0) && InClass(c1, k1) && InClass(c2, k2);
    }
  }

  /**
   * For ten or eleven digits, the server accepts what the widget sends
   * exactly when the area code has no zero and the number has ten digits,
   * or eleven with a 9 after the area code.
   */
  lemma FormattedPhoneAcceptedExactly(value: string)
    requires 10 <= |Digits(value)| <= 11
    ensures var n := Digits(value);
            PhoneMatches(StripWhitespace(FormatPhone(value))) <==>
            n[0] != '0' && n[1] != '0' && (|n| == 10 || n[2] == '9')
  {
    var n := Digits(value);
    if n[0] != '0' && n[1] != '0' && (|n| == 10 || n[2] == '9') {
      FormattedPhoneAccepted(value);
    } else if n[0] == '0' || n[1] == '0' {
      AreaCodeZeroRefused(value);
    } else {
      ElevenDigitsNeedNine(value);
    }
  }
}
