/**
 * The synchronous checks of `POST /api/create-booking`, in the order the
 * handler runs them: all five fields present, then the customer name, then
 * the phone number with its white space removed.
 */
module Validation {
  import opened Wrappers
  import opened Http
  import opened Text

  /** The JSON body; an absent field is the empty string. */
  datatype BookingRequest = BookingRequest(
    serviceId: string, dateTime: string, customerName: string, customerPhone: string, recaptchaToken: string)

  const MissingFields := HttpError(400, "Todos os campos são obrigatórios")
  const InvalidName := HttpError(400, "Nome inválido.")
  const InvalidPhone := HttpError(400, "Número de telefone inválido")

  predicate AllPresent(req: BookingRequest) {
    req.serviceId != [] && req.dateTime != [] && req.customerName != [] &&
    req.customerPhone != [] && req.recaptchaToken != []
  }

  // ---------------------------------------------------------------------
  // The name: at most 100 characters, each in [a-zA-ZÀ-ÿ\s]
  // ---------------------------------------------------------------------

  /** One character of the class `[a-zA-ZÀ-ÿ\s]`: ASCII letters, U+00C0..U+00FF, white space. */
  predicate NameChar(c: char) {
    'a' <= c <= 'z' || 'A' <= c <= 'Z' || 'À' <= c <= 'ÿ' || IsSpace(c)
  }

  /** `^[a-zA-ZÀ-ÿ\s]+$` together with the 100-character limit. */
  predicate ValidName(name: string): (r: bool)
    ensures r ==> name != [] && forall i :: 0 <= i < |name| ==> !IsDigit(name[i])
  {
    0 < |name| <= 100 && forall i :: 0 <= i < |name| ==> NameChar(name[i])
  }

  // ---------------------------------------------------------------------
  // The phone: `^\(?[1-9]{2}\)?\s?9?\d{4}-?\d{4}$` after removing `\s`
  // ---------------------------------------------------------------------

  /** `phone.replace(/\s/g, "")`. */
  function StripWhitespace(s: string): (r: string)
    ensures |r| <= |s|
    ensures forall i :: 0 <= i < |r| ==> !IsSpace(r[i])
    ensures (forall i :: 0 <= i < |s| ==> !IsSpace(s[i])) ==> r == s
  {
    if s == [] then [] else (if IsSpace(s[0]) then [] else [s[0]]) + StripWhitespace(s[1..])
  }

  lemma {:induction false} StripWhitespaceAppend(a: string, b: string)
    ensures StripWhitespace(a + b) == StripWhitespace(a) + StripWhitespace(b)
  {
    if a == [] {
      assert a + b == b;
    } else {
      assert (a + b)[1..] == a[1..] + b;
      StripWhitespaceAppend(a[1..], b);
    }
  }

  /** The character classes the phone pattern uses. */
  datatype Class = Exactly(c: char) | NonZeroDigit | AnyDigit | Space

  predicate InClass(c: char, k: Class) {
    match k
    case Exactly(x) => c == x
    case NonZeroDigit => '1' <= c <= '9'
    case AnyDigit => IsDigit(c)
    case Space => IsSpace(c)
  }

  function Optional(present: bool, k: Class): seq<Class> {
    if present then [k] else []
  }

  /**
   * The phone pattern with each of its five optional parts (`\(`, `\)`,
   * `\s`, `9`, `-`) either taken or skipped.
   */
  function PhonePattern(open: bool, close: bool, space: bool, nine: bool, hyphen: bool): (p: seq<Class>)
    ensures |p| == 10 + (if open then 1 else 0) + (if close then 1 else 0) + (if space then 1 else 0) +
                    (if nine then 1 else 0) + (if hyphen then 1 else 0)
  {
    Optional(open, Exactly('(')) + [NonZeroDigit, NonZeroDigit] + Optional(close, Exactly(')')) +
    Optional(space, Space) + Optional(nine, Exactly('9')) +
    [AnyDigit, AnyDigit, AnyDigit, AnyDigit] + Optional(hyphen, Exactly('-')) +
    [AnyDigit, AnyDigit, AnyDigit, AnyDigit]
  }

  /** `s` spells out `p`, one character per class, with nothing before or after. */
  predicate Fits(s: string, p: seq<Class>) {
    |s| == |p| && forall i :: 0 <= i < |s| ==> InClass(s[i], p[i])
  }

  /** The anchored regular expression: some choice of the optional parts fits the whole text. */
  predicate PhoneMatches(s: string): (r: bool)
    ensures r ==> 10 <= |s| <= 15
  {
    exists open: bool, close: bool, space: bool, nine: bool, hyphen: bool ::
      Fits(s, PhonePattern(open, close, space, nine, hyphen))
  }

  /** The number of places of `p` that only a digit fills. */
  function DigitPlaces(p: seq<Class>): nat {
    if p == [] then 0
    else (match p[0] case NonZeroDigit => 1 case AnyDigit => 1 case Exactly(c) => if IsDigit(c) then 1 else 0 case Space => 0)
         + DigitPlaces(p[1..])
  }

  lemma {:induction false} DigitPlacesAppend(a: seq<Class>, b: seq<Class>)
    ensures DigitPlaces(a + b) == DigitPlaces(a) + DigitPlaces(b)
  {
    if a == [] {
      assert a + b == b;
    } else {
      assert (a + b)[1..] == a[1..] + b;
      DigitPlacesAppend(a[1..], b);
    }
  }

  /** A text that fits `p` has exactly as many digits as `p` has digit places. */
  lemma {:induction false} FitsDigits(s: string, p: seq<Class>)
    requires Fits(s, p)
    ensures |Digits(s)| == DigitPlaces(p)
  {
    if s != [] {
      assert Fits(s[1..], p[1..]) by {
        forall i | 0 <= i < |s[1..]|
          ensures InClass(s[1..][i], p[1..][i])
        {
          assert InClass(s[i + 1], p[i + 1]);
        }
      }
      FitsDigits(s[1..], p[1..]);
      assert InClass(s[0], p[0]);
    }
  }

  /** The pattern has ten digit places, eleven when the optional `9` is taken. */
  lemma PhonePatternDigitPlaces(open: bool, close: bool, space: bool, nine: bool, hyphen: bool)
    ensures DigitPlaces(PhonePattern(open, close, space, nine, hyphen)) == if nine then 11 else 10
  {
    var four := [AnyDigit, AnyDigit, AnyDigit, AnyDigit];
    var a := Optional(open, Exactly('('));
    var b := [NonZeroDigit, NonZeroDigit];
    var c := Optional(close, Exactly(')'));
    var d := Optional(space, Space);
    var e := Optional(nine, Exactly('9'));
    var f := Optional(hyphen, Exactly('-'));
    PieceDigitPlaces(open, close, space, nine, hyphen);
    var s1 := a + b;
    DigitPlacesAppend(a, b);
    var s2 := s1 + c;
    DigitPlacesAppend(s1, c);
    var s3 := s2 + d;
    DigitPlacesAppend(s2, d);
    var s4 := s3 + e;
    DigitPlacesAppend(s3, e);
    var s5 := s4 + four;
    DigitPlacesAppend(s4, four);
    var s6 := s5 + f;
    DigitPlacesAppend(s5, f);
    var s7 := s6 + four;
    DigitPlacesAppend(s6, four);
    assert PhonePattern(open, close, space, nine, hyphen) == s7;
  }

  lemma PieceDigitPlaces(open: bool, close: bool, space: bool, nine: bool, hyphen: bool)
    ensures DigitPlaces(Optional(open, Exactly('('))) == 0 && DigitPlaces(Optional(close, Exactly(')'))) == 0
    ensures DigitPlaces(Optional(space, Space)) == 0 && DigitPlaces(Optional(hyphen, Exactly('-'))) == 0
    ensures DigitPlaces(Optional(nine, Exactly('9'))) == if nine then 1 else 0
    ensures DigitPlaces([AnyDigit, AnyDigit, AnyDigit, AnyDigit]) == 4 && DigitPlaces([NonZeroDigit, NonZeroDigit]) == 2
  {
    OptionalDigitPlaces(open, Exactly('('));
    OptionalDigitPlaces(close, Exactly(')'));
    OptionalDigitPlaces(space, Space);
    OptionalDigitPlaces(nine, Exactly('9'));
    OptionalDigitPlaces(hyphen, Exactly('-'));
  }

  lemma OptionalDigitPlaces(present: bool, k: Class)
    ensures DigitPlaces(Optional(present, k)) == if present then DigitPlaces([k]) else 0
  {
  }

  /** The server takes exactly ten- or eleven-digit numbers, written in 10 to 15 characters. */
  lemma PhoneMatchesShape(s: string)
    ensures PhoneMatches(s) ==> |Digits(s)| == 10 || |Digits(s)| == 11
    ensures PhoneMatches(s) ==> 10 <= |s| <= 15
  {
    if PhoneMatches(s) {
      var open: bool, close: bool, space: bool, nine: bool, hyphen: bool :|
        Fits(s, PhonePattern(open, close, space, nine, hyphen));
      FitsDigits(s, PhonePattern(open, close, space, nine, hyphen));
      PhonePatternDigitPlaces(open, close, space, nine, hyphen);
    }
  }

  // ---------------------------------------------------------------------
  // The three checks, in order
  // ---------------------------------------------------------------------

  /** The first failing check's response, or None when all three pass. */
  function Validate(req: BookingRequest): (r: Option<HttpError>)
    ensures !AllPresent(req) ==> r == Some(MissingFields)
    ensures AllPresent(req) && !ValidName(req.customerName) ==> r == Some(InvalidName)
    ensures AllPresent(req) && ValidName(req.customerName) && !PhoneMatches(StripWhitespace(req.customerPhone)) ==>
              r == Some(InvalidPhone)
    ensures r.None? <==>
              AllPresent(req) && ValidName(req.customerName) && PhoneMatches(StripWhitespace(req.customerPhone))
  {
    if !AllPresent(req) then Some(MissingFields)
    else if |req.customerName| > 100 || !ValidName(req.customerName) then Some(InvalidName)
    else if !PhoneMatches(StripWhitespace(req.customerPhone)) then Some(InvalidPhone)
    else None
  }

  /** A name with a digit in it is refused, after the presence check and before the phone. */
  lemma NameWithDigitsRefused(req: BookingRequest)
    requires AllPresent(req) && req.customerName == "John123"
    ensures Validate(req) == Some(InvalidName)
  {
    assert !NameChar(req.customerName[4]);
  }

  /** A three-digit phone is refused. */
  lemma ShortPhoneRefused(req: BookingRequest)
    requires AllPresent(req) && ValidName(req.customerName) && req.customerPhone == "123"
    ensures Validate(req) == Some(InvalidPhone)
  {
    assert StripWhitespace("123") == "123";
    PhoneMatchesShape("123");
  }

  /** Accented names pass: "José Conceição" is accepted as a name. */
  lemma AccentedNameAccepted()
    ensures ValidName("José Conceição")
  {
  }

  /** The class À-ÿ also lets through the signs × (U+00D7) and ÷ (U+00F7). */
  lemma NameClassTakesSigns()
    ensures ValidName("A×B÷C")
  {
  }
}
