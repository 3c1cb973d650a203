/** The parameter type table of the router (REGEX_TYPES): for each type token
    the value-cast function and the sub-pattern that goes inside the
    parameter's capture group, and the meaning of those sub-patterns as
    character classes. Custom tokens are regular expressions used verbatim;
    their meaning is supplied from outside (see module Matching). */
module RegexTypes {
  import opened Wrappers

  /** The cast a Parameter carries: Python's str, int or float. */
  datatype Cast = StrCast | IntCast | FloatCast

  /** The character classes of the four built-in sub-patterns. */
  datatype CharClass =
    | NotSlash    // [^/]   used by 'string'
    | Digit       // \d     used by 'int'
    | DigitOrDot  // [0-9\\.]  (digits, backslash, dot) used by 'number'
    | Letter      // [A-Za-z]  used by 'alpha'

  /** What a capture group holds: a built-in class repeated one or more times
      (`+`), or a custom regular expression taken verbatim from the template. */
  datatype SubPattern = Repeat(cls: CharClass) | Custom(regex: string)

  /** A cast parameter value. Python's float is not modelled: a float value
      is kept as the text that float() accepted. */
  datatype Value = Str(s: string) | Int(n: nat) | Num(text: string)

  const BuiltinNames: set<string> := {"string", "int", "number", "alpha"}

  predicate InClass(cls: CharClass, c: char) {
    match cls
    case NotSlash => c != '/'
    case Digit => IsDigit(c)
    case DigitOrDot => IsDigit(c) || c == '\\' || c == '.'
    case Letter => 'A' <= c <= 'Z' || 'a' <= c <= 'z'
  }

  predicate IsDigit(c: char) { '0' <= c <= '9' }

  /** The regular-expression text the source writes for a sub-pattern. */
  function RegexText(sub: SubPattern): string {
    match sub
    case Repeat(NotSlash) => "[^/]+"
    case Repeat(Digit) => "\\d+"
    case Repeat(DigitOrDot) => "[0-9\\\\.]+"
    case Repeat(Letter) => "[A-Za-z]+"
    case Custom(rx) => rx
  }

  /** REGEX_TYPES.get(token, (str, token)): a built-in name gives its fixed
      cast and sub-pattern; any other token is used verbatim as a regular
      expression with the str cast, and is not an error. */
  function TypeOf(token: string): (t: (Cast, SubPattern))
    ensures t.1.Custom? <==> token !in BuiltinNames
    ensures t.1.Custom? ==> t.0 == StrCast && RegexText(t.1) == token
    ensures t.0 == IntCast <==> token == "int"
    ensures t.0 == FloatCast <==> token == "number"
    ensures token == "string" ==> t == (StrCast, Repeat(NotSlash))
    ensures token == "int" ==> t == (IntCast, Repeat(Digit))
    ensures token == "number" ==> t == (FloatCast, Repeat(DigitOrDot))
    ensures token == "alpha" ==> t == (StrCast, Repeat(Letter))
  {
    if token == "string" then (StrCast, Repeat(NotSlash))
    else if token == "int" then (IntCast, Repeat(Digit))
    else if token == "number" then (FloatCast, Repeat(DigitOrDot))
    else if token == "alpha" then (StrCast, Repeat(Letter))
    else (StrCast, Custom(token))
  }

  predicate AllDigits(t: string) {
    forall k :: 0 <= k < |t| ==> IsDigit(t[k])
  }

  /** The value of a string of decimal digits, most significant first. */
  function DecimalValue(t: string): nat
    requires AllDigits(t)
  {
    if t == [] then 0
    else 10 * DecimalValue(t[..|t| - 1]) + (t[|t| - 1] as int - '0' as int)
  }

  /** The canonical decimal text of a natural number (no leading zero). */
  function DecimalText(n: nat): (t: string)
    ensures t != [] && AllDigits(t)
  {
    if n < 10 then [('0' as int + n) as char]
    else DecimalText(n / 10) + [('0' as int + n % 10) as char]
  }

  /** What float() accepts among strings over digits, '\\' and '.': at least
      one digit, at most one dot and no backslash ("1.", ".5", "7"). */
  predicate IsFloatLiteral(t: string) {
    && (forall k :: 0 <= k < |t| ==> IsDigit(t[k]) || t[k] == '.')
    && multiset(t)['.'] <= 1
    && exists k :: 0 <= k < |t| && IsDigit(t[k])
  }

  /** Applying a Parameter's cast to the captured text: None is the
      ValueError that int() or float() raises. */
  function ApplyCast(cast: Cast, text: string): (r: Option<Value>)
    ensures cast == StrCast ==> r == Some(Str(text))
    ensures cast == IntCast ==> (r.Some? <==> text != [] && AllDigits(text))
    ensures cast == FloatCast ==> (r.Some? <==> IsFloatLiteral(text))
    ensures r.Some? && cast == FloatCast ==> r.value == Num(text)
  {
    match cast
    case StrCast => Some(Str(text))
    case IntCast =>
      if text != [] && AllDigits(text) then Some(Int(DecimalValue(text))) else None
    case FloatCast =>
      if IsFloatLiteral(text) then Some(Num(text)) else None
  }

  /** The int cast reads back any number written in decimal. */
  lemma {:induction false} DecimalRoundTrip(n: nat)
    ensures DecimalValue(DecimalText(n)) == n
  {
    var t := DecimalText(n);
    if n >= 10 {
      assert t[..|t| - 1] == DecimalText(n / 10);
      DecimalRoundTrip(n / 10);
    }
  }

  /** Leading zeros do not change the value the int cast gives. */
  lemma {:induction false} LeadingZero(t: string)
    requires AllDigits(t)
    ensures AllDigits("0" + t) && DecimalValue("0" + t) == DecimalValue(t)
  {
    if t != [] {
      assert ("0" + t)[..|"0" + t| - 1] == "0" + t[..|t| - 1];
      LeadingZero(t[..|t| - 1]);
    }
  }

  lemma IntCastOfDecimal(n: nat)
    ensures ApplyCast(IntCast, DecimalText(n)) == Some(Int(n))
  {
    DecimalRoundTrip(n);
  }

  /** A cast never fails on text its own sub-pattern matched, except the
      float cast of 'number', which fails exactly on text float() rejects. */
  lemma CastOfMatchedText(token: string, text: string)
    requires TypeOf(token).1.Repeat?
    requires text != [] && forall k :: 0 <= k < |text| ==> InClass(TypeOf(token).1.cls, text[k])
    ensures token != "number" ==> ApplyCast(TypeOf(token).0, text).Some?
    ensures token == "number" ==>
      (ApplyCast(TypeOf(token).0, text).None? <==>
         ('\\' in text || multiset(text)['.'] > 1 || forall k :: 0 <= k < |text| ==> text[k] == '.'))
  {
    if token == "number" {
      if ApplyCast(TypeOf(token).0, text).None? {
        if '\\' !in text && multiset(text)['.'] <= 1 {
          assert !IsFloatLiteral(text);
          forall k | 0 <= k < |text| ensures text[k] == '.' {
            assert InClass(DigitOrDot, text[k]);
          }
        }
      } else {
        assert IsFloatLiteral(text);
      }
    }
  }
}
