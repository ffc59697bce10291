/** Decimal text: `std::to_string`, `std::stoi` and formatted extraction of an `int` from a stream. */
module Decimal {
  import opened Wrappers

  const INT_MAX := 0x7FFF_FFFF
  const INT_MIN := -0x8000_0000

  /** The two exceptions of `std::stoi`. */
  datatype StoiError = InvalidArgument | OutOfRange

  predicate IsDigit(c: char) {
    '0' <= c <= '9'
  }

  function DigitOf(c: char): (d: nat)
    requires IsDigit(c)
  {
    c as int - '0' as int
  }

  /** `isspace` in the C locale. */
  predicate IsSpace(c: char) {
    c in [' ', '\t', '\n', '\U{0B}', '\U{0C}', '\r']
  }

  function ToString(n: nat): (s: string) {
    var digit := "0123456789"[n % 10];
    if n < 10 then [digit] else ToString(n / 10) + [digit]
  }

  function LeadingSpaces(s: string): (n: nat)
    ensures n <= |s|
  {
    if s != "" && IsSpace(s[0]) then 1 + LeadingSpaces(s[1..]) else 0
  }

  function LeadingDigits(s: string): (n: nat)
    ensures n <= |s|
    ensures forall i | 0 <= i < n :: IsDigit(s[i])
    ensures n < |s| ==> !IsDigit(s[n])
  {
    if s != "" && IsDigit(s[0]) then 1 + LeadingDigits(s[1..]) else 0
  }

  function DigitsValue(s: string): (v: nat)
    requires forall i | 0 <= i < |s| :: IsDigit(s[i])
  {
    if s == "" then 0
    else DigitsValue(s[..|s| - 1]) * 10 + DigitOf(s[|s| - 1])
  }

  /** `std::stoi(s, &processed)`: the value and the number of characters read. */
  function Stoi(s: string): (r: Result<(int, nat), StoiError>) {
    var spaces := LeadingSpaces(s);
    var signed := spaces < |s| && s[spaces] in ['+', '-'];
    var start := if signed then spaces + 1 else spaces;
    var digits := LeadingDigits(s[start..]);
    var magnitude: int := DigitsValue(s[start..][..digits]);
    var value: int := if signed && s[spaces] == '-' then -magnitude else magnitude;
    if digits == 0 then Err(InvalidArgument)
    else if value < INT_MIN || INT_MAX < value then Err(OutOfRange)
    else Ok((value, start + digits))
  }

  /** `stream >> i` for an `int i`: the value and the unread text, or None when the stream fails. */
  function ExtractInt(s: string): (r: Option<(int, string)>) {
    match Stoi(s)
    case Ok((value, processed)) =>
      assert processed <= |s|;
      Some((value, s[processed..]))
    case Err(_) => None
  }

  /** The printed form of a number reads back as that number, whatever non-digit follows it. */
  lemma {:induction false} ToStringRoundTrip(n: nat)
    ensures forall i | 0 <= i < |ToString(n)| :: IsDigit(ToString(n)[i])
    ensures |ToString(n)| > 0
    ensures DigitsValue(ToString(n)) == n
    ensures n > 0 ==> ToString(n)[0] != '0'
    ensures n < 10 ==> |ToString(n)| == 1
  {
    if n >= 10 {
      ToStringRoundTrip(n / 10);
      assert ToString(n)[..|ToString(n)| - 1] == ToString(n / 10);
    }
  }

  lemma {:induction false} LeadingDigitsOf(digits: string, rest: string)
    requires forall i | 0 <= i < |digits| :: IsDigit(digits[i])
    requires rest == "" || !IsDigit(rest[0])
    ensures LeadingDigits(digits + rest) == |digits|
  {
    if digits == "" {
      assert digits + rest == rest;
    } else {
      assert (digits + rest)[1..] == digits[1..] + rest;
      LeadingDigitsOf(digits[1..], rest);
    }
  }

  lemma DigitIsPlain(c: char)
    requires IsDigit(c)
    ensures !IsSpace(c) && c !in ['+', '-']
  {
  }

  lemma StoiStopsAfterDigits(digits: string, rest: string)
    requires digits != "" && forall i | 0 <= i < |digits| :: IsDigit(digits[i])
    requires rest == "" || !IsDigit(rest[0])
    ensures Stoi(digits + rest) ==
      if DigitsValue(digits) <= INT_MAX then Ok((DigitsValue(digits), |digits|)) else Err(OutOfRange)
  {
    hide DigitsValue, LeadingDigits, LeadingSpaces, IsDigit, IsSpace;
    var s := digits + rest;
    LeadingDigitsOf(digits, rest);
    DigitIsPlain(digits[0]);
    NoLeadingSpaces(s);
    assert s[0] == digits[0] && s[0..] == s && s[..|digits|] == digits;
  }

  lemma NoLeadingSpaces(s: string)
    requires s != "" && !IsSpace(s[0])
    ensures LeadingSpaces(s) == 0
  {
    hide IsSpace;
  }

  /** Plain digits, leading zeros included, are read to the end. */
  lemma {:induction false} StoiDigits(s: string)
    requires s != "" && forall i | 0 <= i < |s| :: IsDigit(s[i])
    ensures Stoi(s) == if DigitsValue(s) <= INT_MAX then Ok((DigitsValue(s), |s|)) else Err(OutOfRange)
  {
    hide Stoi, DigitsValue;
    StoiStopsAfterDigits(s, "");
    assert s + "" == s;
  }

  /** `stoi` undoes `to_string` exactly on the numbers an `int` can hold. */
  lemma StoiToString(n: nat, rest: string)
    requires rest == "" || !IsDigit(rest[0])
    ensures Stoi(ToString(n) + rest) == if n <= INT_MAX then Ok((n, |ToString(n)|)) else Err(OutOfRange)
  {
    hide Stoi, ToString, DigitsValue;
    ToStringRoundTrip(n);
    StoiStopsAfterDigits(ToString(n), rest);
  }

  /** A leading blank only shifts the count of characters read. */
  lemma StoiSkipsBlank(s: string)
    requires s != "" && !IsSpace(s[0])
    ensures Stoi(" " + s) == match Stoi(s) case Ok((v, processed)) => Ok((v, processed + 1)) case Err(e) => Err(e)
  {
    hide LeadingDigits, DigitsValue;
    var t := " " + s;
    assert t[1..] == s && LeadingSpaces(s) == 0;
    var start := if s[0] in ['+', '-'] then 1 else 0;
    assert t[start + 1..] == s[start..];
  }

  /** A printed number is extracted from a stream exactly when an `int` can hold it, after at most one blank. */
  lemma ExtractToString(n: nat, blank: string, rest: string)
    requires blank in ["", " "]
    requires rest == "" || !IsDigit(rest[0])
    ensures ExtractInt(blank + ToString(n) + rest) == if n <= INT_MAX then Some((n, rest)) else None
  {
    hide Stoi, ToString, DigitsValue;
    var s := ToString(n) + rest;
    ToStringRoundTrip(n);
    StoiToString(n, rest);
    assert s[|ToString(n)|..] == rest;
    if blank == "" {
      assert blank + ToString(n) + rest == s;
    } else {
      StoiSkipsBlank(s);
      assert blank + ToString(n) + rest == " " + s;
      assert (" " + s)[1 + |ToString(n)|..] == rest;
    }
  }
}
