/**
 The submit-button path of the screen: check the selected country and the
 typed phone number, and build the `wa.me` deep link for a number that
 passes. The checks run in a fixed order and the first one that fails
 decides the verdict. The link is the verdict's payload; handing it to the
 platform's link launcher is not part of this model.
 */
module Validator {
  import opened Options
  import opened Text
  import opened Countries

  /** What one press of the submit button comes to. */
  datatype Verdict =
    | NoCountrySelected
    | EmptyNumber
    | BadFormat
    | Valid(url: string)

  /** Bounds on the length of the trimmed number, both inclusive. */
  const MinLength: nat := 10
  const MaxLength: nat := 15

  const LinkPrefix: string := "https://wa.me/"

  /** The format rule as a property of the trimmed number. */
  predicate WellFormed(number: string) {
    MinLength <= |number| <= MaxLength && AllDigits(number)
  }

  /** `number.matches(Regex("^[0-9]+$"))`: one or more digits and nothing else. */
  function MatchesDigits(number: string): (b: bool)
    ensures b <==> |number| > 0 && AllDigits(number)
  {
    |number| > 0 && IsDigit(number[0]) && (|number| == 1 || MatchesDigits(number[1..]))
  }

  /** `"https://wa.me/$countryCode$cleanNumber"`, where the dial code loses
      every `'+'` and the number loses every leading `'0'`. */
  function Link(code: string, number: string): string {
    LinkPrefix + RemoveChar(code, '+') + TrimStartChar(number, '0')
  }

  /** The checks made on the already trimmed `number`, first failure wins:
      no country, then an empty number, then a length outside 10..15 or a
      non-digit. The length is taken before leading zeros are stripped. */
  function Check(selected: Option<CountryCode>, number: string): (v: Verdict)
    ensures selected.None? ==> v == NoCountrySelected
    ensures v == EmptyNumber <==> selected.Some? && number == []
    ensures v == BadFormat <==> selected.Some? && number != [] && !WellFormed(number)
    ensures v.Valid? <==> selected.Some? && WellFormed(number)
    ensures v.Valid? ==> v.url == Link(selected.value.code, number)
  {
    if selected.None? then NoCountrySelected
    else if |number| == 0 then EmptyNumber
    else if |number| < MinLength || |number| > MaxLength || !MatchesDigits(number) then BadFormat
    else Valid(Link(selected.value.code, number))
  }

  /** `validateAndCheckWhatsApp` together with the link `openWhatsApp`
      builds: the typed input is trimmed and then checked. Blank input of
      any length is an empty number. */
  function Validate(selected: Option<CountryCode>, input: string): (v: Verdict)
    ensures selected.None? ==> v == NoCountrySelected
    ensures v == EmptyNumber <==> selected.Some? && AllWhitespace(input)
    ensures v == BadFormat <==>
              selected.Some? && !AllWhitespace(input) && !WellFormed(Trim(input))
    ensures v.Valid? <==> selected.Some? && WellFormed(Trim(input))
    ensures v.Valid? ==> v.url == Link(selected.value.code, Trim(input))
  {
    Check(selected, Trim(input))
  }

  /** `k` zero digits. */
  function Zeros(k: nat): (z: string)
    ensures |z| == k && forall i :: 0 <= i < k ==> z[i] == '0'
  {
    seq(k, _ => '0')
  }

  /** Stripping leading zeros from a digit string loses nothing but zeros:
      the result is digits only, does not start with `'0'`, and putting the
      stripped zeros back in front gives the original number. */
  lemma {:induction false} StripZerosRoundTrip(number: string)
    requires AllDigits(number)
    ensures var clean := TrimStartChar(number, '0');
      && AllDigits(clean)
      && (|clean| > 0 ==> clean[0] != '0')
      && Zeros(|number| - |clean|) + clean == number
  {
    var clean := TrimStartChar(number, '0');
    var k := |number| - |clean|;
    assert clean == number[k..];
    forall i | 0 <= i < |clean| ensures IsDigit(clean[i]) {
      assert clean[i] == number[k + i];
    }
    assert number[..k] == Zeros(k);
    assert number == number[..k] + number[k..];
  }

  /** A dial code as the country list stores it: `'+'` and then digits. */
  predicate WellFormedDialCode(code: string) {
    |code| >= 2 && code[0] == '+' && AllDigits(code[1..])
  }

  /** Removing `'+'` from a well-formed dial code leaves its digits. */
  lemma {:induction false} DialDigits(code: string)
    requires WellFormedDialCode(code)
    ensures RemoveChar(code, '+') == code[1..]
  {
    assert code == [code[0]] + code[1..];
    forall i | 0 <= i < |code[1..]| ensures code[1..][i] != '+' {
      assert IsDigit(code[1..][i]);
    }
    assert '+' !in code[1..];
    RemoveCharAppend([code[0]], code[1..], '+');
  }

  /** The three parts of a concatenation, read back by slicing. */
  lemma ThreeParts(p: string, d: string, n: string)
    ensures (p + d + n)[..|p|] == p
    ensures (p + d + n)[|p|..|p| + |d|] == d
    ensures (p + d + n)[|p| + |d|..] == n
    ensures (p + d + n)[|p|..] == d + n
  {
  }

  lemma DigitsConcat(d: string, n: string)
    requires AllDigits(d) && AllDigits(n)
    ensures AllDigits(d + n)
  {
    forall i | 0 <= i < |d + n| ensures IsDigit((d + n)[i]) {
      if i < |d| { assert (d + n)[i] == d[i]; }
      else { assert (d + n)[i] == n[i - |d|]; }
    }
  }

  /** How `url` reads back against the dial code and number it was built
      from: after the fixed prefix come the dial code's digits and then the
      number without its leading zeros, so everything after the prefix is a
      digit and the number is recovered by putting the zeros back. */
  predicate ReadsBack(url: string, code: string, number: string) {
    var start := |LinkPrefix| + |code| - 1;
    && |code| >= 1
    && start <= |url|
    && url[..|LinkPrefix|] == LinkPrefix
    && url[|LinkPrefix|..start] == code[1..]
    && AllDigits(url[|LinkPrefix|..])
    && |url| - start <= |number|
    && (|url| > start ==> url[start] != '0')
    && Zeros(|number| - (|url| - start)) + url[start..] == number
  }

  /** For a dial code of the usual shape and a number of digits, the link
      reads back to its parts. */
  lemma {:induction false} LinkShape(code: string, number: string)
    requires WellFormedDialCode(code) && AllDigits(number)
    ensures ReadsBack(Link(code, number), code, number)
  {
    var n := TrimStartChar(number, '0');
    DialDigits(code);
    StripZerosRoundTrip(number);
    assert Link(code, number) == LinkPrefix + code[1..] + n;
    ThreeParts(LinkPrefix, code[1..], n);
    DigitsConcat(code[1..], n);
  }

  /** For a dial code of the usual shape, an input whose trimmed form is
      10 to 15 digits is valid, and its link reads back to the dial code and
      the trimmed input. */
  lemma ValidLinkShape(c: CountryCode, input: string)
    requires WellFormedDialCode(c.code) && WellFormed(Trim(input))
    ensures Validate(Some(c), input).Valid?
    ensures ReadsBack(Validate(Some(c), input).url, c.code, Trim(input))
  {
    LinkShape(c.code, Trim(input));
  }

  /** Whitespace around the number never changes the verdict. */
  lemma PaddingIgnored(selected: Option<CountryCode>, before: string, number: string, after: string)
    requires AllWhitespace(before) && AllWhitespace(after)
    requires |number| > 0 ==> !IsWhitespace(number[0]) && !IsWhitespace(number[|number| - 1])
    ensures Validate(selected, before + number + after) == Validate(selected, number)
  {
    TrimPadded(before, number, after);
    TrimmedAlready(number);
  }

  /** A well-formed number of digits, with a dial code of the usual shape,
      gets the link made of the code's digits and the number after its
      first `k` characters, all zeros, are dropped. */
  lemma {:induction false} ValidDigits(c: CountryCode, number: string, k: nat, url: string)
    requires WellFormedDialCode(c.code) && WellFormed(number)
    requires k <= |number|
    requires forall i :: 0 <= i < k ==> number[i] == '0'
    requires k < |number| ==> number[k] != '0'
    requires url == LinkPrefix + c.code[1..] + number[k..]
    ensures Validate(Some(c), number) == Valid(url)
  {
    TrimmedAlready(number);
    DialDigits(c.code);
    TrimStartByStopsAt(number, x => x == '0', k);
  }

  /** An Indian number. */
  lemma ExampleIndia()
    ensures Validate(Some(CountryCode("+91", "India")), "9876543210")
              == Valid("https://wa.me/919876543210")
  {
    ValidDigits(CountryCode("+91", "India"), "9876543210", 0, "https://wa.me/919876543210");
  }

  /** The same number typed with whitespace around it. */
  lemma ExampleIndiaPadded()
    ensures Validate(Some(CountryCode("+91", "India")), " " + "9876543210" + "\n")
              == Valid("https://wa.me/919876543210")
  {
    PaddingIgnored(Some(CountryCode("+91", "India")), " ", "9876543210", "\n");
    ExampleIndia();
  }

  /** Zeros are stripped only after the length check: two leading zeros go. */
  lemma ExampleLeadingZeros()
    ensures Validate(Some(CountryCode("+1", "USA")), "0012345678")
              == Valid("https://wa.me/112345678")
  {
    ValidDigits(CountryCode("+1", "USA"), "0012345678", 2, "https://wa.me/112345678");
  }

  /** Ten zeros pass the length check and leave an empty number segment. */
  lemma ExampleAllZeros()
    ensures Validate(Some(CountryCode("+1", "USA")), "0000000000")
              == Valid("https://wa.me/1")
  {
    ValidDigits(CountryCode("+1", "USA"), "0000000000", 10, "https://wa.me/1");
  }

  /** Fifteen digits are the most the check accepts. */
  lemma ExampleFifteenDigits()
    ensures Validate(Some(CountryCode("+1", "USA")), "123456789012345")
              == Valid("https://wa.me/1123456789012345")
  {
    ValidDigits(CountryCode("+1", "USA"), "123456789012345", 0, "https://wa.me/1123456789012345");
  }

  /** A trimmed number whose length is outside the bounds is rejected,
      whatever its characters. */
  lemma {:induction false} LengthRejected(c: CountryCode, number: string)
    requires |number| > 0 && !IsWhitespace(number[0]) && !IsWhitespace(number[|number| - 1])
    requires |number| < MinLength || |number| > MaxLength
    ensures Validate(Some(c), number) == BadFormat
  {
    TrimmedAlready(number);
  }

  /** A trimmed number with a character outside `0`..`9` is rejected,
      whatever its length. */
  lemma {:induction false} NonDigitRejected(c: CountryCode, number: string, i: nat)
    requires i < |number| && !IsDigit(number[i])
    requires !IsWhitespace(number[0]) && !IsWhitespace(number[|number| - 1])
    ensures Validate(Some(c), number) == BadFormat
  {
    TrimmedAlready(number);
  }

  /** Nine digits are one short of the bound, sixteen one past it. */
  lemma ExampleOutOfBounds()
    ensures Validate(Some(CountryCode("+1", "USA")), "123456789") == BadFormat
    ensures Validate(Some(CountryCode("+1", "USA")), "1234567890123456") == BadFormat
  {
    LengthRejected(CountryCode("+1", "USA"), "123456789");
    LengthRejected(CountryCode("+1", "USA"), "1234567890123456");
  }

  /** A letter fails the format check even at an accepted length. */
  lemma ExampleLetters()
    ensures Validate(Some(CountryCode("+1", "USA")), "12345abcde") == BadFormat
  {
    NonDigitRejected(CountryCode("+1", "USA"), "12345abcde", 5);
  }

  /** Blank input is an empty number; with no country nothing else is
      looked at. */
  lemma ExampleBlankAndNoCountry()
    ensures Validate(Some(CountryCode("+1", "USA")), " \t ") == EmptyNumber
    ensures Validate(None, "9876543210") == NoCountrySelected
  {
    assert AllWhitespace(" \t ");
  }
}
