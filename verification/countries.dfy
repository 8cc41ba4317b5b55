/** An optional value: Kotlin's nullable type `T?`. */
module Options {

  datatype Option<+T> = None | Some(value: T)
}

/**
 The country list the dropdown is filled from. `CountryCode` itself is not
 part of this model; only its dial code (`code`, such as `"+91"`) and its
 display name are used here, and the list is taken as an arbitrary sequence.
 */
module Countries {
  import opened Options

  datatype CountryCode = CountryCode(code: string, name: string)

  /** The dial code the screen preselects: India. */
  const DefaultCode: string := "+91"

  /** The position `find` stops at: the first entry whose dial code is
      `code`, or `|countries|` when there is none. */
  function FirstIndexOf(countries: seq<CountryCode>, code: string): (k: nat)
    ensures k <= |countries|
    ensures forall j :: 0 <= j < k ==> countries[j].code != code
    ensures k < |countries| ==> countries[k].code == code
  {
    if |countries| == 0 then 0
    else if countries[0].code == code then 0
    else 1 + FirstIndexOf(countries[1..], code)
  }

  /** `countries.find { it.code == code }`: the first entry whose dial code
      is `code`, or nothing when no entry has it. */
  function FindByCode(countries: seq<CountryCode>, code: string): (r: Option<CountryCode>)
    ensures r.None? <==> forall i :: 0 <= i < |countries| ==> countries[i].code != code
    ensures r.Some? ==> r.value in countries && r.value.code == code
    ensures r.Some? ==> exists k :: 0 <= k < |countries| && countries[k] == r.value
                          && forall j :: 0 <= j < k ==> countries[j].code != code
  {
    var k := FirstIndexOf(countries, code);
    if k < |countries| then Some(countries[k]) else None
  }

  /** The selection a fresh screen starts with: the first default entry if
      the list holds one, otherwise no selection at all. */
  function InitialSelection(countries: seq<CountryCode>): (r: Option<CountryCode>)
    ensures r.Some? ==> r.value in countries && r.value.code == DefaultCode
    ensures r.None? ==> forall c :: c in countries ==> c.code != DefaultCode
    ensures r.Some? ==> exists k :: 0 <= k < |countries| && countries[k] == r.value
                          && forall j :: 0 <= j < k ==> countries[j].code != DefaultCode
  {
    FindByCode(countries, DefaultCode)
  }
}
