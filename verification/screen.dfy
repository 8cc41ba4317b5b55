/**
 The screen as a whole: the country list, the current selection and the
 exit gate, with the three user events that act on them (picking a
 country, pressing submit, pressing back). Each event touches only its own
 part of the state.
 */
module MainScreen {
  import opened Options
  import opened Text
  import opened Countries
  import opened Validator
  import opened ExitGate

  datatype Screen = Screen(countries: seq<CountryCode>, selected: Option<CountryCode>, gate: Gate)

  /** `onCreate`: the list is shown, the first India entry is preselected
      when the list has one, and the exit gate starts at 0. */
  function Create(countries: seq<CountryCode>): (s: Screen)
    ensures s.countries == countries && s.gate == Initial
    ensures s.selected.Some? <==> exists c :: c in countries && c.code == DefaultCode
    ensures s.selected.Some? ==> s.selected.value in countries && s.selected.value.code == DefaultCode
    ensures s.selected.Some? ==>
              exists k :: 0 <= k < |countries| && countries[k] == s.selected.value
                && forall j :: 0 <= j < k ==> countries[j].code != DefaultCode
  {
    Screen(countries, InitialSelection(countries), Initial)
  }

  /** A click that the dropdown reports as `position`: the entry at
      `position` in the full country list becomes the selection. */
  function PickCountry(s: Screen, position: nat): (s': Screen)
    requires position < |s.countries|
    ensures s'.selected == Some(s.countries[position]) && s'.selected.value in s.countries
    ensures s'.countries == s.countries && s'.gate == s.gate
  {
    s.(selected := Some(s.countries[position]))
  }

  /** The submit button: the verdict for the current selection. The screen
      state is not changed by it. */
  function Submit(s: Screen, input: string): (v: Verdict)
    ensures v == NoCountrySelected <==> s.selected.None?
    ensures v == EmptyNumber <==> s.selected.Some? && AllWhitespace(input)
    ensures v == BadFormat <==>
              s.selected.Some? && !AllWhitespace(input) && !WellFormed(Trim(input))
    ensures v.Valid? ==> WellFormed(Trim(input))
    ensures s.selected.Some? && WellFormed(Trim(input)) ==>
              v == Valid(Link(s.selected.value.code, Trim(input)))
  {
    Validate(s.selected, input)
  }

  /** The back button at clock reading `now`: the hint when at least two
      seconds have passed since the previous press, the exit confirmation
      otherwise, and a screen whose only change is the gate recording `now`. */
  function BackPressed(s: Screen, now: int): (r: (Action, Screen))
    ensures r.0 == ShowHint <==> now - s.gate.backPressedTime >= BackPressInterval
    ensures r.1.countries == s.countries && r.1.selected == s.selected
    ensures r.1.gate.backPressedTime == now
  {
    var o := Press(s.gate, now);
    (o.action, s.(gate := o.next))
  }

  /** Back presses at `times`, in order, on screen `s`: the actions they
      produce and the screen left behind. */
  function BackPressSeries(s: Screen, times: seq<int>): (r: (seq<Action>, Screen))
    ensures |r.0| == |times|
    ensures r.1.countries == s.countries && r.1.selected == s.selected
    decreases |times|
  {
    if times == [] then ([], s)
    else
      var first := BackPressed(s, times[0]);
      var rest := BackPressSeries(first.1, times[1..]);
      ([first.0] + rest.0, rest.1)
  }

  /** Back presses on the screen act exactly as the gate alone replays
      them: the same actions, and the screen keeps the gate's final state.
      So every property of `Replay` holds of the screen's back button. */
  lemma {:induction false} BackPressesReplay(s: Screen, times: seq<int>)
    ensures var run := Replay(s.gate, times);
      BackPressSeries(s, times) == (run.actions, s.(gate := run.final))
    decreases |times|
  {
    if times != [] {
      var first := BackPressed(s, times[0]);
      assert first.1.gate == Press(s.gate, times[0]).next;
      BackPressesReplay(first.1, times[1..]);
    }
  }

  /** After a country is picked, submit checks the input against that
      country: it never asks for a country, and a number that trims to
      10 to 15 digits links under the picked dial code. */
  lemma SubmitAfterPick(s: Screen, position: nat, input: string)
    requires position < |s.countries|
    ensures Submit(PickCountry(s, position), input) == Validate(Some(s.countries[position]), input)
    ensures Submit(PickCountry(s, position), input) != NoCountrySelected
    ensures WellFormed(Trim(input)) ==>
              Submit(PickCountry(s, position), input)
                == Valid(Link(s.countries[position].code, Trim(input)))
  {
  }

  /** Submitting straight away on a fresh screen whose list holds `"+91"`
      links a well-formed number under India's dial code. */
  lemma FreshScreenUsesIndia(countries: seq<CountryCode>, input: string)
    requires exists c :: c in countries && c.code == DefaultCode
    requires WellFormed(Trim(input))
    ensures Submit(Create(countries), input)
              == Valid("https://wa.me/91" + TrimStartChar(Trim(input), '0'))
  {
    DialDigits(DefaultCode);
    assert LinkPrefix + "91" == "https://wa.me/91";
  }

  /** Without a `"+91"` entry nothing is preselected, so submitting before
      picking a country is refused whatever was typed. */
  lemma FreshScreenWithoutIndia(countries: seq<CountryCode>, input: string)
    requires forall c :: c in countries ==> c.code != DefaultCode
    ensures Submit(Create(countries), input) == NoCountrySelected
  {
  }
}
