# WhatsApp number checker — a Dafny model of its core

This is a Dafny model of the one screen the app has. The user first picks a
country dial code from a dropdown; India (`"+91"`) is preselected when the
list has it. They type a phone number and press submit. The screen trims the
number and checks it: a country must be selected, the number must not be
empty, and it must be 10 to 15 characters that are all digits `0`–`9`. If it
passes, the screen builds the `https://wa.me/<dial code digits><number>` deep
link. The link uses the dial code without its `'+'` and the number without
its leading zeros. Separately, the back button is gated. A press less than
2000 ms after the previous back press asks the user to confirm exit. Any
other press shows a "press back again" hint. Every press, whichever action
it takes, becomes the new previous press, and the state starts at 0.

The model is organised in five modules:

- `Text` (`text.dfy`) models the Kotlin string functions the screen calls on
  the JVM:
  - `trim()`, with the JVM whitespace set written out;
  - `trimStart('0')`;
  - `replace("+", "")`.

  `Trim` is pinned down by `TrimIsTheCore`: any split into whitespace, a core
  and whitespace yields that core. This is a definition independent of how
  `Trim` computes its result.
- `Options` and `Countries` (`countries.dfy`) model the nullable selection
  and the list lookup `find { it.code == "+91" }`.
- `Validator` (`validator.dfy`) models the submit path:
  - the verdict `NoCountrySelected | EmptyNumber | BadFormat | Valid(url)`;
  - the checks, in the source's order;
  - the link, together with its read-back property (`ReadsBack`);
  - worked examples.
- `ExitGate` (`exit_gate.dfy`) models the back-press gate as a pure
  transition `Press`, and sequences of presses as `Replay`.
- `MainScreen` (`screen.dfy`) models the screen state (list, selection and
  gate) and the three user events that act on it.

Each clock reading is passed in as the parameter `now`.

Three facts about the exit gate in `MainActivity.kt` shape the model:

- The state is `backPressedTime`, a number that starts at 0 (line 19). A
  first press within 2000 ms of time 0 therefore asks for confirmation
  (`FirstPress`).
- The comparison `backPressedTime + 2000 > now` is strict (line 128): a
  press exactly 2000 ms later shows the hint (`ExampleBoundary`).
- The press time is stored on every press, including one that asks for
  confirmation (line 135). Each press is therefore measured from the press
  just before it (`MeasuredFromPrevious`). Presses at 0, 1000 and 2500 all
  ask for confirmation (`ExampleFromZero`).

## Model

| member | source | states |
|---|---|---|
| Text.Trim | app/src/main/java/com/whatsappchecker/MainActivity.kt:60 | the trimmed number is empty exactly when the input is all whitespace, and otherwise neither begins nor ends with whitespace |
| Text.TrimIsTheCore | app/src/main/java/com/whatsappchecker/MainActivity.kt:60 | any split of the input into leading whitespace, a core with non-whitespace ends, and trailing whitespace has that core as the trimmed number |
| Text.TrimPadded | app/src/main/java/com/whatsappchecker/MainActivity.kt:60 | whitespace typed before and after a number is exactly what trimming removes |
| Text.TrimIdempotent | app/src/main/java/com/whatsappchecker/MainActivity.kt:60 | trimming an already trimmed number changes nothing |
| Text.TrimStartChar | app/src/main/java/com/whatsappchecker/MainActivity.kt:90 | the cleaned number is a suffix of the number, everything dropped before it is `'0'`, and it does not itself start with `'0'` |
| Text.TrimStartCharIdempotent | app/src/main/java/com/whatsappchecker/MainActivity.kt:90 | stripping leading zeros from an already stripped number changes nothing |
| Text.RemoveChar | app/src/main/java/com/whatsappchecker/MainActivity.kt:93 | the cleaned dial code holds no `'+'`, holds every other character of the code, is shorter by exactly the number of `'+'` signs, and is the code itself when it has none |
| Text.RemoveCharAppend | app/src/main/java/com/whatsappchecker/MainActivity.kt:93 | removing `'+'` from two joined strings is removing it from each and joining the results |
| Countries.FirstIndexOf | app/src/main/java/com/whatsappchecker/MainActivity.kt:46 | the position the search stops at has no earlier entry with the code, and holds an entry with the code unless it is the end of the list |
| Countries.FindByCode | app/src/main/java/com/whatsappchecker/MainActivity.kt:46 | nothing is found exactly when no entry has the code; what is found is a list entry with that code and no earlier entry has it |
| Countries.InitialSelection | app/src/main/java/com/whatsappchecker/MainActivity.kt:45-50 | the preselection is the first entry of the list with code `"+91"`, and there is none only when the list has no such entry |
| Validator.MatchesDigits | app/src/main/java/com/whatsappchecker/MainActivity.kt:78 | the regular expression `^[0-9]+$` matches exactly the non-empty strings made only of digits |
| Validator.Check | app/src/main/java/com/whatsappchecker/MainActivity.kt:63-84 | on a trimmed number: no selection refuses first, then an empty number, then a number that is not 10–15 digits; the number is valid exactly when a country is selected and it is 10–15 digits, and the link is then built from that code and number |
| Validator.Validate | app/src/main/java/com/whatsappchecker/MainActivity.kt:59-85 | the same verdicts stated on the raw input: blank input of any length is an empty number, and validity depends only on the trimmed input |
| Validator.Link | app/src/main/java/com/whatsappchecker/MainActivity.kt:90-94 | the deep link: the `https://wa.me/` prefix, the dial code without `'+'`, and the number without leading zeros; its independent description is `ReadsBack`, which `LinkShape` proves it meets |
| Validator.StripZerosRoundTrip | app/src/main/java/com/whatsappchecker/MainActivity.kt:90 | stripping leading zeros from digits leaves digits not starting with `'0'`, and putting the stripped zeros back gives the number again |
| Validator.DialDigits | app/src/main/java/com/whatsappchecker/MainActivity.kt:93 | for a dial code of the form `'+'` then digits, removing `'+'` leaves exactly the digits after the sign |
| Validator.LinkShape | app/src/main/java/com/whatsappchecker/MainActivity.kt:90-94 | the link reads back: fixed prefix, then the dial code's digits, then the number without leading zeros; all digits after the prefix; the number is recovered by restoring the zeros |
| Validator.ValidLinkShape | app/src/main/java/com/whatsappchecker/MainActivity.kt:84-94 | every input that trims to 10–15 digits is valid under a dial code of the usual shape, and its link reads back to that code and the trimmed input |
| Validator.PaddingIgnored | app/src/main/java/com/whatsappchecker/MainActivity.kt:60 | whitespace around the number never changes the verdict |
| Validator.ValidDigits | app/src/main/java/com/whatsappchecker/MainActivity.kt:78-94 | a 10–15 digit number whose first `k` characters are its leading zeros gets the link of the code's digits and the number after those `k` characters |
| Validator.LengthRejected | app/src/main/java/com/whatsappchecker/MainActivity.kt:78 | a trimmed number shorter than 10 or longer than 15 is a format error whatever its characters |
| Validator.NonDigitRejected | app/src/main/java/com/whatsappchecker/MainActivity.kt:78 | a trimmed number with any character outside `0`–`9` is a format error whatever its length |
| Validator.ExampleIndia | app/src/main/java/com/whatsappchecker/MainActivity.kt:90-94 | `"+91"` and `9876543210` link to `https://wa.me/919876543210` |
| Validator.ExampleIndiaPadded | app/src/main/java/com/whatsappchecker/MainActivity.kt:60 | the same number typed between a space and a newline gets the same link |
| Validator.ExampleLeadingZeros | app/src/main/java/com/whatsappchecker/MainActivity.kt:90 | `0012345678` passes the length check with its zeros and links as `112345678` under `"+1"` |
| Validator.ExampleAllZeros | app/src/main/java/com/whatsappchecker/MainActivity.kt:90-94 | ten zeros are valid and leave an empty number segment: `https://wa.me/1` |
| Validator.ExampleFifteenDigits | app/src/main/java/com/whatsappchecker/MainActivity.kt:78 | fifteen digits, the upper bound, are accepted |
| Validator.ExampleOutOfBounds | app/src/main/java/com/whatsappchecker/MainActivity.kt:78 | nine digits and sixteen digits are format errors |
| Validator.ExampleLetters | app/src/main/java/com/whatsappchecker/MainActivity.kt:78 | ten characters with letters among them are a format error |
| Validator.ExampleBlankAndNoCountry | app/src/main/java/com/whatsappchecker/MainActivity.kt:63-72 | spaces and a tab are an empty number; with no country a good number is still refused for the missing country |
| ExitGate.Press | app/src/main/java/com/whatsappchecker/MainActivity.kt:128-135 | the hint is shown exactly when at least 2000 ms have passed since the previous press, and the press time is recorded whichever action is taken |
| ExitGate.Replay | app/src/main/java/com/whatsappchecker/MainActivity.kt:125-137 | a series of presses yields one action per press and leaves the last press time recorded |
| ExitGate.MeasuredFromPrevious | app/src/main/java/com/whatsappchecker/MainActivity.kt:128-135 | in any series, each press after the first is judged against the press just before it, whatever that press did; the first against the starting state |
| ExitGate.ReplayAppend | app/src/main/java/com/whatsappchecker/MainActivity.kt:125-137 | two series of presses in turn act as the two joined into one series |
| ExitGate.HistoryForgotten | app/src/main/java/com/whatsappchecker/MainActivity.kt:135 | two histories ending at the same instant react identically to every later series of presses |
| ExitGate.FirstPress | app/src/main/java/com/whatsappchecker/MainActivity.kt:19-20 | on a fresh screen the first press asks for confirmation exactly when the clock reads below 2000, because the state starts at 0 |
| ExitGate.ExampleFromZero | app/src/main/java/com/whatsappchecker/MainActivity.kt:128-135 | presses at 0, 1000 and 2500 all ask for confirmation and leave 2500 recorded |
| ExitGate.ExampleDismissedDialog | app/src/main/java/com/whatsappchecker/MainActivity.kt:128-135 | hint, then confirmation 1000 ms later, then confirmation again 1500 ms after that although 2500 ms have passed since the hint |
| ExitGate.ExampleBoundary | app/src/main/java/com/whatsappchecker/MainActivity.kt:128 | 1999 ms after the hint confirms, while exactly 2000 ms and 2001 ms show the hint again |
| MainScreen.Create | app/src/main/java/com/whatsappchecker/MainActivity.kt:45-50 | a fresh screen shows the given list, has a selection exactly when the list holds a `"+91"` entry (and then it is the first such entry), and its gate starts at 0 |
| MainScreen.PickCountry | app/src/main/java/com/whatsappchecker/MainActivity.kt:41-43 | the entry at the reported position in the full country list becomes the selection; the list and the gate are left alone |
| MainScreen.Submit | app/src/main/java/com/whatsappchecker/MainActivity.kt:54-56 | submit refuses for a missing country exactly when nothing is selected; with a selection, blank input is an empty number, other input that does not trim to 10–15 digits is a format error, and input that does is valid with the link built from the selected code and the trimmed input |
| MainScreen.BackPressed | app/src/main/java/com/whatsappchecker/MainActivity.kt:126-136 | a back press shows the hint exactly when at least 2000 ms have passed since the previous press and asks for confirmation otherwise; it records the press time and leaves the list and selection alone |
| MainScreen.BackPressSeries | app/src/main/java/com/whatsappchecker/MainActivity.kt:126-136 | a series of back presses yields one action per press and leaves the list and selection alone |
| MainScreen.BackPressesReplay | app/src/main/java/com/whatsappchecker/MainActivity.kt:126-136 | back presses on the screen produce exactly the actions and final gate of replaying them on the gate alone, so every gate property holds of the screen |
| MainScreen.SubmitAfterPick | app/src/main/java/com/whatsappchecker/MainActivity.kt:41-43 | after a dropdown pick, submit validates against the picked entry, never asks for a country, and links a number that trims to 10–15 digits under the picked dial code |
| MainScreen.FreshScreenUsesIndia | app/src/main/java/com/whatsappchecker/MainActivity.kt:45-50 | on a fresh screen whose list holds `"+91"`, submitting a well-formed number links it under `91` with its leading zeros stripped |
| MainScreen.FreshScreenWithoutIndia | app/src/main/java/com/whatsappchecker/MainActivity.kt:63-66 | on a fresh screen whose list has no `"+91"` entry, submitting before picking a country is refused whatever was typed |

## Left out

- Snackbars, the toast, the exit dialog and `finishAffinity` are left out.
  They are presentation only. The verdicts and the gate's action say which
  one is shown.
- The inline error on the number field (lines 70, 75 and 79) is left out.
  It is presentation only. It is set for an empty or malformed number, and
  cleared only once the number is not empty (line 75). A submit refused for
  a missing country therefore leaves any earlier field error showing.
- Creating the `ACTION_VIEW` intent, `startActivity`, and the
  "app not installed" and generic-exception messages are left out. They are
  calls into the platform, and the model ends at the link string.
- The dropdown adapter and the body of the `CountryCode` class, including
  its fixed country list, are not part of this model. The list is an
  arbitrary sequence of (code, name) pairs.
- `System.currentTimeMillis` is a parameter, not a clock.
- ExitGate.Press: one clock reading is used both for the comparison and
  for the stored time. The source reads the clock twice (lines 128 and 135),
  and the two readings may differ by the few milliseconds between them.
- ExitGate.Press: times are unbounded integers, so the 64-bit `Long`
  overflow of `backPressedTime + 2000` near the maximum value is not modelled.
  It cannot occur with real clock readings.
- Text.Trim: the whitespace set is the JVM's fixed list of code points. It
  does not follow later Unicode versions, and it does not cover lone UTF-16
  surrogates. Length is counted in characters, not UTF-16 units. The
  verdict is the same either way, because a supplementary character is
  never a digit.
- MainScreen.PickCountry: requires a position inside the list. The
  dropdown only ever reports positions of entries it shows.
- The `?: ""` fallback for a missing dial code on line 93 is left out. The
  link is only built after the country check has passed, so that fallback
  is never reached.
- What the user chooses in the exit dialog is left out. Either choice
  leaves the gate as the press left it.
