/**
 The string operations the phone-number check relies on, as the Kotlin
 standard library performs them on the JVM. Trimming is built here from one
 predicate-driven pair, and `Trim` is defined as `trimEnd` after
 `trimStart`, which gives the same result as Kotlin's `trim()`:

 - `TrimStartBy` / `TrimEndBy` — `trimStart(predicate)` / `trimEnd(predicate)`;
 - `Trim`          — `String.trim()`, trimming `IsWhitespace` at both ends;
 - `TrimStartChar` — `String.trimStart(c)`: drop every leading `c`;
 - `RemoveChar`    — `String.replace("+", "")` for a one-character pattern:
                     drop every occurrence of `c`.
 */
module Text {

  /** `Char.isWhitespace()` on the JVM: `Character.isWhitespace` or
      `Character.isSpaceChar`, written out as a fixed set of code points. */
  predicate IsWhitespace(c: char) {
    || ('\t' <= c <= '\r')                    // U+0009 .. U+000D
    || ('\U{1C}' <= c <= '\U{1F}')            // file, group, record, unit separators
    || c == ' '
    || c == '\U{A0}'                          // no-break space
    || c == '\U{1680}'                        // ogham space mark
    || ('\U{2000}' <= c <= '\U{200A}')        // en quad .. hair space
    || c == '\U{2028}' || c == '\U{2029}'     // line and paragraph separators
    || c == '\U{202F}' || c == '\U{205F}' || c == '\U{3000}'
  }

  /** The character class `[0-9]`. */
  predicate IsDigit(c: char) {
    '0' <= c <= '9'
  }

  predicate AllWhitespace(s: string) {
    forall i :: 0 <= i < |s| ==> IsWhitespace(s[i])
  }

  predicate AllDigits(s: string) {
    forall i :: 0 <= i < |s| ==> IsDigit(s[i])
  }

  /** `trimStart(p)`: the longest suffix of `s` that does not begin with an
      element satisfying `p`. */
  function TrimStartBy<T>(s: seq<T>, p: T -> bool): (r: seq<T>)
    ensures |r| <= |s| && r == s[|s| - |r|..]
    ensures forall i :: 0 <= i < |s| - |r| ==> p(s[i])
    ensures |r| > 0 ==> !p(r[0])
  {
    if |s| > 0 && p(s[0]) then TrimStartBy(s[1..], p) else s
  }

  /** `trimEnd(p)`: the longest prefix of `s` that does not end with an
      element satisfying `p`. */
  function TrimEndBy<T>(s: seq<T>, p: T -> bool): (r: seq<T>)
    ensures |r| <= |s| && r == s[..|r|]
    ensures forall i :: |r| <= i < |s| ==> p(s[i])
    ensures |r| > 0 ==> !p(r[|r| - 1])
  {
    if |s| > 0 && p(s[|s| - 1]) then TrimEndBy(s[..|s| - 1], p) else s
  }

  /** `trimStart` stops at the first element that fails `p`. */
  lemma {:induction false} TrimStartByStopsAt<T>(s: seq<T>, p: T -> bool, a: nat)
    requires a <= |s|
    requires forall i :: 0 <= i < a ==> p(s[i])
    requires a < |s| ==> !p(s[a])
    ensures TrimStartBy(s, p) == s[a..]
  {
    if a > 0 {
      assert p(s[0]);
      TrimStartByStopsAt(s[1..], p, a - 1);
      assert s[1..][a - 1..] == s[a..];
    }
  }

  /** `trimEnd`, applied to what is left of `s` from position `a` on, stops
      at the last element that fails `p`. */
  lemma {:induction false} TrimEndByStopsAt<T>(s: seq<T>, p: T -> bool, a: nat, b: nat)
    requires a < b <= |s|
    requires forall i :: b <= i < |s| ==> p(s[i])
    requires !p(s[b - 1])
    ensures TrimEndBy(s[a..], p) == s[a..b]
    decreases |s|
  {
    var t := s[a..];
    if b < |s| {
      assert p(t[|t| - 1]);
      assert t[..|t| - 1] == s[..|s| - 1][a..];
      TrimEndByStopsAt(s[..|s| - 1], p, a, b);
      assert s[..|s| - 1][a..b] == s[a..b];
    } else {
      assert t == s[a..b];
    }
  }

  /** `trim(p)`: `s` without its leading and trailing runs of `p`. */
  function TrimBy<T>(s: seq<T>, p: T -> bool): (r: seq<T>)
    ensures r == [] <==> forall i :: 0 <= i < |s| ==> p(s[i])
    ensures |r| > 0 ==> !p(r[0]) && !p(r[|r| - 1])
    ensures |r| <= |s|
  {
    TrimEndBy(TrimStartBy(s, p), p)
  }

  /** Any split of `s` into a run of `p`, a core that is empty or fails `p`
      at both ends, and a run of `p`, has `TrimBy(s, p)` as its core. */
  lemma {:induction false} TrimByIsTheCore<T>(s: seq<T>, p: T -> bool, a: nat, b: nat)
    requires a <= b <= |s|
    requires forall i :: 0 <= i < a ==> p(s[i])
    requires forall i :: b <= i < |s| ==> p(s[i])
    requires a < b ==> !p(s[a]) && !p(s[b - 1])
    ensures TrimBy(s, p) == s[a..b]
  {
    if a < b {
      TrimStartByStopsAt(s, p, a);
      TrimEndByStopsAt(s, p, a, b);
    } else {
      forall i | 0 <= i < |s| ensures p(s[i]) {
        if i < a { assert 0 <= i < a; } else { assert b <= i < |s|; }
      }
    }
  }

  /** `s.trim()`: the part of `s` between its leading and trailing whitespace.
      It is empty exactly when `s` is nothing but whitespace; otherwise it
      begins and ends with a non-whitespace character. */
  function Trim(s: string): (r: string)
    ensures r == [] <==> AllWhitespace(s)
    ensures |r| > 0 ==> !IsWhitespace(r[0]) && !IsWhitespace(r[|r| - 1])
    ensures |r| <= |s|
  {
    TrimBy(s, IsWhitespace)
  }

  /** Any split of `s` into whitespace, a core that is empty or has
      non-whitespace at both ends, and whitespace, has `Trim(s)` as its core.
      This pins `Trim` down independently of how it is computed. */
  lemma TrimIsTheCore(s: string, a: nat, b: nat)
    requires a <= b <= |s|
    requires forall i :: 0 <= i < a ==> IsWhitespace(s[i])
    requires forall i :: b <= i < |s| ==> IsWhitespace(s[i])
    requires a < b ==> !IsWhitespace(s[a]) && !IsWhitespace(s[b - 1])
    ensures Trim(s) == s[a..b]
  {
    TrimByIsTheCore(s, IsWhitespace, a, b);
  }

  /** A string with no whitespace at either end is its own trimmed form. */
  lemma TrimmedAlready(s: string)
    requires |s| > 0 ==> !IsWhitespace(s[0]) && !IsWhitespace(s[|s| - 1])
    ensures Trim(s) == s
  {
    TrimIsTheCore(s, 0, |s|);
  }

  /** Trimming an already trimmed string changes nothing. */
  lemma TrimIdempotent(s: string)
    ensures Trim(Trim(s)) == Trim(s)
  {
    TrimmedAlready(Trim(s));
  }

  /** Whitespace typed around a string is exactly what `trim` removes. */
  lemma TrimPadded(before: string, core: string, after: string)
    requires AllWhitespace(before) && AllWhitespace(after)
    requires |core| > 0 ==> !IsWhitespace(core[0]) && !IsWhitespace(core[|core| - 1])
    ensures Trim(before + core + after) == core
  {
    var s := before + core + after;
    var a := |before|;
    var b := |before| + |core|;
    forall i | 0 <= i < a ensures IsWhitespace(s[i]) {
      assert s[i] == before[i];
    }
    forall i | b <= i < |s| ensures IsWhitespace(s[i]) {
      assert s[i] == after[i - b];
    }
    if a < b {
      assert s[a] == core[0];
      assert s[b - 1] == core[|core| - 1];
    }
    TrimIsTheCore(s, a, b);
    assert s[a..b] == core;
  }

  /** `s.trimStart(c)`: `s` without its leading run of `c`. */
  function TrimStartChar(s: string, c: char): (r: string)
    ensures |r| <= |s| && r == s[|s| - |r|..]
    ensures forall i :: 0 <= i < |s| - |r| ==> s[i] == c
    ensures |r| > 0 ==> r[0] != c
  {
    TrimStartBy(s, x => x == c)
  }

  /** Stripping leading `c` twice is the same as stripping it once. */
  lemma TrimStartCharIdempotent(s: string, c: char)
    ensures TrimStartChar(TrimStartChar(s, c), c) == TrimStartChar(s, c)
  {
    var r := TrimStartChar(s, c);
    TrimStartByStopsAt(r, x => x == c, 0);
  }

  /** `s.replace(c.toString(), "")`: `s` with every occurrence of `c` dropped
      and the remaining characters kept in order. */
  function RemoveChar(s: string, c: char): (r: string)
    ensures c !in r
    ensures forall x :: x in r <==> x in s && x != c
    ensures |r| == |s| - multiset(s)[c]
    ensures c !in s ==> r == s
  {
    if |s| == 0 then []
    else
      var rest := RemoveChar(s[1..], c);
      assert s == [s[0]] + s[1..];
      assert multiset(s) == multiset{s[0]} + multiset(s[1..]);
      if s[0] == c then rest else [s[0]] + rest
  }

  /** Removing a character commutes with concatenation. */
  lemma {:induction false} RemoveCharAppend(s: string, t: string, c: char)
    ensures RemoveChar(s + t, c) == RemoveChar(s, c) + RemoveChar(t, c)
  {
    if |s| > 0 {
      assert (s + t)[1..] == s[1..] + t;
      RemoveCharAppend(s[1..], t, c);
    } else {
      assert s + t == t;
    }
  }
}
