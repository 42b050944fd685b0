/** The regex `re.findall(r"[a-zA-Z]{m,}", s)` used for keywords (`m` = 4) and for
    similarity terms (`m` = 3): the maximal runs of ASCII letters of length at least
    `m`, from left to right. */
module Tokens {
  import opened Text

  /** The length of the run of letters at the start of `s`. */
  function LetterRunLength(s: string): (n: nat)
    ensures n <= |s|
    ensures forall i :: 0 <= i < n ==> IsLetter(s[i])
    ensures n < |s| ==> !IsLetter(s[n])
  {
    if s == [] || !IsLetter(s[0]) then 0 else 1 + LetterRunLength(s[1..])
  }

  /** `re.findall("[a-zA-Z]{m,}", s)` for `m >= 1`. The greedy quantifier consumes a
      whole run once it has `m` letters, and a run shorter than `m` matches nowhere. */
  function LetterRuns(s: string, m: nat): (r: seq<string>)
    requires m >= 1
    ensures forall w :: w in r ==> AllLetters(w) && |w| >= m
    decreases |s|
  {
    if s == [] then []
    else if !IsLetter(s[0]) then LetterRuns(s[1..], m)
    else
      var n := LetterRunLength(s);
      (if n >= m then [s[..n]] else []) + LetterRuns(s[n..], m)
  }

  /** A string of letters is one run: kept when long enough, dropped otherwise. */
  lemma {:induction false} LetterRunsOfWord(w: string, m: nat)
    requires m >= 1 && AllLetters(w)
    ensures LetterRuns(w, m) == if |w| >= m then [w] else []
  {
    if w != [] {
      RunLengthOfWord(w);
      assert w[..|w|] == w;
      assert w[|w|..] == [];
    }
  }

  lemma {:induction false} RunLengthOfWord(w: string)
    requires AllLetters(w)
    ensures LetterRunLength(w) == |w|
    decreases |w|
  {
    if w != [] {
      RunLengthOfWord(w[1..]);
    }
  }

  lemma {:induction false} RunLengthStopsAt(a: string, c: char, b: string)
    requires !IsLetter(c)
    ensures LetterRunLength(a + [c] + b) == LetterRunLength(a)
    decreases |a|
  {
    if a == [] {
      assert (a + [c] + b)[0] == c;
    } else {
      assert (a + [c] + b)[1..] == a[1..] + [c] + b;
      RunLengthStopsAt(a[1..], c, b);
    }
  }

  /** A non-letter separates runs: the matches of `a + [c] + b` are those of `a`
      followed by those of `b`. With `LetterRunsOfWord` this determines the matches of
      every string. */
  lemma {:induction false} LetterRunsSplit(a: string, c: char, b: string, m: nat)
    requires m >= 1 && !IsLetter(c)
    ensures LetterRuns(a + [c] + b, m) == LetterRuns(a, m) + LetterRuns(b, m)
    decreases |a|
  {
    var s := a + [c] + b;
    if a == [] {
      assert s == [c] + b;
      assert s[1..] == b;
    } else if !IsLetter(a[0]) {
      assert s[1..] == a[1..] + [c] + b;
      LetterRunsSplit(a[1..], c, b, m);
    } else {
      var n := LetterRunLength(a);
      RunLengthStopsAt(a, c, b);
      assert s[..n] == a[..n];
      assert s[n..] == a[n..] + [c] + b;
      LetterRunsSplit(a[n..], c, b, m);
    }
  }
}
