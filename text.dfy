/** ASCII text primitives used by the insight engine: character classes, `str.lower`,
    substring containment (`pat in text`), `sep.join(parts)` and the code-point
    lexicographic order Python uses to compare and sort strings. */
module Text {

  /** `str.isspace` for ASCII characters: space, the controls 9 to 13 and the
      separators 0x1C to 0x1F; this is also what the `\s` regex class matches. */
  predicate IsSpace(c: char) {
    c == ' ' || ('\t' <= c <= '\r') || ('\U{1C}' <= c <= '\U{1F}')
  }

  /** The regex class `[a-zA-Z]`. */
  predicate IsLetter(c: char) {
    ('a' <= c <= 'z') || ('A' <= c <= 'Z')
  }

  predicate AllLetters(s: string) {
    forall i :: 0 <= i < |s| ==> IsLetter(s[i])
  }

  predicate IsUpper(c: char) {
    'A' <= c <= 'Z'
  }

  /** ASCII `str.lower` on one character. */
  function LowerChar(c: char): (r: char)
    ensures !IsUpper(r)
    ensures IsLetter(r) <==> IsLetter(c)
    ensures IsSpace(r) <==> IsSpace(c)
    ensures !IsUpper(c) ==> r == c
    ensures IsUpper(c) ==> r as int == c as int + 32
  {
    if IsUpper(c) then (c as int + 32) as char else c
  }

  /** ASCII `str.lower`. */
  function Lower(s: string): (r: string)
    ensures |r| == |s|
    ensures forall i :: 0 <= i < |s| ==> r[i] == LowerChar(s[i])
  {
    if s == [] then [] else [LowerChar(s[0])] + Lower(s[1..])
  }

  /** Lowering twice is lowering once, and lowered text has no capitals. */
  lemma LowerIdempotent(s: string)
    ensures Lower(Lower(s)) == Lower(s)
    ensures forall i :: 0 <= i < |s| ==> !IsUpper(Lower(s)[i])
  {
  }

  predicate StartsWith(s: string, p: string) {
    |p| <= |s| && s[..|p|] == p
  }

  /** Python's `pat in text`: `pat` occurs somewhere in `text` (the empty string
      occurs in every text). */
  predicate Contains(text: string, pat: string)
    decreases |text|
  {
    StartsWith(text, pat) || (|text| > 0 && Contains(text[1..], pat))
  }

  /** `pat` appears in `text` at offset `i`. */
  predicate OccursAt(text: string, pat: string, i: nat) {
    i + |pat| <= |text| && text[i..i + |pat|] == pat
  }

  /** `Contains` is exactly "there is an offset at which `pat` appears". */
  lemma {:induction false} ContainsIff(text: string, pat: string)
    ensures Contains(text, pat) <==> exists i: nat :: OccursAt(text, pat, i)
    decreases |text|
  {
    if StartsWith(text, pat) {
      assert OccursAt(text, pat, 0);
    } else if |text| == 0 {
    } else {
      ContainsIff(text[1..], pat);
      if Contains(text[1..], pat) {
        var i: nat :| OccursAt(text[1..], pat, i);
        assert text[1..][i..i + |pat|] == text[i + 1..i + 1 + |pat|];
        assert OccursAt(text, pat, i + 1);
      } else {
        forall i: nat
          ensures !OccursAt(text, pat, i)
        {
          if i == 0 {
            if |pat| <= |text| {
              assert text[..|pat|] == text[0..0 + |pat|];
            }
          } else {
            if i + |pat| <= |text| {
              assert text[1..][i - 1..i - 1 + |pat|] == text[i..i + |pat|];
              assert !OccursAt(text[1..], pat, i - 1);
            }
          }
        }
      }
    }
  }

  /** A pattern found in a suffix is found in the whole text. */
  lemma {:induction false} ContainsSuffix(text: string, k: nat, pat: string)
    requires k <= |text|
    requires Contains(text[k..], pat)
    ensures Contains(text, pat)
  {
    ContainsIff(text[k..], pat);
    var i: nat :| OccursAt(text[k..], pat, i);
    assert text[k..][i..i + |pat|] == text[k + i..k + i + |pat|];
    assert OccursAt(text, pat, k + i);
    ContainsIff(text, pat);
  }

  /** Python's `sep.join(parts)`. */
  function Join(parts: seq<string>, sep: string): (r: string)
    ensures |parts| == 1 ==> r == parts[0]
  {
    if parts == [] then ""
    else if |parts| == 1 then parts[0]
    else parts[0] + sep + Join(parts[1..], sep)
  }

  /** Every part after the first, each preceded by `sep`. */
  function Prefixed(parts: seq<string>, sep: string): string {
    if parts == [] then "" else sep + parts[0] + Prefixed(parts[1..], sep)
  }

  /** `sep.join([first] + parts)` is `first` followed by every part with `sep` in front. */
  lemma {:induction false} JoinCons(first: string, parts: seq<string>, sep: string)
    ensures Join([first] + parts, sep) == first + Prefixed(parts, sep)
    decreases |parts|
  {
    if parts == [] {
      assert [first] + parts == [first];
    } else {
      assert ([first] + parts)[1..] == parts;
      JoinCons(parts[0], parts[1..], sep);
      assert [parts[0]] + parts[1..] == parts;
    }
  }

  lemma {:induction false} PrefixedAppend(parts: seq<string>, last: string, sep: string)
    ensures Prefixed(parts + [last], sep) == Prefixed(parts, sep) + sep + last
    decreases |parts|
  {
    if parts == [] {
      assert parts + [last] == [last];
    } else {
      assert (parts + [last])[1..] == parts[1..] + [last];
      PrefixedAppend(parts[1..], last, sep);
    }
  }

  // ---------------------------------------------------------------------------
  // Code-point lexicographic order (Python's `<` on `str`) and `sorted(...)`.
  // ---------------------------------------------------------------------------

  /** `a < b` on Python strings: compare code point by code point; a proper
      prefix comes first. */
  predicate StrLess(a: string, b: string)
    decreases |a|
  {
    if a == [] then b != []
    else if b == [] then false
    else if a[0] < b[0] then true
    else if a[0] == b[0] then StrLess(a[1..], b[1..])
    else false
  }

  lemma {:induction false} StrLessIrreflexive(a: string)
    ensures !StrLess(a, a)
    decreases |a|
  {
    if a != [] {
      StrLessIrreflexive(a[1..]);
    }
  }

  lemma {:induction false} StrLessTransitive(a: string, b: string, c: string)
    requires StrLess(a, b) && StrLess(b, c)
    ensures StrLess(a, c)
    decreases |a|
  {
    if a != [] && b != [] && c != [] && a[0] == b[0] && b[0] == c[0] {
      StrLessTransitive(a[1..], b[1..], c[1..]);
    }
  }

  /** Any two different strings are ordered one way or the other. */
  lemma {:induction false} StrLessTotal(a: string, b: string)
    requires a != b
    ensures StrLess(a, b) || StrLess(b, a)
    decreases |a|
  {
    if a != [] && b != [] && a[0] == b[0] {
      assert a == [a[0]] + a[1..];
      assert b == [b[0]] + b[1..];
      StrLessTotal(a[1..], b[1..]);
    }
  }

  /** Strictly increasing in the lexicographic order: sorted and free of duplicates. */
  predicate StrictlyIncreasing(s: seq<string>) {
    forall i, j :: 0 <= i < j < |s| ==> StrLess(s[i], s[j])
  }

  /** Inserts `x` in front of the first element it is smaller than. */
  function InsertStr(x: string, t: seq<string>): seq<string>
  {
    if t == [] || StrLess(x, t[0]) then [x] + t
    else [t[0]] + InsertStr(x, t[1..])
  }

  /** Inserting a new string into a strictly increasing sequence adds it and keeps the
      sequence strictly increasing. */
  lemma {:induction false} InsertStrFacts(x: string, t: seq<string>)
    requires x !in t && StrictlyIncreasing(t)
    ensures multiset(InsertStr(x, t)) == multiset(t) + multiset{x}
    ensures StrictlyIncreasing(InsertStr(x, t))
    decreases |t|
  {
    if t == [] {
    } else if StrLess(x, t[0]) {
      forall y | y in t ensures StrLess(x, y) {
        var j :| 0 <= j < |t| && t[j] == y;
        if j > 0 { StrLessTransitive(x, t[0], t[j]); }
      }
      SmallerHead(x, t);
    } else {
      StrLessTotal(x, t[0]);
      var rest := InsertStr(x, t[1..]);
      assert t == [t[0]] + t[1..];
      InsertStrFacts(x, t[1..]);
      forall y | y in rest ensures StrLess(t[0], y) {
        assert y in multiset(rest);
        if y != x {
          assert y in multiset(t[1..]);
          var j :| 0 <= j < |t[1..]| && t[1..][j] == y;
          assert t[j + 1] == y;
        }
      }
      SmallerHead(t[0], rest);
    }
  }

  /** A head smaller than every element of a strictly increasing tail gives a strictly
      increasing sequence. */
  lemma SmallerHead(h: string, rest: seq<string>)
    requires StrictlyIncreasing(rest)
    requires forall y :: y in rest ==> StrLess(h, y)
    ensures StrictlyIncreasing([h] + rest)
  {
    var r := [h] + rest;
    forall i, j | 0 <= i < j < |r| ensures StrLess(r[i], r[j]) {
      assert r[j] == rest[j - 1];
      if i > 0 {
        assert r[i] == rest[i - 1];
      }
    }
  }

  /** Python's `sorted(words)` for a list of distinct strings. */
  function SortStrings(s: seq<string>): (r: seq<string>)
    requires forall i, j :: 0 <= i < j < |s| ==> s[i] != s[j]
    ensures multiset(r) == multiset(s)
    ensures StrictlyIncreasing(r)
  {
    if s == [] then []
    else
      DistinctTail(s);
      var rest := SortStrings(s[1..]);
      assert s[0] !in multiset(rest);
      assert s == [s[0]] + s[1..];
      InsertStrFacts(s[0], rest);
      InsertStr(s[0], rest)
  }

  /** The tail of a repetition-free sequence is repetition-free and lacks the head. */
  lemma DistinctTail(s: seq<string>)
    requires s != [] && forall i, j :: 0 <= i < j < |s| ==> s[i] != s[j]
    ensures forall i, j :: 0 <= i < j < |s[1..]| ==> s[1..][i] != s[1..][j]
    ensures s[0] !in multiset(s[1..])
  {
    forall i, j | 0 <= i < j < |s[1..]| ensures s[1..][i] != s[1..][j] {
      assert s[1..][i] == s[i + 1] && s[1..][j] == s[j + 1];
    }
    forall j | 0 <= j < |s[1..]| ensures s[1..][j] != s[0] {
      assert s[1..][j] == s[j + 1];
    }
  }
}
