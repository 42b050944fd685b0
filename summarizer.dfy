/** `InsightEngine._summarize` (backend/app/services/analysis.py): strip the text,
    collapse every whitespace run to one space, answer a fixed phrase when nothing is
    left, and otherwise shorten to 240 characters with `textwrap.shorten(...,
    placeholder="…")`. */
module Summarizer {
  import opened Text

  const MaxSummaryLength: nat := 240
  const NoSummary: string := "No summary available."
  /** The placeholder "…" (U+2026 HORIZONTAL ELLIPSIS), one character long. */
  const Ellipsis: char := '\U{2026}'

  predicate AllSpace(s: string) {
    forall i :: 0 <= i < |s| ==> IsSpace(s[i])
  }

  /** Every whitespace character is a plain space and no two are adjacent. */
  predicate SingleSpaced(s: string) {
    (forall i :: 0 <= i < |s| && IsSpace(s[i]) ==> s[i] == ' ') &&
    (forall i :: 0 <= i < |s| - 1 ==> !(IsSpace(s[i]) && IsSpace(s[i + 1])))
  }

  /** Single-spaced, and neither starting nor ending with a space: the shape of text
      with no whitespace runs. */
  predicate WellSpaced(s: string) {
    SingleSpaced(s) && (|s| > 0 ==> !IsSpace(s[0]) && !IsSpace(s[|s| - 1]))
  }

  /** The characters of `s` that are not whitespace, in order. */
  function NonSpace(s: string): string {
    if s == [] then []
    else (if IsSpace(s[0]) then [] else [s[0]]) + NonSpace(s[1..])
  }

  lemma NonSpaceCons(c: char, u: string)
    ensures NonSpace([c] + u) == (if IsSpace(c) then [] else [c]) + NonSpace(u)
  {
    assert ([c] + u)[1..] == u;
  }

  lemma {:induction false} NonSpaceSnoc(t: string, c: char)
    ensures NonSpace(t + [c]) == NonSpace(t) + (if IsSpace(c) then [] else [c])
    decreases |t|
  {
    if t == [] {
      assert t + [c] == [c] + [];
      NonSpaceCons(c, []);
    } else {
      assert t + [c] == [t[0]] + (t[1..] + [c]);
      assert t == [t[0]] + t[1..];
      NonSpaceSnoc(t[1..], c);
      NonSpaceCons(t[0], t[1..] + [c]);
      NonSpaceCons(t[0], t[1..]);
    }
  }

  /** The number of whitespace characters `s.lstrip()` removes. */
  function LeadingSpaces(s: string): (k: nat)
    ensures k <= |s|
    ensures forall i :: 0 <= i < k ==> IsSpace(s[i])
    ensures k < |s| ==> !IsSpace(s[k])
  {
    if s == [] || !IsSpace(s[0]) then 0
    else
      assert forall i :: 1 <= i < |s| ==> s[i] == s[1..][i - 1];
      1 + LeadingSpaces(s[1..])
  }

  /** `s.lstrip()` */
  function StripLeft(s: string): (r: string)
    ensures |r| <= |s| && r == s[|s| - |r|..]
    ensures AllSpace(s[..|s| - |r|])
    ensures r == [] || !IsSpace(r[0])
  {
    var k := LeadingSpaces(s);
    assert forall i :: 0 <= i < k ==> s[..k][i] == s[i];
    s[k..]
  }

  /** `s.rstrip()` */
  function StripRight(s: string): (r: string)
    ensures |r| <= |s| && r == s[..|r|]
    ensures AllSpace(s[|r|..])
    ensures r == [] || !IsSpace(r[|r| - 1])
  {
    if s == [] || !IsSpace(s[|s| - 1]) then s
    else
      var t := s[..|s| - 1];
      var r := StripRight(t);
      var k := |r|;
      assert t[..k] == s[..k];
      forall i | 0 <= i < |s| - k ensures IsSpace(s[k..][i]) {
        if i < |s| - k - 1 {
          assert s[k..][i] == t[k..][i];
        }
      }
      r
  }

  /** `lstrip` removes whitespace only. */
  lemma {:induction false} StripLeftNonSpace(s: string)
    ensures NonSpace(StripLeft(s)) == NonSpace(s)
    decreases |s|
  {
    if s != [] && IsSpace(s[0]) {
      StripLeftNonSpace(s[1..]);
      assert LeadingSpaces(s) == 1 + LeadingSpaces(s[1..]);
      assert StripLeft(s) == StripLeft(s[1..]);
    } else {
      assert StripLeft(s) == s;
    }
  }

  /** `rstrip` removes whitespace only. */
  lemma {:induction false} StripRightNonSpace(s: string)
    ensures NonSpace(StripRight(s)) == NonSpace(s)
    decreases |s|
  {
    if s != [] && IsSpace(s[|s| - 1]) {
      var t := s[..|s| - 1];
      StripRightNonSpace(t);
      assert s == t + [s[|s| - 1]];
      NonSpaceSnoc(t, s[|s| - 1]);
    }
  }

  /** `s.strip()`: the slice of `s` left once the whitespace at both ends is removed;
      nothing is left exactly when `s` is all whitespace. */
  function Strip(s: string): (r: string)
    ensures |r| <= |s|
    ensures exists a :: 0 <= a <= |s| - |r| && r == s[a..a + |r|]
                        && AllSpace(s[..a]) && AllSpace(s[a + |r|..])
    ensures NonSpace(r) == NonSpace(s)
    ensures r == [] <==> AllSpace(s)
    ensures r != [] ==> !IsSpace(r[0]) && !IsSpace(r[|r| - 1])
  {
    var left := StripLeft(s);
    var r := StripRight(left);
    var a := |s| - |left|;
    StripShape(s, a, left, r);
    assert 0 <= a <= |s| - |r| && r == s[a..a + |r|] && AllSpace(s[..a]) && AllSpace(s[a + |r|..]);
    StripLeftNonSpace(s);
    StripRightNonSpace(left);
    r
  }

  /** What left-then-right stripping leaves, from the two steps' facts: `left` is
      `s` after a whitespace prefix `s[..a]`, `r` is `left` before a whitespace suffix,
      and neither starts nor ends with whitespace. Then `r` is a slice of `s` between
      whitespace, starting and ending with non-whitespace, and empty exactly when `s`
      is all whitespace. */
  lemma StripShape(s: string, a: nat, left: string, r: string)
    requires a <= |s| && left == s[a..] && AllSpace(s[..a]) && (left == [] || !IsSpace(left[0]))
    requires |r| <= |left| && r == left[..|r|] && AllSpace(left[|r|..])
    requires r == [] || !IsSpace(r[|r| - 1])
    ensures a + |r| <= |s| && r == s[a..a + |r|] && AllSpace(s[a + |r|..])
    ensures r == [] <==> AllSpace(s)
    ensures r != [] ==> !IsSpace(r[0]) && !IsSpace(r[|r| - 1])
  {
    assert s[a + |r|..] == left[|r|..];
    if r == [] {
      assert left[|r|..] == left;
      assert s == s[..a];
    } else {
      assert r[0] == left[0] == s[a];
    }
  }

  /** `re.sub(r"\s+", " ", s)`: each maximal run of whitespace becomes one space. */
  function CollapseSpaces(s: string): (r: string)
    ensures SingleSpaced(r)
    ensures |r| <= |s|
    ensures s == [] <==> r == []
    ensures s != [] ==> (IsSpace(r[0]) <==> IsSpace(s[0]))
    ensures s != [] ==> (IsSpace(r[|r| - 1]) <==> IsSpace(s[|s| - 1]))
  {
    if s == [] then []
    else if IsSpace(s[0]) then
      var rest := CollapseSpaces(StripLeft(s));
      ConsSingleSpaced(' ', rest);
      [' '] + rest
    else
      var rest := CollapseSpaces(s[1..]);
      assert s[1..] != [] ==> s[1..][|s[1..]| - 1] == s[|s| - 1];
      ConsSingleSpaced(s[0], rest);
      [s[0]] + rest
  }

  /** Collapsing keeps the non-whitespace characters, in order. */
  lemma {:induction false} CollapseKeepsNonSpace(s: string)
    ensures NonSpace(CollapseSpaces(s)) == NonSpace(s)
    decreases |s|
  {
    if s != [] {
      if IsSpace(s[0]) {
        var rest := CollapseSpaces(StripLeft(s));
        CollapseKeepsNonSpace(StripLeft(s));
        StripLeftNonSpace(s);
        NonSpaceCons(' ', rest);
      } else {
        var rest := CollapseSpaces(s[1..]);
        CollapseKeepsNonSpace(s[1..]);
        NonSpaceCons(s[0], rest);
      }
    }
  }

  /** Putting a character before single-spaced text keeps it single-spaced, so long as a
      space is plain and not followed by another. */
  lemma ConsSingleSpaced(c: char, t: string)
    requires SingleSpaced(t)
    requires IsSpace(c) ==> c == ' ' && (t == [] || !IsSpace(t[0]))
    ensures SingleSpaced([c] + t)
  {
    var r := [c] + t;
    assert forall i :: 1 <= i < |r| ==> r[i] == t[i - 1];
  }

  /** Collapsing character by character: a non-whitespace character is kept, and a
      whitespace character becomes one space when it ends its run and vanishes
      otherwise. */
  function Squeeze(s: string): string {
    if s == [] then []
    else
      var head := if !IsSpace(s[0]) then [s[0]]
                  else if |s| > 1 && IsSpace(s[1]) then []
                  else [' '];
      head + Squeeze(s[1..])
  }

  /** A whitespace run squeezes to one space, then what follows it. */
  lemma {:induction false} SqueezeRun(s: string)
    requires s != [] && IsSpace(s[0])
    ensures Squeeze(s) == [' '] + Squeeze(StripLeft(s))
    decreases |s|
  {
    if |s| > 1 && IsSpace(s[1]) {
      SqueezeRun(s[1..]);
      assert LeadingSpaces(s) == 1 + LeadingSpaces(s[1..]);
      assert StripLeft(s) == s[1..][LeadingSpaces(s[1..])..];
    } else {
      assert LeadingSpaces(s) == 1;
    }
  }

  /** `re.sub(r"\s+", " ", s)` agrees with the character-by-character rule. */
  lemma {:induction false} CollapseIsSqueeze(s: string)
    ensures CollapseSpaces(s) == Squeeze(s)
    decreases |s|
  {
    if s != [] {
      if IsSpace(s[0]) {
        CollapseIsSqueeze(StripLeft(s));
        SqueezeRun(s);
      } else {
        CollapseIsSqueeze(s[1..]);
      }
    }
  }

  /** `re.sub(r"\s+", " ", content.strip())`: the text with no whitespace runs. It is
      empty exactly when the content is blank. */
  function Clean(content: string): (r: string)
    ensures NonSpace(r) == NonSpace(content)
    ensures WellSpaced(r)
    ensures r == [] <==> AllSpace(content)
  {
    CollapseKeepsNonSpace(Strip(content));
    CollapseSpaces(Strip(content))
  }

  lemma SingleSpacedTail(s: string)
    requires s != [] && SingleSpaced(s)
    ensures SingleSpaced(s[1..])
  {
    assert forall i :: 0 <= i < |s[1..]| ==> s[1..][i] == s[i + 1];
  }

  /** Collapsing leaves single-spaced text untouched. */
  lemma {:induction false} CollapseSingleSpaced(s: string)
    requires SingleSpaced(s)
    ensures CollapseSpaces(s) == s
    decreases |s|
  {
    if s == [] {
    } else if !IsSpace(s[0]) {
      SingleSpacedTail(s);
      CollapseSingleSpaced(s[1..]);
      assert CollapseSpaces(s) == [s[0]] + CollapseSpaces(s[1..]);
    } else {
      SingleSpacedTail(s);
      assert s[0] == ' ';
      assert |s| > 1 ==> !IsSpace(s[1]);
      assert StripLeft(s) == StripLeft(s[1..]) == s[1..];
      CollapseSingleSpaced(s[1..]);
      assert CollapseSpaces(s) == [' '] + CollapseSpaces(s[1..]);
    }
  }

  /** Cleaning has nothing left to do on text without whitespace runs; in particular
      cleaning twice is cleaning once. */
  lemma CleanWellSpaced(s: string)
    requires WellSpaced(s)
    ensures Clean(s) == s
    ensures Clean(Clean(s)) == Clean(s)
  {
    assert StripLeft(s) == s;
    assert StripRight(s) == s;
    CollapseSingleSpaced(s);
  }

  /** The largest position `j` in `1..k` at which `c` has a space, or 0 if none: where
      the words that fit end. */
  function LastBreak(c: string, k: nat): (j: nat)
    ensures j == 0 || (j <= k && j < |c| && c[j] == ' ')
    ensures forall i :: j < i <= k && i < |c| ==> c[i] != ' '
  {
    if k == 0 then 0
    else if k < |c| && c[k] == ' ' then k
    else LastBreak(c, k - 1)
  }

  /** `textwrap.shorten(c, width, placeholder="…")` for text `c` that is already
      cleaned (`width >= 1`; the source's `textwrap` raises for smaller widths). Text
      that fits is returned as it is; otherwise the longest run of whole words that
      leaves room for the placeholder is kept, followed by the placeholder. */
  function Shorten(c: string, width: nat): (r: string)
    requires width >= 1
    ensures |r| <= width
    ensures |c| <= width ==> r == c
    ensures |c| > width ==>
              |r| >= 1 && r[|r| - 1] == Ellipsis && r[..|r| - 1] == c[..|r| - 1]
              && (|r| > 1 ==> c[|r| - 1] == ' ')
              && (forall i :: |r| - 1 < i < width ==> c[i] != ' ')
    ensures WellSpaced(c) ==> WellSpaced(r)
  {
    if |c| <= width then c
    else
      var j := LastBreak(c, width - 1);
      var r := c[..j] + [Ellipsis];
      assert r[..|r| - 1] == c[..j];
      assert WellSpaced(c) ==> WellSpaced(r) by {
        if WellSpaced(c) {
          assert j > 0 ==> !IsSpace(c[j - 1]);
          assert forall i :: 0 <= i < j ==> r[i] == c[i];
        }
      }
      r
  }

  /** `_summarize(content)` */
  function Summarize(content: string): (r: string)
    ensures r != [] && |r| <= MaxSummaryLength
    ensures WellSpaced(r)
    ensures AllSpace(content) ==> r == NoSummary
    ensures !AllSpace(content) ==> r == Shorten(Clean(content), MaxSummaryLength)
    ensures !AllSpace(content) && |Clean(content)| <= MaxSummaryLength ==> r == Clean(content)
    ensures |Clean(content)| > MaxSummaryLength ==> r[|r| - 1] == Ellipsis
  {
    var cleaned := Clean(content);
    if cleaned == [] then
      NoSummaryShape();
      NoSummary
    else
      Shorten(cleaned, MaxSummaryLength)
  }

  /** The placeholder is a short, single-spaced sentence. */
  lemma NoSummaryShape()
    ensures NoSummary != [] && |NoSummary| <= MaxSummaryLength && WellSpaced(NoSummary)
  {
    assert |NoSummary| == 21;
    assert forall i :: 0 <= i < |NoSummary| && IsSpace(NoSummary[i]) ==> i == 2 || i == 10;
  }
}
