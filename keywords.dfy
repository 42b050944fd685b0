/** `InsightEngine._extract_keywords` and `_format_keywords`
    (backend/app/services/analysis.py): the alphabetic runs of four or more letters are
    counted with a `Counter`, the five most common are taken, those seen only once are
    dropped, and what is left is deduplicated, sorted and joined with ", ". */
module KeywordExtractor {
  import opened Text
  import opened Tokens
  import opened Sorting

  const MinKeywordLength: nat := 4
  const MaxKeywords: nat := 5
  const Separator: string := ", "

  /** A `Counter` item: a word and how often it occurs. */
  type Entry = (string, nat)

  /** `re.findall(r"[a-zA-Z]{4,}", text)` */
  function Words(text: string): seq<string> {
    LetterRuns(text, MinKeywordLength)
  }

  /** How often `w` occurs among the words of `text`. */
  function Occurrences(text: string, w: string): nat {
    multiset(Words(text))[w]
  }

  predicate Distinct(s: seq<string>) {
    forall i, j :: 0 <= i < j < |s| ==> s[i] != s[j]
  }

  /** `a` occurs in `s` before any occurrence of `b`. */
  predicate SeenBefore(s: seq<string>, a: string, b: string) {
    exists k :: 0 <= k < |s| && s[k] == a && b !in s[..k]
  }

  /** The distinct elements of `s` in the order they first appear (the key order of a
      `Counter` or of a set built from a list). */
  function FirstSeen(s: seq<string>): (r: seq<string>)
    ensures Distinct(r)
    ensures |r| <= |s|
    ensures forall x :: x in r <==> x in s
    ensures forall i, j :: 0 <= i < j < |r| ==> SeenBefore(s, r[i], r[j])
  {
    if s == [] then []
    else
      var init := s[..|s| - 1];
      var x := s[|s| - 1];
      assert s == init + [x];
      var d := FirstSeen(init);
      SeenBeforeExtend(init, x, d);
      if x in d then d else d + [x]
  }

  /** First-seen order of `init` carries over to `init + [x]`, and a word new with `x`
      comes after every word of `init`. */
  lemma SeenBeforeExtend(init: seq<string>, x: string, d: seq<string>)
    requires forall y :: y in d <==> y in init
    requires forall i, j :: 0 <= i < j < |d| ==> SeenBefore(init, d[i], d[j])
    ensures forall i, j :: 0 <= i < j < |d| ==> SeenBefore(init + [x], d[i], d[j])
    ensures x !in d ==> forall i :: 0 <= i < |d| ==> SeenBefore(init + [x], d[i], x)
  {
    var s := init + [x];
    forall a, b | SeenBefore(init, a, b) ensures SeenBefore(s, a, b) {
      var k :| 0 <= k < |init| && init[k] == a && b !in init[..k];
      assert s[k] == a && s[..k] == init[..k];
    }
    if x !in d {
      forall i | 0 <= i < |d| ensures SeenBefore(s, d[i], x) {
        assert d[i] in init;
        var k :| 0 <= k < |init| && init[k] == d[i];
        assert s[k] == d[i] && s[..k] == init[..k];
        assert x !in init[..k];
      }
    }
  }

  /** A list without repetitions is its own first-seen list. */
  lemma {:induction false} FirstSeenDistinct(s: seq<string>)
    requires Distinct(s)
    ensures FirstSeen(s) == s
    decreases |s|
  {
    if s != [] {
      var init := s[..|s| - 1];
      assert Distinct(init);
      FirstSeenDistinct(init);
      assert s[|s| - 1] !in init;
      assert s == init + [s[|s| - 1]];
    }
  }

  /** `Counter(words).items()`: every distinct word with its count, in first-seen order. */
  function CounterItems(words: seq<string>): seq<Entry> {
    var d := FirstSeen(words);
    seq(|d|, i requires 0 <= i < |d| => (d[i], multiset(words)[d[i]]))
  }

  lemma CounterItemFacts(words: seq<string>, e: Entry)
    requires e in CounterItems(words)
    ensures e.0 in words && e.1 == multiset(words)[e.0]
  {
  }

  lemma CounterItemOf(words: seq<string>, w: string)
    requires w in words
    ensures (w, multiset(words)[w]) in CounterItems(words)
  {
    var d := FirstSeen(words);
    var i :| 0 <= i < |d| && d[i] == w;
    assert CounterItems(words)[i] == (w, multiset(words)[w]);
  }

  function CountKey(e: Entry): real {
    e.1 as real
  }

  /** The words of a list of items. */
  function ItemWords(es: seq<Entry>): (r: seq<string>)
    ensures |r| == |es|
    ensures forall i :: 0 <= i < |r| ==> r[i] == es[i].0
  {
    seq(|es|, i requires 0 <= i < |es| => es[i].0)
  }

  /** `common.most_common(5)` followed by the `count > 1` filter: the items kept. Python
      documents `most_common` as a stable sort by count, so equal counts keep
      first-seen order. */
  function TopItems(text: string): seq<Entry> {
    KeepAbove(Take(SortDesc(CounterItems(Words(text)), CountKey), MaxKeywords), CountKey, 1.0)
  }

  /** What an item kept by `TopItems` is: a counted word seen at least twice. */
  lemma TopItemFacts(text: string, e: Entry)
    requires e in TopItems(text)
    ensures e in CounterItems(Words(text)) && e.1 >= 2
    ensures e.0 in Words(text) && e.1 == Occurrences(text, e.0)
  {
    var sorted := SortDesc(CounterItems(Words(text)), CountKey);
    var taken := Take(sorted, MaxKeywords);
    KeepAboveMembers(taken, CountKey, 1.0);
    var j :| 0 <= j < |taken| && taken[j] == e;
    assert e in multiset(sorted);
    CounterItemFacts(Words(text), e);
  }

  /** `_extract_keywords(text)`: at most five words, each a run of at least four letters
      that occurs at least twice. */
  function ExtractKeywords(text: string): (r: seq<string>)
    ensures |r| <= MaxKeywords
    ensures forall i :: 0 <= i < |r| ==>
              AllLetters(r[i]) && |r[i]| >= MinKeywordLength && Occurrences(text, r[i]) >= 2
  {
    var top := TopItems(text);
    var r := ItemWords(top);
    assert forall i :: 0 <= i < |r| ==>
             AllLetters(r[i]) && |r[i]| >= MinKeywordLength && Occurrences(text, r[i]) >= 2 by {
      forall i | 0 <= i < |r|
        ensures AllLetters(r[i]) && |r[i]| >= MinKeywordLength && Occurrences(text, r[i]) >= 2
      {
        assert top[i] in top;
        TopItemFacts(text, top[i]);
      }
    }
    r
  }

  /** The five most common: a word that occurs at least twice but is left out means five
      words were kept, each occurring at least as often. */
  lemma KeywordsAreMostFrequent(text: string, w: string)
    requires Occurrences(text, w) >= 2
    requires w !in ExtractKeywords(text)
    ensures |ExtractKeywords(text)| == MaxKeywords
    ensures forall v :: v in ExtractKeywords(text) ==> Occurrences(text, v) >= Occurrences(text, w)
  {
    var words := Words(text);
    var items := CounterItems(words);
    var e := (w, multiset(words)[w]);
    CounterItemOf(words, w);
    var top := TopItems(text);
    assert forall i :: 0 <= i < |top| ==> top[i].0 == ExtractKeywords(text)[i];
    assert e !in top;
    TopAboveThreshold(items, CountKey, 1.0, MaxKeywords, e);
    forall v | v in ExtractKeywords(text) ensures Occurrences(text, v) >= Occurrences(text, w) {
      var i :| 0 <= i < |ExtractKeywords(text)| && ExtractKeywords(text)[i] == v;
      assert top[i] in top;
      TopItemFacts(text, top[i]);
    }
  }

  /** Dropping the words seen once before or after taking the five most common makes
      no difference: the count ranking puts every repeated word first. */
  lemma FilterBeforeTop(text: string)
    ensures TopItems(text) ==
            Take(KeepAbove(SortDesc(CounterItems(Words(text)), CountKey), CountKey, 1.0), MaxKeywords)
  {
    KeepAboveTake(SortDesc(CounterItems(Words(text)), CountKey), CountKey, 1.0, MaxKeywords);
  }

  /** `sorted(set(keywords))` */
  function KeywordList(text: string): (r: seq<string>)
    ensures StrictlyIncreasing(r)
    ensures forall w :: w in r <==> w in ExtractKeywords(text)
    ensures |r| <= MaxKeywords
  {
    var d := FirstSeen(ExtractKeywords(text));
    var r := SortStrings(d);
    assert forall w :: w in r <==> w in multiset(d);
    assert |r| == |multiset(r)| == |multiset(d)| == |d|;
    r
  }

  /** `_format_keywords(text)`: the sorted, duplicate-free keywords joined by ", ". */
  function FormatKeywords(text: string): string {
    Join(KeywordList(text), Separator)
  }

  // ---------------------------------------------------------------------------
  // Reading a keyword string back
  // ---------------------------------------------------------------------------

  /** Splits a ", "-separated list of letter words. */
  function ParseKeywords(s: string): seq<string> {
    if s == [] then [] else ParseWords(s)
  }

  function ParseWords(s: string): seq<string>
    decreases |s|
  {
    var n := LetterRunLength(s);
    var rest := s[n..];
    if |rest| >= 2 && rest[..2] == Separator then [s[..n]] + ParseWords(rest[2..])
    else [s[..n]]
  }

  /** A single word of letters parses as itself. */
  lemma ParseWordsSingle(w: string)
    requires AllLetters(w)
    ensures ParseWords(w) == [w]
  {
    RunLengthOfWord(w);
    assert w[|w|..] == [];
    assert w[..|w|] == w;
  }

  /** A word of letters followed by ", " is split off. */
  lemma ParseWordsStep(w: string, rest: string)
    requires AllLetters(w)
    ensures ParseWords(w + Separator + rest) == [w] + ParseWords(rest)
  {
    var s := w + Separator + rest;
    assert s == w + [','] + ([' '] + rest);
    RunLengthOfWord(w);
    RunLengthStopsAt(w, ',', [' '] + rest);
    assert s[..|w|] == w;
    assert s[|w|..] == Separator + rest;
    assert s[|w|..][2..] == rest;
  }

  lemma {:induction false} ParseWordsPrefixed(w: string, parts: seq<string>)
    requires AllLetters(w)
    requires forall i :: 0 <= i < |parts| ==> AllLetters(parts[i])
    ensures ParseWords(w + Prefixed(parts, Separator)) == [w] + parts
    decreases |parts|
  {
    if parts == [] {
      assert w + Prefixed(parts, Separator) == w;
      ParseWordsSingle(w);
    } else {
      var tail := Prefixed(parts[1..], Separator);
      assert w + Prefixed(parts, Separator) == w + Separator + (parts[0] + tail);
      ParseWordsStep(w, parts[0] + tail);
      ParseWordsPrefixed(parts[0], parts[1..]);
      assert [parts[0]] + parts[1..] == parts;
    }
  }

  /** Joining non-empty words of letters with ", " and splitting again gives the words
      back: the keyword string is an unambiguous encoding of the keyword list. */
  lemma ParseJoin(parts: seq<string>)
    requires forall i :: 0 <= i < |parts| ==> |parts[i]| > 0 && AllLetters(parts[i])
    ensures ParseKeywords(Join(parts, Separator)) == parts
  {
    if parts != [] {
      JoinCons(parts[0], parts[1..], Separator);
      assert [parts[0]] + parts[1..] == parts;
      ParseWordsPrefixed(parts[0], parts[1..]);
    }
  }

  /** The stored keyword string reads back as a strictly increasing (sorted and
      duplicate-free) list of at most five keywords, each a letter run of length at least
      four occurring at least twice. */
  lemma FormatKeywordsRoundTrip(text: string)
    ensures var r := ParseKeywords(FormatKeywords(text));
            r == KeywordList(text) && StrictlyIncreasing(r) && |r| <= MaxKeywords &&
            forall i :: 0 <= i < |r| ==>
              AllLetters(r[i]) && |r[i]| >= MinKeywordLength && Occurrences(text, r[i]) >= 2
  {
    var list := KeywordList(text);
    var kws := ExtractKeywords(text);
    forall i | 0 <= i < |list|
      ensures AllLetters(list[i]) && |list[i]| >= MinKeywordLength && Occurrences(text, list[i]) >= 2
    {
      assert list[i] in kws;
      var j :| 0 <= j < |kws| && kws[j] == list[i];
    }
    ParseJoin(list);
  }
}
