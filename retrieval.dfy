/** `InsightEngine._similarity` and `InsightEngine.rag_answer`
    (backend/app/services/analysis.py): insights are ranked by how much the term set of
    their summary overlaps the query's, the three best that have a summary are kept, and
    a fixed-format answer is built from them. */
module Retrieval {
  import opened Text
  import opened Tokens
  import opened Sorting
  import opened Decimal
  import opened AnalysisTables
  import opened Records

  const MinTermLength: nat := 3
  const MaxSupporting: nat := 3
  const NoInsightsAnswer: string := "No relevant insights found for this account yet."
  const AnswerHeader: string := "Here's what we know:"
  const NextActionLead: string := "\nSuggested next action: "

  /** `set(re.findall(r"[a-zA-Z]{3,}", s))` */
  function Terms(s: string): set<string> {
    set w | w in LetterRuns(s, MinTermLength)
  }

  /** The square of `_similarity(query, text)`, the cosine of the two term sets:
      `overlap^2 / (|q| * |t|)`. Squaring keeps the order of non-negative values, so
      ranking by it ranks as the source does. */
  function Similarity(query: string, text: string): (r: real)
    ensures 0.0 <= r <= 1.0
    ensures text == [] || Terms(query) == {} || Terms(text) == {} ==> r == 0.0
    ensures Terms(query) * Terms(text) == {} ==> r == 0.0
  {
    if text == [] then 0.0
    else
      var q, t := Terms(query), Terms(text);
      if q == {} || t == {} then 0.0
      else
        var o := |q * t|;
        OverlapBound(q, t);
        RatioUnit(o * o, |q| * |t|);
        (o * o) as real / (|q| * |t|) as real
  }

  lemma RatioUnit(num: nat, den: nat)
    requires 0 < den && num <= den
    ensures 0.0 <= num as real / den as real <= 1.0
  {
    var x := num as real / den as real;
    assert x * den as real == num as real;
  }

  /** The overlap is no larger than either set, so its square is at most the product. */
  lemma OverlapBound(q: set<string>, t: set<string>)
    ensures |q * t| <= |q| && |q * t| <= |t|
    ensures |q * t| * |q * t| <= |q| * |t|
  {
    SubsetCard(q * t, q);
    SubsetCard(q * t, t);
    MulMono(|q * t|, |q|, |q * t|, |t|);
  }

  lemma SubsetCard(a: set<string>, b: set<string>)
    requires a <= b
    ensures |a| <= |b|
    ensures |a| == |b| ==> a == b
  {
    assert b == a + (b - a);
    assert |b| == |a| + |b - a|;
    if |a| == |b| {
      assert b - a == {};
    }
  }

  lemma MulMono(a: nat, b: nat, c: nat, d: nat)
    requires a <= b && c <= d
    ensures a * c <= b * d
  {
    assert a * c <= b * c;
    assert b * c <= b * d;
  }

  /** Similarity is 1 exactly when the text is non-empty and both term sets are the same
      non-empty set. */
  lemma SimilarityOneIff(query: string, text: string)
    ensures Similarity(query, text) == 1.0 <==>
            text != [] && Terms(query) != {} && Terms(query) == Terms(text)
  {
    var q, t := Terms(query), Terms(text);
    if text != [] && q != {} && t != {} {
      var o := |q * t|;
      OverlapBound(q, t);
      if q == t {
        assert q * t == q;
        assert (o * o) as real == (|q| * |t|) as real;
      }
      if Similarity(query, text) == 1.0 {
        assert (o * o) as real == (|q| * |t|) as real;
        assert o * o == |q| * |t|;
        if o < |q| {
          MulStrict(o, |q|, o, |t|);
        }
        if o < |t| {
          MulStrict(o, |t|, o, |q|);
        }
        SubsetCard(q * t, q);
        SubsetCard(q * t, t);
      }
    }
  }

  lemma MulStrict(a: nat, b: nat, c: nat, d: nat)
    requires a < b && c <= d
    ensures a * c < b * d || c == 0
  {
    if c > 0 {
      assert a * c < b * c;
      assert b * c <= b * d;
    }
  }

  /** `insight.summary.lower() if insight.summary else ""` */
  function SummaryText(i: Insight): string {
    if i.summary == [] then [] else Lower(i.summary)
  }

  /** The ranking key of `rag_answer` for an already lowercased query. */
  function RankKey(normalizedQuery: string): Insight -> real {
    i => Similarity(normalizedQuery, SummaryText(i))
  }

  predicate HasSummary(i: Insight) {
    i.summary != []
  }

  /** `sorted(insights, key=..., reverse=True)` */
  function Ranked(query: string, insights: seq<Insight>): seq<Insight> {
    SortDesc(insights, RankKey(Lower(query)))
  }

  /** `[insight for insight in ranked if insight.summary][:3]` */
  function TopInsights(query: string, insights: seq<Insight>): seq<Insight> {
    Take(Filter(Ranked(query, insights), HasSummary), MaxSupporting)
  }

  /** `f"• {summary} (intent: {intent}, sentiment: {sentiment}, risk: {risk:.2f})"` */
  function Bullet(i: Insight): string {
    "\U{2022} " + i.summary + " (intent: " + i.intent + ", sentiment: " + i.sentiment
      + ", risk: " + FormatHundredths(i.risk) + ")"
  }

  function Bullets(insights: seq<Insight>): (r: seq<string>)
    ensures |r| == |insights|
    ensures forall k :: 0 <= k < |r| ==> r[k] == Bullet(insights[k])
  {
    seq(|insights|, k requires 0 <= k < |insights| => Bullet(insights[k]))
  }

  /** `rag_answer(query, insights)`: the answer text and the supporting insights. */
  function RagAnswer(query: string, insights: seq<Insight>): (r: (string, seq<Insight>))
    ensures r.1 == TopInsights(query, insights)
    ensures r.1 == [] ==> r.0 == NoInsightsAnswer
    ensures r.1 != [] ==>
              r.0 == Join([AnswerHeader] + Bullets(r.1)
                            + [NextActionLead + NextAction(r.1[0].intent)], "\n")
  {
    var top := TopInsights(query, insights);
    if top == [] then (NoInsightsAnswer, [])
    else
      var answer := Join([AnswerHeader] + Bullets(top)
                           + [NextActionLead + NextAction(top[0].intent)], "\n");
      (answer, top)
  }

  /** There is no supporting insight exactly when no insight has a summary, and then the
      fixed apology is the answer. */
  lemma RagAnswerEmptyIff(query: string, insights: seq<Insight>)
    ensures RagAnswer(query, insights).1 == [] <==>
            forall k :: 0 <= k < |insights| ==> !HasSummary(insights[k])
    ensures RagAnswer(query, insights).1 == [] ==>
            RagAnswer(query, insights).0 == NoInsightsAnswer
  {
    TopFilteredEmptyIff(insights, RankKey(Lower(query)), HasSummary, MaxSupporting);
  }

  /** The supporting insights: at most three, each from the input and with a summary,
      in non-increasing similarity to the query. */
  lemma RagAnswerSupporting(query: string, insights: seq<Insight>)
    ensures var top := RagAnswer(query, insights).1;
            |top| <= MaxSupporting &&
            (forall k :: 0 <= k < |top| ==> HasSummary(top[k]) && top[k] in insights) &&
            multiset(top) <= multiset(insights) &&
            NonIncreasing(top, RankKey(Lower(query)))
  {
    TopFilteredFacts(insights, RankKey(Lower(query)), HasSummary, MaxSupporting);
  }

  /** Ties keep their input order: among the summarised insights, those with any one
      similarity value come out of the ranking in the order they went in. */
  lemma RagAnswerStable(query: string, insights: seq<Insight>, k: real)
    ensures var key := RankKey(Lower(query));
            WithKey(Filter(Ranked(query, insights), HasSummary), key, k)
              == Filter(WithKey(insights, key, k), HasSummary)
  {
    var key := RankKey(Lower(query));
    FilterWithKey(Ranked(query, insights), HasSummary, key, k);
    SortDescStable(insights, key, k);
  }

  /** The best three: a summarised insight that is not among the supporting ones means
      three were kept, each at least as similar to the query. */
  lemma RagAnswerTopThree(query: string, insights: seq<Insight>, x: Insight)
    requires x in insights && HasSummary(x)
    requires x !in RagAnswer(query, insights).1
    ensures |RagAnswer(query, insights).1| == MaxSupporting
    ensures forall y :: y in RagAnswer(query, insights).1 ==>
              RankKey(Lower(query))(y) >= RankKey(Lower(query))(x)
  {
    TopOfFiltered(insights, RankKey(Lower(query)), HasSummary, MaxSupporting, x);
  }

  /** The answer text line by line: the header, one bullet per supporting insight, and
      the next action of the first one after an empty line. */
  lemma RagAnswerFormat(query: string, insights: seq<Insight>)
    requires RagAnswer(query, insights).1 != []
    ensures var top := RagAnswer(query, insights).1;
            RagAnswer(query, insights).0 ==
              AnswerHeader + Prefixed(Bullets(top), "\n") + "\n"
                + NextActionLead + NextAction(top[0].intent)
  {
    var top := RagAnswer(query, insights).1;
    JoinFramed(AnswerHeader, Bullets(top), NextActionLead + NextAction(top[0].intent), "\n");
  }

  lemma JoinFramed(first: string, middle: seq<string>, last: string, sep: string)
    ensures Join([first] + middle + [last], sep) == first + Prefixed(middle, sep) + sep + last
  {
    assert [first] + middle + [last] == [first] + (middle + [last]);
    JoinCons(first, middle + [last], sep);
    PrefixedAppend(middle, last, sep);
  }
}
