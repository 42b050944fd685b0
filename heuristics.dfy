/** The three classifiers of `InsightEngine` in backend/app/services/analysis.py:
    intent by keyword counting (`_infer_intent`), sentiment by comparing positive and
    negative hits (`_infer_sentiment`) and the additive, clamped risk rule table
    (`_estimate_risk`). Risk is held in integer hundredths (0.85 is 85), which makes
    the source's `round(..., 2)` exact. All three read text that is already lowercased. */
module Heuristics {
  import opened Text
  import opened Sorting
  import opened AnalysisTables

  /** `sum(word in text for word in words)`: how many of the words occur in `text` as
      substrings. */
  function CountHits(words: seq<string>, text: string): (n: nat)
    ensures n == |HitPositions(words, text)|
    ensures n <= |words|
    ensures n == 0 <==> forall i :: 0 <= i < |words| ==> !Contains(text, words[i])
    ensures n == |words| <==> forall i :: 0 <= i < |words| ==> Contains(text, words[i])
  {
    if words == [] then
      assert HitPositions(words, text) == {};
      0
    else
      var init := words[..|words| - 1];
      assert forall i :: 0 <= i < |init| ==> init[i] == words[i];
      HitPositionsStep(words, text);
      CountHits(init, text) + (if Contains(text, words[|words| - 1]) then 1 else 0)
  }

  /** The positions of the words that occur in `text`. */
  function HitPositions(words: seq<string>, text: string): set<nat> {
    set i: nat | i < |words| && Contains(text, words[i])
  }

  /** The hit positions of `words` are those of all but its last word, plus the last
      position when that word occurs. */
  lemma HitPositionsStep(words: seq<string>, text: string)
    requires words != []
    ensures var last := |words| - 1;
            var init := HitPositions(words[..last], text);
            last !in init &&
            HitPositions(words, text) == init + (if Contains(text, words[last]) then {last} else {})
  {
    var last := |words| - 1;
    assert forall i :: 0 <= i < last ==> words[..last][i] == words[i];
  }

  // ---------------------------------------------------------------------------
  // Intent
  // ---------------------------------------------------------------------------

  /** `scores`, indexed by the label's position in `IntentKeywords`, once the loops of
      `_infer_intent` are done. */
  function IntentScores(text: string): seq<int> {
    seq(|IntentKeywords|, i requires 0 <= i < |IntentKeywords| => CountHits(IntentKeywords[i].1, text))
  }

  /** The result of `_infer_intent(text)`: the first label with the highest score, or
      the default label when that score is zero. */
  function IntentOf(text: string): (intent: string)
    ensures intent in IntentLabels
  {
    var scores := IntentScores(text);
    var best := FirstArgMax(scores);
    if scores[best] > 0 then IntentKeywords[best].0 else DefaultIntent
  }

  /** The intent is label `i` exactly when `i` has the most hits and every earlier label
      has strictly fewer: the most hits win and ties go to the earliest label. The
      zero-score fallback is covered too, since the fallback label is the first one. */
  lemma IntentOfIff(text: string, i: nat)
    requires i < |IntentLabels|
    ensures var scores := IntentScores(text);
            IntentOf(text) == IntentLabels[i] <==>
              (forall j :: 0 <= j < |scores| ==> scores[j] <= scores[i]) &&
              (forall j :: 0 <= j < i ==> scores[j] < scores[i])
  {
    TablesAgree();
    var scores := IntentScores(text);
    var best := FirstArgMax(scores);
    FirstArgMaxUnique(scores, i);
    if scores[best] == 0 {
      assert scores[0] >= 0;
      assert best == 0;
    }
    assert IntentOf(text) == IntentLabels[best];
  }

  /** Text that matches no keyword of any label is a support request. */
  lemma IntentWithoutHits(text: string)
    requires forall i, k :: 0 <= i < |IntentKeywords| && 0 <= k < |IntentKeywords[i].1| ==>
               !Contains(text, IntentKeywords[i].1[k])
    ensures IntentOf(text) == "support_request"
  {
    var scores := IntentScores(text);
    assert forall i :: 0 <= i < |scores| ==> scores[i] == 0;
  }

  /** The two loops of `_infer_intent`: for every label of `table`, add one to its
      score for each of its keywords that occurs in `text`. */
  method ScoreLabels(table: seq<(string, seq<string>)>, text: string) returns (scores: seq<int>)
    ensures |scores| == |table|
    ensures forall j :: 0 <= j < |table| ==> scores[j] == CountHits(table[j].1, text)
  {
    scores := seq(|table|, _ => 0);
    var i := 0;
    while i < |table|
      invariant 0 <= i <= |table| && |scores| == |table|
      invariant forall j :: 0 <= j < i ==> scores[j] == CountHits(table[j].1, text)
      invariant forall j :: i <= j < |scores| ==> scores[j] == 0
    {
      var keywords := table[i].1;
      var k := 0;
      while k < |keywords|
        invariant 0 <= k <= |keywords| && |scores| == |table|
        invariant scores[i] == CountHits(keywords[..k], text)
        invariant forall j :: 0 <= j < i ==> scores[j] == CountHits(table[j].1, text)
        invariant forall j :: i < j < |scores| ==> scores[j] == 0
      {
        assert keywords[..k + 1][..k] == keywords[..k];
        if Contains(text, keywords[k]) {
          scores := scores[i := scores[i] + 1];
        }
        k := k + 1;
      }
      assert keywords[..k] == keywords;
      i := i + 1;
    }
  }

  /** `_infer_intent`: scores every label of `INTENT_KEYWORDS`, then takes the first
      label with the highest score. */
  method InferIntent(text: string) returns (intent: string)
    ensures intent == IntentOf(text)
    ensures intent in IntentLabels
  {
    var scores := ScoreLabels(IntentKeywords, text);
    assert scores == IntentScores(text);
    var best := FirstArgMax(scores);
    intent := if scores[best] > 0 then IntentKeywords[best].0 else DefaultIntent;
  }

  // ---------------------------------------------------------------------------
  // Sentiment
  // ---------------------------------------------------------------------------

  /** The decision of `_infer_sentiment` from its two counts. */
  function SentimentFromCounts(pos: nat, neg: nat): (s: string)
    ensures s == "neutral" <==> pos == neg
    ensures s == "positive" <==> pos > neg
    ensures s == "negative" <==> pos < neg
  {
    if pos == neg then "neutral" else if pos > neg then "positive" else "negative"
  }

  /** `_infer_sentiment(text)` */
  function InferSentiment(text: string): (s: string)
    ensures s in {"positive", "neutral", "negative"}
    ensures var pos, neg := CountHits(PositiveKeywords, text), CountHits(NegativeKeywords, text);
            (s == "neutral" <==> pos == neg) && (s == "positive" <==> pos > neg)
  {
    SentimentFromCounts(CountHits(PositiveKeywords, text), CountHits(NegativeKeywords, text))
  }

  function Opposite(sentiment: string): string {
    if sentiment == "positive" then "negative"
    else if sentiment == "negative" then "positive"
    else sentiment
  }

  /** Swapping the positive and negative counts swaps the verdict; equal counts stay
      neutral. */
  lemma SentimentSymmetric(pos: nat, neg: nat)
    ensures SentimentFromCounts(neg, pos) == Opposite(SentimentFromCounts(pos, neg))
  {
  }

  /** Text without any sentiment keyword is neutral. */
  lemma SentimentWithoutHits(text: string)
    requires forall k :: 0 <= k < |PositiveKeywords| ==> !Contains(text, PositiveKeywords[k])
    requires forall k :: 0 <= k < |NegativeKeywords| ==> !Contains(text, NegativeKeywords[k])
    ensures InferSentiment(text) == "neutral"
  {
  }

  // ---------------------------------------------------------------------------
  // Risk, in integer hundredths
  // ---------------------------------------------------------------------------

  const MinRisk: int := 5
  const MaxRisk: int := 95

  /** The per-intent starting score. */
  function BaseRisk(intent: string): int {
    if intent == "churn_risk" then 85
    else if intent == "support_request" || intent == "pricing_inquiry" then 55
    else if intent == "upgrade_inquiry" then 20
    else 30
  }

  function SentimentAdjustment(sentiment: string): int {
    if sentiment == "negative" then 20 else if sentiment == "positive" then -20 else 0
  }

  predicate Urgent(text: string) {
    Contains(text, "urgent") || Contains(text, "immediately")
  }

  predicate Relieved(text: string) {
    Contains(text, "happy") || Contains(text, "excited")
  }

  /** The sum of the rule table before clamping. */
  function UnclampedRisk(intent: string, sentiment: string, text: string): int {
    BaseRisk(intent) + SentimentAdjustment(sentiment)
      + (if Urgent(text) then 10 else 0) - (if Relieved(text) then 10 else 0)
  }

  /** `min(max(x, 0.05), 0.95)` in hundredths. */
  function Clamp(x: int): (r: int)
    ensures MinRisk <= r <= MaxRisk
    ensures MinRisk <= x <= MaxRisk ==> r == x
    ensures x < MinRisk ==> r == MinRisk
    ensures x > MaxRisk ==> r == MaxRisk
  {
    if x < MinRisk then MinRisk else if x > MaxRisk then MaxRisk else x
  }

  /** The value of `_estimate_risk(intent, sentiment, text)`: the rule-table sum,
      clamped once, at the end. */
  function RiskOf(intent: string, sentiment: string, text: string): (r: int)
    ensures MinRisk <= r <= MaxRisk
  {
    Clamp(UnclampedRisk(intent, sentiment, text))
  }

  /** `_estimate_risk`: starts from 0.3, replaces it by the intent's base, then adds the
      sentiment, urgency and relief adjustments in turn and clamps. */
  method EstimateRisk(intent: string, sentiment: string, text: string) returns (risk: int)
    ensures risk == RiskOf(intent, sentiment, text)
    ensures MinRisk <= risk <= MaxRisk
  {
    var base := 30;
    if intent == "churn_risk" {
      base := 85;
    } else if intent in {"support_request", "pricing_inquiry"} {
      base := 55;
    } else if intent == "upgrade_inquiry" {
      base := 20;
    }
    if sentiment == "negative" {
      base := base + 20;
    } else if sentiment == "positive" {
      base := base - 20;
    }
    if Contains(text, "urgent") || Contains(text, "immediately") {
      base := base + 10;
    }
    if Contains(text, "happy") || Contains(text, "excited") {
      base := base - 10;
    }
    risk := if base < MinRisk then MinRisk else if base > MaxRisk then MaxRisk else base;
  }

  /** A negative churn-risk interaction is always at the ceiling (0.85 + 0.2 clamps to 0.95,
      and neither urgency nor relief can bring it below). */
  lemma ChurnNegativeIsMaximal(text: string)
    ensures RiskOf("churn_risk", "negative", text) == MaxRisk
  {
  }

  /** A positive upgrade inquiry sits at the floor unless it is urgent without relief. */
  lemma UpgradePositiveIsMinimal(text: string)
    ensures RiskOf("upgrade_inquiry", "positive", text) ==
            if Urgent(text) && !Relieved(text) then 10 else MinRisk
  {
  }

  /** For a fixed intent and text, negative sentiment never lowers and positive
      sentiment never raises the risk. */
  lemma RiskMonotoneInSentiment(intent: string, sentiment: string, text: string)
    ensures RiskOf(intent, "positive", text) <= RiskOf(intent, sentiment, text)
            <= RiskOf(intent, "negative", text)
  {
  }
}
