/** `InsightEngine.analyze` (backend/app/services/analysis.py): lowercase the content,
    take intent, sentiment and risk from the expected-value table when the interaction
    is listed there, otherwise from the heuristics, and add a summary and keywords. */
module InsightEngine {
  import opened Wrappers
  import opened Text
  import opened AnalysisTables
  import opened Heuristics
  import opened Summarizer
  import opened KeywordExtractor

  /** Confidence in hundredths: 0.9 for a listed interaction, 0.65 for the heuristics. */
  const ExpectedConfidence: int := 90
  const HeuristicConfidence: int := 65

  /** `ExpectedInsight`: the expected outcome of a demo interaction, risk in
      hundredths. */
  datatype ExpectedInsight = ExpectedInsight(
    expectedIntent: string,
    expectedSentiment: string,
    expectedRisk: int)

  /** The dictionary `analyze` returns. */
  datatype Analysis = Analysis(
    intent: string,
    sentiment: string,
    risk: int,
    summary: string,
    confidence: int,
    keywords: string)

  /** An engine and its read-only table of expected outcomes, by interaction id. */
  datatype Engine = Engine(expectedLookup: map<int, ExpectedInsight>) {

    /** `if interaction_id and interaction_id in self.expected_lookup`: the id is given,
        is not 0 (which Python treats as false) and is listed. */
    predicate Overrides(interactionId: Option<int>) {
      interactionId.Some? && interactionId.value != 0 && interactionId.value in expectedLookup
    }

    /** `analyze(interaction_id, content)` */
    function Analyze(interactionId: Option<int>, content: string): (r: Analysis)
      ensures r.summary == Summarize(content)
      ensures r.keywords == FormatKeywords(Lower(content))
      ensures Overrides(interactionId) ==>
                var e := expectedLookup[interactionId.value];
                r.intent == e.expectedIntent && r.sentiment == e.expectedSentiment
                && r.risk == e.expectedRisk && r.confidence == ExpectedConfidence
      ensures !Overrides(interactionId) ==>
                var normalized := Lower(content);
                r.intent == IntentOf(normalized) && r.sentiment == InferSentiment(normalized)
                && r.risk == RiskOf(r.intent, r.sentiment, normalized)
                && r.confidence == HeuristicConfidence
    {
      var normalized := Lower(content);
      if Overrides(interactionId) then
        var expected := expectedLookup[interactionId.value];
        Analysis(expected.expectedIntent, expected.expectedSentiment, expected.expectedRisk,
                 Summarize(content), ExpectedConfidence, FormatKeywords(normalized))
      else
        var intent := IntentOf(normalized);
        var sentiment := InferSentiment(normalized);
        Analysis(intent, sentiment, RiskOf(intent, sentiment, normalized),
                 Summarize(content), HeuristicConfidence, FormatKeywords(normalized))
    }
  }

  /** `InsightEngine(expected_lookup)`: a missing table is an empty one. */
  function NewEngine(expectedLookup: Option<map<int, ExpectedInsight>>): (e: Engine)
    ensures expectedLookup.None? ==> e.expectedLookup == map[]
    ensures expectedLookup.Some? ==> e.expectedLookup == expectedLookup.value
    ensures forall id :: !e.Overrides(Some(id)) <==> id == 0 || id !in e.expectedLookup
  {
    Engine(expectedLookup.GetOr(map[]))
  }

  /** Without an override the analysis is all heuristic: one of the seven labels, one of
      the three sentiments and a risk inside [0.05, 0.95], with confidence 0.65. */
  lemma HeuristicAnalysisBounds(engine: Engine, interactionId: Option<int>, content: string)
    requires !engine.Overrides(interactionId)
    ensures var r := engine.Analyze(interactionId, content);
            r.intent in IntentLabels && r.sentiment in {"positive", "neutral", "negative"}
            && MinRisk <= r.risk <= MaxRisk && r.confidence == HeuristicConfidence
  {
  }

  /** Summary and keywords only depend on the content: the override changes intent,
      sentiment, risk and confidence and nothing else. */
  lemma OverrideKeepsText(engine: Engine, id: Option<int>, other: Option<int>, content: string)
    ensures engine.Analyze(id, content).summary == engine.Analyze(other, content).summary
    ensures engine.Analyze(id, content).keywords == engine.Analyze(other, content).keywords
  {
  }

  /** The id 0 never overrides, even when the table lists it, exactly as a missing id. */
  lemma ZeroIdIsHeuristic(engine: Engine, content: string)
    ensures engine.Analyze(Some(0), content) == engine.Analyze(None, content)
  {
  }

  /** Analysis ignores the case of the content for everything but the summary. */
  lemma AnalyzeIgnoresCase(engine: Engine, id: Option<int>, content: string)
    ensures var a, b := engine.Analyze(id, content), engine.Analyze(id, Lower(content));
            a.intent == b.intent && a.sentiment == b.sentiment && a.risk == b.risk
            && a.confidence == b.confidence && a.keywords == b.keywords
  {
    LowerIdempotent(content);
  }
}
