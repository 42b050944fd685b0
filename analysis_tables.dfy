/** The fixed, read-only tables of `backend/app/services/analysis.py`: the sentiment
    keyword sets, the intent keyword table (in the dict's insertion order, which decides
    ties between labels) and the next-action table. */
module AnalysisTables {

  const PositiveKeywords: seq<string> := [
    "great", "love", "growing", "expanding", "happy", "perfect", "excited",
    "improvement", "upgrade", "success"
  ]

  const NegativeKeywords: seq<string> := [
    "issue", "problem", "frustration", "angry", "cancel", "churn", "urgent", "bug",
    "challenge", "wrong", "delay"
  ]

  /** `INTENT_KEYWORDS` as (label, keywords) pairs in insertion order. Each keyword set
      is listed without repetition, so counting over the list counts over the set. */
  const IntentKeywords: seq<(string, seq<string>)> := [
    ("support_request", ["issue", "support", "help", "bug", "error", "technical"]),
    ("pricing_inquiry", ["pricing", "cost", "quote", "invoice", "billing"]),
    ("upgrade_inquiry", ["upgrade", "professional plan", "advanced", "add-on", "new features"]),
    ("expansion_inquiry", ["expand", "new location", "grow", "scale", "hiring"]),
    ("churn_risk", ["cancel", "cancellation", "frustrated", "switch", "refund"]),
    ("feature_request", ["feature", "request", "wishlist", "roadmap", "enhancement"]),
    ("product_feedback", ["feedback", "improvement", "like", "suggestion"])
  ]

  /** The seven intent labels in table order. */
  const IntentLabels: seq<string> := [
    "support_request", "pricing_inquiry", "upgrade_inquiry", "expansion_inquiry",
    "churn_risk", "feature_request", "product_feedback"
  ]

  /** The label returned when no keyword of any label occurs. */
  const DefaultIntent: string := "support_request"

  const NextActions: map<string, string> := map[
    "support_request" := "Escalate to technical support",
    "pricing_inquiry" := "Review pricing options",
    "upgrade_inquiry" := "Coordinate upgrade walkthrough",
    "expansion_inquiry" := "Provide expansion playbook",
    "churn_risk" := "Schedule immediate retention call",
    "feature_request" := "Share product roadmap update",
    "product_feedback" := "Thank customer & log feedback"
  ]

  /** The fallback of `NEXT_ACTIONS.get(intent, ...)`. */
  const FallbackAction: string := "Follow up with the customer"

  /** `NEXT_ACTIONS.get(intent, "Follow up with the customer")` */
  function NextAction(intent: string): (r: string)
    ensures intent in NextActions ==> r == NextActions[intent]
    ensures intent !in NextActions ==> r == FallbackAction
  {
    if intent in NextActions then NextActions[intent] else FallbackAction
  }

  /** The tables agree: the labels are those of `IntentKeywords`, every label has its
      own next action, no label falls back, and the default intent is the first label. */
  lemma TablesAgree()
    ensures |IntentKeywords| == |IntentLabels| == 7
    ensures forall i :: 0 <= i < 7 ==> IntentKeywords[i].0 == IntentLabels[i]
    ensures forall i, j :: 0 <= i < j < 7 ==> IntentLabels[i] != IntentLabels[j]
    ensures NextActions.Keys == set l | l in IntentLabels
    ensures forall l :: l in IntentLabels ==> NextAction(l) != FallbackAction
    ensures DefaultIntent == IntentLabels[0]
  {
  }
}
