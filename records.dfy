/** The stored entities of backend/app/models.py that the engine and the routes read,
    as plain values. Risk and confidence are in integer hundredths; timestamps are
    integers that order like the source's datetimes. */
module Records {
  import opened Wrappers

  /** An AI insight attached to one interaction. `summary` is the text column; an
      empty summary is what `if insight.summary` treats as missing. */
  datatype Insight = Insight(
    interactionId: int,
    intent: string,
    sentiment: string,
    risk: int,
    confidence: int,
    summary: string,
    keywords: Option<string>,
    createdAt: int)

  /** One customer interaction and, when it has been analysed, its insight. */
  datatype Interaction = Interaction(
    id: int,
    timestamp: int,
    content: string,
    insight: Option<Insight>)

  /** An account with its interactions, in the order the relationship loads them. */
  datatype Account = Account(id: int, name: string, interactions: seq<Interaction>)

  /** A thumbs-up (`true`) or thumbs-down rating of an insight. */
  datatype Feedback = Feedback(insightId: int, rating: bool)
}
