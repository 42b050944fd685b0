/** The earlier single-file backend, journeylens_backend.py: its keyword heuristic
    (`InsightService.analyze_interaction`), its canned RAG reply, the at-risk filter of
    its CSM dashboard and its feedback rates. Risk and confidence are in integer
    hundredths; timestamps are integers. */
module LegacyBackend {
  import opened Wrappers
  import opened Text
  import opened Sorting
  import opened Routes

  const SummaryLimit: nat := 80
  const Truncation: string := "..."
  const LegacyConfidence: int := 50
  const NegativeRisk: int := 80
  const PositiveRisk: int := 20
  const AngryWords: seq<string> := ["angry", "frustrated", "bad"]

  /** The dictionary `analyze_interaction` returns; the embedding is a list of numbers. */
  datatype LegacyAnalysis = LegacyAnalysis(
    intent: string,
    sentiment: string,
    risk: int,
    summary: string,
    confidence: int,
    embedding: seq<real>)

  /** `content[:80] + ("..." if len(content) > 80 else "")` */
  function LegacySummary(content: string): (r: string)
    ensures |content| <= SummaryLimit ==> r == content
    ensures |content| > SummaryLimit ==> r == content[..SummaryLimit] + Truncation
    ensures |r| <= SummaryLimit + |Truncation|
  {
    (if |content| <= SummaryLimit then content else content[..SummaryLimit])
      + (if |content| > SummaryLimit then Truncation else "")
  }

  predicate SoundsAngry(lowered: string) {
    exists k :: 0 <= k < |AngryWords| && Contains(lowered, AngryWords[k])
  }

  /** `analyze_interaction(content)` */
  function AnalyzeInteraction(content: string): (r: LegacyAnalysis)
    ensures r.intent == "support_request" <==> Contains(Lower(content), "help")
    ensures r.intent != "support_request" ==> r.intent == "general_inquiry"
    ensures r.sentiment == "negative" <==>
              Contains(Lower(content), "angry") || Contains(Lower(content), "frustrated")
              || Contains(Lower(content), "bad")
    ensures r.sentiment != "negative" ==> r.sentiment == "positive"
    ensures r.risk == (if r.sentiment == "negative" then NegativeRisk else PositiveRisk)
    ensures r.summary == LegacySummary(content)
    ensures r.confidence == LegacyConfidence && r.embedding == []
  {
    var lowered := Lower(content);
    var intent := if Contains(lowered, "help") then "support_request" else "general_inquiry";
    var sentiment := if SoundsAngry(lowered) then "negative" else "positive";
    var risk := if sentiment == "negative" then NegativeRisk else PositiveRisk;
    assert SoundsAngry(lowered) <==>
           Contains(lowered, "angry") || Contains(lowered, "frustrated") || Contains(lowered, "bad") by {
      assert AngryWords[0] == "angry" && AngryWords[1] == "frustrated" && AngryWords[2] == "bad";
    }
    LegacyAnalysis(intent, sentiment, risk, LegacySummary(content), LegacyConfidence, [])
  }

  /** The legacy heuristic never answers "neutral", and its risk is one of two values. */
  lemma AnalyzeInteractionNeverNeutral(content: string)
    ensures AnalyzeInteraction(content).sentiment in {"negative", "positive"}
    ensures AnalyzeInteraction(content).risk in {NegativeRisk, PositiveRisk}
  {
  }

  const NoRecentInsights: string := "No recent insights available for this account."

  /** `rag_query(query, account_id, db)`, given the account's (at most five) insights. */
  function LegacyRagQuery(query: string, insightCount: nat): (r: string)
    ensures insightCount == 0 ==> r == NoRecentInsights
    ensures insightCount > 0 ==>
              r == "Based on recent interactions, the answer to '" + query
                     + "' is not available in this demo."
  {
    if insightCount == 0 then NoRecentInsights
    else "Based on recent interactions, the answer to '" + query + "' is not available in this demo."
  }

  /** A stored legacy insight; `createdAt` may be missing. */
  datatype LegacyInsight = LegacyInsight(risk: int, createdAt: Option<int>)

  /** An account with its latest insights, newest first, as the dashboard's per-account
      query returns them. */
  datatype LegacyAccount = LegacyAccount(id: int, name: string, latestInsights: seq<LegacyInsight>)

  /** A dashboard row; the average risk is exact (the legacy code does not round it). */
  datatype AtRiskRow = AtRiskRow(
    accountId: int,
    accountName: string,
    risk: real,
    recentInteractions: nat,
    lastInteraction: int,
    nextAction: string)

  const AtRiskThreshold: real := 70.0
  const CheckInThreshold: real := 80.0
  const LatestLimit: nat := 5

  function LegacyRiskSum(insights: seq<LegacyInsight>): int {
    if insights == [] then 0 else insights[0].risk + LegacyRiskSum(insights[1..])
  }

  /** `sum(risk_score) / len(insights)` in hundredths. */
  function AverageRisk(insights: seq<LegacyInsight>): (r: real)
    requires insights != []
    ensures r * (|insights| as real) == LegacyRiskSum(insights) as real
  {
    LegacyRiskSum(insights) as real / |insights| as real
  }

  /** The row of one account, if its average risk is above 0.7. */
  function AtRiskRowFor(a: LegacyAccount, now: int): (r: Option<AtRiskRow>)
    ensures var latest := Take(a.latestInsights, LatestLimit);
            r.Some? <==> latest != [] && AverageRisk(latest) > AtRiskThreshold
    ensures r.Some? ==>
              var latest := Take(a.latestInsights, LatestLimit);
              r.value.accountId == a.id && r.value.accountName == a.name
              && r.value.risk == AverageRisk(latest)
              && r.value.recentInteractions == |latest|
              && r.value.lastInteraction == latest[0].createdAt.GetOr(now)
              && (r.value.nextAction == "Schedule check-in call" <==> r.value.risk > CheckInThreshold)
              && (r.value.nextAction != "Schedule check-in call" ==> r.value.nextAction == "Monitor closely")
  {
    var latest := Take(a.latestInsights, LatestLimit);
    if latest == [] then None
    else
      var avg := AverageRisk(latest);
      if avg > AtRiskThreshold then
        Some(AtRiskRow(a.id, a.name, avg, |latest|, latest[0].createdAt.GetOr(now),
                       if avg > CheckInThreshold then "Schedule check-in call" else "Monitor closely"))
      else None
  }

  /** The rows listed for `accounts`, in account order. */
  function AtRiskRows(accounts: seq<LegacyAccount>, now: int): seq<AtRiskRow> {
    if accounts == [] then []
    else
      var init := AtRiskRows(accounts[..|accounts| - 1], now);
      match AtRiskRowFor(accounts[|accounts| - 1], now)
      case None => init
      case Some(row) => init + [row]
  }

  /** `get_csm_dashboard`: loops over the accounts and appends a row for each one whose
      latest five insights average above 0.7. `now` stands for `datetime.utcnow()`. */
  method LegacyCsmDashboard(accounts: seq<LegacyAccount>, now: int) returns (rows: seq<AtRiskRow>)
    ensures rows == AtRiskRows(accounts, now)
    ensures forall k :: 0 <= k < |rows| ==> rows[k].risk > AtRiskThreshold
    ensures |rows| <= |accounts|
  {
    rows := [];
    var i := 0;
    while i < |accounts|
      invariant 0 <= i <= |accounts|
      invariant rows == AtRiskRows(accounts[..i], now)
    {
      assert accounts[..i + 1][..i] == accounts[..i];
      var account := accounts[i];
      var latest := Take(account.latestInsights, LatestLimit);
      if latest != [] {
        var avgRisk := LegacyRiskSum(latest) as real / |latest| as real;
        if avgRisk > AtRiskThreshold {
          var nextAction := if avgRisk > CheckInThreshold then "Schedule check-in call" else "Monitor closely";
          rows := rows + [AtRiskRow(account.id, account.name, avgRisk, |latest|,
                                    latest[0].createdAt.GetOr(now), nextAction)];
        }
      }
      i := i + 1;
    }
    assert accounts[..i] == accounts;
    AtRiskRowsBounds(accounts, now);
  }

  /** Every listed row is above the at-risk threshold, and there is at most one row per
      account. */
  lemma {:induction false} AtRiskRowsBounds(accounts: seq<LegacyAccount>, now: int)
    ensures forall k :: 0 <= k < |AtRiskRows(accounts, now)| ==> AtRiskRows(accounts, now)[k].risk > AtRiskThreshold
    ensures |AtRiskRows(accounts, now)| <= |accounts|
    decreases |accounts|
  {
    if accounts != [] {
      AtRiskRowsBounds(accounts[..|accounts| - 1], now);
    }
  }

  /** An account is listed exactly when its average is above 0.7; an account with no
      insight is never listed. */
  lemma {:induction false} AtRiskRowsMembers(accounts: seq<LegacyAccount>, now: int, row: AtRiskRow)
    ensures row in AtRiskRows(accounts, now) <==>
            exists k :: 0 <= k < |accounts| && AtRiskRowFor(accounts[k], now) == Some(row)
    decreases |accounts|
  {
    if accounts != [] {
      var init := accounts[..|accounts| - 1];
      var last := accounts[|accounts| - 1];
      var tail := match AtRiskRowFor(last, now) case None => [] case Some(x) => [x];
      assert AtRiskRows(accounts, now) == AtRiskRows(init, now) + tail;
      AtRiskRowsMembers(init, now, row);
      assert row in AtRiskRows(accounts, now) <==> row in AtRiskRows(init, now) || row in tail;
      assert row in tail <==> AtRiskRowFor(last, now) == Some(row);
      assert (exists k :: 0 <= k < |init| && AtRiskRowFor(init[k], now) == Some(row)) <==>
             (exists k :: 0 <= k < |accounts| - 1 && AtRiskRowFor(accounts[k], now) == Some(row)) by {
        assert forall k :: 0 <= k < |init| ==> init[k] == accounts[k];
      }
    }
  }

  datatype LegacyMetrics = LegacyMetrics(
    coverage: int,
    feedbackRate: int,
    usefulRate: int,
    totalInsights: nat,
    avgConfidence: int,
    performanceTrend: string)

  /** The number of thumbs-up ratings. */
  function PositiveCount(ratings: seq<bool>): (n: nat)
    ensures n == multiset(ratings)[true]
    ensures n <= |ratings|
  {
    if ratings == [] then 0
    else
      assert ratings == [ratings[0]] + ratings[1..];
      (if ratings[0] then 1 else 0) + PositiveCount(ratings[1..])
  }

  /** `get_evaluation_metrics` over the number of insights and the feedback ratings
      (`true` is a thumbs-up): fixed coverage (85.2%, in tenths), confidence (0.87, in
      hundredths) and trend; the two rates use the same zero-guarded percentage, rounded
      to one decimal, as the newer routes. */
  function LegacyEvaluationMetrics(totalInsights: nat, ratings: seq<bool>): (r: LegacyMetrics)
    ensures r.totalInsights == totalInsights
    ensures r.feedbackRate == Rate(|ratings|, totalInsights)
    ensures r.usefulRate == Rate(PositiveCount(ratings), |ratings|)
    ensures totalInsights == 0 ==> r.feedbackRate == 0
    ensures ratings == [] ==> r.usefulRate == 0
    ensures 0 <= r.usefulRate <= 1000
    ensures r.coverage == 852 && r.avgConfidence == 87 && r.performanceTrend == "improving"
  {
    LegacyMetrics(852, Rate(|ratings|, totalInsights), Rate(PositiveCount(ratings), |ratings|),
                  totalInsights, 87, "improving")
  }
}
