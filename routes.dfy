/** The aggregation logic of backend/app/api/routes.py with the database queries
    replaced by the lists they return: the CSM dashboard, the account detail and RAG
    lookups, the clamp on the recent-insights limit and the feedback rates. */
module Routes {
  import opened Wrappers
  import opened Sorting
  import opened Decimal
  import opened AnalysisTables
  import opened Records
  import opened Retrieval

  const NotFound: nat := 404
  const AccountNotFound: string := "Account not found"

  // ---------------------------------------------------------------------------
  // Loading an account
  // ---------------------------------------------------------------------------

  /** `query(Account).filter(Account.id == account_id).first()` */
  function FindAccount(accounts: seq<Account>, id: int): (r: Option<Account>)
    ensures r.None? <==> forall k :: 0 <= k < |accounts| ==> accounts[k].id != id
    ensures r.Some? ==> r.value in accounts && r.value.id == id
  {
    if accounts == [] then None
    else if accounts[0].id == id then Some(accounts[0])
    else FindAccount(accounts[1..], id)
  }

  /** `[interaction.insight for interaction in interactions if interaction.insight]` */
  function AccountInsights(interactions: seq<Interaction>): (r: seq<Insight>)
    ensures |r| <= |interactions|
    ensures r == [] <==> forall k :: 0 <= k < |interactions| ==> interactions[k].insight.None?
    ensures forall k :: 0 <= k < |interactions| && interactions[k].insight.Some? ==>
              interactions[k].insight.value in r
    ensures forall x :: x in r ==>
              exists k :: 0 <= k < |interactions| && interactions[k].insight == Some(x)
  {
    if interactions == [] then []
    else
      var rest := AccountInsights(interactions[1..]);
      assert forall k :: 1 <= k < |interactions| ==> interactions[k] == interactions[1..][k - 1];
      assert forall x :: x in rest ==>
               exists k :: 0 <= k < |interactions| && interactions[k].insight == Some(x) by {
        forall x | x in rest
          ensures exists k :: 0 <= k < |interactions| && interactions[k].insight == Some(x)
        {
          var j :| 0 <= j < |interactions[1..]| && interactions[1..][j].insight == Some(x);
          assert interactions[j + 1].insight == Some(x);
        }
      }
      match interactions[0].insight
      case None => rest
      case Some(x) => [x] + rest
  }

  function TimestampKey(i: Interaction): real {
    i.timestamp as real
  }

  /** `get_account_details`: the account, its interactions re-sorted newest first (a
      stable sort, so equal timestamps keep their order), or a 404. */
  function AccountDetails(accounts: seq<Account>, id: int): (r: Result<Account>)
    ensures r.Err? <==> forall k :: 0 <= k < |accounts| ==> accounts[k].id != id
    ensures r.Err? ==> r.status == NotFound && r.detail == AccountNotFound
    ensures r.Ok? ==>
              var a := FindAccount(accounts, id).value;
              r.value.id == id && r.value.name == a.name
              && multiset(r.value.interactions) == multiset(a.interactions)
              && NonIncreasing(r.value.interactions, TimestampKey)
              && forall k :: WithKey(r.value.interactions, TimestampKey, k)
                               == WithKey(a.interactions, TimestampKey, k)
  {
    match FindAccount(accounts, id)
    case None => Err(NotFound, AccountNotFound)
    case Some(a) =>
      var sorted := SortDesc(a.interactions, TimestampKey);
      assert forall k :: WithKey(sorted, TimestampKey, k) == WithKey(a.interactions, TimestampKey, k) by {
        forall k ensures WithKey(sorted, TimestampKey, k) == WithKey(a.interactions, TimestampKey, k) {
          SortDescStable(a.interactions, TimestampKey, k);
        }
      }
      Ok(Account(a.id, a.name, sorted))
  }

  /** `rag_query`: the engine's answer over the insights of the account, or a 404. */
  function RagQuery(accounts: seq<Account>, id: int, query: string): (r: Result<(string, seq<Insight>)>)
    ensures r.Err? <==> forall k :: 0 <= k < |accounts| ==> accounts[k].id != id
    ensures r.Err? ==> r.status == NotFound && r.detail == AccountNotFound
    ensures r.Ok? ==>
              r.value == RagAnswer(query, AccountInsights(FindAccount(accounts, id).value.interactions))
  {
    match FindAccount(accounts, id)
    case None => Err(NotFound, AccountNotFound)
    case Some(a) => Ok(RagAnswer(query, AccountInsights(a.interactions)))
  }

  // ---------------------------------------------------------------------------
  // The CSM dashboard
  // ---------------------------------------------------------------------------

  /** One dashboard row; risk in hundredths, as `round(avg_risk, 2)` leaves it. */
  datatype DashboardRow = DashboardRow(
    accountId: int,
    accountName: string,
    risk: int,
    recentInteractions: nat,
    lastInteraction: Option<int>,
    nextAction: string)

  function RiskSum(insights: seq<Insight>): int {
    if insights == [] then 0 else insights[0].risk + RiskSum(insights[1..])
  }

  /** `round(sum(risk_scores) / len(risk_scores), 2)` in hundredths: the mean rounded to
      the nearest hundredth, ties to even. */
  function MeanRisk(insights: seq<Insight>): (r: int)
    requires insights != []
    ensures -|insights| <= 2 * (r * |insights| - RiskSum(insights)) <= |insights|
    ensures 2 * (r * |insights| - RiskSum(insights)) == |insights| ==> r % 2 == 0
    ensures 2 * (r * |insights| - RiskSum(insights)) == -|insights| ==> r % 2 == 0
  {
    RoundHalfEven(RiskSum(insights), |insights|)
  }

  lemma {:induction false} RiskSumBounds(insights: seq<Insight>, lo: int, hi: int)
    requires forall k :: 0 <= k < |insights| ==> lo <= insights[k].risk <= hi
    ensures |insights| * lo <= RiskSum(insights) <= |insights| * hi
    decreases |insights|
  {
    if insights != [] {
      var tail := insights[1..];
      forall k | 0 <= k < |tail| ensures lo <= tail[k].risk <= hi {
        assert tail[k] == insights[k + 1];
      }
      RiskSumBounds(tail, lo, hi);
      assert |insights| * lo == |tail| * lo + lo;
      assert |insights| * hi == |tail| * hi + hi;
    }
  }

  /** The rounded mean stays within any bounds all the risks share: with risks from the
      heuristics, every dashboard row is inside [0.05, 0.95]. */
  lemma MeanRiskWithin(insights: seq<Insight>, lo: int, hi: int)
    requires insights != []
    requires forall k :: 0 <= k < |insights| ==> lo <= insights[k].risk <= hi
    ensures lo <= MeanRisk(insights) <= hi
  {
    var n, s, r := |insights|, RiskSum(insights), MeanRisk(insights);
    RiskSumBounds(insights, lo, hi);
    assert (lo - 1) * n == n * lo - n;
    assert r * n > (lo - 1) * n;
    MulCancel(r, lo - 1, n);
    assert (hi + 1) * n == n * hi + n;
    assert (hi + 1) * n > r * n;
    MulCancel(hi + 1, r, n);
  }

  lemma MulCancel(a: int, b: int, n: int)
    requires n > 0 && a * n > b * n
    ensures a > b
  {
    assert (a - b) * n == a * n - b * n;
  }

  /** `max((i.timestamp for i in interactions), default=None)` */
  function LastTimestamp(interactions: seq<Interaction>): (r: Option<int>)
    ensures r.None? <==> interactions == []
    ensures r.Some? ==> exists k :: 0 <= k < |interactions| && interactions[k].timestamp == r.value
    ensures r.Some? ==> forall k :: 0 <= k < |interactions| ==> interactions[k].timestamp <= r.value
  {
    if interactions == [] then None
    else
      var rest := LastTimestamp(interactions[1..]);
      assert forall k :: 1 <= k < |interactions| ==> interactions[k] == interactions[1..][k - 1];
      match rest
      case None => Some(interactions[0].timestamp)
      case Some(t) => if t > interactions[0].timestamp then Some(t) else Some(interactions[0].timestamp)
  }

  /** `len([i for i in insights if i.intent == intent])` */
  function IntentCount(insights: seq<Insight>, intent: string): nat {
    if insights == [] then 0
    else (if insights[0].intent == intent then 1 else 0) + IntentCount(insights[1..], intent)
  }

  /** The position of the first insight with this intent, or `|insights|`. */
  function FirstWith(insights: seq<Insight>, intent: string): (k: nat)
    ensures k <= |insights|
    ensures k < |insights| ==> insights[k].intent == intent
    ensures forall j :: 0 <= j < k ==> insights[j].intent != intent
  {
    if insights == [] then 0
    else if insights[0].intent == intent then 0
    else 1 + FirstWith(insights[1..], intent)
  }

  /** `max((i.intent for i in insights), key=count)`: an intent of the list with the
      most insights; of several such, the one whose first insight comes first, since
      Python's `max` keeps the earliest maximal candidate. */
  function DominantIntent(insights: seq<Insight>): (intent: string)
    requires insights != []
    ensures FirstWith(insights, intent) < |insights|
    ensures forall k :: 0 <= k < |insights| ==>
              IntentCount(insights, insights[k].intent) <= IntentCount(insights, intent)
    ensures forall k :: 0 <= k < FirstWith(insights, intent) ==>
              IntentCount(insights, insights[k].intent) < IntentCount(insights, intent)
  {
    var counts := seq(|insights|, k requires 0 <= k < |insights| => IntentCount(insights, insights[k].intent) as int);
    assert forall k :: 0 <= k < |insights| ==> counts[k] == IntentCount(insights, insights[k].intent);
    var b := FirstArgMax(counts);
    var intent := insights[b].intent;
    var f := FirstWith(insights, intent);
    assert f <= b;
    assert insights[f].intent == intent;
    assert counts[f] == counts[b];
    assert f == b;
    intent
  }

  /** The row of one account, or none when no interaction has an insight. */
  function RowFor(a: Account): (r: Option<DashboardRow>)
    ensures r.None? <==> AccountInsights(a.interactions) == []
    ensures r.Some? ==>
              var insights := AccountInsights(a.interactions);
              r.value.accountId == a.id && r.value.accountName == a.name
              && r.value.risk == MeanRisk(insights)
              && r.value.recentInteractions == |a.interactions|
              && r.value.lastInteraction == LastTimestamp(a.interactions)
              && r.value.nextAction == NextAction(DominantIntent(insights))
  {
    var insights := AccountInsights(a.interactions);
    if insights == [] then None
    else Some(DashboardRow(a.id, a.name, MeanRisk(insights), |a.interactions|,
                           LastTimestamp(a.interactions), NextAction(DominantIntent(insights))))
  }

  /** The rows before sorting, in account order. */
  function UnsortedRows(accounts: seq<Account>): seq<DashboardRow> {
    if accounts == [] then []
    else
      var init := UnsortedRows(accounts[..|accounts| - 1]);
      match RowFor(accounts[|accounts| - 1])
      case None => init
      case Some(row) => init + [row]
  }

  function RowKey(row: DashboardRow): real {
    row.risk as real
  }

  /** `get_csm_dashboard`: one row per account that has an insight, appended in account
      order, then sorted by risk, highest first. */
  method CsmDashboard(accounts: seq<Account>) returns (rows: seq<DashboardRow>)
    ensures rows == SortDesc(UnsortedRows(accounts), RowKey)
    ensures NonIncreasing(rows, RowKey)
    ensures multiset(rows) == multiset(UnsortedRows(accounts))
  {
    rows := [];
    var i := 0;
    while i < |accounts|
      invariant 0 <= i <= |accounts|
      invariant rows == UnsortedRows(accounts[..i])
    {
      assert accounts[..i + 1][..i] == accounts[..i];
      var account := accounts[i];
      var insights := AccountInsights(account.interactions);
      if insights != [] {
        var avgRisk := MeanRisk(insights);
        var lastInteraction := LastTimestamp(account.interactions);
        var dominantIntent := DominantIntent(insights);
        rows := rows + [DashboardRow(account.id, account.name, avgRisk, |account.interactions|,
                                     lastInteraction, NextAction(dominantIntent))];
      }
      i := i + 1;
    }
    assert accounts[..i] == accounts;
    rows := SortDesc(rows, RowKey);
  }

  /** The unsorted rows are exactly the rows of the accounts that have one. */
  lemma {:induction false} UnsortedRowsMembers(accounts: seq<Account>, row: DashboardRow)
    ensures row in UnsortedRows(accounts) <==>
            exists k :: 0 <= k < |accounts| && RowFor(accounts[k]) == Some(row)
    decreases |accounts|
  {
    if accounts != [] {
      var init := accounts[..|accounts| - 1];
      var last := accounts[|accounts| - 1];
      var tail := match RowFor(last) case None => [] case Some(x) => [x];
      assert UnsortedRows(accounts) == UnsortedRows(init) + tail;
      UnsortedRowsMembers(init, row);
      assert row in UnsortedRows(accounts) <==> row in UnsortedRows(init) || row in tail;
      assert row in tail <==> RowFor(last) == Some(row);
      assert (exists k :: 0 <= k < |init| && RowFor(init[k]) == Some(row)) <==>
             (exists k :: 0 <= k < |accounts| - 1 && RowFor(accounts[k]) == Some(row)) by {
        assert forall k :: 0 <= k < |init| ==> init[k] == accounts[k];
      }
    }
  }

  /** Every row of the dashboard is the row of one of the accounts, and every account
      with an insight has its row there; an account without one has none. */
  lemma DashboardRowsAreAccountRows(accounts: seq<Account>, row: DashboardRow)
    ensures row in SortDesc(UnsortedRows(accounts), RowKey) <==>
            exists k :: 0 <= k < |accounts| && RowFor(accounts[k]) == Some(row)
  {
    UnsortedRowsMembers(accounts, row);
    assert row in SortDesc(UnsortedRows(accounts), RowKey) <==>
           row in multiset(UnsortedRows(accounts));
  }

  /** Rows with equal risk keep the order of their accounts. */
  lemma DashboardStable(accounts: seq<Account>, k: real)
    ensures WithKey(SortDesc(UnsortedRows(accounts), RowKey), RowKey, k)
            == WithKey(UnsortedRows(accounts), RowKey, k)
  {
    SortDescStable(UnsortedRows(accounts), RowKey, k);
  }

  // ---------------------------------------------------------------------------
  // Recent insights and evaluation metrics
  // ---------------------------------------------------------------------------

  const MaxRecentLimit: int := 50

  /** `max(1, min(limit, 50))` */
  function EffectiveLimit(limit: int): (r: nat)
    ensures 1 <= r <= MaxRecentLimit
    ensures 1 <= limit <= MaxRecentLimit ==> r == limit
    ensures limit < 1 ==> r == 1
    ensures limit > MaxRecentLimit ==> r == MaxRecentLimit
  {
    var m := if limit < MaxRecentLimit then limit else MaxRecentLimit;
    if 1 > m then 1 else m
  }

  function CreatedKey(i: Insight): real {
    i.createdAt as real
  }

  /** `recent_insights(limit)`: the newest insights first, as many as the clamped limit
      allows. An insight left out (or a copy of one, left out) means the limit is
      reached with insights no older than it. */
  function RecentInsights(insights: seq<Insight>, limit: int): (r: seq<Insight>)
    ensures |r| == if |insights| < EffectiveLimit(limit) then |insights| else EffectiveLimit(limit)
    ensures 1 <= |r| <= MaxRecentLimit || insights == []
    ensures NonIncreasing(r, CreatedKey)
    ensures multiset(r) <= multiset(insights)
    ensures KeepsTop(r, insights, CreatedKey, EffectiveLimit(limit))
  {
    var sorted := SortDesc(insights, CreatedKey);
    var n := EffectiveLimit(limit);
    var r := Take(sorted, n);
    TakeMultiset(sorted, n);
    TopOfSorted(insights, CreatedKey, n);
    r
  }

  /** `round((part / whole) * 100, 1) if whole else 0.0`, in tenths of a percent: zero
      without a denominator, otherwise the percentage rounded to one decimal. */
  function Rate(part: nat, whole: nat): (r: int)
    ensures whole == 0 ==> r == 0
    ensures whole > 0 ==> -(whole as int) <= 2 * (r * whole - 1000 * part) <= whole
    ensures whole > 0 && 2 * (r * whole - 1000 * part) == whole ==> r % 2 == 0
    ensures whole > 0 && 2 * (r * whole - 1000 * part) == -(whole as int) ==> r % 2 == 0
    ensures part <= whole ==> 0 <= r <= 1000
  {
    if whole == 0 then 0
    else
      var r := RoundHalfEven(1000 * part, whole);
      RateBounds(part, whole, r);
      r
  }

  lemma RateBounds(part: nat, whole: nat, r: int)
    requires whole > 0 && -(whole as int) <= 2 * (r * whole - 1000 * part) <= whole
    ensures part <= whole ==> 0 <= r <= 1000
  {
    if part <= whole {
      MulLe(1000 * part, 1000 * whole, 1);
      if r < 0 {
        MulLe(r, -1, whole);
      }
      if r > 1000 {
        MulLe(1001, r, whole);
      }
    }
  }

  lemma MulLe(a: int, b: int, c: nat)
    requires a <= b
    ensures a * c <= b * c
  {
  }

  datatype Metrics = Metrics(
    aiCoverage: int,
    feedbackRate: int,
    usefulRate: int,
    totalInsights: nat,
    avgConfidence: int,
    performanceTrend: string)

  predicate IsPositive(f: Feedback) {
    f.rating
  }

  /** `evaluation_metrics`: fixed coverage (85.0%, in tenths), confidence (0.78, in
      hundredths) and trend, with the two feedback rates in tenths of a percent. */
  function EvaluationMetrics(insights: seq<Insight>, feedback: seq<Feedback>): (r: Metrics)
    ensures r.totalInsights == |insights|
    ensures r.feedbackRate == Rate(|feedback|, |insights|)
    ensures r.usefulRate == Rate(|Filter(feedback, IsPositive)|, |feedback|)
    ensures insights == [] ==> r.feedbackRate == 0
    ensures feedback == [] ==> r.usefulRate == 0
    ensures 0 <= r.usefulRate <= 1000
    ensures r.aiCoverage == 850 && r.avgConfidence == 78 && r.performanceTrend == "improving"
  {
    var positive := |Filter(feedback, IsPositive)|;
    Metrics(850, Rate(|feedback|, |insights|), Rate(positive, |feedback|), |insights|, 78, "improving")
  }
}
