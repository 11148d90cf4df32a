/** The repository router over a model pool (`repo_router`, `fit_eps` and `select_cheapest` in
    scripts/analyze-agent-granularity.py): the cheapest on average within a band of the best rate. */
module PoolRouter {
  import opened Reals
  import opened Fitters

  // ----- the selection rule

  ghost predicate Ascending(ks: seq<nat>) {
    forall i, j :: 0 <= i < j < |ks| ==> ks[i] < ks[j]
  }

  /** `ks` lists exactly the models whose rate is at least `least`. */
  ghost predicate Lists(ks: seq<nat>, rates: seq<real>, least: real) {
    && (forall i :: 0 <= i < |ks| ==> ks[i] < |rates| && rates[ks[i]] >= least)
    && (forall k: nat :: k < |rates| && rates[k] >= least ==> k in ks)
  }

  /** The indices whose rate is at least `least`, in order. */
  function Within(rates: seq<real>, least: real): (ks: seq<nat>)
    ensures Lists(ks, rates, least) && Ascending(ks)
  {
    if rates == [] then []
    else
      var n: nat := |rates| - 1;
      var most := Within(rates[..n], least);
      if rates[n] >= least then
        assert forall k :: k in most ==> k in most + [n];
        assert (most + [n])[|most|] == n;
        most + [n]
      else most
  }

  ghost predicate InRange(ks: seq<nat>, n: nat) {
    forall i :: 0 <= i < |ks| ==> ks[i] < n
  }

  /** `k` is the cheapest of the candidates and the first among equals. */
  ghost predicate FirstCheapest(ks: seq<nat>, costs: seq<real>, k: nat)
    requires InRange(ks, |costs|) && k < |costs|
  {
    k in ks && forall i :: 0 <= i < |ks| ==> costs[k] <= costs[ks[i]] && (costs[ks[i]] == costs[k] ==> k <= ks[i])
  }

  lemma OneMoreCandidate(most: seq<nat>, last: nat, costs: seq<real>, k: nat)
    requires Ascending(most + [last]) && InRange(most + [last], |costs|) && InRange(most, |costs|)
    requires last < |costs| && k < |costs| && FirstCheapest(most, costs, k)
    ensures FirstCheapest(most + [last], costs, if costs[last] < costs[k] then last else k)
  {
    var ks := most + [last];
    var at :| 0 <= at < |most| && most[at] == k;
    assert ks[at] == k && ks[|most|] == last && k < last;
    forall i | 0 <= i < |ks| ensures ks[i] == if i < |most| then most[i] else last {}
  }

  lemma FrontCandidates(ks: seq<nat>, n: nat)
    requires ks != [] && Ascending(ks) && InRange(ks, n)
    ensures var most := ks[..|ks| - 1];
            ks == most + [ks[|ks| - 1]] && Ascending(most) && InRange(most, n) && ks[|ks| - 1] < n
  {}

  function Cheapest(ks: seq<nat>, costs: seq<real>): (k: nat)
    requires ks != [] && Ascending(ks) && InRange(ks, |costs|)
    ensures k < |costs| && FirstCheapest(ks, costs, k)
    decreases |ks|
  {
    hide Ascending, InRange;
    FrontCandidates(ks, |costs|);
    var n := |ks| - 1;
    var most, last := ks[..n], ks[n];
    if n == 0 then
      OnlyCandidate(last, costs);
      assert ks == [last];
      last
    else
      hide FirstCheapest;
      var k := Cheapest(most, costs);
      OneMoreCandidate(most, last, costs, k);
      if costs[last] < costs[k] then last else k
  }

  lemma OnlyCandidate(k: nat, costs: seq<real>)
    requires k < |costs|
    ensures InRange([k], |costs|) && FirstCheapest([k], costs, k)
  {}

  /** `k` is the cheapest, and first among equals, of the models whose rate is at least `least`. */
  ghost predicate IsCheapest(rates: seq<real>, costs: seq<real>, least: real, k: nat)
    requires |rates| == |costs|
  {
    && k < |rates| && rates[k] >= least
    && forall j: nat :: j < |rates| && rates[j] >= least ==>
                          costs[k] <= costs[j] && (costs[j] == costs[k] ==> k <= j)
  }

  lemma CheapestOfAll(ks: seq<nat>, rates: seq<real>, costs: seq<real>, least: real, k: nat)
    requires |rates| == |costs| && Lists(ks, rates, least)
    requires InRange(ks, |costs|) && k < |costs| && FirstCheapest(ks, costs, k)
    ensures IsCheapest(rates, costs, least, k)
  {
    var at :| 0 <= at < |ks| && ks[at] == k;
    forall j: nat | j < |rates| && rates[j] >= least
      ensures costs[k] <= costs[j] && (costs[j] == costs[k] ==> k <= j)
    {
      var i :| 0 <= i < |ks| && ks[i] == j;
    }
  }

  lemma SomeCandidate(ks: seq<nat>, rates: seq<real>, least: real)
    requires Lists(ks, rates, least) && exists best: nat :: best < |rates| && rates[best] >= least
    ensures ks != [] && InRange(ks, |rates|)
  {
    var best: nat :| best < |rates| && rates[best] >= least;
    assert best in ks;
  }

  function CheapestFrom(rates: seq<real>, costs: seq<real>, least: real): (k: nat)
    requires |rates| == |costs| && exists best: nat :: best < |rates| && rates[best] >= least
    ensures IsCheapest(rates, costs, least, k)
  {
    hide Within, Cheapest, Ascending, Lists, InRange, FirstCheapest, IsCheapest;
    var ks := Within(rates, least);
    SomeCandidate(ks, rates, least);
    var k := Cheapest(ks, costs);
    CheapestOfAll(ks, rates, costs, least, k);
    k
  }

  lemma BestIsThere(rates: seq<real>, eps: real)
    requires rates != [] && eps >= 0.0
    ensures exists best: nat :: best < |rates| && rates[best] >= MaxOf(rates) - eps
  {
    var best: nat :| best < |rates| && rates[best] == MaxOf(rates);
  }

  /** The cheapest model whose rate is within `eps` of the best. */
  function CheapestWithin(rates: seq<real>, costs: seq<real>, eps: real): (k: nat)
    requires rates != [] && |rates| == |costs| && eps >= 0.0
    ensures IsCheapest(rates, costs, MaxOf(rates) - eps, k)
  {
    BestIsThere(rates, eps);
    CheapestFrom(rates, costs, MaxOf(rates) - eps)
  }

  // ----- what the router knows

  /** USD paid by the model at index `k` in a repository. */
  function SpentIn(rows: seq<Row>, repo: string, k: nat): real
    requires forall i :: 0 <= i < |rows| ==> k < |rows[i].runs|
  {
    if rows == [] then 0.0
    else
      var r := rows[|rows| - 1];
      SpentIn(rows[..|rows| - 1], repo, k) + if r.repo == repo then r.runs[k].cost else 0.0
  }

  function SpentBy(rows: seq<Row>, k: nat): real
    requires forall i :: 0 <= i < |rows| ==> k < |rows[i].runs|
  {
    if rows == [] then 0.0 else SpentBy(rows[..|rows| - 1], k) + rows[|rows| - 1].runs[k].cost
  }

  datatype Tally = Tally(ok: nat, seen: nat, cost: real)

  type PoolTallies = seq<Tally>

  function NoTallies(n: nat): (s: PoolTallies)
    ensures |s| == n
  {
    seq(n, _ => Tally(0, 0, 0.0))
  }

  function PoolTalliesIn(rows: seq<Row>, n: nat, repo: string): (s: PoolTallies)
    requires Wide(rows, n)
    ensures |s| == n
  {
    seq(n, k requires 0 <= k < n => Tally(ResolvedIn(rows, repo, k), RowsIn(rows, repo), SpentIn(rows, repo, k)))
  }

  function Added(s: Tally, run: Attempt): Tally {
    Tally(s.ok + (if run.ok then 1 else 0), s.seen + 1, s.cost + run.cost)
  }

  function AllAdded(s: PoolTallies, runs: seq<Attempt>): (t: PoolTallies)
    requires |s| == |runs|
    ensures |t| == |s|
  {
    seq(|s|, k requires 0 <= k < |s| => Added(s[k], runs[k]))
  }

  method AddRuns(s: PoolTallies, runs: seq<Attempt>) returns (t: PoolTallies)
    requires |s| == |runs|
    ensures t == AllAdded(s, runs)
  {
    t := s;
    for k := 0 to |runs|
      invariant |t| == |s|
      invariant forall j :: 0 <= j < k ==> t[j] == AllAdded(s, runs)[j]
      invariant forall j :: k <= j < |s| ==> t[j] == s[j]
    {
      t := t[k := Added(t[k], runs[k])];
    }
  }

  /** `stats` knows exactly the repositories of these rows, with what every model resolved and cost there. */
  ghost predicate PoolStatsOf(rows: seq<Row>, n: nat, stats: map<string, PoolTallies>) {
    && Wide(rows, n)
    && (forall repo :: repo in stats <==> RowsIn(rows, repo) > 0)
    && forall repo :: repo in stats ==> stats[repo] == PoolTalliesIn(rows, n, repo)
  }

  lemma PoolTalliesPush(rows: seq<Row>, n: nat, i: nat, repo: string)
    requires Wide(rows, n) && i < |rows|
    ensures PoolTalliesIn(rows[..i + 1], n, repo)
            == if rows[i].repo == repo then AllAdded(PoolTalliesIn(rows[..i], n, repo), rows[i].runs)
               else PoolTalliesIn(rows[..i], n, repo)
    ensures RowsIn(rows[..i + 1], repo) == RowsIn(rows[..i], repo) + if rows[i].repo == repo then 1 else 0
  {
    assert rows[..i + 1][..i] == rows[..i];
  }

  lemma {:induction false} UnseenCostsNothing(rows: seq<Row>, n: nat, repo: string, k: nat)
    requires Wide(rows, n) && k < n && RowsIn(rows, repo) == 0
    ensures SpentIn(rows, repo, k) == 0.0
  {
    if rows != [] {
      UnseenCostsNothing(rows[..|rows| - 1], n, repo, k);
    }
  }

  lemma UnseenHasNoTallies(rows: seq<Row>, n: nat, repo: string)
    requires Wide(rows, n) && RowsIn(rows, repo) == 0
    ensures PoolTalliesIn(rows, n, repo) == NoTallies(n)
  {
    hide SpentIn, ResolvedIn, RowsIn;
    forall k | 0 <= k < n ensures ResolvedIn(rows, repo, k) == 0 && SpentIn(rows, repo, k) == 0.0 {
      UnseenResolvesNothing(rows, n, repo, k);
      UnseenCostsNothing(rows, n, repo, k);
    }
  }

  lemma PoolStatsPush(rows: seq<Row>, n: nat, i: nat, stats: map<string, PoolTallies>)
    requires Wide(rows, n) && i < |rows| && PoolStatsOf(rows[..i], n, stats)
    ensures var s := if rows[i].repo in stats then stats[rows[i].repo] else NoTallies(n);
            |s| == n && PoolStatsOf(rows[..i + 1], n, stats[rows[i].repo := AllAdded(s, rows[i].runs)])
  {
    hide PoolTalliesIn, RowsIn, NoTallies, AllAdded;
    if rows[i].repo !in stats {
      UnseenHasNoTallies(rows[..i], n, rows[i].repo);
    }
    forall repo
      ensures PoolTalliesIn(rows[..i + 1], n, repo)
              == if rows[i].repo == repo then AllAdded(PoolTalliesIn(rows[..i], n, repo), rows[i].runs)
                 else PoolTalliesIn(rows[..i], n, repo)
      ensures RowsIn(rows[..i + 1], repo) == RowsIn(rows[..i], repo) + if rows[i].repo == repo then 1 else 0
    {
      PoolTalliesPush(rows, n, i, repo);
    }
  }

  method BuildPoolStats(train: seq<Row>, n: nat) returns (stats: map<string, PoolTallies>)
    requires Wide(train, n)
    ensures PoolStatsOf(train, n, stats)
  {
    stats := map[];
    for i := 0 to |train|
      invariant PoolStatsOf(train[..i], n, stats)
    {
      PoolStatsPush(train, n, i, stats);
      var r := train[i];
      var s := if r.repo in stats then stats[r.repo] else NoTallies(n);
      s := AddRuns(s, r.runs);
      stats := stats[r.repo := s];
    }
    assert train[..|train|] == train;
  }

  // ----- routing

  /** Average costs the router compares: those of the repository if it was seen, the overall ones if not. */
  function AverageCosts(train: seq<Row>, n: nat, repo: string): (costs: seq<real>)
    requires train != [] && Wide(train, n)
    ensures |costs| == n
  {
    if RowsIn(train, repo) > 0
    then seq(n, k requires 0 <= k < n => SpentIn(train, repo, k) / RowsIn(train, repo) as real)
    else seq(n, k requires 0 <= k < n => SpentBy(train, k) / |train| as real)
  }

  function PoolRoute(train: seq<Row>, n: nat, eps: real, repo: string): (k: nat)
    requires train != [] && n > 0 && Wide(train, n) && eps >= 0.0
    ensures k < n && Eligible(train, n, eps, repo, k)
  {
    CheapestWithin(RatesFor(train, n, repo), AverageCosts(train, n, repo), eps)
  }

  method RoutePoolRow(train: seq<Row>, n: nat, stats: map<string, PoolTallies>, eps: real, repo: string)
    returns (k: nat)
    requires train != [] && n > 0 && Wide(train, n) && eps >= 0.0 && PoolStatsOf(train, n, stats)
    ensures k == PoolRoute(train, n, eps, repo)
  {
    var rates: seq<real>, costs: seq<real>;
    if repo in stats {
      var t := stats[repo];
      rates := seq(n, j requires 0 <= j < n && |t| == n && t[j].seen > 0 => Rate(t[j].ok, t[j].seen));
      costs := seq(n, j requires 0 <= j < n && |t| == n && t[j].seen > 0 => t[j].cost / t[j].seen as real);
    } else {
      rates := seq(n, j requires 0 <= j < n => Rate(ResolvedBy(train, j), |train|));
      costs := seq(n, j requires 0 <= j < n => SpentBy(train, j) / |train| as real);
    }
    assert rates == RatesFor(train, n, repo) && costs == AverageCosts(train, n, repo);
    k := CheapestWithin(rates, costs, eps);
  }

  /** Rows resolved and USD paid when every row runs the model its repository is routed to. */
  function PoolScore(train: seq<Row>, n: nat, eps: real, rows: seq<Row>): Score
    requires train != [] && n > 0 && Wide(train, n) && eps >= 0.0 && Wide(rows, n)
  {
    if rows == [] then Score(0, 0.0)
    else
      var r := rows[|rows| - 1];
      var s := PoolScore(train, n, eps, rows[..|rows| - 1]);
      var run := r.runs[PoolRoute(train, n, eps, r.repo)];
      Score(s.ok + (if run.ok then 1 else 0), s.cost + run.cost)
  }

  method ScorePool(train: seq<Row>, n: nat, stats: map<string, PoolTallies>, eps: real) returns (s: Score)
    requires train != [] && n > 0 && Wide(train, n) && eps >= 0.0 && PoolStatsOf(train, n, stats)
    ensures s == PoolScore(train, n, eps, train)
  {
    hide PoolStatsOf, PoolRoute, Eligible;
    var resolved, cost := 0, 0.0;
    for i := 0 to |train|
      invariant Score(resolved, cost) == PoolScore(train, n, eps, train[..i])
    {
      assert train[..i + 1][..i] == train[..i];
      var k := RoutePoolRow(train, n, stats, eps, train[i].repo);
      var run := train[i].runs[k];
      resolved := resolved + if run.ok then 1 else 0;
      cost := cost + run.cost;
    }
    assert train[..|train|] == train;
    s := Score(resolved, cost);
  }

  // ----- grouped sums

  ghost function SumOver(rows: seq<Row>, f: Row -> real): real {
    if rows == [] then 0.0 else SumOver(rows[..|rows| - 1], f) + f(rows[|rows| - 1])
  }

  ghost function SumIn(rows: seq<Row>, repo: string, f: Row -> real): real {
    if rows == [] then 0.0
    else
      var r := rows[|rows| - 1];
      SumIn(rows[..|rows| - 1], repo, f) + if r.repo == repo then f(r) else 0.0
  }

  lemma {:induction false} SplitSum(rows: seq<Row>, repo: string, f: Row -> real)
    ensures SumOver(rows, f) == SumIn(rows, repo, f) + SumOver(Others(rows, repo), f)
  {
    if rows != [] {
      var most, r := rows[..|rows| - 1], rows[|rows| - 1];
      SplitSum(most, repo, f);
      if r.repo == repo {
        assert Others(rows, repo) == Others(most, repo);
      } else {
        assert Others(rows, repo)[..|Others(rows, repo)| - 1] == Others(most, repo);
      }
    }
  }

  lemma {:induction false} SumInOthers(rows: seq<Row>, gone: string, repo: string, f: Row -> real)
    ensures SumIn(Others(rows, gone), repo, f) == if repo == gone then 0.0 else SumIn(rows, repo, f)
  {
    if rows != [] {
      var most, r := rows[..|rows| - 1], rows[|rows| - 1];
      SumInOthers(most, gone, repo, f);
      if r.repo == gone {
        assert Others(rows, gone) == Others(most, gone);
      } else {
        assert Others(rows, gone)[..|Others(rows, gone)| - 1] == Others(most, gone);
      }
    }
  }

  /** In no repository more is not more in all: take the repositories out one by one. */
  lemma {:induction false} GroupedSum(rows: seq<Row>, f: Row -> real, g: Row -> real)
    requires forall repo :: SumIn(rows, repo, f) <= SumIn(rows, repo, g)
    ensures SumOver(rows, f) <= SumOver(rows, g)
    decreases |rows|
  {
    hide SumIn;
    if rows != [] {
      var repo := rows[|rows| - 1].repo;
      var rest := Others(rows, repo);
      SplitSum(rows, repo, f);
      SplitSum(rows, repo, g);
      forall s ensures SumIn(rest, s, f) <= SumIn(rest, s, g) {
        SumInOthers(rows, repo, s, f);
        SumInOthers(rows, repo, s, g);
        assert SumIn(rows, s, f) <= SumIn(rows, s, g);
      }
      GroupedSum(rest, f, g);
    }
  }

  // ----- choices

  /** A model for every repository, within `eps` of the best one there. */
  ghost predicate AllEligible(train: seq<Row>, n: nat, eps: real, choice: string -> nat)
    requires train != [] && n > 0 && Wide(train, n)
  {
    forall repo :: Eligible(train, n, eps, repo, choice(repo))
  }

  ghost function CostOf(choice: string -> nat): Row -> real {
    (row: Row) => if choice(row.repo) < |row.runs| then row.runs[choice(row.repo)].cost else 0.0
  }

  ghost function OkOf(choice: string -> nat): Row -> real {
    (row: Row) => if choice(row.repo) < |row.runs| && row.runs[choice(row.repo)].ok then 1.0 else 0.0
  }

  /** What the rows cost when served by `choice`. */
  ghost function Bill(rows: seq<Row>, choice: string -> nat): real { SumOver(rows, CostOf(choice)) }

  lemma {:induction false} CostsIn(rows: seq<Row>, n: nat, choice: string -> nat, repo: string)
    requires Wide(rows, n) && choice(repo) < n
    ensures SumIn(rows, repo, CostOf(choice)) == SpentIn(rows, repo, choice(repo))
  {
    if rows != [] {
      CostsIn(rows[..|rows| - 1], n, choice, repo);
    }
  }

  ghost function PoolChoice(train: seq<Row>, n: nat, eps: real): string -> nat
    requires train != [] && n > 0 && Wide(train, n) && eps >= 0.0
  {
    repo => PoolRoute(train, n, eps, repo)
  }

  lemma {:induction false} PoolScoreIsChoice(train: seq<Row>, n: nat, eps: real, rows: seq<Row>)
    requires train != [] && n > 0 && Wide(train, n) && eps >= 0.0 && Wide(rows, n)
    ensures PoolScore(train, n, eps, rows).ok == Chosen(rows, n, PoolChoice(train, n, eps))
    ensures PoolScore(train, n, eps, rows).cost == Bill(rows, PoolChoice(train, n, eps))
  {
    hide PoolRoute;
    if rows != [] {
      PoolScoreIsChoice(train, n, eps, rows[..|rows| - 1]);
    }
  }

  /** The average decides the sum within a repository. */
  lemma CheapestInRepo(train: seq<Row>, n: nat, eps: real, repo: string, k: nat)
    requires train != [] && n > 0 && Wide(train, n) && eps >= 0.0 && Eligible(train, n, eps, repo, k)
    ensures SpentIn(train, repo, PoolRoute(train, n, eps, repo)) <= SpentIn(train, repo, k)
  {
    hide SpentIn, SpentBy, RatesFor, RowsIn;
    var best := PoolRoute(train, n, eps, repo);
    assert AverageCosts(train, n, repo)[best] <= AverageCosts(train, n, repo)[k];
    if RowsIn(train, repo) > 0 {
      QuotientReflects(SpentIn(train, repo, best), SpentIn(train, repo, k), RowsIn(train, repo) as real);
    } else {
      UnseenCostsNothing(train, n, repo, best);
      UnseenCostsNothing(train, n, repo, k);
    }
  }

  lemma QuotientReflects(a: real, b: real, c: real)
    requires c > 0.0
    ensures a / c <= b / c <==> a <= b
  {
    if a <= b {
      QuotientOrder(a, b, c);
    }
    if a / c <= b / c {
      QuotientTimes(a, c);
      QuotientTimes(b, c);
      MulMonotone(c, a / c, b / c);
    }
  }

  /** On the training half no choice of models within the tolerance, repository by repository, is cheaper than
      the router's. */
  lemma RouterIsCheapest(train: seq<Row>, n: nat, eps: real, choice: string -> nat)
    requires train != [] && n > 0 && Wide(train, n) && eps >= 0.0 && AllEligible(train, n, eps, choice)
    ensures PoolScore(train, n, eps, train).cost <= Bill(train, choice)
  {
    hide SumIn, SumOver, PoolRoute, SpentIn;
    var pool := PoolChoice(train, n, eps);
    PoolScoreIsChoice(train, n, eps, train);
    forall repo ensures SumIn(train, repo, CostOf(pool)) <= SumIn(train, repo, CostOf(choice)) {
      assert Eligible(train, n, eps, repo, choice(repo)) && Eligible(train, n, eps, repo, pool(repo));
      CostsIn(train, n, pool, repo);
      CostsIn(train, n, choice, repo);
      CheapestInRepo(train, n, eps, repo, choice(repo));
    }
    GroupedSum(train, CostOf(pool), CostOf(choice));
  }

  /** A wider tolerance never costs more on the training half. */
  lemma WiderToleranceCostsNoMore(train: seq<Row>, n: nat, eps: real, wider: real)
    requires train != [] && n > 0 && Wide(train, n) && 0.0 <= eps <= wider
    ensures PoolScore(train, n, wider, train).cost <= PoolScore(train, n, eps, train).cost
  {
    hide PoolRoute, PoolScore, Bill;
    var choice := PoolChoice(train, n, eps);
    PoolScoreIsChoice(train, n, eps, train);
    assert AllEligible(train, n, wider, choice) by {
      forall repo ensures Eligible(train, n, wider, repo, choice(repo)) {
        assert Eligible(train, n, eps, repo, choice(repo));
      }
    }
    RouterIsCheapest(train, n, wider, choice);
  }

  /** Nor does it ever cost more than the router that takes the first eligible model. */
  lemma CheaperThanFirstEligible(train: seq<Row>, n: nat, eps: real)
    requires train != [] && n > 0 && Wide(train, n) && eps >= 0.0
    ensures PoolScore(train, n, eps, train).cost <= RouteScore(train, n, eps, train).cost
  {
    hide PoolScore, RouteScore, Bill;
    var choice := Router(train, n, eps);
    RouteScoreIsBill(train, n, eps, train);
    assert AllEligible(train, n, eps, choice);
    RouterIsCheapest(train, n, eps, choice);
  }

  lemma {:induction false} RouteScoreIsBill(train: seq<Row>, n: nat, eps: real, rows: seq<Row>)
    requires train != [] && n > 0 && Wide(train, n) && eps >= 0.0 && Wide(rows, n)
    ensures RouteScore(train, n, eps, rows).cost == Bill(rows, Router(train, n, eps))
  {
    hide Route;
    if rows != [] {
      RouteScoreIsBill(train, n, eps, rows[..|rows| - 1]);
    }
  }

  // ----- what a tolerance can lose

  ghost function OkLess(k: nat, eps: real): Row -> real {
    (row: Row) => (if k < |row.runs| && row.runs[k].ok then 1.0 else 0.0) - eps
  }

  lemma {:induction false} OksIn(rows: seq<Row>, n: nat, choice: string -> nat, repo: string)
    requires Wide(rows, n) && choice(repo) < n
    ensures SumIn(rows, repo, OkOf(choice)) == ResolvedIn(rows, repo, choice(repo)) as real
  {
    if rows != [] {
      OksIn(rows[..|rows| - 1], n, choice, repo);
    }
  }

  lemma {:induction false} OksLessIn(rows: seq<Row>, n: nat, ref: nat, eps: real, repo: string)
    requires Wide(rows, n) && ref < n
    ensures SumIn(rows, repo, OkLess(ref, eps))
            == ResolvedIn(rows, repo, ref) as real - RowsIn(rows, repo) as real * eps
  {
    hide SumIn, ResolvedIn, RowsIn, OkLess;
    if rows == [] {
      NothingIn(ref, eps, repo);
    } else {
      var most, r := rows[..|rows| - 1], rows[|rows| - 1];
      OksLessIn(most, n, ref, eps, repo);
      OneMore(RowsIn(most, repo), eps);
      OneMoreIn(rows, ref, eps, repo);
    }
  }

  lemma NothingIn(ref: nat, eps: real, repo: string)
    ensures SumIn([], repo, OkLess(ref, eps)) == 0.0
    ensures ResolvedIn([], repo, ref) == 0 && RowsIn([], repo) == 0
  {}

  lemma OneMoreIn(rows: seq<Row>, ref: nat, eps: real, repo: string)
    requires rows != [] && forall i :: 0 <= i < |rows| ==> ref < |rows[i].runs|
    ensures var most, r := rows[..|rows| - 1], rows[|rows| - 1]; var own := r.repo == repo;
            && ResolvedIn(rows, repo, ref) == ResolvedIn(most, repo, ref) + (if own && r.runs[ref].ok then 1 else 0)
            && RowsIn(rows, repo) == RowsIn(most, repo) + (if own then 1 else 0)
            && SumIn(rows, repo, OkLess(ref, eps)) == SumIn(most, repo, OkLess(ref, eps))
               + if own then (if r.runs[ref].ok then 1.0 else 0.0) - eps else 0.0
  {}

  lemma {:induction false} OksOver(rows: seq<Row>, n: nat, choice: string -> nat, ref: nat, eps: real)
    requires Wide(rows, n) && ref < n && forall repo :: choice(repo) < n
    ensures SumOver(rows, OkOf(choice)) == Chosen(rows, n, choice) as real
    ensures SumOver(rows, OkLess(ref, eps)) == ResolvedBy(rows, ref) as real - |rows| as real * eps
  {
    if rows != [] {
      OksOver(rows[..|rows| - 1], n, choice, ref, eps);
      OneMore(|rows| - 1, eps);
    }
  }

  lemma OneMore(m: nat, eps: real)
    ensures (m + 1) as real * eps == m as real * eps + eps
  {
    assert (m + 1) as real == m as real + 1.0;
  }

  /** Within a repository a rate at most `eps` lower costs at most that share of its rows. */
  lemma LostInRepo(train: seq<Row>, n: nat, eps: real, repo: string, k: nat, ref: nat)
    requires train != [] && n > 0 && Wide(train, n) && eps >= 0.0 && ref < n && Eligible(train, n, eps, repo, k)
    ensures ResolvedIn(train, repo, k) as real
            >= ResolvedIn(train, repo, ref) as real - RowsIn(train, repo) as real * eps
  {
    hide ResolvedIn, ResolvedBy, RowsIn, MaxOf;
    var rates, m := RatesFor(train, n, repo), RowsIn(train, repo);
    assert rates[k] >= rates[ref] - eps;
    if m > 0 {
      ShareOfRows(ResolvedIn(train, repo, k) as real, ResolvedIn(train, repo, ref) as real, m as real, eps);
    } else {
      UnseenResolvesNothing(train, n, repo, k);
      UnseenResolvesNothing(train, n, repo, ref);
    }
  }

  lemma ShareOfRows(a: real, b: real, m: real, eps: real)
    requires m > 0.0 && a / m >= b / m - eps
    ensures a >= b - m * eps
  {
    var x, y := a / m, b / m;
    QuotientTimes(a, m);
    QuotientTimes(b, m);
    MulMonotone(m, y - eps, x);
    assert m * (y - eps) == m * y - m * eps;
  }

  /** Routing within a tolerance resolves at least what any single model does, less that share of all rows. */
  lemma ToleranceLosesAtMostItsShare(train: seq<Row>, n: nat, eps: real, choice: string -> nat, ref: nat)
    requires train != [] && n > 0 && Wide(train, n) && eps >= 0.0 && ref < n && AllEligible(train, n, eps, choice)
    ensures forall repo :: choice(repo) < n
    ensures Chosen(train, n, choice) as real >= ResolvedBy(train, ref) as real - |train| as real * eps
  {
    hide SumIn, SumOver, ResolvedIn, ResolvedBy, RowsIn, Chosen;
    forall repo
      ensures choice(repo) < n && SumIn(train, repo, OkLess(ref, eps)) <= SumIn(train, repo, OkOf(choice))
    {
      assert Eligible(train, n, eps, repo, choice(repo));
      OksIn(train, n, choice, repo);
      OksLessIn(train, n, ref, eps, repo);
      LostInRepo(train, n, eps, repo, choice(repo), ref);
    }
    GroupedSum(train, OkLess(ref, eps), OkOf(choice));
    OksOver(train, n, choice, ref, eps);
  }

  /** With no tolerance nothing is lost, which makes the fit feasible. */
  lemma ZeroToleranceIsFeasible(train: seq<Row>, n: nat, ref: nat)
    requires train != [] && n > 0 && Wide(train, n) && ref < n
    ensures PoolScore(train, n, 0.0, train).ok >= ResolvedBy(train, ref)
  {
    hide PoolScore, PoolRoute, Chosen, ResolvedBy;
    var choice := PoolChoice(train, n, 0.0);
    PoolScoreIsChoice(train, n, 0.0, train);
    forall repo ensures Eligible(train, n, 0.0, repo, choice(repo)) {
      assert Eligible(train, n, 0.0, repo, PoolRoute(train, n, 0.0, repo));
    }
    AnyEligibleChoiceBeatsEveryModel(train, n, choice, ref);
  }

  /** The fitted tolerance is on the grid, matches the reference model's count, and no tolerance of the grid that
      does is cheaper on the training half: the fallback never runs. */
  method FitPoolEps(train: seq<Row>, n: nat, ref: nat) returns (eps: real)
    requires train != [] && n > 0 && Wide(train, n) && ref < n
    ensures eps in [0.0, 0.05, 0.1, 0.2, 0.3]
    ensures eps >= 0.0
    ensures PoolScore(train, n, eps, train).ok >= ResolvedBy(train, ref)
    ensures forall e :: e in [0.0, 0.05, 0.1, 0.2, 0.3] && e >= 0.0
                        && PoolScore(train, n, e, train).ok >= ResolvedBy(train, ref) ==>
              PoolScore(train, n, eps, train).cost <= PoolScore(train, n, e, train).cost
  {
    hide PoolScore, ResolvedBy, PoolStatsOf;
    var stats := BuildPoolStats(train, n);
    var bar := CountResolved(train, ref);
    assert forall j :: 0 <= j < |EPS_GRID| ==> EPS_GRID[j] >= 0.0;
    var scored: seq<Score> := [];
    for i := 0 to |EPS_GRID|
      invariant |scored| == i
      invariant forall j :: 0 <= j < i ==> scored[j] == PoolScore(train, n, EPS_GRID[j], train)
    {
      var s := ScorePool(train, n, stats, EPS_GRID[i]);
      scored := scored + [s];
    }
    ZeroToleranceIsFeasible(train, n, ref);
    var i := Pick(scored, bar);
    assert scored[0].ok >= bar;
    eps := EPS_GRID[i];
  }

  // ----- the same in counted rows

  /** USD the model at index `k` cost on the rows the repository is judged by. */
  ghost function PaidOn(rows: seq<Row>, repo: string, k: nat): real
    requires forall i :: 0 <= i < |rows| ==> k < |rows[i].runs|
  {
    Sum(seq(|rows|, i requires 0 <= i < |rows| =>
      if rows[i].repo == repo || !Seen(rows, repo) then rows[i].runs[k].cost else 0.0))
  }

  lemma {:induction false} SpentAreSums(rows: seq<Row>, repo: string, k: nat)
    requires forall i :: 0 <= i < |rows| ==> k < |rows[i].runs|
    ensures SpentIn(rows, repo, k)
            == Sum(seq(|rows|, i requires 0 <= i < |rows| =>
                 if rows[i].repo == repo then rows[i].runs[k].cost else 0.0))
    ensures SpentBy(rows, k) == Sum(seq(|rows|, i requires 0 <= i < |rows| => rows[i].runs[k].cost))
  {
    hide Sum;
    if rows == [] {
      SumOfNone();
    } else {
      var n := |rows| - 1;
      var most, r := rows[..n], rows[n];
      SpentAreSums(most, repo, k);
      var own := seq(n, i requires 0 <= i < n => if most[i].repo == repo then most[i].runs[k].cost else 0.0);
      var all := seq(n, i requires 0 <= i < n => most[i].runs[k].cost);
      SumPush(own, if r.repo == repo then r.runs[k].cost else 0.0);
      SumPush(all, r.runs[k].cost);
      assert seq(|rows|, i requires 0 <= i < |rows| => if rows[i].repo == repo then rows[i].runs[k].cost else 0.0)
          == own + [if r.repo == repo then r.runs[k].cost else 0.0];
      assert seq(|rows|, i requires 0 <= i < |rows| => rows[i].runs[k].cost) == all + [r.runs[k].cost];
    }
  }

  lemma AveragesShareTheSample(train: seq<Row>, n: nat, repo: string, k: nat)
    requires train != [] && Wide(train, n) && k < n
    ensures |Sample(train, repo)| > 0
    ensures AverageCosts(train, n, repo)[k] == PaidOn(train, repo, k) / |Sample(train, repo)| as real
  {
    hide RowsIn, SpentIn, SpentBy, Where, Seen, Sum;
    RowsInCount(train, repo);
    AllOfThem(train);
    SpentAreSums(train, repo, k);
    if Seen(train, repo) {
      assert seq(|train|, i requires 0 <= i < |train| => if train[i].repo == repo then train[i].runs[k].cost else 0.0)
          == seq(|train|, i requires 0 <= i < |train| =>
               if train[i].repo == repo || !Seen(train, repo) then train[i].runs[k].cost else 0.0);
    } else {
      assert seq(|train|, i requires 0 <= i < |train| => train[i].runs[k].cost)
          == seq(|train|, i requires 0 <= i < |train| =>
               if train[i].repo == repo || !Seen(train, repo) then train[i].runs[k].cost else 0.0);
    }
  }

  /** The router in counts and sums: within the band, nothing in the band is cheaper, and nothing before the choice
      is as cheap. */
  lemma RouteIsCheapestInBand(train: seq<Row>, n: nat, eps: real, repo: string)
    requires train != [] && n > 0 && Wide(train, n) && eps >= 0.0
    ensures var k := PoolRoute(train, n, eps, repo);
            && InBand(train, n, eps, repo, k)
            && forall j: nat :: j < n && InBand(train, n, eps, repo, j) ==>
                 PaidOn(train, repo, k) <= PaidOn(train, repo, j)
                 && (PaidOn(train, repo, j) == PaidOn(train, repo, k) ==> k <= j)
  {
    hide InBand, RatesFor, AverageCosts, MaxOf, PaidOn, Sample;
    var k := PoolRoute(train, n, eps, repo);
    EligibleIsInBand(train, n, eps, repo, k);
    forall j: nat | j < n && InBand(train, n, eps, repo, j)
      ensures PaidOn(train, repo, k) <= PaidOn(train, repo, j)
      ensures PaidOn(train, repo, j) == PaidOn(train, repo, k) ==> k <= j
    {
      EligibleIsInBand(train, n, eps, repo, j);
      AveragesShareTheSample(train, n, repo, k);
      AveragesShareTheSample(train, n, repo, j);
      QuotientReflects(PaidOn(train, repo, k), PaidOn(train, repo, j), |Sample(train, repo)| as real);
    }
  }

  lemma {:induction false} PoolScoreIsTotal(train: seq<Row>, n: nat, eps: real, rows: seq<Row>)
    requires train != [] && n > 0 && Wide(train, n) && eps >= 0.0 && Wide(rows, n)
    ensures Totals(ServedByChoice(rows, PoolChoice(train, n, eps)), PoolScore(train, n, eps, rows))
  {
    hide Totals, PoolRoute, Eligible, ServedByChoice;
    var choice := PoolChoice(train, n, eps);
    if rows == [] {
      NoneServed(rows, choice);
    } else {
      PoolScoreIsTotal(train, n, eps, rows[..|rows| - 1]);
      OneMoreServed(rows, choice, PoolScore(train, n, eps, rows[..|rows| - 1]));
    }
  }

  // ----- the same rule over the whole pool

  /** The one model for all rows: the least total cost within `eps` of the best overall rate. */
  function SelectCheapest(train: seq<Row>, n: nat, eps: real): (k: nat)
    requires train != [] && n > 0 && Wide(train, n) && eps >= 0.0
    ensures k < n
  {
    CheapestWithin(seq(n, k requires 0 <= k < n => Rate(ResolvedBy(train, k), |train|)),
                   seq(n, k requires 0 <= k < n => SpentBy(train, k)), eps)
  }

  /** Totals order the models as averages do, so a repository never seen is routed to that one model. */
  lemma UnseenRoutesToTheCheapest(train: seq<Row>, n: nat, eps: real, repo: string)
    requires train != [] && n > 0 && Wide(train, n) && eps >= 0.0 && RowsIn(train, repo) == 0
    ensures PoolRoute(train, n, eps, repo) == SelectCheapest(train, n, eps)
  {
    hide ResolvedBy, SpentBy, RowsIn, MaxOf, CheapestWithin, IsCheapest;
    var rates, costs := RatesFor(train, n, repo), AverageCosts(train, n, repo);
    var totals := seq(n, k requires 0 <= k < n => SpentBy(train, k));
    assert rates == seq(n, k requires 0 <= k < n => Rate(ResolvedBy(train, k), |train|));
    SameOrderSameChoice(rates, costs, totals, |train| as real, MaxOf(rates) - eps,
                        PoolRoute(train, n, eps, repo), SelectCheapest(train, n, eps));
  }

  lemma SameOrderSameChoice(rates: seq<real>, costs: seq<real>, totals: seq<real>, c: real, least: real, a: nat, b: nat)
    requires |rates| == |costs| == |totals| && c > 0.0 && forall k :: 0 <= k < |costs| ==> costs[k] == totals[k] / c
    requires IsCheapest(rates, costs, least, a) && IsCheapest(rates, totals, least, b)
    ensures a == b
  {
    QuotientReflects(totals[a], totals[b], c);
    QuotientReflects(totals[b], totals[a], c);
    assert costs[a] == totals[a] / c && costs[b] == totals[b] / c;
  }
}
