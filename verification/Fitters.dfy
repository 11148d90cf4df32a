/** Fitting the step-gated cascade and the repository router on a training half
    (scripts/analyze-agent-cascade.py, scripts/analyze-agent-granularity.py). */
module Fitters {
  import opened Lists
  import opened Reals

  /** One recorded agent run: resolved, USD, API calls. */
  datatype Attempt = Attempt(ok: bool, cost: real, steps: nat)

  datatype Row = Row(repo: string, runs: seq<Attempt>)

  type Served = (bool, real)

  /** Every row has one run per rung. */
  ghost predicate Wide(rows: seq<Row>, n: nat) {
    forall i :: 0 <= i < |rows| ==> |rows[i].runs| == n
  }

  // ----- the step-gated cascade

  function CostUpTo(runs: seq<Attempt>, n: nat): real
    requires n <= |runs|
  {
    if n == 0 then 0.0 else CostUpTo(runs, n - 1) + runs[n - 1].cost
  }

  /** The first rung whose step count passes its gate, the last one if none does. */
  function GatedRung(runs: seq<Attempt>, taus: seq<real>, from: nat): (k: nat)
    requires from < |runs| <= |taus| + 1
    ensures from <= k < |runs|
    ensures forall j :: from <= j < k ==> runs[j].steps as real > taus[j]
    ensures k < |runs| - 1 ==> runs[k].steps as real <= taus[k]
    decreases |runs| - from
  {
    if from == |runs| - 1 || runs[from].steps as real <= taus[from] then from else GatedRung(runs, taus, from + 1)
  }

  function CascadeOutcome(runs: seq<Attempt>, taus: seq<real>): Served
    requires 0 < |runs| <= |taus| + 1
  {
    var k := GatedRung(runs, taus, 0);
    (runs[k].ok, CostUpTo(runs, k + 1))
  }

  function RunCosts(runs: seq<Attempt>): (costs: seq<real>)
    ensures |costs| == |runs|
  {
    seq(|runs|, j requires 0 <= j < |runs| => runs[j].cost)
  }

  /** The cascade served rung `j`: every rung before it took more steps than its threshold, it did not or is the
      last, and all rungs up to it are billed. */
  ghost predicate CascadeServes(runs: seq<Attempt>, taus: seq<real>, out: Served, j: nat)
    requires |runs| <= |taus| + 1
  {
    && j < |runs| && out == (runs[j].ok, Sum(RunCosts(runs[..j + 1])))
    && (forall i :: 0 <= i < j ==> runs[i].steps as real > taus[i])
    && (j == |runs| - 1 || runs[j].steps as real <= taus[j])
  }

  lemma {:induction false} CostUpToIsSum(runs: seq<Attempt>, n: nat)
    requires n <= |runs|
    ensures CostUpTo(runs, n) == Sum(RunCosts(runs[..n]))
  {
    hide Sum;
    if n == 0 {
      SumOfNone();
    } else {
      CostUpToIsSum(runs, n - 1);
      assert RunCosts(runs[..n]) == RunCosts(runs[..n - 1]) + [runs[n - 1].cost];
      SumPush(RunCosts(runs[..n - 1]), runs[n - 1].cost);
    }
  }

  lemma CascadeOutcomeServes(runs: seq<Attempt>, taus: seq<real>)
    requires 0 < |runs| <= |taus| + 1
    ensures exists j :: CascadeServes(runs, taus, CascadeOutcome(runs, taus), j)
  {
    hide Sum;
    var k := GatedRung(runs, taus, 0);
    CostUpToIsSum(runs, k + 1);
    assert CascadeServes(runs, taus, CascadeOutcome(runs, taus), k);
  }

  method Cascade(runs: seq<Attempt>, taus: seq<real>) returns (ok: bool, spent: real)
    requires 0 < |runs| <= |taus| + 1
    ensures (ok, spent) == CascadeOutcome(runs, taus)
    ensures exists j :: CascadeServes(runs, taus, (ok, spent), j)
  {
    hide CascadeServes;
    CascadeOutcomeServes(runs, taus);
    spent := 0.0;
    var k := 0;
    while true
      invariant k < |runs|
      invariant spent == CostUpTo(runs, k) && GatedRung(runs, taus, 0) == GatedRung(runs, taus, k)
      decreases |runs| - k
    {
      spent := spent + runs[k].cost;
      if k == |runs| - 1 || runs[k].steps as real <= taus[k] {
        return runs[k].ok, spent;
      }
      k := k + 1;
    }
  }

  // ----- picking a candidate

  datatype Score = Score(ok: nat, cost: real)

  /** The pick rule: the cheapest candidate that reaches the bar, earliest among equals; if none does, the
      most resolved one, cheapest among equals. */
  ghost predicate Picked(scored: seq<Score>, bar: nat, i: nat) {
    && i < |scored|
    && (forall j :: 0 <= j < |scored| && scored[j].ok >= bar ==>
          scored[i].ok >= bar && scored[i].cost <= scored[j].cost && (scored[j].cost == scored[i].cost ==> i <= j))
    && ((forall j :: 0 <= j < |scored| ==> scored[j].ok < bar) ==>
          forall j :: 0 <= j < |scored| ==>
            scored[j].ok <= scored[i].ok && (scored[j].ok == scored[i].ok ==> scored[i].cost <= scored[j].cost))
  }

  method Pick(scored: seq<Score>, bar: nat) returns (i: nat)
    requires scored != []
    ensures Picked(scored, bar, i)
  {
    var feasible := false;
    i := 0;
    for j := 0 to |scored|
      invariant i < |scored| && (if j == 0 then i == 0 else i < j)
      invariant feasible <==> exists k :: 0 <= k < j && scored[k].ok >= bar
      invariant feasible ==> i < j && scored[i].ok >= bar
      invariant feasible ==> forall k :: 0 <= k < j && scored[k].ok >= bar ==>
                               scored[i].cost <= scored[k].cost && (scored[k].cost == scored[i].cost ==> i <= k)
      invariant !feasible ==> forall k :: 0 <= k < j ==>
                                scored[k].ok <= scored[i].ok
                                && (scored[k].ok == scored[i].ok ==> scored[i].cost <= scored[k].cost)
    {
      var s := scored[j];
      if s.ok >= bar {
        if !feasible || s.cost < scored[i].cost {
          i := j;
        }
        feasible := true;
      } else if !feasible && (s.ok > scored[i].ok || (s.ok == scored[i].ok && s.cost < scored[i].cost)) {
        i := j;
      }
    }
  }

  // ----- the threshold grid

  /** Step counts of rung `k` over the training rows. */
  function Steps(train: seq<Row>, k: nat): (xs: seq<real>)
    requires forall i :: 0 <= i < |train| ==> k < |train[i].runs|
    ensures |xs| == |train|
  {
    seq(|train|, i requires 0 <= i < |train| && k < |train[i].runs| => train[i].runs[k].steps as real)
  }

  const QUANTILES := 11

  /** Position of the `q` tenths quantile among `n` sorted values. */
  function QuantileIndex(q: nat, n: nat): (at: nat)
    requires n > 0
    ensures at < n
  {
    var at: nat := q * (n - 1) / 10;
    if at < n - 1 then at else n - 1
  }

  /** The `q` tenths quantile of step counts. */
  function Quantile(steps: seq<real>, q: nat): real
    requires steps != []
  {
    Sorted(steps)[QuantileIndex(q, |steps|)]
  }

  /** The first `n` tenth-quantiles of the step counts, and -1 for "always escalate". */
  function Quantiles(steps: seq<real>, n: nat): (grid: seq<real>)
    requires steps != []
    ensures StrictlyAscending(grid)
    ensures forall t :: t in grid <==> t == -1.0 || exists q :: 0 <= q < n && t == Quantile(steps, q)
  {
    if n == 0 then [-1.0] else InsertOnce(Quantiles(steps, n - 1), Quantile(steps, n - 1))
  }

  function Grids(train: seq<Row>, n: nat): (grids: seq<seq<real>>)
    requires train != [] && n > 0 && Wide(train, n)
    ensures |grids| == n - 1
    ensures forall k :: 0 <= k < n - 1 ==> -1.0 in grids[k]
  {
    seq(n - 1, k requires 0 <= k < n - 1 => Quantiles(Steps(train, k), QUANTILES))
  }

  /** `t` is the `q` tenths quantile: one of the step counts, with more than its share of them at most as large and
      at most its share smaller. */
  ghost predicate IsQuantile(steps: seq<real>, q: nat, t: real) {
    t in steps && AtMost(steps, t) > q * (|steps| - 1) / 10 && Below(steps, t) <= q * (|steps| - 1) / 10
  }

  lemma {:induction false} CountsOverlap(xs: seq<real>, t: real, u: real)
    requires t < u
    ensures AtMost(xs, t) <= Below(xs, u)
  {
    if xs != [] {
      CountsOverlap(xs[..|xs| - 1], t, u);
    }
  }

  lemma {:induction false} SortedKeepsEntries(xs: seq<real>)
    ensures multiset(Sorted(xs)) == multiset(xs)
  {
    hide Insert;
    if xs != [] {
      var most, last := xs[..|xs| - 1], xs[|xs| - 1];
      SortedKeepsEntries(most);
      InsertKeepsEntries(Sorted(most), last);
      assert xs == most + [last];
    }
  }

  lemma {:induction false} InsertKeepsEntries(xs: seq<real>, x: real)
    requires Ascending(xs)
    ensures multiset(Insert(xs, x)) == multiset(xs) + multiset{x}
  {
    if xs != [] && xs[|xs| - 1] > x {
      var most, last := xs[..|xs| - 1], xs[|xs| - 1];
      InsertKeepsEntries(most, x);
      assert xs == most + [last];
    }
  }

  lemma QuantileIsQuantile(steps: seq<real>, q: nat, t: real)
    requires steps != [] && q <= 10
    ensures IsQuantile(steps, q, t) <==> t == Quantile(steps, q)
  {
    hide Sorted, AtMost, Below;
    var at, v := QuantileIndex(q, |steps|), Quantile(steps, q);
    TenthsInRange(q, |steps|);
    SortedEntryIsQuantile(steps, at);
    SortedKeepsEntries(steps);
    assert v in multiset(Sorted(steps));
    assert v in multiset(steps);
    if IsQuantile(steps, q, t) && t < v {
      CountsOverlap(steps, t, v);
    }
    if IsQuantile(steps, q, t) && v < t {
      CountsOverlap(steps, v, t);
    }
  }

  lemma TenthsInRange(q: nat, n: nat)
    requires q <= 10 && n > 0
    ensures QuantileIndex(q, n) == q * (n - 1) / 10
  {
    IntMulMonotone(q, 10, n - 1);
    var at := q * (n - 1) / 10;
    assert at <= n - 1;
  }

  /** What a threshold on the grid of rung `k` is: -1, or one of the eleven tenth-quantiles of the training rows'
      step counts. */
  lemma GridEntriesAreQuantiles(train: seq<Row>, n: nat, k: nat, t: real)
    requires train != [] && n > 0 && Wide(train, n) && k < n - 1
    ensures var steps := seq(|train|, i requires 0 <= i < |train| => train[i].runs[k].steps as real);
            t in Grids(train, n)[k] <==> t == -1.0 || exists q: nat :: q <= 10 && IsQuantile(steps, q, t)
  {
    hide Sorted, IsQuantile, Quantile;
    var steps := Steps(train, k);
    assert steps == seq(|train|, i requires 0 <= i < |train| => train[i].runs[k].steps as real);
    forall q: nat | q <= 10 ensures IsQuantile(steps, q, t) <==> t == Quantile(steps, q) {
      QuantileIsQuantile(steps, q, t);
    }
    if q: nat :| q <= 10 && IsQuantile(steps, q, t) {
      assert 0 <= q < QUANTILES && t == Quantile(steps, q);
    }
    if q :| 0 <= q < QUANTILES && t == Quantile(steps, q) {
      assert IsQuantile(steps, q, t);
    }
  }

  /** `t` put in front of every vector. */
  function Prepend(t: real, rest: seq<seq<real>>): (out: seq<seq<real>>)
    ensures forall c :: c in out <==> c != [] && c[0] == t && c[1..] in rest
  {
    if rest == [] then []
    else
      assert rest == [rest[0]] + rest[1..];
      var c := [t] + rest[0];
      assert c[1..] == rest[0];
      assert forall d: seq<real> :: d != [] && d[0] == t && d[1..] == rest[0] ==> d == [t] + d[1..];
      [c] + Prepend(t, rest[1..])
  }

  function PrependAll(ts: seq<real>, rest: seq<seq<real>>): (out: seq<seq<real>>)
    ensures forall c :: c in out <==> c != [] && c[0] in ts && c[1..] in rest
  {
    if ts == [] then []
    else
      assert ts == [ts[0]] + ts[1..];
      Prepend(ts[0], rest) + PrependAll(ts[1..], rest)
  }

  /** `c` takes its entry for rung `k + i` from the grid of that rung. */
  ghost predicate InProduct(grids: seq<seq<real>>, k: nat, c: seq<real>)
    requires k <= |grids|
  {
    |c| == |grids| - k && forall i :: 0 <= i < |c| ==> c[i] in grids[k + i]
  }

  /** All threshold vectors: exactly the product of the grids. */
  function Combos(grids: seq<seq<real>>, k: nat): (out: seq<seq<real>>)
    requires k <= |grids|
    ensures forall c :: c in out <==> InProduct(grids, k, c)
    decreases |grids| - k
  {
    if k == |grids| then [[]]
    else
      var rest := Combos(grids, k + 1);
      assert forall c: seq<real> :: c != [] ==>
               (InProduct(grids, k, c) <==> c[0] in grids[k] && InProduct(grids, k + 1, c[1..])) by {
        forall c: seq<real> | c != []
          ensures InProduct(grids, k, c) <==> c[0] in grids[k] && InProduct(grids, k + 1, c[1..])
        {
          ProductStep(grids, k, c);
        }
      }
      PrependAll(grids[k], rest)
  }

  lemma ProductStep(grids: seq<seq<real>>, k: nat, c: seq<real>)
    requires k < |grids| && c != []
    ensures InProduct(grids, k, c) <==> c[0] in grids[k] && InProduct(grids, k + 1, c[1..])
  {
    if c[0] in grids[k] && InProduct(grids, k + 1, c[1..]) {
      forall i | 0 <= i < |c| ensures c[i] in grids[k + i] {
        if i > 0 {
          assert c[i] == c[1..][i - 1];
        }
      }
    }
    if InProduct(grids, k, c) {
      forall i | 0 <= i < |c| - 1 ensures c[1..][i] in grids[k + 1 + i] {
        assert c[1..][i] == c[i + 1];
      }
    }
  }

  // ----- fitting the thresholds

  /** Rows resolved and USD paid by a cascade with thresholds `taus`. */
  function CascadeScore(train: seq<Row>, taus: seq<real>): Score
    requires Wide(train, |taus| + 1)
  {
    if train == [] then Score(0, 0.0)
    else
      var s := CascadeScore(train[..|train| - 1], taus);
      var out := CascadeOutcome(train[|train| - 1].runs, taus);
      Score(s.ok + (if out.0 then 1 else 0), s.cost + out.1)
  }

  /** Rows the model at index `k` resolves. */
  function ResolvedBy(train: seq<Row>, k: nat): nat
    requires forall i :: 0 <= i < |train| ==> k < |train[i].runs|
  {
    if train == [] then 0
    else ResolvedBy(train[..|train| - 1], k) + if train[|train| - 1].runs[k].ok then 1 else 0
  }

  method ScoreCascade(train: seq<Row>, taus: seq<real>) returns (s: Score)
    requires Wide(train, |taus| + 1)
    ensures s == CascadeScore(train, taus)
  {
    var resolved, cost := 0, 0.0;
    for i := 0 to |train|
      invariant Score(resolved, cost) == CascadeScore(train[..i], taus)
    {
      assert train[..i + 1][..i] == train[..i];
      var ok, spent := Cascade(train[i].runs, taus);
      resolved := resolved + if ok then 1 else 0;
      cost := cost + spent;
    }
    assert train[..|train|] == train;
    s := Score(resolved, cost);
  }

  function AlwaysEscalate(n: nat): (taus: seq<real>)
    ensures |taus| == n && forall k :: 0 <= k < n ==> taus[k] == -1.0
  {
    seq(n, _ => -1.0)
  }

  /** No run has fewer than zero steps, so thresholds of -1 reproduce the top model. */
  lemma {:induction false} AlwaysEscalateIsTop(train: seq<Row>, n: nat)
    requires n > 0 && Wide(train, n)
    ensures CascadeScore(train, AlwaysEscalate(n - 1)).ok == ResolvedBy(train, n - 1)
  {
    if train != [] {
      AlwaysEscalateIsTop(train[..|train| - 1], n);
    }
  }

  /** The fitted vector is on the grid, matches the top model's count, and no vector of the grid that
      does is cheaper: the fallback for "nothing matches" never runs. */
  method FitTaus(train: seq<Row>, n: nat) returns (taus: seq<real>)
    requires train != [] && n > 0 && Wide(train, n)
    ensures InProduct(Grids(train, n), 0, taus)
    ensures CascadeScore(train, taus).ok >= ResolvedBy(train, n - 1)
    ensures forall c :: InProduct(Grids(train, n), 0, c) && CascadeScore(train, c).ok >= ResolvedBy(train, n - 1) ==>
              CascadeScore(train, taus).cost <= CascadeScore(train, c).cost
  {
    hide Grids, CascadeScore, ResolvedBy, InProduct, Combos, Picked;
    var grids := Grids(train, n);
    GridsShape(train, n);
    var combos := Combos(grids, 0);
    ProductLengths(grids);
    assert forall j :: 0 <= j < |combos| ==> combos[j] in combos;
    var bar := CountResolved(train, n - 1);
    var scored := ScoreAll(train, n, combos);
    AlwaysEscalateIsTop(train, n);
    assert AlwaysEscalate(n - 1) in combos;
    var i := Pick(scored, bar);
    PickedIsCheapest(train, n, combos, scored, bar, i);
    taus := combos[i];
    assert taus in combos;
  }

  method ScoreAll(train: seq<Row>, n: nat, combos: seq<seq<real>>) returns (scored: seq<Score>)
    requires n > 0 && Wide(train, n) && forall j :: 0 <= j < |combos| ==> |combos[j]| == n - 1
    ensures |scored| == |combos|
    ensures forall j :: 0 <= j < |combos| ==> scored[j] == CascadeScore(train, combos[j])
  {
    hide CascadeScore, Wide;
    scored := [];
    for i := 0 to |combos|
      invariant |scored| == i
      invariant forall j :: 0 <= j < i ==> scored[j] == CascadeScore(train, combos[j])
    {
      var s := ScoreCascade(train, combos[i]);
      scored := scored + [s];
    }
  }

  lemma PickedIsCheapest(train: seq<Row>, n: nat, combos: seq<seq<real>>, scored: seq<Score>, bar: nat, i: nat)
    requires n > 0 && Wide(train, n) && forall j :: 0 <= j < |combos| ==> |combos[j]| == n - 1
    requires |scored| == |combos| && forall j :: 0 <= j < |combos| ==> scored[j] == CascadeScore(train, combos[j])
    requires Picked(scored, bar, i)
    requires AlwaysEscalate(n - 1) in combos && CascadeScore(train, AlwaysEscalate(n - 1)).ok >= bar
    ensures i < |combos| && CascadeScore(train, combos[i]).ok >= bar
    ensures forall c :: c in combos && CascadeScore(train, c).ok >= bar ==>
              CascadeScore(train, combos[i]).cost <= CascadeScore(train, c).cost
  {
    hide CascadeScore, Wide;
    var top :| 0 <= top < |combos| && combos[top] == AlwaysEscalate(n - 1);
    assert scored[top].ok >= bar;
    forall c | c in combos && CascadeScore(train, c).ok >= bar
      ensures CascadeScore(train, combos[i]).cost <= CascadeScore(train, c).cost
    {
      var j :| 0 <= j < |combos| && combos[j] == c;
      assert scored[j].ok >= bar;
    }
  }

  lemma GridsShape(train: seq<Row>, n: nat)
    requires train != [] && n > 0 && Wide(train, n)
    ensures |Grids(train, n)| == n - 1
    ensures InProduct(Grids(train, n), 0, AlwaysEscalate(n - 1))
  {}

  lemma ProductLengths(grids: seq<seq<real>>)
    ensures forall c :: InProduct(grids, 0, c) ==> |c| == |grids|
  {}

  method CountResolved(train: seq<Row>, k: nat) returns (count: nat)
    requires forall i :: 0 <= i < |train| ==> k < |train[i].runs|
    ensures count == ResolvedBy(train, k)
  {
    count := 0;
    for i := 0 to |train|
      invariant count == ResolvedBy(train[..i], k)
    {
      assert train[..i + 1][..i] == train[..i];
      count := count + if train[i].runs[k].ok then 1 else 0;
    }
    assert train[..|train|] == train;
  }

  // ----- the repository router

  /** Rows of a repository that the model at index `k` resolves. */
  function ResolvedIn(rows: seq<Row>, repo: string, k: nat): nat
    requires forall i :: 0 <= i < |rows| ==> k < |rows[i].runs|
  {
    if rows == [] then 0
    else
      var r := rows[|rows| - 1];
      ResolvedIn(rows[..|rows| - 1], repo, k) + if r.repo == repo && r.runs[k].ok then 1 else 0
  }

  function RowsIn(rows: seq<Row>, repo: string): nat {
    if rows == [] then 0
    else RowsIn(rows[..|rows| - 1], repo) + if rows[|rows| - 1].repo == repo then 1 else 0
  }

  /** Resolved and seen, per rung of one repository. */
  type Tallies = seq<(nat, nat)>

  function TalliesIn(rows: seq<Row>, n: nat, repo: string): (s: Tallies)
    requires Wide(rows, n)
    ensures |s| == n
  {
    seq(n, k requires 0 <= k < n => (ResolvedIn(rows, repo, k), RowsIn(rows, repo)))
  }

  /** The tallies with one more run of every rung. */
  function Tallied(s: Tallies, runs: seq<Attempt>): (t: Tallies)
    requires |s| == |runs|
    ensures |t| == |s|
  {
    seq(|s|, k requires 0 <= k < |s| => (s[k].0 + (if runs[k].ok then 1 else 0), s[k].1 + 1))
  }

  method Tally(s: Tallies, runs: seq<Attempt>) returns (t: Tallies)
    requires |s| == |runs|
    ensures t == Tallied(s, runs)
  {
    t := s;
    for k := 0 to |runs|
      invariant |t| == |s|
      invariant forall j :: 0 <= j < k ==> t[j] == Tallied(s, runs)[j]
      invariant forall j :: k <= j < |s| ==> t[j] == s[j]
    {
      t := t[k := (t[k].0 + (if runs[k].ok then 1 else 0), t[k].1 + 1)];
    }
  }

  lemma TalliesPush(rows: seq<Row>, n: nat, i: nat, repo: string)
    requires Wide(rows, n) && i < |rows|
    ensures TalliesIn(rows[..i + 1], n, repo)
            == if rows[i].repo == repo then Tallied(TalliesIn(rows[..i], n, repo), rows[i].runs)
               else TalliesIn(rows[..i], n, repo)
    ensures RowsIn(rows[..i + 1], repo) == RowsIn(rows[..i], repo) + if rows[i].repo == repo then 1 else 0
  {
    assert rows[..i + 1][..i] == rows[..i];
  }

  /** `stats` knows exactly the repositories of these rows, with their tallies. */
  ghost predicate StatsOf(rows: seq<Row>, n: nat, stats: map<string, Tallies>) {
    && Wide(rows, n)
    && (forall repo :: repo in stats <==> RowsIn(rows, repo) > 0)
    && forall repo :: repo in stats ==> stats[repo] == TalliesIn(rows, n, repo)
  }

  lemma StatsPush(rows: seq<Row>, n: nat, i: nat, stats: map<string, Tallies>)
    requires Wide(rows, n) && i < |rows| && StatsOf(rows[..i], n, stats)
    ensures var s := if rows[i].repo in stats then stats[rows[i].repo] else seq(n, _ => (0, 0));
            |s| == n && StatsOf(rows[..i + 1], n, stats[rows[i].repo := Tallied(s, rows[i].runs)])
  {
    hide TalliesIn, RowsIn;
    if rows[i].repo !in stats {
      NothingTallied(rows[..i], n, rows[i].repo);
    }
    forall repo
      ensures TalliesIn(rows[..i + 1], n, repo)
              == if rows[i].repo == repo then Tallied(TalliesIn(rows[..i], n, repo), rows[i].runs)
                 else TalliesIn(rows[..i], n, repo)
      ensures RowsIn(rows[..i + 1], repo) == RowsIn(rows[..i], repo) + if rows[i].repo == repo then 1 else 0
    {
      TalliesPush(rows, n, i, repo);
    }
  }

  method BuildStats(train: seq<Row>, n: nat) returns (stats: map<string, Tallies>)
    requires Wide(train, n)
    ensures StatsOf(train, n, stats)
  {
    stats := map[];
    for i := 0 to |train|
      invariant StatsOf(train[..i], n, stats)
    {
      StatsPush(train, n, i, stats);
      var r := train[i];
      var s := if r.repo in stats then stats[r.repo] else seq(n, _ => (0, 0));
      s := Tally(s, r.runs);
      stats := stats[r.repo := s];
    }
    assert train[..|train|] == train;
  }

  lemma {:induction false} NothingTallied(rows: seq<Row>, n: nat, repo: string)
    requires Wide(rows, n) && RowsIn(rows, repo) == 0
    ensures TalliesIn(rows, n, repo) == seq(n, _ => (0, 0))
  {
    if rows != [] {
      NothingTallied(rows[..|rows| - 1], n, repo);
      forall k | 0 <= k < n ensures ResolvedIn(rows, repo, k) == 0 {
        assert TalliesIn(rows[..|rows| - 1], n, repo)[k] == (0, 0);
      }
    }
  }

  function Rate(resolved: nat, seen: nat): real
    requires seen > 0
  {
    resolved as real / seen as real
  }

  function MaxOf(xs: seq<real>): (m: real)
    requires xs != []
    ensures forall i :: 0 <= i < |xs| ==> xs[i] <= m
    ensures m in xs
  {
    if |xs| == 1 then xs[0]
    else
      var m := MaxOf(xs[..|xs| - 1]);
      assert xs == xs[..|xs| - 1] + [xs[|xs| - 1]];
      if xs[|xs| - 1] > m then xs[|xs| - 1] else m
  }

  /** The first model whose rate is within `eps` of the best. */
  function FirstWithin(rates: seq<real>, best: real, eps: real, from: nat): (k: nat)
    requires from <= |rates|
    requires exists j :: from <= j < |rates| && rates[j] >= best - eps
    ensures from <= k < |rates| && rates[k] >= best - eps
    ensures forall j :: from <= j < k ==> rates[j] < best - eps
    decreases |rates| - from
  {
    if rates[from] >= best - eps then from else FirstWithin(rates, best, eps, from + 1)
  }

  /** Resolve rates the router uses for a repository: its own if it was seen, the overall ones if not. */
  function RatesFor(train: seq<Row>, n: nat, repo: string): (rates: seq<real>)
    requires train != [] && Wide(train, n)
    ensures |rates| == n
  {
    if RowsIn(train, repo) > 0
    then seq(n, k requires 0 <= k < n => Rate(ResolvedIn(train, repo, k), RowsIn(train, repo)))
    else seq(n, k requires 0 <= k < n => Rate(ResolvedBy(train, k), |train|))
  }

  function Route(train: seq<Row>, n: nat, eps: real, repo: string): (k: nat)
    requires train != [] && n > 0 && Wide(train, n) && eps >= 0.0
    ensures k < n
  {
    var rates := RatesFor(train, n, repo);
    var best := MaxOf(rates);
    assert exists i :: 0 <= i < |rates| && rates[i] == best;
    FirstWithin(rates, best, eps, 0)
  }

  /** Rows resolved and USD paid when every row runs the model its repository is routed to. */
  function RouteScore(train: seq<Row>, n: nat, eps: real, rows: seq<Row>): Score
    requires train != [] && n > 0 && Wide(train, n) && eps >= 0.0 && Wide(rows, n)
  {
    if rows == [] then Score(0, 0.0)
    else
      var r := rows[|rows| - 1];
      var s := RouteScore(train, n, eps, rows[..|rows| - 1]);
      var run := r.runs[Route(train, n, eps, r.repo)];
      Score(s.ok + (if run.ok then 1 else 0), s.cost + run.cost)
  }

  // ----- zero tolerance never falls behind: the grouped-sum argument

  /** Rows resolved when repository `repo` is served by model `choice(repo)`. */
  ghost function Chosen(rows: seq<Row>, n: nat, choice: string -> nat): nat
    requires Wide(rows, n) && forall repo :: choice(repo) < n
  {
    if rows == [] then 0
    else
      var r := rows[|rows| - 1];
      Chosen(rows[..|rows| - 1], n, choice) + if r.runs[choice(r.repo)].ok then 1 else 0
  }

  function Others(rows: seq<Row>, repo: string): (out: seq<Row>)
    ensures |out| <= |rows|
    ensures rows != [] && rows[|rows| - 1].repo == repo ==> |out| < |rows|
    ensures forall i :: 0 <= i < |out| ==> out[i] in rows
  {
    if rows == [] then []
    else
      assert rows == rows[..|rows| - 1] + [rows[|rows| - 1]];
      Others(rows[..|rows| - 1], repo) + if rows[|rows| - 1].repo == repo then [] else [rows[|rows| - 1]]
  }

  lemma {:induction false} SplitChosen(rows: seq<Row>, n: nat, choice: string -> nat, repo: string)
    requires Wide(rows, n) && forall s :: choice(s) < n
    ensures Wide(Others(rows, repo), n)
    ensures Chosen(rows, n, choice) == ResolvedIn(rows, repo, choice(repo)) + Chosen(Others(rows, repo), n, choice)
  {
    if rows != [] {
      var most, r := rows[..|rows| - 1], rows[|rows| - 1];
      SplitChosen(most, n, choice, repo);
      if r.repo == repo {
        assert Others(rows, repo) == Others(most, repo);
      } else {
        assert Others(rows, repo)[..|Others(rows, repo)| - 1] == Others(most, repo);
      }
    }
  }

  lemma {:induction false} SplitResolved(rows: seq<Row>, n: nat, k: nat, repo: string)
    requires Wide(rows, n) && k < n
    ensures Wide(Others(rows, repo), n)
    ensures ResolvedBy(rows, k) == ResolvedIn(rows, repo, k) + ResolvedBy(Others(rows, repo), k)
  {
    if rows != [] {
      var most, r := rows[..|rows| - 1], rows[|rows| - 1];
      SplitResolved(most, n, k, repo);
      if r.repo == repo {
        assert Others(rows, repo) == Others(most, repo);
      } else {
        assert Others(rows, repo)[..|Others(rows, repo)| - 1] == Others(most, repo);
      }
    }
  }

  lemma {:induction false} OthersIn(rows: seq<Row>, n: nat, k: nat, gone: string, repo: string)
    requires Wide(rows, n) && k < n
    ensures Wide(Others(rows, gone), n)
    ensures ResolvedIn(Others(rows, gone), repo, k) == if repo == gone then 0 else ResolvedIn(rows, repo, k)
  {
    if rows != [] {
      var most, r := rows[..|rows| - 1], rows[|rows| - 1];
      OthersIn(most, n, k, gone, repo);
      if r.repo == gone {
        assert Others(rows, gone) == Others(most, gone);
      } else {
        assert Others(rows, gone)[..|Others(rows, gone)| - 1] == Others(most, gone);
      }
    }
  }

  /** `choice` is at least as good as model `ref` in every repository. */
  ghost predicate BestInEach(rows: seq<Row>, n: nat, choice: string -> nat, ref: nat)
    requires Wide(rows, n) && ref < n
  {
    forall repo :: choice(repo) < n && ResolvedIn(rows, repo, choice(repo)) >= ResolvedIn(rows, repo, ref)
  }

  /** At least as good in every repository is at least as good overall: take the repositories out one
      by one. */
  lemma {:induction false} BestInEachIsBest(rows: seq<Row>, n: nat, choice: string -> nat, ref: nat)
    requires Wide(rows, n) && ref < n && BestInEach(rows, n, choice, ref)
    ensures Chosen(rows, n, choice) >= ResolvedBy(rows, ref)
    decreases |rows|
  {
    if rows != [] {
      var repo := rows[|rows| - 1].repo;
      var rest := Others(rows, repo);
      SplitChosen(rows, n, choice, repo);
      SplitResolved(rows, n, ref, repo);
      forall s ensures choice(s) < n && ResolvedIn(rest, s, choice(s)) >= ResolvedIn(rest, s, ref) {
        assert choice(s) < n && ResolvedIn(rows, s, choice(s)) >= ResolvedIn(rows, s, ref);
        OthersIn(rows, n, choice(s), repo, s);
        OthersIn(rows, n, ref, repo, s);
      }
      BestInEachIsBest(rest, n, choice, ref);
    }
  }

  lemma RateOrder(a: nat, b: nat, seen: nat)
    requires seen > 0 && Rate(a, seen) >= Rate(b, seen)
    ensures a >= b
  {
    var c := seen as real;
    QuotientTimes(a as real, c);
    QuotientTimes(b as real, c);
    MulMonotone(c, Rate(b, seen), Rate(a, seen));
  }

  lemma {:induction false} UnseenResolvesNothing(rows: seq<Row>, n: nat, repo: string, k: nat)
    requires Wide(rows, n) && k < n && RowsIn(rows, repo) == 0
    ensures ResolvedIn(rows, repo, k) == 0
  {
    NothingTallied(rows, n, repo);
    assert TalliesIn(rows, n, repo)[k] == (0, 0);
  }

  /** A model whose rate in its repository is the best there resolves at least as many rows of it as any
      reference model does. */
  lemma BestRateIsBestCount(train: seq<Row>, n: nat, repo: string, k: nat, ref: nat)
    requires train != [] && Wide(train, n) && k < n && ref < n
    requires RatesFor(train, n, repo)[k] >= RatesFor(train, n, repo)[ref]
    ensures ResolvedIn(train, repo, k) >= ResolvedIn(train, repo, ref)
  {
    if RowsIn(train, repo) > 0 {
      RateOrder(ResolvedIn(train, repo, k), ResolvedIn(train, repo, ref), RowsIn(train, repo));
    } else {
      UnseenResolvesNothing(train, n, repo, k);
      UnseenResolvesNothing(train, n, repo, ref);
    }
  }

  /** The router as a choice per repository. */
  ghost function Router(train: seq<Row>, n: nat, eps: real): string -> nat
    requires train != [] && n > 0 && Wide(train, n) && eps >= 0.0
  {
    repo => Route(train, n, eps, repo)
  }

  lemma {:induction false} RouteScoreIsChosen(train: seq<Row>, n: nat, eps: real, rows: seq<Row>)
    requires train != [] && n > 0 && Wide(train, n) && eps >= 0.0 && Wide(rows, n)
    ensures RouteScore(train, n, eps, rows).ok == Chosen(rows, n, Router(train, n, eps))
  {
    if rows != [] {
      RouteScoreIsChosen(train, n, eps, rows[..|rows| - 1]);
    }
  }

  /** Routing with no tolerance resolves at least as many training rows as any single model. */
  lemma ZeroToleranceBeatsEveryModel(train: seq<Row>, n: nat, ref: nat)
    requires train != [] && n > 0 && Wide(train, n) && ref < n
    ensures RouteScore(train, n, 0.0, train).ok >= ResolvedBy(train, ref)
  {
    var choice := Router(train, n, 0.0);
    forall repo ensures choice(repo) < n && ResolvedIn(train, repo, choice(repo)) >= ResolvedIn(train, repo, ref) {
      BestRateIsBestCount(train, n, repo, choice(repo), ref);
    }
    BestInEachIsBest(train, n, choice, ref);
    RouteScoreIsChosen(train, n, 0.0, train);
  }

  const EPS_GRID: seq<real> := [0.0, 0.05, 0.1, 0.2, 0.3]

  /** The fitted tolerance matches the reference model's count, and no tolerance of the grid that does is
      cheaper on the training half: here too the fallback never runs. */
  method FitEps(train: seq<Row>, n: nat, ref: nat) returns (eps: real)
    requires train != [] && n > 0 && Wide(train, n) && ref < n
    ensures eps in [0.0, 0.05, 0.1, 0.2, 0.3]
    ensures eps >= 0.0
    ensures RouteScore(train, n, eps, train).ok >= ResolvedBy(train, ref)
    ensures forall e :: e in [0.0, 0.05, 0.1, 0.2, 0.3] && e >= 0.0
                        && RouteScore(train, n, e, train).ok >= ResolvedBy(train, ref) ==>
              RouteScore(train, n, eps, train).cost <= RouteScore(train, n, e, train).cost
  {
    hide RouteScore, ResolvedBy, StatsOf;
    var stats := BuildStats(train, n);
    var bar := CountResolved(train, ref);
    assert forall j :: 0 <= j < |EPS_GRID| ==> EPS_GRID[j] >= 0.0;
    var scored: seq<Score> := [];
    for i := 0 to |EPS_GRID|
      invariant |scored| == i
      invariant forall j :: 0 <= j < i ==> scored[j] == RouteScore(train, n, EPS_GRID[j], train)
    {
      var s := ScoreRouter(train, n, stats, EPS_GRID[i]);
      scored := scored + [s];
    }
    ZeroToleranceBeatsEveryModel(train, n, ref);
    var i := Pick(scored, bar);
    assert scored[0].ok >= bar;
    eps := EPS_GRID[i];
  }

  method RouteRow(train: seq<Row>, n: nat, stats: map<string, Tallies>, eps: real, repo: string) returns (k: nat)
    requires train != [] && n > 0 && Wide(train, n) && eps >= 0.0 && StatsOf(train, n, stats)
    ensures k == Route(train, n, eps, repo)
  {
    var rates: seq<real>;
    if repo in stats {
      var t := stats[repo];
      rates := seq(n, j requires 0 <= j < n && |t| == n && t[j].1 > 0 => Rate(t[j].0, t[j].1));
    } else {
      rates := seq(n, j requires 0 <= j < n => Rate(ResolvedBy(train, j), |train|));
    }
    assert rates == RatesFor(train, n, repo);
    var best := MaxOf(rates);
    k := FirstWithin(rates, best, eps, 0);
  }

  method ScoreRouter(train: seq<Row>, n: nat, stats: map<string, Tallies>, eps: real) returns (s: Score)
    requires train != [] && n > 0 && Wide(train, n) && eps >= 0.0 && StatsOf(train, n, stats)
    ensures s == RouteScore(train, n, eps, train)
  {
    hide StatsOf, Route;
    var resolved, cost := 0, 0.0;
    for i := 0 to |train|
      invariant Score(resolved, cost) == RouteScore(train, n, eps, train[..i])
    {
      assert train[..i + 1][..i] == train[..i];
      var k := RouteRow(train, n, stats, eps, train[i].repo);
      var run := train[i].runs[k];
      resolved := resolved + if run.ok then 1 else 0;
      cost := cost + run.cost;
    }
    assert train[..|train|] == train;
    s := Score(resolved, cost);
  }

  // ----- the pool router

  /** The pool's router takes the cheapest on average among the models within `eps`, so its choice need not
      be the first; with no tolerance every eligible model still has the best rate. */
  ghost predicate Eligible(train: seq<Row>, n: nat, eps: real, repo: string, k: nat)
    requires train != [] && n > 0 && Wide(train, n)
  {
    k < n && RatesFor(train, n, repo)[k] >= MaxOf(RatesFor(train, n, repo)) - eps
  }

  lemma AnyEligibleChoiceBeatsEveryModel(train: seq<Row>, n: nat, choice: string -> nat, ref: nat)
    requires train != [] && n > 0 && Wide(train, n) && ref < n
    requires forall repo :: Eligible(train, n, 0.0, repo, choice(repo))
    ensures (forall repo :: choice(repo) < n) && Chosen(train, n, choice) >= ResolvedBy(train, ref)
  {
    forall repo ensures choice(repo) < n && ResolvedIn(train, repo, choice(repo)) >= ResolvedIn(train, repo, ref) {
      assert Eligible(train, n, 0.0, repo, choice(repo));
      BestRateIsBestCount(train, n, repo, choice(repo), ref);
    }
    BestInEachIsBest(train, n, choice, ref);
  }

  // ----- the same in counted rows

  ghost function Resolved(): Served -> bool {
    (out: Served) => out.0
  }

  ghost function Paid(): Served -> real {
    (out: Served) => out.1
  }

  /** What a rule served, counted and added up. */
  ghost predicate Totals(served: seq<Served>, s: Score) {
    s.ok == |Where(served, Resolved())| && s.cost == Sum(Values(served, Paid()))
  }

  lemma TotalsOfNone()
    ensures Totals([], Score(0, 0.0))
  {
    WhereNone(Resolved());
    ValuesNone(Paid());
  }

  lemma TotalsOfOneMore(served: seq<Served>, s: Score, out: Served)
    requires Totals(served, s)
    ensures Totals(served + [out], Score(s.ok + (if out.0 then 1 else 0), s.cost + out.1))
  {
    hide Sum, Where, Values;
    assert (served + [out])[..|served|] == served;
    WhereOneMore(served + [out], Resolved());
    ValuesOneMore(served + [out], Paid());
  }

  /** What the cascade with these thresholds serves on every row. */
  function CascadeOn(train: seq<Row>, taus: seq<real>): (served: seq<Served>)
    requires Wide(train, |taus| + 1)
    ensures |served| == |train|
  {
    seq(|train|, i requires 0 <= i < |train| => CascadeOutcome(train[i].runs, taus))
  }

  lemma {:induction false} CascadeScoreIsTotal(train: seq<Row>, taus: seq<real>)
    requires Wide(train, |taus| + 1)
    ensures Totals(CascadeOn(train, taus), CascadeScore(train, taus))
  {
    hide Totals, CascadeOutcome;
    if train == [] {
      TotalsOfNone();
      assert CascadeOn(train, taus) == [];
    } else {
      var n := |train| - 1;
      CascadeScoreIsTotal(train[..n], taus);
      TotalsOfOneMore(CascadeOn(train[..n], taus), CascadeScore(train[..n], taus),
                      CascadeOutcome(train[n].runs, taus));
      assert CascadeOn(train, taus) == CascadeOn(train[..n], taus) + [CascadeOutcome(train[n].runs, taus)];
    }
  }

  /** What every row's own run of the chosen model gave. */
  ghost function ServedByChoice(rows: seq<Row>, choice: string -> nat): (served: seq<Served>)
    requires forall i :: 0 <= i < |rows| ==> choice(rows[i].repo) < |rows[i].runs|
    ensures |served| == |rows|
  {
    seq(|rows|, i requires 0 <= i < |rows| =>
      (rows[i].runs[choice(rows[i].repo)].ok, rows[i].runs[choice(rows[i].repo)].cost))
  }

  lemma NoneServed(rows: seq<Row>, choice: string -> nat)
    requires rows == []
    ensures Totals(ServedByChoice(rows, choice), Score(0, 0.0))
  {
    hide Totals;
    TotalsOfNone();
    assert ServedByChoice(rows, choice) == [];
  }

  lemma OneMoreServed(rows: seq<Row>, choice: string -> nat, s: Score)
    requires rows != [] && forall i :: 0 <= i < |rows| ==> choice(rows[i].repo) < |rows[i].runs|
    requires Totals(ServedByChoice(rows[..|rows| - 1], choice), s)
    ensures var r := rows[|rows| - 1]; var run := r.runs[choice(r.repo)];
            Totals(ServedByChoice(rows, choice), Score(s.ok + (if run.ok then 1 else 0), s.cost + run.cost))
  {
    hide Totals;
    var m := |rows| - 1;
    var run := rows[m].runs[choice(rows[m].repo)];
    TotalsOfOneMore(ServedByChoice(rows[..m], choice), s, (run.ok, run.cost));
    assert ServedByChoice(rows, choice) == ServedByChoice(rows[..m], choice) + [(run.ok, run.cost)];
  }

  lemma {:induction false} RouteScoreIsTotal(train: seq<Row>, n: nat, eps: real, rows: seq<Row>)
    requires train != [] && n > 0 && Wide(train, n) && eps >= 0.0 && Wide(rows, n)
    ensures Totals(ServedByChoice(rows, Router(train, n, eps)), RouteScore(train, n, eps, rows))
  {
    hide Totals, Route, ServedByChoice;
    var choice := Router(train, n, eps);
    if rows == [] {
      NoneServed(rows, choice);
    } else {
      RouteScoreIsTotal(train, n, eps, rows[..|rows| - 1]);
      OneMoreServed(rows, choice, RouteScore(train, n, eps, rows[..|rows| - 1]));
    }
  }

  ghost predicate Seen(rows: seq<Row>, repo: string) {
    exists i :: 0 <= i < |rows| && rows[i].repo == repo
  }

  ghost function OfRepo(repo: string): Row -> bool {
    (r: Row) => r.repo == repo
  }

  ghost function SolvedBy(k: nat): Row -> bool {
    (r: Row) => k < |r.runs| && r.runs[k].ok
  }

  ghost function OfRepoSolvedBy(repo: string, k: nat): Row -> bool {
    (r: Row) => r.repo == repo && k < |r.runs| && r.runs[k].ok
  }

  ghost function Any(): Row -> bool {
    (r: Row) => true
  }

  lemma {:induction false} RowsInCount(rows: seq<Row>, repo: string)
    ensures RowsIn(rows, repo) == |Where(rows, OfRepo(repo))|
    ensures RowsIn(rows, repo) > 0 <==> Seen(rows, repo)
  {
    hide Where;
    if rows == [] {
      WhereNone(OfRepo(repo));
    } else {
      var n := |rows| - 1;
      RowsInCount(rows[..n], repo);
      WhereOneMore(rows, OfRepo(repo));
      if Seen(rows[..n], repo) {
        var i :| 0 <= i < n && rows[..n][i].repo == repo;
        assert rows[i].repo == repo;
      }
    }
  }

  lemma {:induction false} ResolvedCounts(rows: seq<Row>, repo: string, k: nat)
    requires forall i :: 0 <= i < |rows| ==> k < |rows[i].runs|
    ensures ResolvedIn(rows, repo, k) == |Where(rows, OfRepoSolvedBy(repo, k))|
    ensures ResolvedBy(rows, k) == |Where(rows, SolvedBy(k))|
  {
    hide Where;
    if rows == [] {
      WhereNone(OfRepoSolvedBy(repo, k));
      WhereNone(SolvedBy(k));
    } else {
      ResolvedCounts(rows[..|rows| - 1], repo, k);
      WhereOneMore(rows, OfRepoSolvedBy(repo, k));
      WhereOneMore(rows, SolvedBy(k));
    }
  }

  lemma {:induction false} AllOfThem(rows: seq<Row>)
    ensures |Where(rows, Any())| == |rows|
  {
    hide Where;
    if rows == [] {
      WhereNone(Any());
    } else {
      AllOfThem(rows[..|rows| - 1]);
      WhereOneMore(rows, Any());
    }
  }

  /** The rows a repository is judged by: its own if it was seen, all of them if not. */
  ghost function Sample(rows: seq<Row>, repo: string): set<int> {
    if Seen(rows, repo) then Where(rows, OfRepo(repo)) else Where(rows, Any())
  }

  /** Those of them that the model at index `k` resolves. */
  ghost function Good(rows: seq<Row>, repo: string, k: nat): set<int> {
    if Seen(rows, repo) then Where(rows, OfRepoSolvedBy(repo, k)) else Where(rows, SolvedBy(k))
  }

  /** A rate is the share of the sample the model resolves. */
  lemma RatesAreShares(train: seq<Row>, n: nat, repo: string, k: nat)
    requires train != [] && Wide(train, n) && k < n
    ensures |Sample(train, repo)| > 0
    ensures RatesFor(train, n, repo)[k] * |Sample(train, repo)| as real == |Good(train, repo, k)| as real
  {
    hide RowsIn, ResolvedIn, ResolvedBy, Where, Seen;
    RowsInCount(train, repo);
    ResolvedCounts(train, repo, k);
    AllOfThem(train);
    if Seen(train, repo) {
      QuotientTimes(ResolvedIn(train, repo, k) as real, RowsIn(train, repo) as real);
    } else {
      QuotientTimes(ResolvedBy(train, k) as real, |train| as real);
    }
  }

  /** Model `k` resolves at most the share `eps` of the sample fewer than model `j`. */
  ghost predicate WithinShare(train: seq<Row>, eps: real, repo: string, k: nat, j: nat) {
    |Good(train, repo, k)| as real >= |Good(train, repo, j)| as real - eps * |Sample(train, repo)| as real
  }

  /** No model resolves more than that share more. */
  ghost predicate InBand(train: seq<Row>, n: nat, eps: real, repo: string, k: nat) {
    k < n && forall j: nat :: j < n ==> WithinShare(train, eps, repo, k, j)
  }

  lemma EligibleIsInBand(train: seq<Row>, n: nat, eps: real, repo: string, k: nat)
    requires train != [] && n > 0 && Wide(train, n) && k < n
    ensures Eligible(train, n, eps, repo, k) <==> InBand(train, n, eps, repo, k)
  {
    hide Good, Sample, RatesFor, MaxOf;
    var rates := RatesFor(train, n, repo);
    forall j: nat | j < n ensures rates[k] >= rates[j] - eps <==> WithinShare(train, eps, repo, k, j) {
      SharesCompare(train, n, eps, repo, k, j);
    }
    var best :| 0 <= best < n && rates[best] == MaxOf(rates);
    assert rates[k] >= rates[best] - eps <==> WithinShare(train, eps, repo, k, best);
    if Eligible(train, n, eps, repo, k) {
      forall j: nat | j < n ensures WithinShare(train, eps, repo, k, j) {
        assert rates[j] <= MaxOf(rates);
      }
    }
  }

  lemma SharesCompare(train: seq<Row>, n: nat, eps: real, repo: string, k: nat, j: nat)
    requires train != [] && Wide(train, n) && k < n && j < n
    ensures RatesFor(train, n, repo)[k] >= RatesFor(train, n, repo)[j] - eps <==> WithinShare(train, eps, repo, k, j)
  {
    hide Good, Sample, RatesFor;
    RatesAreShares(train, n, repo, k);
    RatesAreShares(train, n, repo, j);
    ShareAgainst(RatesFor(train, n, repo)[k], RatesFor(train, n, repo)[j], eps, |Sample(train, repo)| as real);
  }

  lemma ShareAgainst(x: real, y: real, eps: real, m: real)
    requires m > 0.0
    ensures x >= y - eps <==> x * m >= y * m - eps * m
  {
    if x >= y - eps {
      MulMonotone(m, y - eps, x);
      assert m * (y - eps) == y * m - eps * m;
    } else {
      MulPositive(m, y - eps - x);
      assert m * (y - eps - x) == y * m - eps * m - x * m;
    }
  }

  /** The router in counts: the first model of the band. */
  lemma RouteIsFirstInBand(train: seq<Row>, n: nat, eps: real, repo: string)
    requires train != [] && n > 0 && Wide(train, n) && eps >= 0.0
    ensures InBand(train, n, eps, repo, Route(train, n, eps, repo))
    ensures forall i: nat :: i < Route(train, n, eps, repo) ==> !InBand(train, n, eps, repo, i)
  {
    hide InBand, RatesFor, MaxOf;
    var k := Route(train, n, eps, repo);
    EligibleIsInBand(train, n, eps, repo, k);
    forall i: nat | i < k ensures !InBand(train, n, eps, repo, i) {
      EligibleIsInBand(train, n, eps, repo, i);
    }
  }
}
