/** Which rung to start on (crates/firstpass-bench/src/jev_replay.rs,
    crates/firstpass-bench/src/prior.rs, crates/firstpass-bench/src/costaware.rs). */
module StartRung {
  import opened Reals
  import opened Probability
  import opened Matrix

  const CUTOFF := 0.0000000001

  /** The walk up the ladder from rung `r`, reached with probability `reach`. It stops once the chance
      of going on falls below the cut-off. */
  function Walk(prior: seq<real>, price: seq<real>, r: nat, reach: real): real
    requires |prior| == |price| && r <= |price|
    decreases |price| - r
  {
    if r == |price| then 0.0
    else
      var next := reach * (1.0 - prior[r]);
      reach * price[r] + if next < CUTOFF then 0.0 else Walk(prior, price, r + 1, next)
  }

  lemma WalkStep(prior: seq<real>, price: seq<real>, r: nat, reach: real)
    requires |prior| == |price| && r < |price|
    ensures var next := reach * (1.0 - prior[r]);
            Walk(prior, price, r, reach)
            == reach * price[r] + if next < CUTOFF then 0.0 else Walk(prior, price, r + 1, next)
  {}

  lemma WalkEnds(prior: seq<real>, price: seq<real>, reach: real)
    requires |prior| == |price|
    ensures Walk(prior, price, |price|, reach) == 0.0
  {}

  /** `s` is the lowest start whose walk is the cheapest. */
  ghost predicate LowestMinimum(prior: seq<real>, price: seq<real>, s: nat)
    requires |prior| == |price|
  {
    if price == [] then s == 0
    else
      && s < |price|
      && (forall t :: 0 <= t < |price| ==> Walk(prior, price, s, 1.0) <= Walk(prior, price, t, 1.0))
      && (forall t :: 0 <= t < s ==> Walk(prior, price, s, 1.0) < Walk(prior, price, t, 1.0))
  }

  method ArgminExpectedCostPrior(prior: seq<real>, price: seq<real>) returns (bestS: nat)
    requires |prior| == |price|
    ensures LowestMinimum(prior, price, bestS)
  {
    hide Walk;
    bestS := 0;
    var bestCost: Option<real> := None;
    for s := 0 to |price|
      invariant bestS < s || bestS == s == 0
      invariant bestCost.None? <==> s == 0
      invariant bestCost.Some? ==> bestCost.value == Walk(prior, price, bestS, 1.0)
      invariant forall t :: 0 <= t < s ==> Walk(prior, price, bestS, 1.0) <= Walk(prior, price, t, 1.0)
      invariant forall t :: 0 <= t < bestS ==> Walk(prior, price, bestS, 1.0) < Walk(prior, price, t, 1.0)
    {
      var expectedCost, pReach := 0.0, 1.0;
      var r := s;
      while r < |price|
        invariant s <= r <= |price|
        invariant Walk(prior, price, s, 1.0) == expectedCost + Walk(prior, price, r, pReach)
      {
        WalkStep(prior, price, r, pReach);
        expectedCost := expectedCost + pReach * price[r];
        pReach := pReach * (1.0 - prior[r]);
        if pReach < CUTOFF {
          break;
        }
        r := r + 1;
      }
      WalkEnds(prior, price, pReach);
      if bestCost.None? || expectedCost < bestCost.value {
        bestCost := Some(expectedCost);
        bestS := s;
      }
    }
  }

  // ----- the copy over a priced ladder

  function OrZero(xs: seq<Option<real>>, r: nat): real {
    if r < |xs| && xs[r].Some? then xs[r].value else 0.0
  }

  function OrNever(prior: seq<real>, r: nat): real {
    if r < |prior| then prior[r] else 0.0
  }

  function Prices(prices: seq<Option<real>>): (out: seq<real>)
    ensures |out| == |prices|
  {
    seq(|prices|, (r: nat) => OrZero(prices, r))
  }

  function PriorFor(prior: seq<real>, n: nat): (out: seq<real>)
    ensures |out| == n
  {
    seq(n, (r: nat) => OrNever(prior, r))
  }

  lemma WalkStepWith(prior: seq<real>, price: seq<real>, r: nat, reach: real, c: real, p: real)
    requires |prior| == |price| && r < |price| && c == price[r] && p == prior[r]
    ensures var next := reach * (1.0 - p);
            Walk(prior, price, r, reach) == reach * c + if next < CUTOFF then 0.0 else Walk(prior, price, r + 1, next)
  {
    hide Walk;
    WalkStep(prior, price, r, reach);
    var next := reach * (1.0 - p);
    MulEqual(reach, c, price[r]);
    MulEqual(reach, 1.0 - p, 1.0 - prior[r]);
    assert next == reach * (1.0 - prior[r]);
    assert Walk(prior, price, r, reach) == reach * c + if next < CUTOFF then 0.0 else Walk(prior, price, r + 1, next);
  }

  lemma PricedRung(prices: seq<Option<real>>, prior: seq<real>, r: nat)
    requires r < |prices|
    ensures Prices(prices)[r] == OrZero(prices, r) && PriorFor(prior, |prices|)[r] == OrNever(prior, r)
  {}

  /** The same walk with an unpriced rung counted as free and a missing prior as "never passes". */
  method ArgminExpectedCost(prices: seq<Option<real>>, prior: seq<real>) returns (bestS: nat)
    ensures LowestMinimum(PriorFor(prior, |prices|), Prices(prices), bestS)
  {
    hide Walk, PriorFor, Prices, OrZero, OrNever;
    ghost var q, c := PriorFor(prior, |prices|), Prices(prices);
    bestS := 0;
    var bestCost: Option<real> := None;
    for s := 0 to |prices|
      invariant bestS < s || bestS == s == 0
      invariant bestCost.None? <==> s == 0
      invariant bestCost.Some? ==> bestCost.value == Walk(q, c, bestS, 1.0)
      invariant forall t :: 0 <= t < s ==> Walk(q, c, bestS, 1.0) <= Walk(q, c, t, 1.0)
      invariant forall t :: 0 <= t < bestS ==> Walk(q, c, bestS, 1.0) < Walk(q, c, t, 1.0)
    {
      var expectedCost, pReach := 0.0, 1.0;
      var r := s;
      while r < |prices|
        invariant s <= r <= |prices|
        invariant Walk(q, c, s, 1.0) == expectedCost + Walk(q, c, r, pReach)
      {
        var price, pass := OrZero(prices, r), OrNever(prior, r);
        PricedRung(prices, prior, r);
        WalkStepWith(q, c, r, pReach, price, pass);
        expectedCost := expectedCost + pReach * price;
        pReach := pReach * (1.0 - pass);
        if pReach < CUTOFF {
          break;
        }
        r := r + 1;
      }
      WalkEnds(q, c, pReach);
      if bestCost.None? || expectedCost < bestCost.value {
        bestCost := Some(expectedCost);
        bestS := s;
      }
    }
  }

  /** What a missing entry stands for: a rung without a price is free, one without a prior never passes, and the
      others are taken as they are. */
  lemma MissingEntries(prices: seq<Option<real>>, prior: seq<real>)
    ensures forall r :: 0 <= r < |prices| ==>
              Prices(prices)[r] == match prices[r] case Some(c) => c case None => 0.0
    ensures forall r :: 0 <= r < |prices| ==>
              PriorFor(prior, |prices|)[r] == if r < |prior| then prior[r] else 0.0
  {}

  function Priced(price: seq<real>): (prices: seq<Option<real>>)
    ensures |prices| == |price|
  {
    seq(|price|, r requires 0 <= r < |price| => Some(price[r]))
  }

  /** On a ladder with every price and every prior known the two copies decide alike. */
  lemma CopiesAgree(prior: seq<real>, price: seq<real>, s: nat)
    requires |prior| == |price|
    ensures LowestMinimum(PriorFor(prior, |price|), Prices(Priced(price)), s) <==> LowestMinimum(prior, price, s)
  {
    hide LowestMinimum;
    assert PriorFor(prior, |price|) == prior;
    assert Prices(Priced(price)) == price;
  }

  // ----- what the walk approximates

  /** The exact expected cost of starting on rung `s`. */
  function ExpectedCost(prior: seq<real>, price: seq<real>, s: nat): real
    requires |prior| == |price| && s <= |price|
    decreases |price| - s
  {
    if s == |price| then 0.0 else price[s] + (1.0 - prior[s]) * ExpectedCost(prior, price, s + 1)
  }

  function PriceSum(price: seq<real>, s: nat): real
    requires s <= |price|
    decreases |price| - s
  {
    if s == |price| then 0.0 else price[s] + PriceSum(price, s + 1)
  }

  ghost predicate Sensible(prior: seq<real>, price: seq<real>) {
    && |prior| == |price|
    && (forall r :: 0 <= r < |prior| ==> 0.0 <= prior[r] <= 1.0)
    && (forall r :: 0 <= r < |price| ==> price[r] >= 0.0)
  }

  lemma ExactStep(prior: seq<real>, price: seq<real>, s: nat)
    requires |prior| == |price| && s < |price|
    ensures ExpectedCost(prior, price, s) == price[s] + (1.0 - prior[s]) * ExpectedCost(prior, price, s + 1)
    ensures PriceSum(price, s) == price[s] + PriceSum(price, s + 1)
  {}

  lemma {:induction false} ExpectedCostRange(prior: seq<real>, price: seq<real>, s: nat)
    requires Sensible(prior, price) && s <= |price|
    ensures 0.0 <= ExpectedCost(prior, price, s) <= PriceSum(price, s)
    decreases |price| - s
  {
    if s < |price| {
      ExpectedCostRange(prior, price, s + 1);
      var e, fail := ExpectedCost(prior, price, s + 1), 1.0 - prior[s];
      MulNonNegative(fail, e);
      MulShrinks(e, fail);
      assert ExpectedCost(prior, price, s) == price[s] + fail * e;
    }
  }

  /** The cut-off only ever forgets cost, and less of it than the cut-off share of the prices above. */
  lemma {:induction false} WalkApproximates(prior: seq<real>, price: seq<real>, r: nat, reach: real)
    requires Sensible(prior, price) && r <= |price| && reach >= 0.0
    ensures var exact := reach * ExpectedCost(prior, price, r);
            exact - CUTOFF * PriceSum(price, r) <= Walk(prior, price, r, reach) <= exact
    decreases |price| - r
  {
    if r < |price| {
      var next := reach * (1.0 - prior[r]);
      MulNonNegative(reach, 1.0 - prior[r]);
      WalkApproximates(prior, price, r + 1, next);
      ApproximatesOneRungDown(prior, price, r, reach, next);
    }
  }

  lemma ApproximatesOneRungDown(prior: seq<real>, price: seq<real>, r: nat, reach: real, next: real)
    requires Sensible(prior, price) && r < |price| && reach >= 0.0 && next == reach * (1.0 - prior[r])
    requires var exact := next * ExpectedCost(prior, price, r + 1);
             exact - CUTOFF * PriceSum(price, r + 1) <= Walk(prior, price, r + 1, next) <= exact
    ensures var exact := reach * ExpectedCost(prior, price, r);
            exact - CUTOFF * PriceSum(price, r) <= Walk(prior, price, r, reach) <= exact
  {
    hide Walk, ExpectedCost, PriceSum;
    var e, fail, above := ExpectedCost(prior, price, r + 1), 1.0 - prior[r], PriceSum(price, r + 1);
    MulNonNegative(reach, fail);
    ExpectedCostRange(prior, price, r + 1);
    ExactStep(prior, price, r);
    WalkStep(prior, price, r, reach);
    ApproximationStep(reach, price[r], fail, e, next, Walk(prior, price, r + 1, next), above,
                      Walk(prior, price, r, reach), ExpectedCost(prior, price, r), PriceSum(price, r));
  }

  lemma ForgottenCost(next: real, e: real, above: real)
    requires 0.0 <= next < CUTOFF && 0.0 <= e <= above
    ensures 0.0 <= next * e <= CUTOFF * above
  {
    MulNonNegative(next, e);
    MulNonNegative(CUTOFF - next, e);
  }

  lemma ApproximationStep(reach: real, c: real, fail: real, e: real, next: real, deeper: real, above: real,
                          walk: real, exact: real, sum: real)
    requires c >= 0.0 && next == reach * fail && next >= 0.0 && 0.0 <= e <= above
    requires next * e - CUTOFF * above <= deeper <= next * e
    requires walk == reach * c + if next < CUTOFF then 0.0 else deeper
    requires exact == c + fail * e && sum == c + above
    ensures reach * exact - CUTOFF * sum <= walk <= reach * exact
  {
    if next < CUTOFF {
      ForgottenCost(next, e, above);
    }
    assert reach * exact == reach * c + next * e;
  }

  /** The chosen start costs in expectation at most the cut-off share of the ladder's prices more than
      the best start there is. */
  lemma ChosenStartIsNearOptimal(prior: seq<real>, price: seq<real>, s: nat, t: nat)
    requires Sensible(prior, price) && LowestMinimum(prior, price, s) && t < |price|
    ensures ExpectedCost(prior, price, s) <= ExpectedCost(prior, price, t) + CUTOFF * PriceSum(price, s)
  {
    WalkApproximates(prior, price, s, 1.0);
    WalkApproximates(prior, price, t, 1.0);
  }

  // ----- the true expectation

  /** The next rung's gate passes with the prior's probability, independently of the rungs below. */
  ghost function Gates(prior: seq<real>): Env<bool> {
    (h: seq<bool>) =>
      if |h| < |prior| then [Weighted(prior[|h|], true), Weighted(1.0 - prior[|h|], false)]
      else [Weighted(1.0, false)]
  }

  /** The row in which rung `r` costs `price[r]` and its gate comes out `gates[r]`. */
  function RowOf(price: seq<real>, gates: seq<bool>): (row: seq<RungOutcome>)
    ensures |row| == |price|
  {
    seq(|price|, (r: nat) =>
      RungOutcome(0.0, r < |gates| && gates[r], false, if r < |price| then price[r] else 0.0, None))
  }

  /** What first-pass from `s` pays when the gates come out as they did. */
  ghost function PaidFrom(price: seq<real>, s: nat): seq<bool> -> real {
    (gates: seq<bool>) => FirstPassOutcome(RowOf(price, gates), s).1
  }

  lemma GatesAreDistributions(prior: seq<real>)
    requires forall r :: 0 <= r < |prior| ==> 0.0 <= prior[r] <= 1.0
    ensures IsEnv(Gates(prior))
  {
    forall h ensures IsDist(Gates(prior)(h)) {
      var d := Gates(prior)(h);
      if |d| == 2 {
        assert Mass(d) == d[0].p + Mass(d[1..]);
        assert Mass(d[1..]) == d[1].p + Mass(d[1..][1..]);
      } else {
        assert Mass(d) == d[0].p + Mass(d[1..]);
      }
    }
  }

  /** Both outcomes of the next gate, weighted. */
  lemma ExpectSplits(prior: seq<real>, h: seq<bool>, n: nat, f: seq<bool> -> real)
    requires |h| < |prior|
    ensures Expect(Gates(prior), h, n + 1, f)
            == prior[|h|] * Expect(Gates(prior), h + [true], n, f)
               + (1.0 - prior[|h|]) * Expect(Gates(prior), h + [false], n, f)
  {
    var env, d := Gates(prior), Gates(prior)(h);
    assert d == [Weighted(prior[|h|], true), Weighted(1.0 - prior[|h|], false)];
    assert d[1..] == [Weighted(1.0 - prior[|h|], false)] && d[1..][1..] == [];
    assert Expect(env, h, n + 1, f) == Branch(env, h, d, n, f);
    assert Branch(env, h, d, n, f) == d[0].p * Expect(env, h + [true], n, f) + Branch(env, h, d[1..], n, f);
    assert Branch(env, h, d[1..], n, f)
        == d[1].p * Expect(env, h + [false], n, f) + Branch(env, h, d[1..][1..], n, f);
  }

  lemma PaidOnPass(price: seq<real>, s: nat, gates: seq<bool>)
    requires s < |price| && s < |gates|
    ensures PaidFrom(price, s)(gates)
            == price[s] + if gates[s] then 0.0 else PaidFrom(price, s + 1)(gates)
  {
    PaidRungByRung(RowOf(price, gates), s);
  }

  /** Averaged over every way the remaining gates can come out, first-pass from `s` pays exactly the
      backward recursion: the probability-weighted sum over all gate outcomes. */
  lemma {:induction false} ExpectationIsRecursion(prior: seq<real>, price: seq<real>, s: nat, h: seq<bool>)
    requires Sensible(prior, price) && |h| <= s <= |price|
    ensures Expect(Gates(prior), h, |price| - |h|, PaidFrom(price, s)) == ExpectedCost(prior, price, s)
    decreases |price| - |h|
  {
    hide Expect, ExpectedCost, PaidFrom;
    if |h| == |price| {
      NothingLeftToPay(prior, price, h);
    } else {
      ExpectSplits(prior, h, |price| - |h| - 1, PaidFrom(price, s));
      if |h| < s {
        ExpectationIsRecursion(prior, price, s, h + [true]);
        ExpectationIsRecursion(prior, price, s, h + [false]);
        EitherWay(prior[|h|], ExpectedCost(prior, price, s));
      } else {
        GatesAreDistributions(prior);
        PassedHere(prior, price, s, h + [true]);
        FailedHere(prior, price, s, h + [false]);
        ExpectationIsRecursion(prior, price, s + 1, h + [false]);
        ExactStep(prior, price, s);
        PassOrFail(prior[s], price[s], ExpectedCost(prior, price, s + 1));
      }
    }
  }

  lemma NothingLeftToPay(prior: seq<real>, price: seq<real>, h: seq<bool>)
    requires |prior| == |price| == |h|
    ensures Expect(Gates(prior), h, 0, PaidFrom(price, |price|)) == ExpectedCost(prior, price, |price|)
  {}

  lemma EitherWay(p: real, e: real)
    ensures p * e + (1.0 - p) * e == e
  {}

  lemma PassOrFail(p: real, c: real, e: real)
    ensures p * c + (1.0 - p) * (c + e) == c + (1.0 - p) * e
  {}

  lemma PassedHere(prior: seq<real>, price: seq<real>, s: nat, h: seq<bool>)
    requires Sensible(prior, price) && IsEnv(Gates(prior)) && s < |price| && |h| == s + 1 && h[s]
    ensures Expect(Gates(prior), h, |price| - |h|, PaidFrom(price, s)) == price[s]
  {
    hide Expect, PaidFrom, Gates, IsEnv, Sensible;
    forall g | h <= g && |g| == |h| + (|price| - |h|)
      ensures PaidFrom(price, s)(g) == price[s] + Nothing<bool>()(g)
    {
      assert g[s] == h[s];
      PaidOnPass(price, s, g);
    }
    ExpectShift(Gates(prior), h, |price| - |h|, PaidFrom(price, s), Nothing(), price[s]);
    ExpectNothing(Gates(prior), h, |price| - |h|);
  }

  lemma FailedHere(prior: seq<real>, price: seq<real>, s: nat, h: seq<bool>)
    requires Sensible(prior, price) && IsEnv(Gates(prior)) && s < |price| && |h| == s + 1 && !h[s]
    ensures Expect(Gates(prior), h, |price| - |h|, PaidFrom(price, s))
            == price[s] + Expect(Gates(prior), h, |price| - |h|, PaidFrom(price, s + 1))
  {
    hide Expect, PaidFrom, Gates, IsEnv, Sensible;
    forall g | h <= g && |g| == |h| + (|price| - |h|)
      ensures PaidFrom(price, s)(g) == price[s] + PaidFrom(price, s + 1)(g)
    {
      assert g[s] == h[s];
      PaidOnPass(price, s, g);
    }
    ExpectShift(Gates(prior), h, |price| - |h|, PaidFrom(price, s), PaidFrom(price, s + 1), price[s]);
  }

  /** The mean, over all outcomes of all gates, of what first-pass from `s` pays. */
  ghost function MeanPaid(prior: seq<real>, price: seq<real>, s: nat): real {
    Expect(Gates(prior), [], |price|, PaidFrom(price, s))
  }

  /** The rule's choice against the true mean bill: no start beats it by more than the cut-off share of
      the ladder's prices. */
  lemma ChoiceMinimisesTheBill(prior: seq<real>, price: seq<real>, s: nat, t: nat)
    requires Sensible(prior, price) && LowestMinimum(prior, price, s) && t < |price|
    ensures MeanPaid(prior, price, s) <= MeanPaid(prior, price, t) + CUTOFF * PriceSum(price, s)
    ensures MeanPaid(prior, price, s) == ExpectedCost(prior, price, s)
  {
    ExpectationIsRecursion(prior, price, s, []);
    ExpectationIsRecursion(prior, price, t, []);
    ChosenStartIsNearOptimal(prior, price, s, t);
  }

  // ----- the two-rung rule

  /** The cost-aware rule opens on the top rung when the cheap attempt costs at least what it saves. */
  predicate Skips(row: seq<RungOutcome>, p: real) {
    |row| > 1 && row[0].cost >= p * row[|row| - 1].cost
  }

  method Serve(row: seq<RungOutcome>, p: real) returns (ok: bool, spent: real, rungs: nat)
    ensures row == [] ==> (ok, spent, rungs) == (false, 0.0, 0)
    ensures |row| > 1 ==> (ok, spent, rungs) == FirstPassOutcome(row, if Skips(row, p) then |row| - 1 else 0)
    ensures |row| == 1 ==> (ok, spent, rungs) == FirstPassOutcome(row, 0)
    ensures |row| > 1 && row[0].cost >= p * row[|row| - 1].cost ==>
              (ok, spent, rungs) == (row[|row| - 1].oracleCorrect, row[|row| - 1].cost, 1)
    ensures row != [] && (|row| == 1 || row[0].cost < p * row[|row| - 1].cost) ==>
              ServedFrom(row, 0, (ok, spent, rungs))
  {
    hide ServedFrom;
    if row == [] {
      return false, 0.0, 0;
    }
    var c0, c1 := row[0], row[|row| - 1];
    if |row| > 1 && c0.cost >= p * c1.cost {
      assert CostBetween(row, |row| - 1, |row| - 1) == 0.0;
      return c1.oracleCorrect, c1.cost, 1;
    }
    ok, spent, rungs := FirstPassFrom(row, 0);
  }

  /** On two rungs the two rules choose the same start except on a tie, where the cost-aware rule skips
      and the walk stays low, and except when the cheap rung passes almost surely, where the cut-off
      makes the walk forget the top rung. */
  lemma TwoRungRulesAgreeExactlyWhen(c0: real, c1: real, p: real, q: real, s: nat)
    requires Sensible([p, q], [c0, c1]) && LowestMinimum([p, q], [c0, c1], s)
    ensures var skips := c0 >= p * c1;
            (skips <==> s == 1) <==> if 1.0 - p < CUTOFF then !(p * c1 <= c0 <= c1) else c0 != p * c1
  {
    hide Walk;
    TwoRungWalks(p, q, c0, c1);
    MulShrinks(c1, p);
    assert c0 + (c1 - p * c1) <= c1 <==> c0 <= p * c1;
  }

  lemma TwoRungWalks(p: real, q: real, c0: real, c1: real)
    requires Sensible([p, q], [c0, c1])
    ensures 0.0 <= p <= 1.0 && c1 >= 0.0
    ensures Walk([p, q], [c0, c1], 1, 1.0) == c1
    ensures Walk([p, q], [c0, c1], 0, 1.0) == c0 + if 1.0 - p < CUTOFF then 0.0 else c1 - p * c1
  {
    hide Walk;
    var prior, price, fail := [p, q], [c0, c1], 1.0 - p;
    assert prior[0] == p && price[0] == c0 && price[1] == c1;
    WalkOnTop(prior, price, 1, 1.0);
    WalkOnTop(prior, price, 1, fail);
    WalkStep(prior, price, 0, 1.0);
    MulEqual(fail, price[1], c1);
    assert Walk(prior, price, 0, 1.0) == c0 + if fail < CUTOFF then 0.0 else Walk(prior, price, 1, fail);
    assert fail * c1 == c1 - p * c1;
  }

  lemma WalkOnTop(prior: seq<real>, price: seq<real>, r: nat, reach: real)
    requires |prior| == |price| == r + 1
    ensures Walk(prior, price, r, reach) == reach * price[r]
  {
    WalkStep(prior, price, r, reach);
  }

  /** Where the cut-off bites: a chance of one in ten billion of reaching the top rung still counts, half of it no
      longer does. */
  lemma CutoffBitesBelowOneInTenBillion(c0: real, c1: real)
    requires c0 >= 0.0 && c1 >= 0.0
    ensures Walk([0.9999999999, 1.0], [c0, c1], 0, 1.0) == c0 + 0.0000000001 * c1
    ensures Walk([0.99999999995, 1.0], [c0, c1], 0, 1.0) == c0
  {
    hide Walk;
    TwoRungWalks(0.9999999999, 1.0, c0, c1);
    TwoRungWalks(0.99999999995, 1.0, c0, c1);
  }
}
