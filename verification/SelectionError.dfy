/** The error bound of certified selection (scripts/sim-certified-selection.py:60-92,
    scripts/sim-certified-selection-mbpp.py:55-87). */
module SelectionError {
  // Whatever the process that produces the paired outcomes, as long as its conditional mean difference
  // stays on one side of the margin, the test of that side is wrong with probability at most ALPHA
  // however long it runs.

  import opened Reals
  import opened Probability
  import opened CertifiedSelection

  /** The mean of incumbent minus challenger over the next row. */
  ghost function MeanDiff(d: Dist<Row>): real {
    if d == [] then 0.0 else d[0].p * (d[0].value.inc - d[0].value.ch) + MeanDiff(d[1..])
  }

  ghost predicate MeanOnSideAt(env: Env<Row>, m: real, sign: real, h: seq<Row>) {
    sign * (MeanDiff(env(h)) - m) <= 0.0
  }

  /** Given everything drawn so far, the next mean difference is on the side the bet loses on: at least
      `m` when `sign` is -1, at most `m` when it is +1. */
  ghost predicate MeanOnSide(env: Env<Row>, m: real, sign: real) {
    forall h :: MeanOnSideAt(env, m, sign, h)
  }

  /** The wealth of one bet along a history of rows. */
  ghost function WealthAlong(lam: real, m: real, sign: real): seq<Row> -> real {
    (h: seq<Row>) => Wealth(lam, m, sign, Diffs(h))
  }

  ghost function GainOn(lam: real, m: real, sign: real): Row -> real {
    (r: Row) => Gain(lam, m, sign, r.inc - r.ch)
  }

  lemma WealthAlongStep(lam: real, m: real, sign: real, h: seq<Row>, r: Row)
    ensures WealthAlong(lam, m, sign)(h + [r]) == WealthAlong(lam, m, sign)(h) * GainOn(lam, m, sign)(r)
  {
    hide Wealth, Gain;
    assert Diffs(h + [r]) == Diffs(h) + [r.inc - r.ch];
    WealthStep(lam, m, sign, Diffs(h), r.inc - r.ch);
  }

  lemma {:induction false} MeanGain(lam: real, m: real, sign: real, d: Dist<Row>)
    ensures Mean(d, GainOn(lam, m, sign)) == Mass(d) + lam * (sign * (MeanDiff(d) - m * Mass(d)))
  {
    if d != [] {
      MeanGain(lam, m, sign, d[1..]);
      MeanGainStep(lam, m, sign, d[0].p, d[0].value.inc - d[0].value.ch, Mass(d[1..]), MeanDiff(d[1..]));
    }
  }

  lemma MeanGainStep(lam: real, m: real, sign: real, q: real, x: real, mass: real, mean: real)
    ensures q * (1.0 + lam * (sign * (x - m))) + (mass + lam * (sign * (mean - m * mass)))
            == (q + mass) + lam * (sign * ((q * x + mean) - m * (q + mass)))
  {}

  lemma WealthAlongNonNegative(m: real, sign: real, k: nat, h: seq<Row>)
    requires (sign == 1.0 || sign == -1.0) && Worst(m, sign) > 0.0 && k < GRID_SIZE
    ensures WealthAlong(Lams(m, sign)[k], m, sign)(h) >= 0.0
  {
    hide Gain, Product;
    var lam := Lams(m, sign)[k];
    var ys := Gains(lam, m, sign, Diffs(h));
    forall i | 0 <= i < |ys| ensures ys[i] >= 0.0 {
      BetsStaySolvent(m, sign, k, Diffs(h)[i]);
    }
    ProductNonNegative(ys);
  }

  /** Each bet of the grid on its own never grows on average. */
  lemma BetNotGrowing(env: Env<Row>, m: real, sign: real, k: nat, h: seq<Row>)
    requires (sign == 1.0 || sign == -1.0) && Worst(m, sign) > 0.0 && k < GRID_SIZE
    requires IsDist(env(h)) && MeanOnSideAt(env, m, sign, h)
    ensures NotGrowingAt(env, WealthAlong(Lams(m, sign)[k], m, sign), h)
  {
    hide Wealth, Gain;
    var lam := Lams(m, sign)[k];
    forall r ensures WealthAlong(lam, m, sign)(h + [r]) == WealthAlong(lam, m, sign)(h) * GainOn(lam, m, sign)(r) {
      WealthAlongStep(lam, m, sign, h, r);
    }
    WealthAlongNonNegative(m, sign, k, h);
    BetsStaySolvent(m, sign, k, 0.0);
    MeanGain(lam, m, sign, env(h));
    MulNonPositive(lam, sign * (MeanDiff(env(h)) - m));
    ProductNotGrowing(env, WealthAlong(lam, m, sign), h, GainOn(lam, m, sign));
  }

  // ----- from single bets to the whole grid

  /** The total wealth of the first `n` bets of the grid. */
  ghost function TotalAlong(m: real, sign: real, n: nat): seq<Row> -> real
    requires Worst(m, sign) != 0.0 && n <= GRID_SIZE
  {
    (h: seq<Row>) => Sum(Wealths(Lams(m, sign)[..n], m, sign, Diffs(h)))
  }

  lemma TotalAlongStep(m: real, sign: real, n: nat, h: seq<Row>)
    requires Worst(m, sign) != 0.0 && n < GRID_SIZE
    ensures TotalAlong(m, sign, n + 1)(h) == TotalAlong(m, sign, n)(h) + WealthAlong(Lams(m, sign)[n], m, sign)(h)
  {
    hide Wealth, Sum;
    var lams := Lams(m, sign);
    assert Wealths(lams[..n + 1], m, sign, Diffs(h))
        == Wealths(lams[..n], m, sign, Diffs(h)) + [Wealth(lams[n], m, sign, Diffs(h))];
    SumPush(Wealths(lams[..n], m, sign, Diffs(h)), Wealth(lams[n], m, sign, Diffs(h)));
  }

  lemma {:induction false} MeanNextAdds(v: seq<Row> -> real, f: seq<Row> -> real, g: seq<Row> -> real, h: seq<Row>,
                                        d: Dist<Row>)
    requires forall x: seq<Row> :: v(x) == f(x) + g(x)
    ensures MeanNext(v, h, d) == MeanNext(f, h, d) + MeanNext(g, h, d)
  {
    if d != [] {
      MeanNextAdds(v, f, g, h, d[1..]);
      var x := h + [d[0].value];
      assert v(x) == f(x) + g(x);
      assert d[0].p * (f(x) + g(x)) == d[0].p * f(x) + d[0].p * g(x);
    }
  }

  lemma {:induction false} MeanNextOfZero(v: seq<Row> -> real, h: seq<Row>, d: Dist<Row>)
    requires forall x: seq<Row> :: v(x) == 0.0
    ensures MeanNext(v, h, d) == 0.0
  {
    if d != [] {
      MeanNextOfZero(v, h, d[1..]);
    }
  }

  lemma {:induction false} TotalNotGrowing(env: Env<Row>, m: real, sign: real, n: nat, h: seq<Row>)
    requires (sign == 1.0 || sign == -1.0) && Worst(m, sign) > 0.0 && n <= GRID_SIZE
    requires IsDist(env(h)) && MeanOnSideAt(env, m, sign, h)
    ensures NotGrowingAt(env, TotalAlong(m, sign, n), h)
    ensures TotalAlong(m, sign, n)(h) >= 0.0
    decreases n
  {
    if n == 0 {
      MeanNextOfZero(TotalAlong(m, sign, 0), h, env(h));
    } else {
      TotalNotGrowing(env, m, sign, n - 1, h);
      OneBetMore(env, m, sign, n - 1, h);
    }
  }

  lemma OneBetMore(env: Env<Row>, m: real, sign: real, n: nat, h: seq<Row>)
    requires (sign == 1.0 || sign == -1.0) && Worst(m, sign) > 0.0 && n < GRID_SIZE
    requires IsDist(env(h)) && MeanOnSideAt(env, m, sign, h)
    requires NotGrowingAt(env, TotalAlong(m, sign, n), h) && TotalAlong(m, sign, n)(h) >= 0.0
    ensures NotGrowingAt(env, TotalAlong(m, sign, n + 1), h) && TotalAlong(m, sign, n + 1)(h) >= 0.0
  {
    hide TotalAlong, WealthAlong, MeanNext;
    var bet := WealthAlong(Lams(m, sign)[n], m, sign);
    forall x ensures TotalAlong(m, sign, n + 1)(x) == TotalAlong(m, sign, n)(x) + bet(x) {
      TotalAlongStep(m, sign, n, x);
    }
    MeanNextAdds(TotalAlong(m, sign, n + 1), TotalAlong(m, sign, n), bet, h, env(h));
    BetNotGrowing(env, m, sign, n, h);
    WealthAlongNonNegative(m, sign, n, h);
  }

  lemma TotalIsEvidence(m: real, sign: real, h: seq<Row>)
    requires Worst(m, sign) != 0.0
    ensures TotalAlong(m, sign, GRID_SIZE)(h) == GRID_SIZE as real * Evidence(m, sign, Diffs(h))
  {
    hide Wealths, Sum;
    assert Lams(m, sign)[..GRID_SIZE] == Lams(m, sign);
  }

  lemma TotalStartsAtGridSize(m: real, sign: real)
    requires Worst(m, sign) != 0.0
    ensures TotalAlong(m, sign, GRID_SIZE)([]) == GRID_SIZE as real
  {
    var ws := Wealths(Lams(m, sign)[..GRID_SIZE], m, sign, Diffs([]));
    SumOfOnes(ws);
  }

  /** The evidence of `sign` ever reached the bar. */
  ghost predicate BarReached(m: real, sign: real, h: seq<Row>)
    requires Worst(m, sign) != 0.0
  {
    exists k :: 0 <= k <= |h| && Evidence(m, sign, Diffs(h)[..k]) >= 1.0 / ALPHA
  }

  lemma BarProbability(env: Env<Row>, m: real, sign: real, n: nat, event: seq<Row> -> bool)
    requires (sign == 1.0 || sign == -1.0) && Worst(m, sign) > 0.0 && IsEnv(env) && MeanOnSide(env, m, sign)
    requires forall h :: event(h) ==> BarReached(m, sign, h)
    ensures Prob(env, n, event) <= ALPHA
  {
    hide TotalAlong, Evidence;
    var v := TotalAlong(m, sign, GRID_SIZE);
    var level := 360.0;
    forall h ensures v(h) >= 0.0 && NotGrowingAt(env, v, h) {
      assert IsDist(env(h)) && MeanOnSideAt(env, m, sign, h);
      TotalNotGrowing(env, m, sign, GRID_SIZE, h);
    }
    forall h | event(h) ensures Reached(v, h, level) {
      var k :| 0 <= k <= |h| && Evidence(m, sign, Diffs(h)[..k]) >= 1.0 / ALPHA;
      assert Diffs(h)[..k] == Diffs(h[..k]);
      TotalIsEvidence(m, sign, h[..k]);
    }
    TotalStartsAtGridSize(m, sign);
    Ville(env, v, level, n, event);
  }

  // ----- margins

  lemma {:induction false} MeanDiffRange(d: Dist<Row>)
    requires NonNegative(d)
    ensures -Mass(d) <= MeanDiff(d) <= Mass(d)
  {
    if d != [] {
      assert forall i :: 0 <= i < |d[1..]| ==> d[1..][i] == d[i + 1];
      MeanDiffRange(d[1..]);
      RangeStep(d[0].p, d[0].value.inc - d[0].value.ch, Mass(d[1..]), MeanDiff(d[1..]), Mass(d), MeanDiff(d));
    }
  }

  lemma RangeStep(p: real, x: real, mass: real, mean: real, mass': real, mean': real)
    requires p >= 0.0 && -1.0 <= x <= 1.0 && -mass <= mean <= mass
    requires mass' == p + mass && mean' == p * x + mean
    ensures -mass' <= mean' <= mass'
  {
    MulMonotone(p, -1.0, x);
    MulMonotone(p, x, 1.0);
  }

  /** No process has its mean difference beyond the range of differences: where the null can hold at all,
      the test of that side bets with what it can afford to lose. */
  lemma NullIsPossible(env: Env<Row>, m: real, sign: real)
    requires Playable(m) && (sign == 1.0 || sign == -1.0) && IsEnv(env) && MeanOnSide(env, m, sign)
    ensures Worst(m, sign) > 0.0
  {
    assert IsDist(env([])) && MeanOnSideAt(env, m, sign, []);
    MeanDiffRange(env([]));
  }

  /** Runs of paired mode that end in verdict `v`. */
  ghost function Ends(m: real, v: Verdict): seq<Row> -> bool
    requires Playable(m)
  {
    (h: seq<Row>) => FirstVerdict(m, Diffs(h)) == v
  }

  /** While the challenger is at least `m` worse on average, it is certified with probability at most
      ALPHA, over runs of any length. */
  lemma FalseCertification(env: Env<Row>, m: real, n: nat)
    requires Playable(m) && IsEnv(env) && MeanOnSide(env, m, -1.0)
    ensures Prob(env, n, Ends(m, Certified)) <= ALPHA
  {
    hide Evidence;
    NullIsPossible(env, m, -1.0);
    forall h | Ends(m, Certified)(h) ensures BarReached(m, -1.0, h) {
      var k := DecidedAt(m, Diffs(h));
      assert Evidence(m, -1.0, Diffs(h)[..k]) >= 1.0 / ALPHA;
    }
    BarProbability(env, m, -1.0, n, Ends(m, Certified));
  }

  /** While the challenger is at most `m` worse on average, it is halted with probability at most
      ALPHA, over runs of any length. */
  lemma FalseHalt(env: Env<Row>, m: real, n: nat)
    requires Playable(m) && IsEnv(env) && MeanOnSide(env, m, 1.0)
    ensures Prob(env, n, Ends(m, Halted)) <= ALPHA
  {
    hide Evidence;
    NullIsPossible(env, m, 1.0);
    forall h | Ends(m, Halted)(h) ensures BarReached(m, 1.0, h) {
      var k := DecidedAt(m, Diffs(h));
      assert Evidence(m, 1.0, Diffs(h)[..k]) >= 1.0 / ALPHA;
    }
    BarProbability(env, m, 1.0, n, Ends(m, Halted));
  }
}
