/** Finite-support probability along an adaptively grown history. */
module Probability {
  // An environment looks at everything that has happened so far and answers with a finite
  // distribution over the next observation. Expectations over `n` further observations are sums over
  // the resulting tree, so no measure theory is needed and every statement about "however long it
  // runs" is a statement for all `n`.

  import opened Reals

  datatype Weighted<T> = Weighted(p: real, value: T)

  type Dist<T> = seq<Weighted<T>>

  type Env<!T> = seq<T> -> Dist<T>

  ghost function Mass<T>(d: Dist<T>): real {
    if d == [] then 0.0 else d[0].p + Mass(d[1..])
  }

  ghost predicate NonNegative<T>(d: Dist<T>) {
    forall i :: 0 <= i < |d| ==> d[i].p >= 0.0
  }

  ghost predicate IsDist<T>(d: Dist<T>) {
    NonNegative(d) && Mass(d) == 1.0
  }

  ghost predicate IsEnv<T(!new)>(env: Env<T>) {
    forall h :: IsDist(env(h))
  }

  /** The expected value of `f` on the history reached from `h` by `n` further observations. */
  ghost function Expect<T>(env: Env<T>, h: seq<T>, n: nat, f: seq<T> -> real): real
    decreases n, 0
  {
    if n == 0 then f(h) else Branch(env, h, env(h), n - 1, f)
  }

  ghost function Branch<T>(env: Env<T>, h: seq<T>, d: Dist<T>, n: nat, f: seq<T> -> real): real
    decreases n, |d| + 1
  {
    if d == [] then 0.0
    else d[0].p * Expect(env, h + [d[0].value], n, f) + Branch(env, h, d[1..], n, f)
  }

  ghost function Indicator<T>(event: seq<T> -> bool): seq<T> -> real {
    h => if event(h) then 1.0 else 0.0
  }

  /** The probability that the first `n` observations make `event` true. */
  ghost function Prob<T>(env: Env<T>, n: nat, event: seq<T> -> bool): real {
    Expect(env, [], n, Indicator(event))
  }

  /** The mean of `v` over one further observation drawn from `d`. */
  ghost function MeanNext<T>(v: seq<T> -> real, h: seq<T>, d: Dist<T>): real {
    if d == [] then 0.0 else d[0].p * v(h + [d[0].value]) + MeanNext(v, h, d[1..])
  }

  ghost predicate NotGrowingAt<T>(env: Env<T>, v: seq<T> -> real, h: seq<T>) {
    MeanNext(v, h, env(h)) <= v(h)
  }

  /** `v` never goes below zero and never grows on average, whatever happened before. */
  ghost predicate NonNegativeSupermartingale<T(!new)>(env: Env<T>, v: seq<T> -> real) {
    && (forall h :: v(h) >= 0.0)
    && (forall h :: NotGrowingAt(env, v, h))
  }

  /** `v` stood at or above `level` at some moment of the history. */
  ghost predicate Reached<T>(v: seq<T> -> real, h: seq<T>, level: real) {
    exists k :: 0 <= k <= |h| && v(h[..k]) >= level
  }

  lemma ReachedExtends<T(!new)>(v: seq<T> -> real, h: seq<T>, x: T, level: real)
    ensures Reached(v, h, level) ==> Reached(v, h + [x], level)
    ensures Reached(v, h + [x], level) && !Reached(v, h, level) ==> v(h + [x]) >= level
  {
    var g := h + [x];
    assert forall k :: 0 <= k <= |h| ==> g[..k] == h[..k];
    assert g[..|g|] == g;
  }

  lemma MassNonNegative<T(!new)>(d: Dist<T>)
    requires NonNegative(d)
    ensures Mass(d) >= 0.0
  {
    if d != [] {
      MassNonNegative(d[1..]);
    }
  }

  /** A probability is at most one. */
  lemma {:induction false} ExpectAtMostOne<T(!new)>(env: Env<T>, h: seq<T>, n: nat, event: seq<T> -> bool)
    requires IsEnv(env)
    ensures Expect(env, h, n, Indicator(event)) <= 1.0
    decreases n, 0
  {
    if n > 0 {
      assert IsDist(env(h));
      BranchAtMostMass(env, h, env(h), n - 1, event);
    }
  }

  lemma {:induction false} BranchAtMostMass<T(!new)>(env: Env<T>, h: seq<T>, d: Dist<T>, n: nat, event: seq<T> -> bool)
    requires IsEnv(env) && NonNegative(d)
    ensures Branch(env, h, d, n, Indicator(event)) <= Mass(d)
    decreases n, |d| + 1
  {
    if d != [] {
      var g := h + [d[0].value];
      ExpectAtMostOne(env, g, n, event);
      MulMonotone(d[0].p, Expect(env, g, n, Indicator(event)), 1.0);
      BranchAtMostMass(env, h, d[1..], n, event);
    }
  }

  /** Ville's inequality from any history: once the level has been reached nothing is claimed, and
      before that the chance of still reaching it is at most the current value over the level. */
  lemma {:induction false} VilleFrom<T(!new)>(env: Env<T>, v: seq<T> -> real, level: real, h: seq<T>, n: nat,
                                              event: seq<T> -> bool)
    requires IsEnv(env) && NonNegativeSupermartingale(env, v) && level > 0.0
    requires forall g :: event(g) ==> Reached(v, g, level)
    ensures !Reached(v, h, level) ==> Expect(env, h, n, Indicator(event)) * level <= v(h)
    decreases n, 0
  {
    if !Reached(v, h, level) {
      if n == 0 {
        assert v(h) >= 0.0;
      } else {
        assert IsDist(env(h));
        VilleBranch(env, v, level, h, env(h), n - 1, event);
        assert NotGrowingAt(env, v, h);
      }
    }
  }

  lemma {:induction false} VilleBranch<T(!new)>(env: Env<T>, v: seq<T> -> real, level: real, h: seq<T>, d: Dist<T>,
                                                n: nat, event: seq<T> -> bool)
    requires IsEnv(env) && NonNegativeSupermartingale(env, v) && level > 0.0
    requires forall g :: event(g) ==> Reached(v, g, level)
    requires NonNegative(d) && !Reached(v, h, level)
    ensures Branch(env, h, d, n, Indicator(event)) * level <= MeanNext(v, h, d)
    decreases n, |d| + 2
  {
    hide Expect, Reached, IsEnv, NonNegativeSupermartingale, Indicator;
    if d != [] {
      VilleNext(env, v, level, h, d[0].value, n, event);
      VilleBranch(env, v, level, h, d[1..], n, event);
      var g := h + [d[0].value];
      ScaledSum(d[0].p, Expect(env, g, n, Indicator(event)), Branch(env, h, d[1..], n, Indicator(event)),
                v(g), MeanNext(v, h, d[1..]), level);
    }
  }

  /** One observation `x` after a history that has not reached the level. */
  lemma {:induction false} VilleNext<T(!new)>(env: Env<T>, v: seq<T> -> real, level: real, h: seq<T>, x: T, n: nat,
                                              event: seq<T> -> bool)
    requires IsEnv(env) && NonNegativeSupermartingale(env, v) && level > 0.0
    requires forall g :: event(g) ==> Reached(v, g, level)
    requires !Reached(v, h, level)
    ensures Expect(env, h + [x], n, Indicator(event)) * level <= v(h + [x])
    decreases n, 1
  {
    var g := h + [x];
    if Reached(v, g, level) {
      ReachedExtends(v, h, x, level);
      ExpectAtMostOne(env, g, n, event);
      MulMonotone(level, Expect(env, g, n, Indicator(event)), 1.0);
    } else {
      VilleFrom(env, v, level, g, n, event);
    }
  }

  lemma ScaledSum(p: real, e: real, rest: real, x: real, restBound: real, level: real)
    requires p >= 0.0 && e * level <= x && rest * level <= restBound
    ensures (p * e + rest) * level <= p * x + restBound
  {
    MulMonotone(p, e * level, x);
    assert (p * e + rest) * level == p * (e * level) + rest * level;
  }

  /** Ville's inequality: a nonnegative supermartingale that starts below `level` brings about an
      event that needs the level with probability at most its starting value over the level. */
  lemma Ville<T(!new)>(env: Env<T>, v: seq<T> -> real, level: real, n: nat, event: seq<T> -> bool)
    requires IsEnv(env) && NonNegativeSupermartingale(env, v) && level > 0.0
    requires forall g :: event(g) ==> Reached(v, g, level)
    requires v([]) < level
    ensures Prob(env, n, event) <= v([]) / level
  {
    var none: seq<T> := [];
    assert !Reached(v, none, level) by {
      assert forall k :: 0 <= k <= |none| ==> none[..k] == none;
    }
    VilleFrom(env, v, level, none, n, event);
    QuotientBound(Prob(env, n, event), v(none), level);
  }

  ghost function Mean<T>(d: Dist<T>, g: T -> real): real {
    if d == [] then 0.0 else d[0].p * g(d[0].value) + Mean(d[1..], g)
  }

  /** A process that one observation multiplies by `g` has that multiple of its value as its mean. */
  lemma {:induction false} MeanOfProduct<T(!new)>(v: seq<T> -> real, h: seq<T>, g: T -> real, d: Dist<T>)
    requires forall x :: v(h + [x]) == v(h) * g(x)
    ensures MeanNext(v, h, d) == v(h) * Mean(d, g)
  {
    if d != [] {
      MeanOfProduct(v, h, g, d[1..]);
      assert v(h + [d[0].value]) == v(h) * g(d[0].value);
      Distribute(d[0].p, v(h), g(d[0].value), Mean(d[1..], g));
    }
  }

  lemma Distribute(p: real, w: real, x: real, rest: real)
    ensures p * (w * x) + w * rest == w * (p * x + rest)
  {}

  lemma ProductNotGrowing<T(!new)>(env: Env<T>, v: seq<T> -> real, h: seq<T>, g: T -> real)
    requires forall x :: v(h + [x]) == v(h) * g(x)
    requires v(h) >= 0.0 && Mean(env(h), g) <= 1.0
    ensures NotGrowingAt(env, v, h)
  {
    MeanOfProduct(v, h, g, env(h));
    MulShrinks(v(h), Mean(env(h), g));
  }

  /** A quantity that is `c` more than another on every way to go on is `c` more on average. */
  lemma {:induction false} ExpectShift<T(!new)>(env: Env<T>, h: seq<T>, n: nat, f: seq<T> -> real,
                                                g: seq<T> -> real, c: real)
    requires IsEnv(env)
    requires forall x :: h <= x && |x| == |h| + n ==> f(x) == c + g(x)
    ensures Expect(env, h, n, f) == c + Expect(env, h, n, g)
    decreases n, 0
  {
    if n > 0 {
      assert IsDist(env(h));
      BranchShift(env, h, env(h), n - 1, f, g, c);
    }
  }

  lemma {:induction false} BranchShift<T(!new)>(env: Env<T>, h: seq<T>, d: Dist<T>, n: nat, f: seq<T> -> real,
                                                g: seq<T> -> real, c: real)
    requires IsEnv(env)
    requires forall x :: h <= x && |x| == |h| + n + 1 ==> f(x) == c + g(x)
    ensures Branch(env, h, d, n, f) == c * Mass(d) + Branch(env, h, d, n, g)
    decreases n, |d| + 1
  {
    if d != [] {
      var k := h + [d[0].value];
      forall x | k <= x && |x| == |k| + n ensures f(x) == c + g(x) {
        assert h <= x;
      }
      ExpectShift(env, k, n, f, g, c);
      BranchShift(env, h, d[1..], n, f, g, c);
      ShiftedSum(d[0].p, c, Expect(env, k, n, g), Mass(d[1..]), Branch(env, h, d[1..], n, g));
    }
  }

  lemma ShiftedSum(p: real, c: real, e: real, mass: real, rest: real)
    ensures p * (c + e) + (c * mass + rest) == c * (p + mass) + (p * e + rest)
  {}

  ghost function Nothing<T>(): seq<T> -> real {
    h => 0.0
  }

  lemma {:induction false} ExpectNothing<T(!new)>(env: Env<T>, h: seq<T>, n: nat)
    ensures Expect(env, h, n, Nothing()) == 0.0
    decreases n, 0
  {
    if n > 0 {
      BranchNothing(env, h, env(h), n - 1);
    }
  }

  lemma {:induction false} BranchNothing<T(!new)>(env: Env<T>, h: seq<T>, d: Dist<T>, n: nat)
    ensures Branch(env, h, d, n, Nothing()) == 0.0
    decreases n, |d| + 1
  {
    if d != [] {
      ExpectNothing(env, h + [d[0].value], n);
      BranchNothing(env, h, d[1..], n);
    }
  }

  // ----- probabilities add up

  lemma {:induction false} ExpectAdds<T(!new)>(env: Env<T>, h: seq<T>, n: nat, f: seq<T> -> real, g: seq<T> -> real,
                                               sum: seq<T> -> real)
    requires forall x :: sum(x) == f(x) + g(x)
    ensures Expect(env, h, n, sum) == Expect(env, h, n, f) + Expect(env, h, n, g)
    decreases n, 0
  {
    if n > 0 {
      BranchAdds(env, h, env(h), n - 1, f, g, sum);
    }
  }

  lemma {:induction false} BranchAdds<T(!new)>(env: Env<T>, h: seq<T>, d: Dist<T>, n: nat, f: seq<T> -> real,
                                               g: seq<T> -> real, sum: seq<T> -> real)
    requires forall x :: sum(x) == f(x) + g(x)
    ensures Branch(env, h, d, n, sum) == Branch(env, h, d, n, f) + Branch(env, h, d, n, g)
    decreases n, |d| + 1
  {
    if d != [] {
      var k := h + [d[0].value];
      ExpectAdds(env, k, n, f, g, sum);
      BranchAdds(env, h, d[1..], n, f, g, sum);
      AddUp(d[0].p, Expect(env, k, n, f), Expect(env, k, n, g));
    }
  }

  lemma AddUp(p: real, a: real, b: real)
    ensures p * (a + b) == p * a + p * b
  {}

  /** What is certain has probability one, and events that exclude each other add up. */
  lemma ProbabilityAddsUp<T(!new)>(env: Env<T>, n: nat, a: seq<T> -> bool, b: seq<T> -> bool)
    requires IsEnv(env) && forall h :: !(a(h) && b(h))
    ensures Prob(env, n, (h: seq<T>) => true) == 1.0
    ensures Prob(env, n, (h: seq<T>) => a(h) || b(h)) == Prob(env, n, a) + Prob(env, n, b)
  {
    hide Expect;
    var all, either := (h: seq<T>) => true, (h: seq<T>) => a(h) || b(h);
    ExpectShift(env, [], n, Indicator(all), Nothing(), 1.0);
    ExpectNothing(env, [], n);
    ExpectAdds(env, [], n, Indicator(a), Indicator(b), Indicator(either));
  }
}
