/** The start-rung prior.

    `cumulative_pass` in crates/firstpass-core/src/prior.rs turns "which is the least capable rung that
    suffices" probabilities into the chance that each rung passes: a more capable rung always suffices
    too, so the chance for a rung is the sum over all rungs up to it. */
module Prior {
  import opened Reals
  import opened Matrix
  import StartRung

  /** What can be turned into a distribution at all. */
  predicate Usable(probs: seq<real>) {
    probs != [] && (forall i :: 0 <= i < |probs| ==> probs[i] >= 0.0) && Sum(probs) > 0.0
  }

  /** The chance that the least capable sufficient rung is `r` or below. */
  function PassAt(probs: seq<real>, r: nat): real
    requires Usable(probs) && r < |probs|
  {
    Sum(probs[..r + 1]) / Sum(probs)
  }

  function Cumulative(probs: seq<real>): (prior: Option<seq<real>>)
    ensures prior.Some? ==> |prior.value| == |probs|
  {
    if Usable(probs) then Some(seq(|probs|, r requires 0 <= r < |probs| && Usable(probs) => PassAt(probs, r))) else None
  }

  function Clamp(x: real): real { if x < 0.0 then 0.0 else if x > 1.0 then 1.0 else x }

  /** In exact arithmetic neither the clamp nor the forced last entry changes anything. */
  method CumulativePass(probs: seq<real>) returns (prior: Option<seq<real>>)
    ensures prior == Cumulative(probs)
  {
    hide Sum, Usable, PassAt;
    if probs == [] {
      NotUsable(probs);
      return None;
    }
    var sum := 0.0;
    SumOfNone();
    for i := 0 to |probs|
      invariant sum == Sum(probs[..i])
      invariant forall j :: 0 <= j < i ==> probs[j] >= 0.0
    {
      if probs[i] < 0.0 {
        NotUsable(probs);
        return None;
      }
      SumStep(probs, i);
      sum := sum + probs[i];
    }
    assert probs[..|probs|] == probs;
    if sum <= 0.0 {
      NotUsable(probs);
      return None;
    }
    IsUsable(probs);
    var running := 0.0;
    var out: seq<real> := [];
    for i := 0 to |probs|
      invariant |out| == i && running == Sum(probs[..i]) / sum
      invariant forall r :: 0 <= r < i ==> out[r] == PassAt(probs, r)
    {
      SumStep(probs, i);
      AddShare(Sum(probs[..i]), probs[i], sum);
      running := running + probs[i] / sum;
      PassInUnit(probs, i);
      out := out + [Clamp(running)];
    }
    LastPasses(probs);
    out := out[|out| - 1 := 1.0];
    assert out == Cumulative(probs).value;
    prior := Some(out);
  }

  lemma NotUsable(probs: seq<real>)
    requires probs == [] || Sum(probs) <= 0.0 || exists i :: 0 <= i < |probs| && probs[i] < 0.0
    ensures !Usable(probs)
  {}

  lemma IsUsable(probs: seq<real>)
    requires probs != [] && Sum(probs) > 0.0 && forall i :: 0 <= i < |probs| ==> probs[i] >= 0.0
    ensures Usable(probs)
  {}

  lemma SumStep(xs: seq<real>, i: nat)
    requires i < |xs|
    ensures Sum(xs[..i + 1]) == Sum(xs[..i]) + xs[i]
  {
    assert xs[..i + 1] == xs[..i] + [xs[i]];
    SumPush(xs[..i], xs[i]);
  }

  lemma AddShare(a: real, x: real, total: real)
    requires total != 0.0
    ensures (a + x) / total == a / total + x / total
  {}

  lemma {:induction false} PrefixSums(xs: seq<real>, m: nat, n: nat)
    requires m <= n <= |xs| && forall i :: 0 <= i < |xs| ==> xs[i] >= 0.0
    ensures 0.0 <= Sum(xs[..m]) <= Sum(xs[..n])
    decreases n
  {
    if n > 0 {
      SumStep(xs, n - 1);
      if m < n {
        PrefixSums(xs, m, n - 1);
      } else {
        PrefixSums(xs, n - 1, n - 1);
      }
    }
  }

  lemma PassInUnit(probs: seq<real>, r: nat)
    requires Usable(probs) && r < |probs|
    ensures PassAt(probs, r) == Sum(probs[..r + 1]) / Sum(probs)
    ensures 0.0 <= PassAt(probs, r) <= 1.0
  {
    PassOrdered(probs, r, |probs| - 1);
    PrefixSums(probs, 0, r + 1);
    QuotientNonNegative(Sum(probs[..r + 1]), Sum(probs));
    LastPasses(probs);
  }

  lemma PassOrdered(probs: seq<real>, r: nat, s: nat)
    requires Usable(probs) && r <= s < |probs|
    ensures PassAt(probs, r) <= PassAt(probs, s)
  {
    PrefixSums(probs, r + 1, s + 1);
    QuotientOrder(Sum(probs[..r + 1]), Sum(probs[..s + 1]), Sum(probs));
  }

  lemma LastPasses(probs: seq<real>)
    requires Usable(probs)
    ensures PassAt(probs, |probs| - 1) == 1.0
  {
    assert probs[..|probs| - 1 + 1] == probs;
  }

  /** The prior is what the start-rung walk wants of it: probabilities, never falling up the ladder, and
      certain on the last rung. */
  lemma PriorIsMonotoneAndCertain(probs: seq<real>, price: seq<real>)
    requires Cumulative(probs).Some?
    ensures var prior := Cumulative(probs).value;
            && prior != [] && prior[|prior| - 1] == 1.0
            && (forall r, s :: 0 <= r <= s < |prior| ==> prior[r] <= prior[s])
            && (|price| == |prior| && (forall r :: 0 <= r < |price| ==> price[r] >= 0.0) ==>
                  StartRung.Sensible(prior, price))
  {
    hide PassAt;
    var prior := Cumulative(probs).value;
    forall r, s | 0 <= r <= s < |prior| ensures prior[r] <= prior[s] {
      PassOrdered(probs, r, s);
    }
    forall r | 0 <= r < |prior| ensures 0.0 <= prior[r] <= 1.0 {
      PassInUnit(probs, r);
    }
    LastPasses(probs);
  }

  /** What the prior says of a rung beyond the one below is that rung's share of the total, and it says nothing
      exactly when there is no rung, a negative entry or nothing to share. */
  lemma StepsAreShares(probs: seq<real>, r: nat)
    ensures Cumulative(probs).None?
            <==> probs == [] || (exists i :: 0 <= i < |probs| && probs[i] < 0.0) || Sum(probs) <= 0.0
    ensures Cumulative(probs).Some? && r < |probs| ==>
              var prior := Cumulative(probs).value;
              |prior| == |probs| && (prior[r] - if r == 0 then 0.0 else prior[r - 1]) * Sum(probs) == probs[r]
  {
    hide Sum, Usable, PassAt;
    UsableExactlyWhen(probs);
    if Usable(probs) && r < |probs| {
      StepAt(probs, r);
    }
  }

  lemma UsableExactlyWhen(probs: seq<real>)
    ensures Usable(probs) <==> !(probs == [] || (exists i :: 0 <= i < |probs| && probs[i] < 0.0) || Sum(probs) <= 0.0)
  {
    hide Sum;
  }

  lemma StepAt(probs: seq<real>, r: nat)
    requires Usable(probs) && r < |probs|
    ensures (PassAt(probs, r) - if r == 0 then 0.0 else PassAt(probs, r - 1)) * Sum(probs) == probs[r]
  {
    hide Sum, Usable, PassAt;
    SumStep(probs, r);
    TotalNonZero(probs);
    PassInUnit(probs, r);
    ShareOf(Sum(probs[..r + 1]), Sum(probs[..r]), Sum(probs), probs[r]);
    if r == 0 {
      assert probs[..0] == [];
      SumOfNone();
    } else {
      PassInUnit(probs, r - 1);
      assert r - 1 + 1 == r;
    }
  }

  lemma TotalNonZero(probs: seq<real>)
    requires Usable(probs)
    ensures Sum(probs) != 0.0
  {
    hide Sum;
  }

  lemma ShareOf(a: real, b: real, total: real, x: real)
    requires total != 0.0 && a == b + x
    ensures (a / total - b / total) * total == x
    ensures b == 0.0 ==> a / total * total == x
  {
    QuotientTimes(a, total);
    QuotientTimes(b, total);
    assert (a / total - b / total) * total == a / total * total - b / total * total;
  }

  function Scaled(xs: seq<real>, c: real): (ys: seq<real>)
    ensures |ys| == |xs|
  {
    seq(|xs|, i requires 0 <= i < |xs| => Times(c, xs[i]))
  }

  function Times(c: real, x: real): real { c * x }

  lemma ScaledPrefix(xs: seq<real>, c: real, n: nat)
    requires n <= |xs|
    ensures Scaled(xs, c)[..n] == Scaled(xs[..n], c)
  {
    hide Times;
  }

  lemma {:induction false} SumScaled(xs: seq<real>, c: real)
    ensures Sum(Scaled(xs, c)) == c * Sum(xs)
  {
    if xs != [] {
      SumScaled(xs[..|xs| - 1], c);
      ScaledPrefix(xs, c, |xs| - 1);
    }
  }

  /** The caller need not normalise: only the proportions matter. */
  lemma OnlyProportionsMatter(probs: seq<real>, c: real)
    requires c > 0.0
    ensures Cumulative(Scaled(probs, c)) == Cumulative(probs)
  {
    hide Sum;
    var scaled := Scaled(probs, c);
    SumScaled(probs, c);
    ScaledSigns(probs, c);
    if Usable(probs) {
      forall r | 0 <= r < |probs| ensures PassAt(scaled, r) == PassAt(probs, r) {
        SumScaled(probs[..r + 1], c);
        ScaledPrefix(probs, c, r + 1);
        CancelFactor(Sum(probs[..r + 1]), Sum(probs), c);
      }
      assert Cumulative(scaled).value == Cumulative(probs).value;
    }
  }

  lemma ScaledSigns(probs: seq<real>, c: real)
    requires c > 0.0
    ensures Usable(Scaled(probs, c)) <==> Usable(probs)
  {
    hide Sum;
    SumScaled(probs, c);
    var scaled := Scaled(probs, c);
    SameSign(c, Sum(probs));
    forall i | 0 <= i < |probs| ensures scaled[i] >= 0.0 <==> probs[i] >= 0.0 {
      SameSign(c, probs[i]);
    }
    if Usable(scaled) {
      forall i | 0 <= i < |probs| ensures probs[i] >= 0.0 {
        assert scaled[i] >= 0.0;
      }
    }
  }

  lemma SameSign(c: real, x: real)
    requires c > 0.0
    ensures c * x >= 0.0 <==> x >= 0.0
    ensures c * x > 0.0 <==> x > 0.0
  {
    if x > 0.0 {
      MulPositive(c, x);
    } else if x < 0.0 {
      MulPositive(c, -x);
    }
  }

  lemma CancelFactor(a: real, b: real, c: real)
    requires b != 0.0 && c > 0.0
    ensures c * b != 0.0 && (c * a) / (c * b) == a / b
  {
    SameSign(c, b);
    SameSign(c, -b);
    assert c * -b == -(c * b);
    var q := a / b;
    QuotientTimes(a, b);
    assert q * (c * b) == c * (q * b);
    MulEqual(c, q * b, a);
    QuotientIs(q, c * a, c * b);
  }

  lemma QuotientIs(q: real, y: real, d: real)
    requires d != 0.0 && q * d == y
    ensures y / d == q
  {}
}
