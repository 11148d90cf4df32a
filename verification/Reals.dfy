/** Arithmetic shared by the other modules.

    Sign and order facts about products and quotients of reals are stated one at a time, so that no
    proof has to search for them among other nonlinear terms. Sums and products of sequences come with
    the inequality between arithmetic and geometric mean, in the form the betting tests need: if the
    summands average at most one and none is negative, their product is at most one. */
module Reals {

  lemma MulNonNegative(a: real, b: real)
    requires a >= 0.0 && b >= 0.0
    ensures a * b >= 0.0
  {}

  lemma MulNonPositive(a: real, b: real)
    requires a >= 0.0 && b <= 0.0
    ensures a * b <= 0.0
  {}

  lemma MulPositive(a: real, b: real)
    requires a > 0.0 && b > 0.0
    ensures a * b > 0.0
  {}

  lemma MulMonotone(p: real, a: real, b: real)
    requires p >= 0.0 && a <= b
    ensures p * a <= p * b
  {}

  lemma MulEqual(x: real, a: real, b: real)
    requires a == b
    ensures x * a == x * b
  {}

  /** A factor at most one shrinks. */
  lemma MulShrinks(a: real, b: real)
    requires a >= 0.0 && b <= 1.0
    ensures a * b <= a && b * a <= a
  {}

  /** A factor at least one grows. */
  lemma MulGrows(a: real, b: real)
    requires a >= 0.0 && b >= 1.0
    ensures a * b >= a && b * a >= a
  {}

  lemma NonNegativeFactor(x: real, c: real)
    requires c > 0.0 && x * c >= 0.0
    ensures x >= 0.0
  {}

  lemma QuotientTimes(y: real, c: real)
    requires c != 0.0
    ensures (y / c) * c == y
  {}

  lemma QuotientBound(x: real, y: real, c: real)
    requires c > 0.0 && x * c <= y
    ensures x <= y / c
  {
    assert (y / c - x) * c == y - x * c;
    NonNegativeFactor(y / c - x, c);
  }

  lemma QuotientNonNegative(y: real, c: real)
    requires c > 0.0 && y >= 0.0
    ensures y / c >= 0.0
  {
    QuotientTimes(y, c);
    NonNegativeFactor(y / c, c);
  }

  lemma QuotientOrder(a: real, b: real, c: real)
    requires c > 0.0 && a <= b
    ensures a / c <= b / c
  {
    QuotientTimes(a, c);
    QuotientBound(a / c, b, c);
  }

  function Min(a: nat, b: nat): nat {
    if a < b then a else b
  }

  function Pow(x: real, n: nat): real {
    if n == 0 then 1.0 else x * Pow(x, n - 1)
  }

  lemma {:induction false} PowMonotone(x: real, m: nat, n: nat)
    requires x >= 1.0 && m <= n
    ensures 1.0 <= Pow(x, m) <= Pow(x, n)
    decreases n
  {
    if m < n {
      PowMonotone(x, m, n - 1);
      MulGrows(Pow(x, n - 1), x);
    } else if n > 0 {
      PowMonotone(x, n - 1, n - 1);
      MulGrows(Pow(x, n - 1), x);
    }
  }

  lemma {:induction false} PowAtMostOne(x: real, n: nat)
    requires 0.0 <= x <= 1.0
    ensures 0.0 <= Pow(x, n) <= 1.0
  {
    if n > 0 {
      PowAtMostOne(x, n - 1);
      var y := Pow(x, n - 1);
      MulShrinks(y, x);
      MulNonNegative(x, y);
      assert Pow(x, n) == x * y;
    }
  }

  lemma UniqueDivision(m: nat, q: int, r: nat, q': int, r': nat)
    requires r < m && r' < m && q * m + r == q' * m + r'
    ensures q == q' && r == r'
  {
    assert (q - q') * m == r' - r;
    SmallMultiple(q - q', m);
  }

  lemma SmallMultiple(d: int, m: nat)
    requires -(m as int) < d * m < m
    ensures d == 0
  {
    if d >= 1 {
      IntMulMonotone(1, d, m);
    } else if d <= -1 {
      IntMulMonotone(d, -1, m);
    }
  }

  lemma IntMulMonotone(a: int, b: int, m: nat)
    requires a <= b
    ensures a * m <= b * m
  {}

  lemma OppositeMultiple(a: int, m: nat)
    requires m > 0 && a % m == 0
    ensures (-a) % m == 0
  {
    var q: int, q': int, r' := a / m, (-a) / m, (-a) % m;
    assert a == q * m && -a == q' * m + r';
    assert (-q) * m == -(q * m);
    UniqueDivision(m, -q, 0, q', r');
  }

  lemma OppositeMultiples(a: int, m: nat)
    requires m > 0
    ensures (-a) % m == 0 <==> a % m == 0
  {
    var b: int := -a;
    if a % m == 0 {
      OppositeMultiple(a, m);
    }
    if b % m == 0 {
      OppositeMultiple(b, m);
    }
  }

  /** Counting one further moves the quotient exactly when a multiple is met. */
  lemma NextQuotient(s: nat, m: nat)
    requires m > 0
    ensures (s + 1) / m == s / m + if (s + 1) % m == 0 then 1 else 0
  {
    var q, r := s / m, s % m;
    var q', r' := (s + 1) / m, (s + 1) % m;
    assert q * m + r == s && q' * m + r' == s + 1;
    if r == m - 1 {
      assert (q + 1) * m == q * m + m;
      UniqueDivision(m, q + 1, 0, q', r');
    } else {
      UniqueDivision(m, q, r + 1, q', r');
    }
  }

  // ----- sums and products of sequences

  function Sum(xs: seq<real>): real {
    if xs == [] then 0.0 else Sum(xs[..|xs| - 1]) + xs[|xs| - 1]
  }

  function Product(xs: seq<real>): real {
    if xs == [] then 1.0 else Product(xs[..|xs| - 1]) * xs[|xs| - 1]
  }

  lemma SumOfNone()
    ensures Sum([]) == 0.0
  {}

  lemma SumPush(xs: seq<real>, x: real)
    ensures Sum(xs + [x]) == Sum(xs) + x
  {
    assert (xs + [x])[..|xs|] == xs;
  }

  lemma ProductPush(xs: seq<real>, x: real)
    ensures Product(xs + [x]) == Product(xs) * x
  {
    assert (xs + [x])[..|xs|] == xs;
  }

  lemma {:induction false} SumAppend(xs: seq<real>, ys: seq<real>)
    ensures Sum(xs + ys) == Sum(xs) + Sum(ys)
    decreases |ys|
  {
    if ys == [] {
      assert xs + ys == xs;
    } else {
      SumAppend(xs, ys[..|ys| - 1]);
      assert (xs + ys)[..|xs + ys| - 1] == xs + ys[..|ys| - 1];
    }
  }

  function Without<T>(xs: seq<T>, i: nat): (ys: seq<T>)
    requires i < |xs|
    ensures |ys| == |xs| - 1
  {
    xs[..i] + xs[i + 1..]
  }

  lemma {:induction false} ExtractSummand(xs: seq<real>, i: nat)
    requires i < |xs|
    ensures Sum(xs) == Sum(Without(xs, i)) + xs[i]
  {
    hide Sum;
    var most, last := xs[..|xs| - 1], xs[|xs| - 1];
    SumPush(most, last);
    assert xs == most + [last];
    if i == |most| {
      assert Without(xs, i) == most;
    } else {
      ExtractSummand(most, i);
      SumPush(Without(most, i), last);
      assert Without(xs, i) == Without(most, i) + [last];
    }
  }

  lemma {:induction false} ExtractFactor(xs: seq<real>, i: nat)
    requires i < |xs|
    ensures Product(xs) == Product(Without(xs, i)) * xs[i]
  {
    hide Product;
    var most, last := xs[..|xs| - 1], xs[|xs| - 1];
    ProductPush(most, last);
    assert xs == most + [last];
    if i == |most| {
      assert Without(xs, i) == most;
    } else {
      ExtractFactor(most, i);
      ProductPush(Without(most, i), last);
      assert Without(xs, i) == Without(most, i) + [last];
      SwapFactors(Product(Without(most, i)), xs[i], last, Product(most), Product(Without(xs, i)), Product(xs));
    }
  }

  lemma SwapFactors(a: real, x: real, b: real, ax: real, ab: real, axb: real)
    requires ax == a * x && axb == ax * b && ab == a * b
    ensures axb == ab * x
  {}

  lemma {:induction false} ProductNonNegative(xs: seq<real>)
    requires forall i :: 0 <= i < |xs| ==> xs[i] >= 0.0
    ensures Product(xs) >= 0.0
  {
    if xs != [] {
      ProductNonNegative(xs[..|xs| - 1]);
      MulNonNegative(Product(xs[..|xs| - 1]), xs[|xs| - 1]);
    }
  }

  lemma {:induction false} SmallFactors(xs: seq<real>)
    requires forall i :: 0 <= i < |xs| ==> 0.0 <= xs[i] <= 1.0
    ensures Product(xs) <= 1.0
  {
    if xs != [] {
      var most := xs[..|xs| - 1];
      SmallFactors(most);
      ProductNonNegative(most);
      var p, x := Product(most), xs[|xs| - 1];
      MulShrinks(p, x);
      assert Product(xs) == p * x;
    }
  }

  lemma {:induction false} BigSummands(xs: seq<real>)
    requires forall i :: 0 <= i < |xs| ==> xs[i] >= 1.0
    ensures Sum(xs) >= |xs| as real
    ensures (exists i :: 0 <= i < |xs| && xs[i] > 1.0) ==> Sum(xs) > |xs| as real
  {
    if xs != [] {
      BigSummands(xs[..|xs| - 1]);
      if i :| 0 <= i < |xs| && xs[i] > 1.0 {
        assert i == |xs| - 1 || xs[..|xs| - 1][i] > 1.0;
      }
    }
  }

  /** Numbers that average at most one multiply to at most one. A factor above one is merged with one
      below one: the merged factor keeps the average and only raises the product. */
  lemma {:induction false} AverageBoundsProduct(xs: seq<real>)
    requires forall i :: 0 <= i < |xs| ==> xs[i] >= 0.0
    requires Sum(xs) <= |xs| as real
    ensures Product(xs) <= 1.0
    decreases |xs|
  {
    if a :| 0 <= a < |xs| && xs[a] > 1.0 {
      if forall i :: 0 <= i < |xs| ==> xs[i] >= 1.0 {
        BigSummands(xs);
        assert false;
      }
      var b :| 0 <= b < |xs| && xs[b] < 1.0;
      var ys := xs[b := xs[a] + xs[b] - 1.0];
      MergeSum(xs, a, b);
      MergeProduct(xs, a, b);
      AverageBoundsProduct(Without(ys, a));
    } else {
      SmallFactors(xs);
    }
  }

  /** Taking out positions `a` and `b`, the merged sequence and the original leave the same rest. */
  lemma MergeRest(xs: seq<real>, a: nat, b: nat, z: real) returns (c: nat, rest: seq<real>)
    requires a < |xs| && b < |xs| && a != b
    ensures c < |xs| - 1 && Without(xs, a)[c] == xs[b] && Without(xs[b := z], a)[c] == z
    ensures rest == Without(Without(xs, a), c) == Without(Without(xs[b := z], a), c)
    ensures Without(xs[b := z], a) == Without(xs, a)[c := z]
  {
    c := if b < a then b else b - 1;
    rest := Without(Without(xs, a), c);
    assert Without(xs[b := z], a) == Without(xs, a)[c := z];
    assert Without(Without(xs, a)[c := z], c) == rest;
  }

  lemma MergeSum(xs: seq<real>, a: nat, b: nat)
    requires a < |xs| && b < |xs| && a != b
    ensures Sum(Without(xs[b := xs[a] + xs[b] - 1.0], a)) == Sum(xs) - 1.0
  {
    hide Sum;
    var z := xs[a] + xs[b] - 1.0;
    var c, rest := MergeRest(xs, a, b, z);
    ExtractSummand(xs, a);
    ExtractSummand(Without(xs, a), c);
    ExtractSummand(Without(xs[b := z], a), c);
  }

  lemma NonNegativeWithout(xs: seq<real>, i: nat)
    requires i < |xs| && forall k :: 0 <= k < |xs| ==> xs[k] >= 0.0
    ensures forall k :: 0 <= k < |Without(xs, i)| ==> Without(xs, i)[k] >= 0.0
  {}

  lemma MergeProduct(xs: seq<real>, a: nat, b: nat)
    requires a < |xs| && b < |xs| && xs[a] > 1.0 && xs[b] < 1.0
    requires forall i :: 0 <= i < |xs| ==> xs[i] >= 0.0
    ensures Product(xs) <= Product(Without(xs[b := xs[a] + xs[b] - 1.0], a))
  {
    hide Product, Without;
    var z := xs[a] + xs[b] - 1.0;
    var c, rest := MergeRest(xs, a, b, z);
    ExtractFactor(xs, a);
    ExtractFactor(Without(xs, a), c);
    ExtractFactor(Without(xs[b := z], a), c);
    NonNegativeWithout(xs, a);
    NonNegativeWithout(Without(xs, a), c);
    ProductNonNegative(rest);
    MergedFactor(Product(rest), xs[a], xs[b], Product(Without(xs, a)), Product(xs));
  }

  lemma MergedFactor(p: real, x: real, y: real, py: real, pyx: real)
    requires p >= 0.0 && x > 1.0 && y < 1.0
    requires py == p * y && pyx == py * x
    ensures pyx <= p * (x + y - 1.0)
  {
    MulNonNegative(x - 1.0, 1.0 - y);
    assert y * x <= x + y - 1.0;
    MulMonotone(p, y * x, x + y - 1.0);
    assert p * (y * x) == p * y * x;
  }

  // ----- counting and adding up over a list

  /** The indices of the entries that satisfy `p`. */
  ghost function Where<T>(xs: seq<T>, p: T -> bool): set<int> {
    set i | 0 <= i < |xs| && p(xs[i])
  }

  lemma WhereNone<T>(p: T -> bool)
    ensures Where([], p) == {}
  {}

  lemma WhereOneMore<T>(xs: seq<T>, p: T -> bool)
    requires xs != []
    ensures |Where(xs, p)| == |Where(xs[..|xs| - 1], p)| + if p(xs[|xs| - 1]) then 1 else 0
  {
    var n := |xs| - 1;
    assert Where(xs, p) == if p(xs[n]) then Where(xs[..n], p) + {n} else Where(xs[..n], p);
  }

  ghost function Values<T>(xs: seq<T>, f: T -> real): (ys: seq<real>)
    ensures |ys| == |xs|
  {
    seq(|xs|, i requires 0 <= i < |xs| => f(xs[i]))
  }

  lemma ValuesNone<T>(f: T -> real)
    ensures Sum(Values([], f)) == 0.0
  {}

  lemma ValuesOneMore<T>(xs: seq<T>, f: T -> real)
    requires xs != []
    ensures Sum(Values(xs, f)) == Sum(Values(xs[..|xs| - 1], f)) + f(xs[|xs| - 1])
  {
    hide Sum;
    var n := |xs| - 1;
    assert Values(xs, f) == Values(xs[..n], f) + [f(xs[n])];
    SumPush(Values(xs[..n], f), f(xs[n]));
  }
}
