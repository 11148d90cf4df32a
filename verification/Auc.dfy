/** The two AUC computations: rank sum with midranks (crates/firstpass-bench/src/decision_study.rs)
    and pairwise wins plus half ties (crates/firstpass-bench/src/coding.rs). */
module Auc {
  import opened Reals
  import opened Matrix

  /** Scores this close to the first one of a tie group join the group. */
  const TIE := 0.000000000001

  /** The f64 machine epsilon, 2 to the power -52. */
  const EPSILON := 1.0 / 4503599627370496.0

  // ----- pairwise definition

  /** What a positive score `p` earns against a negative score `n`: a win, half a tie, or nothing. */
  function Credit(eps: real, p: real, n: real): real {
    if p > n then 1.0 else if n - p < eps || p == n then 0.5 else 0.0
  }

  function Against(eps: real, x: real, ys: seq<real>): real {
    if ys == [] then 0.0 else Against(eps, x, ys[..|ys| - 1]) + Credit(eps, x, ys[|ys| - 1])
  }

  function Wins(eps: real, xs: seq<real>, ys: seq<real>): real {
    if xs == [] then 0.0 else Wins(eps, xs[..|xs| - 1], ys) + Against(eps, xs[|xs| - 1], ys)
  }

  /** The scores that carry the label `want`, in order. */
  function Pick(scores: seq<real>, labels: seq<bool>, want: bool): (xs: seq<real>)
    requires |scores| == |labels|
    ensures |xs| <= |scores|
  {
    if scores == [] then []
    else
      var n := |scores| - 1;
      Pick(scores[..n], labels[..n], want) + if labels[n] == want then [scores[n]] else []
  }

  ghost predicate BothClasses(labels: seq<bool>) {
    true in labels && false in labels
  }

  /** The share of positive-negative pairs won, ties counted half. */
  function PairwiseAuc(eps: real, scores: seq<real>, labels: seq<bool>): real
    requires |scores| == |labels|
    requires |Pick(scores, labels, true)| > 0 && |Pick(scores, labels, false)| > 0
  {
    var pos, neg := Pick(scores, labels, true), Pick(scores, labels, false);
    Share(Wins(eps, pos, neg), |pos|, |neg|)
  }

  function Share(wins: real, pos: nat, neg: nat): real
    requires pos > 0 && neg > 0
  {
    wins / (pos as real * neg as real)
  }

  lemma {:induction false} PickedClasses(scores: seq<real>, labels: seq<bool>, want: bool)
    requires |scores| == |labels|
    ensures |Pick(scores, labels, want)| > 0 <==> want in labels
  {
    if scores != [] {
      PickedClasses(scores[..|scores| - 1], labels[..|labels| - 1], want);
      assert labels == labels[..|labels| - 1] + [labels[|labels| - 1]];
    }
  }

  method CodingAuc(scores: seq<real>, labels: seq<bool>) returns (r: real)
    requires |scores| == |labels|
    ensures !BothClasses(labels) ==> r == 0.5
    ensures |Pick(scores, labels, true)| > 0 && |Pick(scores, labels, false)| > 0 ==>
              r == PairwiseAuc(1.0 / 4503599627370496.0, scores, labels)
  {
    var pos, neg := Pick(scores, labels, true), Pick(scores, labels, false);
    PickedClasses(scores, labels, true);
    PickedClasses(scores, labels, false);
    if pos == [] || neg == [] {
      return 0.5;
    }
    var wins := CountWins(pos, neg);
    r := Share(wins, |pos|, |neg|);
  }

  method CountWins(pos: seq<real>, neg: seq<real>) returns (wins: real)
    ensures wins == Wins(EPSILON, pos, neg)
  {
    wins := 0.0;
    for i := 0 to |pos|
      invariant wins == Wins(EPSILON, pos[..i], neg)
    {
      WinsPush(EPSILON, pos, i, neg);
      for j := 0 to |neg|
        invariant wins == Wins(EPSILON, pos[..i], neg) + Against(EPSILON, pos[i], neg[..j])
      {
        AgainstPush(EPSILON, pos[i], neg, j);
        var p, n := pos[i], neg[j];
        var gap := if p >= n then p - n else n - p;
        wins := wins + if p > n then 1.0 else if gap < EPSILON then 0.5 else 0.0;
      }
      assert neg[..|neg|] == neg;
    }
    assert pos[..|pos|] == pos;
  }

  lemma WinsPush(eps: real, xs: seq<real>, i: nat, ys: seq<real>)
    requires i < |xs|
    ensures Wins(eps, xs[..i + 1], ys) == Wins(eps, xs[..i], ys) + Against(eps, xs[i], ys)
  {
    assert xs[..i + 1][..i] == xs[..i];
  }

  lemma AgainstPush(eps: real, x: real, ys: seq<real>, j: nat)
    requires j < |ys|
    ensures Against(eps, x, ys[..j + 1]) == Against(eps, x, ys[..j]) + Credit(eps, x, ys[j])
  {
    assert ys[..j + 1][..j] == ys[..j];
  }

  // ----- the sorted index array

  ghost predicate Permutation(order: seq<nat>, n: nat) {
    multiset(order) == multiset(Range(n))
  }

  lemma PermutationIndices(order: seq<nat>, n: nat)
    requires Permutation(order, n)
    ensures |order| == n
    ensures forall a :: 0 <= a < n ==> order[a] < n
    ensures forall a, b :: 0 <= a < b < n ==> order[a] != order[b]
  {
    assert |order| == |multiset(order)| == |multiset(Range(n))| == n;
    forall a | 0 <= a < n ensures order[a] < n {
      assert order[a] in multiset(order);
      assert order[a] in Range(n);
    }
    forall a, b | 0 <= a < b < n ensures order[a] != order[b] {
      RangeOnce(n, order[a]);
      assert order == order[..b] + order[b..];
      assert order[..b][a] in multiset(order[..b]) && order[b..][0] in multiset(order[b..]);
    }
  }

  lemma {:induction false} RangeOnce(n: nat, v: nat)
    ensures multiset(Range(n))[v] <= 1
    ensures v >= n ==> multiset(Range(n))[v] == 0
  {
    if n > 0 {
      RangeOnce(n - 1, v);
      assert Range(n) == Range(n - 1) + [n - 1];
    }
  }

  function Range(n: nat): (r: seq<nat>)
    ensures |r| == n && forall i :: 0 <= i < n ==> r[i] == i
  {
    if n == 0 then [] else Range(n - 1) + [n - 1]
  }

  ghost predicate Ascending(scores: seq<real>, order: seq<nat>) {
    && (forall a :: 0 <= a < |order| ==> order[a] < |scores|)
    && forall a, b :: 0 <= a < b < |order| ==> scores[order[a]] <= scores[order[b]]
  }

  /** The place of `k` after everything that does not score higher: the stable insertion point. */
  function Place(scores: seq<real>, order: seq<nat>, k: nat): (t: nat)
    requires k < |scores| && forall a :: 0 <= a < |order| ==> order[a] < |scores|
    ensures t <= |order|
    ensures forall a :: t <= a < |order| ==> scores[order[a]] > scores[k]
    ensures t > 0 ==> scores[order[t - 1]] <= scores[k]
    decreases |order|
  {
    if order == [] || scores[order[|order| - 1]] <= scores[k] then |order|
    else Place(scores, order[..|order| - 1], k)
  }

  function Insert(order: seq<nat>, t: nat, k: nat): seq<nat>
    requires t <= |order|
  {
    order[..t] + [k] + order[t..]
  }

  lemma InsertPermutes(order: seq<nat>, t: nat, k: nat)
    requires Permutation(order, k) && t <= |order|
    ensures Permutation(Insert(order, t, k), k + 1)
  {
    assert order == order[..t] + order[t..];
    assert Range(k + 1) == Range(k) + [k];
  }

  lemma InsertAscends(scores: seq<real>, order: seq<nat>, t: nat, k: nat)
    requires k < |scores| && t <= |order| && Ascending(scores, order)
    requires forall a :: t <= a < |order| ==> scores[order[a]] > scores[k]
    requires t > 0 ==> scores[order[t - 1]] <= scores[k]
    ensures Ascending(scores, Insert(order, t, k))
  {
    var out := Insert(order, t, k);
    assert forall a :: 0 <= a < t ==> out[a] == order[a];
    assert forall a :: t < a < |out| ==> out[a] == order[a - 1];
    assert forall a :: 0 <= a < t ==> scores[order[a]] <= scores[k];
  }

  function InsertSorted(scores: seq<real>, order: seq<nat>, k: nat): (out: seq<nat>)
    requires k < |scores| && Permutation(order, k) && Ascending(scores, order)
    ensures Permutation(out, k + 1) && Ascending(scores, out)
  {
    var t := Place(scores, order, k);
    InsertPermutes(order, t, k);
    InsertAscends(scores, order, t, k);
    Insert(order, t, k)
  }

  lemma NothingToSort(scores: seq<real>)
    ensures Permutation([], 0) && Ascending(scores, [])
  {}

  /** The index array a stable sort by score produces. */
  function SortedOrder(scores: seq<real>, n: nat): (order: seq<nat>)
    requires n <= |scores|
    ensures Permutation(order, n) && Ascending(scores, order)
  {
    hide Permutation, Ascending;
    if n == 0 then
      NothingToSort(scores);
      []
    else InsertSorted(scores, SortedOrder(scores, n - 1), n - 1)
  }

  // ----- tie groups and midranks

  /** `anchors[p]` is the first score of the group that position `p` of the sorted order belongs to. */
  ghost predicate Blocks(scores: seq<real>, order: seq<nat>, anchors: seq<real>) {
    && |anchors| <= |order|
    && (forall p :: 0 <= p < |order| ==> order[p] < |scores|)
    && (forall p :: 0 <= p < |anchors| ==> anchors[p] <= scores[order[p]] < anchors[p] + TIE)
    && (forall p, q :: 0 <= p < q < |anchors| ==> anchors[p] == anchors[q] || anchors[q] >= anchors[p] + TIE)
    && (forall p :: 0 <= p < |anchors| ==> exists k :: 0 <= k < |scores| && scores[k] == anchors[p])
  }

  ghost predicate Midranked(order: seq<nat>, anchors: seq<real>, ranks: seq<real>) {
    && |anchors| <= |order|
    && (forall p :: 0 <= p < |order| ==> order[p] < |ranks|)
    && forall p :: 0 <= p < |anchors| ==> ranks[order[p]] == Against(0.0, anchors[p], anchors) + 0.5
  }

  /** Positions `i` to `j` hold scores within a tie of the first of them. */
  ghost predicate TieGroup(scores: seq<real>, order: seq<nat>, i: nat, j: nat)
    requires i <= j < |order| && forall p :: 0 <= p < |order| ==> order[p] < |scores|
  {
    var first := scores[order[i]];
    forall p :: i <= p <= j ==> first <= scores[order[p]] < first + TIE
  }

  /** The score at position `i` starts a group above all groups so far. */
  ghost predicate StartsGroup(scores: seq<real>, order: seq<nat>, anchors: seq<real>, i: nat)
    requires i < |order| && forall p :: 0 <= p < |order| ==> order[p] < |scores|
  {
    forall p :: 0 <= p < |anchors| ==> scores[order[i]] >= anchors[p] + TIE
  }

  function Repeat(a: real, m: nat): (xs: seq<real>)
    ensures |xs| == m && forall i :: 0 <= i < m ==> xs[i] == a
  {
    seq(m, _ => a)
  }

  lemma {:induction false} AgainstSmaller(x: real, ys: seq<real>)
    requires forall i :: 0 <= i < |ys| ==> ys[i] < x
    ensures Against(0.0, x, ys) == |ys| as real
  {
    if ys != [] {
      AgainstSmaller(x, ys[..|ys| - 1]);
    }
  }

  lemma {:induction false} AgainstRepeat(x: real, ys: seq<real>, a: real, m: nat)
    ensures Against(0.0, x, ys + Repeat(a, m)) == Against(0.0, x, ys) + m as real * Credit(0.0, x, a)
    decreases m
  {
    hide Against;
    if m == 0 {
      assert ys + Repeat(a, 0) == ys;
    } else {
      AgainstRepeat(x, ys, a, m - 1);
      assert ys + Repeat(a, m) == (ys + Repeat(a, m - 1)) + [a];
      AgainstAppend(0.0, x, ys + Repeat(a, m - 1), a);
      OneMore(m - 1, Credit(0.0, x, a));
    }
  }

  lemma OneMore(m: nat, c: real)
    ensures m as real * c + c == (m + 1) as real * c
  {}

  lemma AgainstAppend(eps: real, x: real, ys: seq<real>, y: real)
    ensures Against(eps, x, ys + [y]) == Against(eps, x, ys) + Credit(eps, x, y)
  {
    assert (ys + [y])[..|ys|] == ys;
  }

  /** Closing a group of `m` scores above all earlier groups: earlier midranks stand, and every member
      of the group beats everything before it and half of the group. */
  lemma CloseGroup(before: seq<real>, a: real, m: nat)
    requires forall p :: 0 <= p < |before| ==> before[p] < a
    ensures forall p :: 0 <= p < |before| ==>
              Against(0.0, before[p], before + Repeat(a, m)) == Against(0.0, before[p], before)
    ensures Against(0.0, a, before + Repeat(a, m)) == |before| as real + m as real * 0.5
  {
    forall p | 0 <= p < |before|
      ensures Against(0.0, before[p], before + Repeat(a, m)) == Against(0.0, before[p], before)
    {
      AgainstRepeat(before[p], before, a, m);
    }
    AgainstRepeat(a, before, a, m);
    AgainstSmaller(a, before);
  }

  method Midranks(scores: seq<real>, order: seq<nat>) returns (ranks: array<real>, ghost anchors: seq<real>)
    requires Permutation(order, |scores|) && Ascending(scores, order)
    ensures fresh(ranks) && ranks.Length == |scores| == |anchors| == |order|
    ensures Blocks(scores, order, anchors)
    ensures Midranked(order, anchors, ranks[..])
  {
    hide Blocks, Midranked, Permutation;
    PermutationIndices(order, |scores|);
    ranks := new real[|scores|](_ => 0.0);
    anchors := [];
    NoGroupYet(scores, order, ranks[..]);
    var i := 0;
    while i < |order|
      invariant i == |anchors| <= |order| == ranks.Length
      invariant Blocks(scores, order, anchors) && Midranked(order, anchors, ranks[..])
      invariant i < |order| ==> StartsGroup(scores, order, anchors, i)
    {
      var j := i;
      while j + 1 < |order| && Gap(scores[order[j + 1]], scores[order[i]]) < TIE
        invariant i <= j < |order|
        invariant TieGroup(scores, order, i, j)
      {
        j := j + 1;
      }
      var avgRank := ((i + 1) + (j + 1)) as real / 2.0;
      ghost var earlier := ranks[..];
      WriteGroup(ranks, order, i, j, avgRank);
      NextGroup(scores, order, anchors, j, earlier, ranks[..]);
      anchors := anchors + Repeat(scores[order[i]], j + 1 - i);
      i := j + 1;
    }
  }

  lemma NoGroupYet(scores: seq<real>, order: seq<nat>, ranks: seq<real>)
    requires |order| == |scores| == |ranks| && forall p :: 0 <= p < |order| ==> order[p] < |scores|
    ensures Blocks(scores, order, []) && Midranked(order, [], ranks)
  {}

  /** One pass of the outer loop: the scores from the first unranked one up to position `j` form a
      group, and all of them have been given the mean of the ranks they occupy. */
  lemma NextGroup(scores: seq<real>, order: seq<nat>, anchors: seq<real>, j: nat, earlier: seq<real>, ranks: seq<real>)
    requires |anchors| <= j < |order| == |scores| == |ranks| == |earlier|
    requires Blocks(scores, order, anchors) && Midranked(order, anchors, earlier)
    requires StartsGroup(scores, order, anchors, |anchors|) && TieGroup(scores, order, |anchors|, j)
    requires j + 1 < |order| ==> Gap(scores[order[j + 1]], scores[order[|anchors|]]) >= TIE
    requires Ascending(scores, order)
    requires forall p :: 0 <= p < |anchors| ==> ranks[order[p]] == earlier[order[p]]
    requires forall p :: |anchors| <= p <= j ==> ranks[order[p]] == ((|anchors| + 1) + (j + 1)) as real / 2.0
    ensures var grown := anchors + Repeat(scores[order[|anchors|]], j + 1 - |anchors|);
            && Blocks(scores, order, grown) && Midranked(order, grown, ranks)
            && (j + 1 < |order| ==> StartsGroup(scores, order, grown, j + 1))
  {
    hide Against;
    CloseGroup(anchors, scores[order[|anchors|]], j + 1 - |anchors|);
  }

  function Gap(a: real, b: real): real {
    if a >= b then a - b else b - a
  }

  method WriteGroup(ranks: array<real>, order: seq<nat>, i: nat, j: nat, rank: real)
    requires i <= j < |order| == ranks.Length
    requires forall p :: 0 <= p < |order| ==> order[p] < ranks.Length
    requires forall a, b :: 0 <= a < b < |order| ==> order[a] != order[b]
    modifies ranks
    ensures forall p :: i <= p <= j ==> ranks[order[p]] == rank
    ensures forall p :: 0 <= p < i ==> ranks[order[p]] == old(ranks[order[p]])
  {
    for q := i to j + 1
      invariant forall p :: i <= p < q ==> ranks[order[p]] == rank
      invariant forall p :: 0 <= p < i ==> ranks[order[p]] == old(ranks[order[p]])
    {
      ranks[order[q]] := rank;
    }
  }

  // ----- from positions back to indices

  function Gather(xs: seq<real>, order: seq<nat>): (ys: seq<real>)
    requires forall p :: 0 <= p < |order| ==> order[p] < |xs|
    ensures |ys| == |order|
  {
    seq(|order|, p requires 0 <= p < |order| => xs[order[p]])
  }

  lemma EveryIndexPlaced(order: seq<nat>, n: nat, k: nat) returns (p: nat)
    requires Permutation(order, n) && k < n
    ensures p < |order| && order[p] == k
  {
    assert Range(n)[k] == k;
    assert k in multiset(Range(n));
    assert k in order;
    p :| 0 <= p < |order| && order[p] == k;
  }

  /** The sequence that holds `xs[p]` at index `order[p]`. */
  lemma Scatter(order: seq<nat>, xs: seq<real>) returns (out: seq<real>)
    requires Permutation(order, |xs|) && |order| == |xs|
    requires forall p :: 0 <= p < |order| ==> order[p] < |xs|
    ensures |out| == |xs| && Gather(out, order) == xs
  {
    hide Permutation;
    PermutationIndices(order, |xs|);
    out := ScatterFirst(order, xs, |xs|);
  }

  lemma {:induction false} ScatterFirst(order: seq<nat>, xs: seq<real>, n: nat) returns (out: seq<real>)
    requires n <= |order| == |xs|
    requires forall p :: 0 <= p < |order| ==> order[p] < |xs|
    requires forall p, q :: 0 <= p < q < |order| ==> order[p] != order[q]
    ensures |out| == |xs| && forall p :: 0 <= p < n ==> out[order[p]] == xs[p]
  {
    if n == 0 {
      out := xs;
    } else {
      var before := ScatterFirst(order, xs, n - 1);
      out := before[order[n - 1] := xs[n - 1]];
    }
  }

  lemma {:induction false} AgainstExtract(x: real, ys: seq<real>, t: nat)
    requires t < |ys|
    ensures Against(0.0, x, ys) == Against(0.0, x, Without(ys, t)) + Credit(0.0, x, ys[t])
  {
    hide Against;
    var most, last := ys[..|ys| - 1], ys[|ys| - 1];
    assert ys == most + [last];
    AgainstAppend(0.0, x, most, last);
    if t < |most| {
      AgainstExtract(x, most, t);
      assert Without(ys, t) == Without(most, t) + [last];
      AgainstAppend(0.0, x, Without(most, t), last);
    } else {
      assert Without(ys, t) == most;
    }
  }

  lemma {:induction false} AgainstReordered(x: real, xs: seq<real>, p: seq<nat>, q: seq<nat>)
    requires multiset(p) == multiset(q)
    requires (forall i :: 0 <= i < |p| ==> p[i] < |xs|) && (forall i :: 0 <= i < |q| ==> q[i] < |xs|)
    ensures Against(0.0, x, Gather(xs, p)) == Against(0.0, x, Gather(xs, q))
    decreases |p|
  {
    hide Against;
    assert |p| == |multiset(p)| == |multiset(q)| == |q|;
    if p == [] {
      assert Gather(xs, p) == Gather(xs, q);
    } else {
      var most, v := p[..|p| - 1], p[|p| - 1];
      var t := TakeOut(p, q);
      var rest := q[..t] + q[t + 1..];
      AgainstReordered(x, xs, most, rest);
      AgainstAppend(0.0, x, Gather(xs, most), xs[v]);
      assert Gather(xs, p) == Gather(xs, most) + [xs[v]];
      AgainstExtract(x, Gather(xs, q), t);
      assert Gather(xs, rest) == Without(Gather(xs, q), t);
    }
  }

  lemma TakeOut(p: seq<nat>, q: seq<nat>) returns (t: nat)
    requires p != [] && multiset(p) == multiset(q)
    ensures t < |q| && q[t] == p[|p| - 1]
    ensures multiset(p[..|p| - 1]) == multiset(q[..t] + q[t + 1..])
  {
    var last := |p| - 1;
    RemoveAt(p, last);
    assert p[..last] + p[last + 1..] == p[..last];
    assert p[last] in multiset(q);
    t :| 0 <= t < |q| && q[t] == p[last];
    RemoveAt(q, t);
    SameRest(multiset(p[..last]), multiset(q[..t] + q[t + 1..]), p[last]);
  }

  lemma RemoveAt(q: seq<nat>, t: nat)
    requires t < |q|
    ensures multiset(q) == multiset(q[..t] + q[t + 1..]) + multiset{q[t]}
  {
    assert q == q[..t] + [q[t]] + q[t + 1..];
  }

  lemma SameRest(a: multiset<nat>, b: multiset<nat>, v: nat)
    requires a + multiset{v} == b + multiset{v}
    ensures a == b
  {
    assert a == (a + multiset{v}) - multiset{v};
    assert b == (b + multiset{v}) - multiset{v};
  }

  // ----- the rank-sum identity

  function LabelSum(ranks: seq<real>, labels: seq<bool>): real
    requires |ranks| == |labels|
  {
    if ranks == [] then 0.0
    else
      var n := |ranks| - 1;
      LabelSum(ranks[..n], labels[..n]) + if labels[n] then ranks[n] else 0.0
  }

  lemma {:induction false} RanksCountWins(ranks: seq<real>, xs: seq<real>, labels: seq<bool>, all: seq<real>)
    requires |ranks| == |xs| == |labels|
    requires forall k :: 0 <= k < |xs| ==> ranks[k] == Against(0.0, xs[k], all) + 0.5
    ensures LabelSum(ranks, labels) == Wins(0.0, Pick(xs, labels, true), all) + |Pick(xs, labels, true)| as real * 0.5
  {
    if xs != [] {
      var n := |xs| - 1;
      RanksCountWins(ranks[..n], xs[..n], labels[..n], all);
      if labels[n] {
        WinsAppend(0.0, Pick(xs[..n], labels[..n], true), xs[n], all);
      } else {
        assert Pick(xs, labels, true) == Pick(xs[..n], labels[..n], true);
      }
    }
  }

  lemma WinsAppend(eps: real, xs: seq<real>, x: real, ys: seq<real>)
    ensures Wins(eps, xs + [x], ys) == Wins(eps, xs, ys) + Against(eps, x, ys)
  {
    assert (xs + [x])[..|xs|] == xs;
  }

  lemma {:induction false} AgainstByLabel(eps: real, x: real, ys: seq<real>, labels: seq<bool>)
    requires |ys| == |labels|
    ensures Against(eps, x, ys) == Against(eps, x, Pick(ys, labels, true)) + Against(eps, x, Pick(ys, labels, false))
  {
    if ys != [] {
      var n := |ys| - 1;
      AgainstByLabel(eps, x, ys[..n], labels[..n]);
      AgainstAppend(eps, x, Pick(ys[..n], labels[..n], labels[n]), ys[n]);
      assert Pick(ys, labels, !labels[n]) == Pick(ys[..n], labels[..n], !labels[n]);
    }
  }

  lemma {:induction false} WinsByLabel(eps: real, xs: seq<real>, ys: seq<real>, labels: seq<bool>)
    requires |ys| == |labels|
    ensures Wins(eps, xs, ys) == Wins(eps, xs, Pick(ys, labels, true)) + Wins(eps, xs, Pick(ys, labels, false))
  {
    if xs != [] {
      WinsByLabel(eps, xs[..|xs| - 1], ys, labels);
      AgainstByLabel(eps, xs[|xs| - 1], ys, labels);
    }
  }

  lemma {:induction false} WinsColumn(ys: seq<real>, xs: seq<real>, x: real)
    ensures Wins(0.0, ys, xs + [x]) + Against(0.0, x, ys) == Wins(0.0, ys, xs) + |ys| as real
  {
    if ys != [] {
      WinsColumn(ys[..|ys| - 1], xs, x);
      AgainstAppend(0.0, ys[|ys| - 1], xs, x);
    }
  }

  lemma {:induction false} WinsAndLosses(xs: seq<real>, ys: seq<real>)
    ensures Wins(0.0, xs, ys) + Wins(0.0, ys, xs) == |xs| as real * |ys| as real
  {
    if xs == [] {
      WinsAgainstNobody(ys);
    } else {
      var most, x := xs[..|xs| - 1], xs[|xs| - 1];
      WinsAndLosses(most, ys);
      assert xs == most + [x];
      WinsColumn(ys, most, x);
      OneMore(|most|, |ys| as real);
    }
  }

  lemma {:induction false} WinsAgainstNobody(ys: seq<real>)
    ensures Wins(0.0, ys, []) == 0.0
  {
    if ys != [] {
      WinsAgainstNobody(ys[..|ys| - 1]);
    }
  }

  /** The sum of the positives' midranks, less the least it could be, is the number of pairs won. */
  lemma RankSumIdentity(ranks: seq<real>, xs: seq<real>, labels: seq<bool>)
    requires |ranks| == |xs| == |labels|
    requires forall k :: 0 <= k < |xs| ==> ranks[k] == Against(0.0, xs[k], xs) + 0.5
    ensures var pos, neg := Pick(xs, labels, true), Pick(xs, labels, false);
            LabelSum(ranks, labels) - |pos| as real * (|pos| as real + 1.0) / 2.0 == Wins(0.0, pos, neg)
  {
    hide Wins, Against, LabelSum, Pick;
    var pos := Pick(xs, labels, true);
    RanksCountWins(ranks, xs, labels, xs);
    WinsByLabel(0.0, pos, xs, labels);
    WinsAndLosses(pos, pos);
    HalfSquare(|pos| as real);
  }

  lemma HalfSquare(n: real)
    ensures n * (n + 1.0) / 2.0 == n * n / 2.0 + n * 0.5
  {}

  // ----- the sort-and-midrank computation

  /** `anchors[k]` is a score at most a tie below score `k`. */
  ghost predicate GroupedAt(scores: seq<real>, anchors: seq<real>, k: nat)
    requires k < |scores| == |anchors|
  {
    anchors[k] <= scores[k] < anchors[k] + 0.000000000001 && exists l :: 0 <= l < |scores| && scores[l] == anchors[k]
  }

  ghost predicate SameOrApart(a: real, b: real) {
    a == b || a - b >= 0.000000000001 || b - a >= 0.000000000001
  }

  /** How the midrank computation sees the scores: every score is taken for the first of its tie group,
      and groups are at least a tie apart. */
  ghost predicate GroupedBy(scores: seq<real>, anchors: seq<real>) {
    && |anchors| == |scores|
    && (forall k :: 0 <= k < |scores| ==> GroupedAt(scores, anchors, k))
    && (forall k, l :: 0 <= k < |scores| && 0 <= l < |scores| ==> SameOrApart(anchors[k], anchors[l]))
  }

  lemma BlocksGroup(scores: seq<real>, order: seq<nat>, anchors: seq<real>, grouped: seq<real>)
    requires |scores| == |order| == |anchors| == |grouped| && Permutation(order, |scores|)
    requires Blocks(scores, order, anchors) && forall p :: 0 <= p < |order| ==> order[p] < |grouped|
    requires Gather(grouped, order) == anchors
    ensures GroupedBy(scores, grouped)
  {
    hide Permutation, Blocks, Gather, GroupedAt, SameOrApart;
    forall k | 0 <= k < |scores| ensures GroupedAt(scores, grouped, k) {
      var p := AnchorAt(scores, order, anchors, grouped, k);
    }
    forall k, l | 0 <= k < |scores| && 0 <= l < |scores| ensures SameOrApart(grouped[k], grouped[l]) {
      var p := AnchorAt(scores, order, anchors, grouped, k);
      var q := AnchorAt(scores, order, anchors, grouped, l);
      AnchorsApart(scores, order, anchors, p, q);
    }
  }

  lemma AnchorAt(scores: seq<real>, order: seq<nat>, anchors: seq<real>, grouped: seq<real>, k: nat) returns (p: nat)
    requires |scores| == |order| == |anchors| == |grouped| && Permutation(order, |scores|) && k < |scores|
    requires Blocks(scores, order, anchors) && forall p :: 0 <= p < |order| ==> order[p] < |grouped|
    requires Gather(grouped, order) == anchors
    ensures p < |order| && grouped[k] == anchors[p] && GroupedAt(scores, grouped, k)
  {
    p := EveryIndexPlaced(order, |scores|, k);
    assert Gather(grouped, order)[p] == anchors[p];
  }

  lemma AnchorsApart(scores: seq<real>, order: seq<nat>, anchors: seq<real>, p: nat, q: nat)
    requires Blocks(scores, order, anchors) && p < |anchors| && q < |anchors|
    ensures SameOrApart(anchors[p], anchors[q])
  {}

  lemma RanksByIndex(order: seq<nat>, anchors: seq<real>, grouped: seq<real>, ranks: seq<real>)
    requires |order| == |anchors| == |grouped| == |ranks| && Permutation(order, |grouped|)
    requires (forall p :: 0 <= p < |order| ==> order[p] < |grouped|) && Gather(grouped, order) == anchors
    requires Midranked(order, anchors, ranks)
    ensures forall k :: 0 <= k < |grouped| ==> ranks[k] == Against(0.0, grouped[k], grouped) + 0.5
  {
    hide Against;
    var identity := Range(|grouped|);
    assert Gather(grouped, identity) == grouped;
    forall k | 0 <= k < |grouped| ensures ranks[k] == Against(0.0, grouped[k], grouped) + 0.5 {
      var p := EveryIndexPlaced(order, |grouped|, k);
      assert Gather(grouped, order)[p] == anchors[p];
      AgainstReordered(grouped[k], grouped, order, identity);
    }
  }

  method CountLabels(labels: seq<bool>, ghost scores: seq<real>) returns (pos: nat)
    requires |scores| == |labels|
    ensures pos == |Pick(scores, labels, true)|
    ensures |labels| - pos == |Pick(scores, labels, false)|
  {
    pos := 0;
    for k := 0 to |labels|
      invariant pos == |Pick(scores[..k], labels[..k], true)|
      invariant k - pos == |Pick(scores[..k], labels[..k], false)|
    {
      assert scores[..k + 1][..k] == scores[..k] && labels[..k + 1][..k] == labels[..k];
      pos := pos + if labels[k] then 1 else 0;
    }
    assert scores[..|labels|] == scores && labels[..|labels|] == labels;
  }

  method SumRanks(ranks: array<real>, labels: seq<bool>) returns (sum: real)
    requires ranks.Length == |labels|
    ensures sum == LabelSum(ranks[..], labels)
  {
    sum := 0.0;
    for k := 0 to |labels|
      invariant sum == LabelSum(ranks[..k], labels[..k])
    {
      assert ranks[..k + 1][..k] == ranks[..k] && labels[..k + 1][..k] == labels[..k];
      sum := sum + if labels[k] then ranks[k] else 0.0;
    }
    assert ranks[..|labels|] == ranks[..] && labels[..|labels|] == labels;
  }

  /** For every input with both classes the rank-sum formula is the pairwise share of wins over the
      scores as grouped. */
  method Auc(scores: seq<real>, labels: seq<bool>) returns (r: Option<real>, ghost grouped: seq<real>)
    requires |scores| == |labels|
    ensures r.None? <==> !BothClasses(labels)
    ensures GroupedBy(scores, grouped)
    ensures r.Some? ==> |Pick(grouped, labels, true)| > 0 && |Pick(grouped, labels, false)| > 0
                        && r.value == PairwiseAuc(0.0, grouped, labels)
  {
    hide Share, Blocks, Midranked, Permutation, Ascending, GroupedBy, Gather, Pick, Wins, LabelSum, Against;
    var order := SortedOrder(scores, |scores|);
    PermutationIndices(order, |scores|);
    var ranks;
    ghost var anchors;
    ranks, anchors := Midranks(scores, order);
    grouped := Scatter(order, anchors);
    BlocksGroup(scores, order, anchors, grouped);
    RanksByIndex(order, anchors, grouped, ranks[..]);
    PickedClasses(grouped, labels, true);
    PickedClasses(grouped, labels, false);
    var nPos := CountLabels(labels, grouped);
    var nNeg := |labels| - nPos;
    if nPos == 0 || nNeg == 0 {
      return None, grouped;
    }
    var sumPosRanks := SumRanks(ranks, labels);
    var u := sumPosRanks - nPos as real * (nPos as real + 1.0) / 2.0;
    RankSumIdentity(ranks[..], grouped, labels);
    r := Some(Share(u, nPos, nNeg));
  }

  /** The grouping is determined by the scores alone, whatever order ties were sorted into. */
  lemma GroupingIsUnique(scores: seq<real>, a: seq<real>, b: seq<real>)
    requires GroupedBy(scores, a) && GroupedBy(scores, b)
    ensures a == b
  {
    if k0 :| 0 <= k0 < |scores| && a[k0] != b[k0] {
      var k := k0;
      var n := 0;
      while n < |scores|
        invariant n <= |scores| && 0 <= k < |scores| && a[k] != b[k]
        invariant forall l :: 0 <= l < n && a[l] != b[l] ==> scores[k] <= scores[l]
      {
        if a[n] != b[n] && scores[n] < scores[k] {
          k := n;
        }
        n := n + 1;
      }
      if a[k] < b[k] {
        LowestDifference(scores, a, b, k);
      } else {
        LowestDifference(scores, b, a, k);
      }
    }
  }

  lemma LowestDifference(scores: seq<real>, a: seq<real>, b: seq<real>, k: nat)
    requires GroupedBy(scores, a) && GroupedBy(scores, b) && k < |scores| && a[k] < b[k]
    ensures exists l :: 0 <= l < |scores| && a[l] != b[l] && scores[l] < scores[k]
  {
    assert GroupedAt(scores, a, k) && GroupedAt(scores, b, k);
    var l :| 0 <= l < |scores| && scores[l] == a[k];
    assert GroupedAt(scores, a, l) && SameOrApart(a[l], a[k]) && SameOrApart(b[l], b[k]);
    assert a[l] != b[l];
  }

  // ----- a share

  lemma {:induction false} AgainstRange(eps: real, x: real, ys: seq<real>)
    ensures 0.0 <= Against(eps, x, ys) <= |ys| as real
  {
    if ys != [] {
      AgainstRange(eps, x, ys[..|ys| - 1]);
    }
  }

  lemma {:induction false} WinsRange(eps: real, xs: seq<real>, ys: seq<real>)
    ensures 0.0 <= Wins(eps, xs, ys) <= |xs| as real * |ys| as real
  {
    if xs != [] {
      WinsRange(eps, xs[..|xs| - 1], ys);
      AgainstRange(eps, xs[|xs| - 1], ys);
      OneMore(|xs| - 1, |ys| as real);
    }
  }

  // ----- the share, pair by pair

  /** Credit of the positive score at `i` against all negatives, straight from scores and labels. */
  ghost function CreditOf(eps: real, scores: seq<real>, labels: seq<bool>, x: real): real
    requires |scores| == |labels|
  {
    Sum(seq(|scores|, j requires 0 <= j < |scores| =>
      if labels[j] then 0.0
      else if x > scores[j] then 1.0
      else if scores[j] - x < eps || x == scores[j] then 0.5 else 0.0))
  }

  ghost function CreditOfAll(eps: real, scores: seq<real>, labels: seq<bool>, xs: seq<real>, wins: seq<bool>): real
    requires |scores| == |labels| && |xs| == |wins|
  {
    Sum(seq(|xs|, i requires 0 <= i < |xs| => if wins[i] then CreditOf(eps, scores, labels, xs[i]) else 0.0))
  }

  lemma {:induction false} AgainstIsCredit(eps: real, scores: seq<real>, labels: seq<bool>, x: real)
    requires |scores| == |labels|
    ensures Against(eps, x, Pick(scores, labels, false)) == CreditOf(eps, scores, labels, x)
  {
    hide Sum, Against;
    if scores == [] {
      SumOfNone();
      AgainstNobody(eps, x);
    } else {
      var n := |scores| - 1;
      var s, l := scores[..n], labels[..n];
      AgainstIsCredit(eps, s, l, x);
      var earned := seq(n, j requires 0 <= j < n =>
        if l[j] then 0.0 else if x > s[j] then 1.0 else if s[j] - x < eps || x == s[j] then 0.5 else 0.0);
      var last := if labels[n] then 0.0 else Credit(eps, x, scores[n]);
      SumPush(earned, last);
      assert seq(|scores|, j requires 0 <= j < |scores| =>
               if labels[j] then 0.0
               else if x > scores[j] then 1.0
               else if scores[j] - x < eps || x == scores[j] then 0.5 else 0.0) == earned + [last];
      if !labels[n] {
        AgainstAppend(eps, x, Pick(s, l, false), scores[n]);
      } else {
        assert Pick(s, l, false) + [] == Pick(s, l, false);
      }
    }
  }

  lemma AgainstNobody(eps: real, x: real)
    ensures Against(eps, x, []) == 0.0
  {}

  lemma {:induction false} WinsAreCredit(eps: real, scores: seq<real>, labels: seq<bool>, xs: seq<real>,
                                         wins: seq<bool>)
    requires |scores| == |labels| && |xs| == |wins|
    ensures Wins(eps, Pick(xs, wins, true), Pick(scores, labels, false))
            == CreditOfAll(eps, scores, labels, xs, wins)
  {
    hide Sum, Against, CreditOf;
    if xs == [] {
      SumOfNone();
    } else {
      var n := |xs| - 1;
      var neg := Pick(scores, labels, false);
      WinsAreCredit(eps, scores, labels, xs[..n], wins[..n]);
      var earned := seq(n, i requires 0 <= i < n =>
        if wins[..n][i] then CreditOf(eps, scores, labels, xs[..n][i]) else 0.0);
      var last := if wins[n] then CreditOf(eps, scores, labels, xs[n]) else 0.0;
      SumPush(earned, last);
      assert seq(|xs|, i requires 0 <= i < |xs| => if wins[i] then CreditOf(eps, scores, labels, xs[i]) else 0.0)
          == earned + [last];
      var before := Pick(xs[..n], wins[..n], true);
      if wins[n] {
        AgainstIsCredit(eps, scores, labels, xs[n]);
        assert (before + [xs[n]])[..|before|] == before;
      } else {
        assert before + [] == before;
      }
    }
  }

  ghost function Is(want: bool): bool -> bool {
    (l: bool) => l == want
  }

  /** How many carry the label. */
  lemma {:induction false} PickCounts(scores: seq<real>, labels: seq<bool>, want: bool)
    requires |scores| == |labels|
    ensures |Pick(scores, labels, want)| == |Where(labels, Is(want))|
  {
    hide Where;
    if scores == [] {
      WhereNone(Is(want));
    } else {
      PickCounts(scores[..|scores| - 1], labels[..|labels| - 1], want);
      WhereOneMore(labels, Is(want));
    }
  }

  /** The share as its name says: over all pairs of a positive and a negative, one for each that the positive wins
      and a half for each tie, divided by the number of pairs. */
  lemma AucIsPairShare(eps: real, scores: seq<real>, labels: seq<bool>)
    requires |scores| == |labels|
    requires |Pick(scores, labels, true)| > 0 && |Pick(scores, labels, false)| > 0
    ensures var pairs := (|Where(labels, Is(true))| * |Where(labels, Is(false))|) as real;
            PairwiseAuc(eps, scores, labels) * pairs == CreditOfAll(eps, scores, labels, scores, labels)
  {
    hide Wins, Pick, CreditOfAll, Where;
    PickCounts(scores, labels, true);
    PickCounts(scores, labels, false);
    WinsAreCredit(eps, scores, labels, scores, labels);
    var p, n := |Pick(scores, labels, true)|, |Pick(scores, labels, false)|;
    MulPositive(p as real, n as real);
    CastProduct(p, n);
    QuotientTimes(Wins(eps, Pick(scores, labels, true), Pick(scores, labels, false)), p as real * n as real);
  }

  lemma {:induction false} CastProduct(p: nat, n: nat)
    ensures (p * n) as real == p as real * n as real
  {
    if p > 0 {
      CastProduct(p - 1, n);
      assert p * n == (p - 1) * n + n;
      assert p as real == (p - 1) as real + 1.0;
      assert ((p - 1) as real + 1.0) * n as real == (p - 1) as real * n as real + n as real;
    }
  }

  /** Both computations yield a share between zero and one. */
  lemma AucRange(eps: real, scores: seq<real>, labels: seq<bool>)
    requires |scores| == |labels|
    requires |Pick(scores, labels, true)| > 0 && |Pick(scores, labels, false)| > 0
    ensures 0.0 <= PairwiseAuc(eps, scores, labels) <= 1.0
  {
    hide Wins, Pick;
    var pos, neg := Pick(scores, labels, true), Pick(scores, labels, false);
    WinsRange(eps, pos, neg);
    ShareMonotone(0.0, Wins(eps, pos, neg), |pos|, |neg|);
    ShareMonotone(Wins(eps, pos, neg), |pos| as real * |neg| as real, |pos|, |neg|);
  }

  lemma ShareMonotone(a: real, b: real, pos: nat, neg: nat)
    requires pos > 0 && neg > 0
    ensures a <= b ==> Share(a, pos, neg) <= Share(b, pos, neg)
    ensures a < b ==> Share(a, pos, neg) < Share(b, pos, neg)
    ensures Share(0.0, pos, neg) == 0.0 && Share(pos as real * neg as real, pos, neg) == 1.0
  {
    var c := pos as real * neg as real;
    MulPositive(pos as real, neg as real);
    QuotientMonotone(a, b, c);
  }

  lemma QuotientMonotone(a: real, b: real, c: real)
    requires c > 0.0
    ensures a <= b ==> a / c <= b / c
    ensures a < b ==> a / c < b / c
    ensures 0.0 / c == 0.0 && c / c == 1.0
  {}

  // ----- when the two computations agree

  /** No two scores are different and closer than a tie. */
  ghost predicate Separated(scores: seq<real>) {
    forall k, l :: 0 <= k < |scores| && 0 <= l < |scores| ==> SameOrApart(scores[k], scores[l])
  }

  lemma SeparatedScoresStand(scores: seq<real>, anchors: seq<real>)
    requires GroupedBy(scores, anchors) && Separated(scores)
    ensures anchors == scores
  {
    forall k | 0 <= k < |scores| ensures anchors[k] == scores[k] {
      assert GroupedAt(scores, anchors, k);
      var l :| 0 <= l < |scores| && scores[l] == anchors[k];
      assert SameOrApart(scores[k], scores[l]);
    }
  }

  lemma {:induction false} PickedFrom(scores: seq<real>, labels: seq<bool>, want: bool, all: seq<real>)
    requires |scores| == |labels| && forall k :: 0 <= k < |scores| ==> scores[k] in all
    ensures forall k :: 0 <= k < |Pick(scores, labels, want)| ==> Pick(scores, labels, want)[k] in all
  {
    if scores != [] {
      var n := |scores| - 1;
      PickedFrom(scores[..n], labels[..n], want, all);
    }
  }

  lemma {:induction false} AgainstIgnoresEpsilon(x: real, ys: seq<real>)
    requires forall k :: 0 <= k < |ys| ==> SameOrApart(x, ys[k])
    ensures Against(0.0, x, ys) == Against(EPSILON, x, ys)
  {
    if ys != [] {
      AgainstIgnoresEpsilon(x, ys[..|ys| - 1]);
      assert SameOrApart(x, ys[|ys| - 1]);
    }
  }

  lemma {:induction false} WinsIgnoreEpsilon(xs: seq<real>, ys: seq<real>)
    requires forall k, l :: 0 <= k < |xs| && 0 <= l < |ys| ==> SameOrApart(xs[k], ys[l])
    ensures Wins(0.0, xs, ys) == Wins(EPSILON, xs, ys)
  {
    if xs != [] {
      WinsIgnoreEpsilon(xs[..|xs| - 1], ys);
      AgainstIgnoresEpsilon(xs[|xs| - 1], ys);
    }
  }

  /** On one labelling: whenever both classes are present, both computations give the same number. */
  ghost predicate AgreeOn(scores: seq<real>, anchors: seq<real>, labels: seq<bool>)
    requires |scores| == |anchors| == |labels|
  {
    |Pick(scores, labels, true)| > 0 && |Pick(scores, labels, false)| > 0
    && |Pick(anchors, labels, true)| > 0 && |Pick(anchors, labels, false)| > 0 ==>
      PairwiseAuc(0.0, anchors, labels) == PairwiseAuc(EPSILON, scores, labels)
  }

  lemma SeparatedScoresAgree(scores: seq<real>, anchors: seq<real>, labels: seq<bool>)
    requires GroupedBy(scores, anchors) && Separated(scores) && |labels| == |scores|
    ensures AgreeOn(scores, anchors, labels)
  {
    hide Wins, Pick;
    SeparatedScoresStand(scores, anchors);
    var pos, neg := Pick(scores, labels, true), Pick(scores, labels, false);
    PickedFrom(scores, labels, true, scores);
    PickedFrom(scores, labels, false, scores);
    forall k, l | 0 <= k < |pos| && 0 <= l < |neg| ensures SameOrApart(pos[k], neg[l]) {
      assert pos[k] in scores && neg[l] in scores;
    }
    WinsIgnoreEpsilon(pos, neg);
  }

  /** The highest score of a tie group. */
  lemma GroupTop(scores: seq<real>, anchors: seq<real>, k: nat) returns (top: nat)
    requires k < |scores| == |anchors|
    ensures top < |scores| && anchors[top] == anchors[k] && scores[top] >= scores[k]
    ensures forall l :: 0 <= l < |scores| && anchors[l] == anchors[top] ==> scores[l] <= scores[top]
  {
    top := k;
    var n := 0;
    while n < |scores|
      invariant n <= |scores| && top < |scores| && anchors[top] == anchors[k] && scores[top] >= scores[k]
      invariant forall l :: 0 <= l < n && anchors[l] == anchors[top] ==> scores[l] <= scores[top]
    {
      if anchors[n] == anchors[top] && scores[n] > scores[top] {
        top := n;
      }
      n := n + 1;
    }
  }

  /** Scores that are not separated leave some score above the anchor of its group. */
  lemma SomeScoreMoved(scores: seq<real>, anchors: seq<real>) returns (k: nat)
    requires GroupedBy(scores, anchors) && !Separated(scores)
    ensures k < |scores| && anchors[k] < scores[k]
  {
    var x, y :| 0 <= x < |scores| && 0 <= y < |scores| && !SameOrApart(scores[x], scores[y]);
    assert GroupedAt(scores, anchors, x) && GroupedAt(scores, anchors, y) && SameOrApart(anchors[x], anchors[y]);
    k := if anchors[x] < scores[x] then x else y;
  }

  /** The group's top score loses half a win to every lower score of its own group and gains nothing
      elsewhere. */
  lemma TopIsUndercounted(scores: seq<real>, anchors: seq<real>, top: nat, l: nat)
    requires GroupedBy(scores, anchors) && top < |scores| && l < |scores|
    requires forall l :: 0 <= l < |scores| && anchors[l] == anchors[top] ==> scores[l] <= scores[top]
    ensures Credit(0.0, anchors[top], anchors[l]) <= Credit(EPSILON, scores[top], scores[l])
    ensures anchors[l] == anchors[top] && scores[l] < scores[top] ==>
              Credit(0.0, anchors[top], anchors[l]) < Credit(EPSILON, scores[top], scores[l])
  {
    assert GroupedAt(scores, anchors, top) && GroupedAt(scores, anchors, l);
    assert SameOrApart(anchors[top], anchors[l]);
  }

  lemma {:induction false} AgainstCompare(x: real, y: real, xs: seq<real>, ys: seq<real>)
    requires |xs| == |ys|
    requires forall k :: 0 <= k < |xs| ==> Credit(0.0, x, xs[k]) <= Credit(EPSILON, y, ys[k])
    ensures Against(0.0, x, xs) <= Against(EPSILON, y, ys)
    ensures (exists k :: 0 <= k < |xs| && Credit(0.0, x, xs[k]) < Credit(EPSILON, y, ys[k])) ==>
              Against(0.0, x, xs) < Against(EPSILON, y, ys)
  {
    hide Credit;
    if xs != [] {
      var n := |xs| - 1;
      AgainstCompare(x, y, xs[..n], ys[..n]);
      if k :| 0 <= k < |xs| && Credit(0.0, x, xs[k]) < Credit(EPSILON, y, ys[k]) {
        assert k == n || Credit(0.0, x, xs[..n][k]) < Credit(EPSILON, y, ys[..n][k]);
      }
    }
  }

  /** Only index `i` is labelled positive. */
  function Only(n: nat, i: nat): (labels: seq<bool>)
    ensures |labels| == n
  {
    seq(n, k => k == i)
  }

  lemma {:induction false} PickOnly(xs: seq<real>, i: nat)
    requires i < |xs|
    ensures Pick(xs, Only(|xs|, i), true) == [xs[i]]
    ensures Pick(xs, Only(|xs|, i), false) == Without(xs, i)
  {
    var n := |xs| - 1;
    assert Only(|xs|, i)[..n] == Only(n, i);
    if i < n {
      PickOnly(xs[..n], i);
      assert Without(xs, i) == Without(xs[..n], i) + [xs[n]];
    } else {
      PickNone(xs[..n], i);
      assert Without(xs, i) == xs[..n];
    }
  }

  lemma {:induction false} PickNone(xs: seq<real>, i: nat)
    requires i >= |xs|
    ensures Pick(xs, Only(|xs|, i), true) == []
    ensures Pick(xs, Only(|xs|, i), false) == xs
  {
    if xs != [] {
      var n := |xs| - 1;
      assert Only(|xs|, i)[..n] == Only(n, i);
      PickNone(xs[..n], i);
      assert xs == xs[..n] + [xs[n]];
    }
  }

  /** With one positive the share is what that score earns against all others. */
  lemma AucOfOne(eps: real, xs: seq<real>, i: nat)
    requires i < |xs| && |xs| >= 2
    ensures |Pick(xs, Only(|xs|, i), true)| == 1 && |Pick(xs, Only(|xs|, i), false)| == |xs| - 1
    ensures PairwiseAuc(eps, xs, Only(|xs|, i)) == Share(Against(eps, xs[i], Without(xs, i)), 1, |xs| - 1)
  {
    hide Pick, Against;
    PickOnly(xs, i);
    assert [xs[i]][..0] == [];
    assert Wins(eps, [xs[i]], Without(xs, i))
           == Wins(eps, [xs[i]][..0], Without(xs, i)) + Against(eps, xs[i], Without(xs, i));
  }

  /** Without separation there is a labelling on which the two computations differ: the only positive is
      the top of a group that holds different scores. */
  lemma TiedScoresDisagree(scores: seq<real>, anchors: seq<real>) returns (labels: seq<bool>)
    requires GroupedBy(scores, anchors) && !Separated(scores)
    ensures |labels| == |scores| && !AgreeOn(scores, anchors, labels)
  {
    var k := SomeScoreMoved(scores, anchors);
    assert GroupedAt(scores, anchors, k);
    var low :| 0 <= low < |scores| && scores[low] == anchors[k];
    assert GroupedAt(scores, anchors, low) && SameOrApart(anchors[low], anchors[k]);
    var top := GroupTop(scores, anchors, k);
    labels := Only(|scores|, top);
    OnlyTopDisagrees(scores, anchors, top, low);
  }

  lemma OnlyTopDisagrees(scores: seq<real>, anchors: seq<real>, top: nat, low: nat)
    requires GroupedBy(scores, anchors) && top < |scores| && low < |scores|
    requires forall l :: 0 <= l < |scores| && anchors[l] == anchors[top] ==> scores[l] <= scores[top]
    requires anchors[low] == anchors[top] && scores[low] < scores[top]
    ensures !AgreeOn(scores, anchors, Only(|scores|, top))
  {
    hide Against, Pick, Wins, Share, Credit, GroupedBy;
    assert |anchors| == |scores| by {
      GroupedLength(scores, anchors);
    }
    var a, b := Without(anchors, top), Without(scores, top);
    forall l | 0 <= l < |a| ensures Credit(0.0, anchors[top], a[l]) <= Credit(EPSILON, scores[top], b[l]) {
      TopIsUndercounted(scores, anchors, top, if l < top then l else l + 1);
    }
    TopIsUndercounted(scores, anchors, top, low);
    var at := if low < top then low else low - 1;
    assert a[at] == anchors[low] && b[at] == scores[low];
    AgainstCompare(anchors[top], scores[top], a, b);
    AucOfOne(0.0, anchors, top);
    AucOfOne(EPSILON, scores, top);
    ShareMonotone(Against(0.0, anchors[top], a), Against(EPSILON, scores[top], b), 1, |scores| - 1);
  }

  lemma GroupedLength(scores: seq<real>, anchors: seq<real>)
    requires GroupedBy(scores, anchors)
    ensures |anchors| == |scores|
  {}

  /** The sort-and-midrank AUC is the pairwise AUC on every labelling exactly when no two different
      scores are closer than the tie tolerance. */
  lemma AucsAgreeExactlyWhenSeparated(scores: seq<real>, anchors: seq<real>)
    requires GroupedBy(scores, anchors)
    ensures (forall labels: seq<bool> :: |labels| == |scores| ==> AgreeOn(scores, anchors, labels))
            <==> Separated(scores)
  {
    if Separated(scores) {
      forall labels: seq<bool> | |labels| == |scores| ensures AgreeOn(scores, anchors, labels) {
        SeparatedScoresAgree(scores, anchors, labels);
      }
    } else {
      var labels := TiedScoresDisagree(scores, anchors);
    }
  }
}
