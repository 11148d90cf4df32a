/** Quartile buckets and the pass rates counted in them.

    `PassPredictor` in crates/firstpass-bench/src/costaware.rs buckets by realised cost, `ExAntePredictor`
    in crates/firstpass-bench/src/jev_replay.rs by prompt length; `blended_r0` there weighs a bucket
    against a prior. */
module Buckets {
  import opened Lists
  import opened Reals

  const BUCKETS: nat := 4
  const BLEND_STRENGTH := 10.0

  /** Upper edge of a bucket. */
  datatype Edge = At(value: real) | Infinity

  predicate Within(x: real, e: Edge) { e.Infinity? || x <= e.value }

  /** A calibration example: the feature, and whether rung 0 cleared its gate. */
  datatype Point = Point(x: real, pass: bool)

  datatype Predictor = Predictor(edges: seq<Edge>, hit: seq<nat>, seen: seq<nat>, base: real)

  // ----- quartile edges

  function Features(points: seq<Point>): (xs: seq<real>)
    ensures |xs| == |points|
  {
    seq(|points|, i requires 0 <= i < |points| => points[i].x)
  }

  /** Where the edge above bucket `b` is read in `n` sorted features. */
  function EdgeIndex(b: nat, n: nat): (k: nat)
    requires b < BUCKETS - 1
    ensures n > 0 ==> k < n
  {
    if b == 0 then n / 4 else if b == 1 then 2 * n / 4 else 3 * n / 4
  }

  function EdgeAt(sorted: seq<real>, b: nat): Edge {
    if b < BUCKETS - 1 && sorted != [] then At(sorted[EdgeIndex(b, |sorted|)]) else Infinity
  }

  function Edges(points: seq<Point>): (edges: seq<Edge>)
    ensures |edges| == BUCKETS && edges[BUCKETS - 1] == Infinity
  {
    var sorted := Sorted(Features(points));
    [EdgeAt(sorted, 0), EdgeAt(sorted, 1), EdgeAt(sorted, 2), EdgeAt(sorted, 3)]
  }

  /** The first bucket whose edge is not exceeded. */
  function BucketFrom(edges: seq<Edge>, x: real, b: nat): (c: nat)
    requires |edges| == BUCKETS && edges[BUCKETS - 1] == Infinity && b < BUCKETS
    requires forall j :: 0 <= j < b ==> !Within(x, edges[j])
    ensures c < BUCKETS && Within(x, edges[c])
    ensures forall j :: 0 <= j < c ==> !Within(x, edges[j])
    decreases BUCKETS - b
  {
    if Within(x, edges[b]) then b else BucketFrom(edges, x, b + 1)
  }

  function BucketOf(edges: seq<Edge>, x: real): (c: nat)
    requires |edges| == BUCKETS && edges[BUCKETS - 1] == Infinity
    ensures c < BUCKETS
  {
    BucketFrom(edges, x, 0)
  }

  // ----- counting

  /** Calibration examples in bucket `b`. */
  function Seen(points: seq<Point>, edges: seq<Edge>, b: nat): nat
    requires |edges| == BUCKETS && edges[BUCKETS - 1] == Infinity
  {
    if points == [] then 0
    else Seen(points[..|points| - 1], edges, b) + if BucketOf(edges, points[|points| - 1].x) == b then 1 else 0
  }

  /** Those of them that passed. */
  function Hit(points: seq<Point>, edges: seq<Edge>, b: nat): (n: nat)
    requires |edges| == BUCKETS && edges[BUCKETS - 1] == Infinity
    ensures n <= Seen(points, edges, b)
  {
    if points == [] then 0
    else
      var last := points[|points| - 1];
      Hit(points[..|points| - 1], edges, b) + if BucketOf(edges, last.x) == b && last.pass then 1 else 0
  }

  function Passed(points: seq<Point>): (n: nat)
    ensures n <= |points|
  {
    if points == [] then 0 else Passed(points[..|points| - 1]) + if points[|points| - 1].pass then 1 else 0
  }

  function BaseRate(passed: nat, n: nat): real {
    if n == 0 then 0.0 else passed as real / n as real
  }

  /** What fitting computes from the examples of a calibration fold of `n` tasks. */
  function Fitted(points: seq<Point>, n: nat): (p: Predictor)
    ensures |p.edges| == |p.hit| == |p.seen| == BUCKETS && p.edges[BUCKETS - 1] == Infinity
  {
    var edges := Edges(points);
    Predictor(edges, HitCounts(points, edges), SeenCounts(points, edges), BaseRate(Passed(points), n))
  }

  function HitCounts(points: seq<Point>, edges: seq<Edge>): (hit: seq<nat>)
    requires |edges| == BUCKETS && edges[BUCKETS - 1] == Infinity
    ensures |hit| == BUCKETS && forall b :: 0 <= b < BUCKETS ==> hit[b] == Hit(points, edges, b)
  {
    [Hit(points, edges, 0), Hit(points, edges, 1), Hit(points, edges, 2), Hit(points, edges, 3)]
  }

  function SeenCounts(points: seq<Point>, edges: seq<Edge>): (seen: seq<nat>)
    requires |edges| == BUCKETS && edges[BUCKETS - 1] == Infinity
    ensures |seen| == BUCKETS && forall b :: 0 <= b < BUCKETS ==> seen[b] == Seen(points, edges, b)
  {
    [Seen(points, edges, 0), Seen(points, edges, 1), Seen(points, edges, 2), Seen(points, edges, 3)]
  }

  method Fit(points: seq<Point>, n: nat) returns (p: Predictor)
    ensures p == Fitted(points, n)
  {
    hide BucketOf, Edges, Seen, Hit, Passed, BaseRate;
    var edges := Edges(points);
    CountNothing(edges);
    var hit, seen := new nat[BUCKETS](_ => 0), new nat[BUCKETS](_ => 0);
    var passed: nat := 0;
    for i := 0 to |points|
      invariant passed == Passed(points[..i])
      invariant forall b :: 0 <= b < BUCKETS ==> seen[b] == Seen(points[..i], edges, b)
      invariant forall b :: 0 <= b < BUCKETS ==> hit[b] == Hit(points[..i], edges, b)
    {
      CountOneMore(points, i, edges);
      var b := BucketOf(edges, points[i].x);
      seen[b] := seen[b] + 1;
      if points[i].pass {
        hit[b] := hit[b] + 1;
        passed := passed + 1;
      }
    }
    assert points[..|points|] == points;
    assert hit[..] == HitCounts(points, edges) && seen[..] == SeenCounts(points, edges);
    p := Predictor(edges, hit[..], seen[..], BaseRate(passed, n));
  }

  lemma CountNothing(edges: seq<Edge>)
    requires |edges| == BUCKETS && edges[BUCKETS - 1] == Infinity
    ensures Passed([]) == 0
    ensures forall b :: Seen([], edges, b) == 0 && Hit([], edges, b) == 0
  {}

  lemma CountPush(points: seq<Point>, last: Point, edges: seq<Edge>, b: nat)
    requires |edges| == BUCKETS && edges[BUCKETS - 1] == Infinity
    ensures Seen(points + [last], edges, b) == Seen(points, edges, b) + if BucketOf(edges, last.x) == b then 1 else 0
    ensures Hit(points + [last], edges, b)
         == Hit(points, edges, b) + if BucketOf(edges, last.x) == b && last.pass then 1 else 0
  {
    hide BucketOf;
    assert (points + [last])[..|points|] == points;
  }

  lemma CountOneMore(points: seq<Point>, i: nat, edges: seq<Edge>)
    requires |edges| == BUCKETS && edges[BUCKETS - 1] == Infinity && i < |points|
    ensures Passed(points[..i + 1]) == Passed(points[..i]) + if points[i].pass then 1 else 0
    ensures forall b :: Seen(points[..i + 1], edges, b)
                     == Seen(points[..i], edges, b) + if BucketOf(edges, points[i].x) == b then 1 else 0
    ensures forall b :: Hit(points[..i + 1], edges, b)
                     == Hit(points[..i], edges, b)
                         + if BucketOf(edges, points[i].x) == b && points[i].pass then 1 else 0
  {
    hide BucketOf;
    assert points[..i + 1][..i] == points[..i];
  }

  function RateOf(hit: nat, seen: nat, base: real): real {
    if seen > 0 then hit as real / seen as real else base
  }

  /** The rate of the bucket `x` falls in, the base rate if that bucket is empty. */
  function Rate(p: Predictor, x: real): real
    requires |p.edges| == |p.hit| == |p.seen| == BUCKETS && p.edges[BUCKETS - 1] == Infinity
  {
    var b := BucketOf(p.edges, x);
    RateOf(p.hit[b], p.seen[b], p.base)
  }

  function Counts(p: Predictor, x: real): (nat, nat)
    requires |p.edges| == |p.hit| == |p.seen| == BUCKETS && p.edges[BUCKETS - 1] == Infinity
  {
    var b := BucketOf(p.edges, x);
    (p.hit[b], p.seen[b])
  }

  /** The prior with the weight of ten examples, next to the bucket's own. */
  function Blended(prior: real, hit: nat, seen: nat): real {
    (BLEND_STRENGTH * prior + hit as real) / (BLEND_STRENGTH + seen as real)
  }

  // ----- rates are probabilities

  lemma ShareInUnit(k: nat, n: nat)
    requires k <= n && n > 0
    ensures 0.0 <= k as real / n as real <= 1.0
  {
    QuotientNonNegative(k as real, n as real);
    QuotientTimes(k as real, n as real);
    NonNegativeFactor(1.0 - k as real / n as real, n as real);
  }

  lemma RatesAreProbabilities(points: seq<Point>, n: nat, x: real)
    requires n >= |points|
    ensures 0.0 <= Rate(Fitted(points, n), x) <= 1.0
    ensures var (hit, seen) := Counts(Fitted(points, n), x); hit <= seen
  {
    var p := Fitted(points, n);
    var b := BucketOf(p.edges, x);
    assert p.hit[b] == Hit(points, p.edges, b) && p.seen[b] == Seen(points, p.edges, b);
    if p.seen[b] > 0 {
      ShareInUnit(p.hit[b], p.seen[b]);
    } else if n > 0 {
      ShareInUnit(Passed(points), n);
    }
  }

  /** The blend is the prior where nothing was seen; otherwise it lies between prior and bucket rate, and
      ten examples' worth of the distance to the bucket rate is left. */
  lemma BlendIsWeightedMean(prior: real, hit: nat, seen: nat)
    requires 0.0 <= prior <= 1.0 && hit <= seen
    ensures 0.0 <= Blended(prior, hit, seen) <= 1.0
    ensures seen == 0 ==> Blended(prior, hit, seen) == prior
    ensures seen > 0 ==>
              var rate := hit as real / seen as real;
              && (10.0 + seen as real) * (Blended(prior, hit, seen) - rate) == 10.0 * (prior - rate)
              && (prior <= rate ==> prior <= Blended(prior, hit, seen) <= rate)
              && (rate <= prior ==> rate <= Blended(prior, hit, seen) <= prior)
  {
    var s := seen as real;
    if seen == 0 {
      BlendBetween(prior, 0.0, 0.0);
      assert Blended(prior, hit, seen) == (BLEND_STRENGTH * prior + 0.0 * 0.0) / (BLEND_STRENGTH + 0.0);
    } else {
      var rate := hit as real / s;
      HitsAreRate(hit, seen);
      ShareInUnit(hit, seen);
      BlendBetween(prior, rate, s);
      assert Blended(prior, hit, seen) == (BLEND_STRENGTH * prior + rate * s) / (BLEND_STRENGTH + s);
    }
  }

  lemma HitsAreRate(hit: nat, seen: nat)
    requires seen > 0
    ensures (hit as real / seen as real) * seen as real == hit as real
  {}

  lemma BlendBetween(prior: real, rate: real, s: real)
    requires s >= 0.0
    ensures var blend := (BLEND_STRENGTH * prior + rate * s) / (BLEND_STRENGTH + s);
            && (BLEND_STRENGTH + s) * (blend - rate) == BLEND_STRENGTH * (prior - rate)
            && (prior <= rate ==> prior <= blend <= rate)
            && (rate <= prior ==> rate <= blend <= prior)
            && (s == 0.0 ==> blend == prior)
  {
    var w := BLEND_STRENGTH + s;
    var blend := (BLEND_STRENGTH * prior + rate * s) / w;
    QuotientTimes(BLEND_STRENGTH * prior + rate * s, w);
    assert (blend - rate) * w == BLEND_STRENGTH * (prior - rate);
    assert (blend - prior) * w == s * (rate - prior);
    if prior <= rate {
      MulNonNegative(s, rate - prior);
      NonNegativeFactor(blend - prior, w);
      assert (rate - blend) * w == BLEND_STRENGTH * (rate - prior);
      NonNegativeFactor(rate - blend, w);
    }
    if rate <= prior {
      MulNonNegative(s, prior - rate);
      assert (prior - blend) * w == s * (prior - rate);
      NonNegativeFactor(prior - blend, w);
      NonNegativeFactor(blend - rate, w);
    }
  }

  // ----- the predicted rate, in counts

  /** `x` falls in bucket `b`: within its edge and beyond every edge before it. */
  ghost predicate InBucket(edges: seq<Edge>, x: real, b: nat)
    requires |edges| == BUCKETS
  {
    && b < BUCKETS && (edges[b].Infinity? || x <= edges[b].value)
    && forall j :: 0 <= j < b ==> edges[j].At? && x > edges[j].value
  }

  lemma BucketIsUnique(edges: seq<Edge>, x: real, b: nat)
    requires |edges| == BUCKETS && edges[BUCKETS - 1] == Infinity && InBucket(edges, x, b)
    ensures BucketOf(edges, x) == b
  {
    var c := BucketOf(edges, x);
    assert Within(x, edges[c]) && Within(x, edges[b]);
    assert forall j :: 0 <= j < b ==> !Within(x, edges[j]);
  }

  ghost function InIt(edges: seq<Edge>, b: nat): Point -> bool
    requires |edges| == BUCKETS
  {
    (q: Point) => InBucket(edges, q.x, b)
  }

  ghost function PassingInIt(edges: seq<Edge>, b: nat): Point -> bool
    requires |edges| == BUCKETS
  {
    (q: Point) => InBucket(edges, q.x, b) && q.pass
  }

  ghost function Passing(): Point -> bool {
    (q: Point) => q.pass
  }

  lemma ABucketForAll(edges: seq<Edge>, x: real, b: nat)
    requires |edges| == BUCKETS && edges[BUCKETS - 1] == Infinity
    ensures InBucket(edges, x, b) <==> BucketOf(edges, x) == b
  {
    if InBucket(edges, x, b) {
      BucketIsUnique(edges, x, b);
    }
  }

  lemma {:induction false} BucketCounts(points: seq<Point>, edges: seq<Edge>, b: nat)
    requires |edges| == BUCKETS && edges[BUCKETS - 1] == Infinity
    ensures Seen(points, edges, b) == |Where(points, InIt(edges, b))|
    ensures Hit(points, edges, b) == |Where(points, PassingInIt(edges, b))|
    ensures Passed(points) == |Where(points, Passing())|
  {
    hide BucketOf, InBucket, Where;
    if points == [] {
      WhereNone(InIt(edges, b));
      WhereNone(PassingInIt(edges, b));
      WhereNone(Passing());
    } else {
      BucketCounts(points[..|points| - 1], edges, b);
      ABucketForAll(edges, points[|points| - 1].x, b);
      WhereOneMore(points, InIt(edges, b));
      WhereOneMore(points, PassingInIt(edges, b));
      WhereOneMore(points, Passing());
    }
  }

  /** The predicted rate is the share of the examples in the same bucket that passed; where that bucket is empty it
      is the share of all tasks of the fold, and zero without any. */
  lemma RateIsShare(points: seq<Point>, n: nat, x: real, b: nat)
    requires InBucket(Edges(points), x, b)
    ensures var mates := |Where(points, InIt(Edges(points), b))|;
            var passing := |Where(points, PassingInIt(Edges(points), b))|;
            && Counts(Fitted(points, n), x) == (passing, mates)
            && (mates > 0 ==> Rate(Fitted(points, n), x) * mates as real == passing as real)
            && (mates == 0 && n > 0 ==>
                  Rate(Fitted(points, n), x) * n as real == |Where(points, Passing())| as real)
            && (mates == 0 && n == 0 ==> Rate(Fitted(points, n), x) == 0.0)
  {
    hide Seen, Hit, Passed, BucketOf, Edges, Where, InBucket;
    var p := Fitted(points, n);
    BucketIsUnique(p.edges, x, b);
    BucketCounts(points, p.edges, b);
    if p.seen[b] > 0 {
      QuotientTimes(p.hit[b] as real, p.seen[b] as real);
    } else if n > 0 {
      QuotientTimes(Passed(points) as real, n as real);
    }
  }

  // ----- the buckets are quartiles

  /** Examples in buckets `0` to `b`. */
  function SeenUpTo(points: seq<Point>, edges: seq<Edge>, b: nat): nat
    requires |edges| == BUCKETS && edges[BUCKETS - 1] == Infinity
  {
    Seen(points, edges, b) + if b == 0 then 0 else SeenUpTo(points, edges, b - 1)
  }

  ghost predicate EdgesAscend(edges: seq<Edge>) {
    forall a, b :: 0 <= a <= b < |edges| ==> edges[b].Infinity? || (edges[a].At? && edges[a].value <= edges[b].value)
  }

  lemma FittedEdgesAscend(points: seq<Point>)
    ensures EdgesAscend(Edges(points))
  {
    var sorted := Sorted(Features(points));
    forall b | 0 <= b < BUCKETS ensures Edges(points)[b] == EdgeAt(sorted, b) {
      EdgeRead(points, b);
    }
  }

  lemma BucketAtMost(edges: seq<Edge>, x: real, b: nat)
    requires |edges| == BUCKETS && edges[BUCKETS - 1] == Infinity && EdgesAscend(edges) && b < BUCKETS
    ensures BucketOf(edges, x) <= b <==> Within(x, edges[b])
  {
    var c := BucketOf(edges, x);
    if c <= b {
      assert edges[b].Infinity? || (edges[c].At? && edges[c].value <= edges[b].value);
    }
  }

  lemma {:induction false} SeenUpToStep(points: seq<Point>, edges: seq<Edge>, b: nat)
    requires |edges| == BUCKETS && edges[BUCKETS - 1] == Infinity && points != []
    ensures SeenUpTo(points, edges, b)
         == SeenUpTo(points[..|points| - 1], edges, b) + if BucketOf(edges, points[|points| - 1].x) <= b then 1 else 0
    decreases b
  {
    hide BucketOf;
    if b > 0 {
      SeenUpToStep(points, edges, b - 1);
    }
  }

  lemma {:induction false} SeenNothing(edges: seq<Edge>, b: nat)
    requires |edges| == BUCKETS && edges[BUCKETS - 1] == Infinity
    ensures SeenUpTo([], edges, b) == 0
  {
    if b > 0 {
      SeenNothing(edges, b - 1);
    }
  }

  lemma {:induction false} SeenUpToCounts(points: seq<Point>, edges: seq<Edge>, b: nat)
    requires |edges| == BUCKETS && edges[BUCKETS - 1] == Infinity && EdgesAscend(edges) && b < BUCKETS
    ensures SeenUpTo(points, edges, b)
         == if edges[b].At? then AtMost(Features(points), edges[b].value) else |points|
  {
    hide BucketOf, EdgesAscend, SeenUpTo, AtMost;
    if points == [] {
      SeenNothing(edges, b);
      if edges[b].At? {
        NothingCounted(edges[b].value);
      }
      assert Features(points) == [];
    } else {
      var n := |points| - 1;
      SeenUpToCounts(points[..n], edges, b);
      SeenUpToStep(points, edges, b);
      BucketAtMost(edges, points[n].x, b);
      assert Features(points) == Features(points[..n]) + [points[n].x];
      if edges[b].At? {
        CountsPush(Features(points[..n]), points[n].x, edges[b].value);
      }
    }
  }

  lemma EdgeRead(points: seq<Point>, b: nat)
    requires b < BUCKETS
    ensures Edges(points)[b] == EdgeAt(Sorted(Features(points)), b)
  {}

  /** Each edge is a quartile: more than a quarter (half, three quarters) of the examples, rounded down, fall
      in the buckets up to it, at most that share strictly below it, and all of them in the four together. */
  lemma BucketsAreQuartiles(points: seq<Point>, b: nat)
    requires points != [] && b < 4
    ensures var edges := Edges(points);
            if b < 3 then
              && edges[b].At?
              && SeenUpTo(points, edges, b) > (b + 1) * |points| / 4
              && Below(Features(points), edges[b].value) <= (b + 1) * |points| / 4
            else SeenUpTo(points, edges, b) == |points|
  {
    hide SeenUpTo, AtMost, Below, Sorted, Edges;
    FittedEdgesAscend(points);
    SeenUpToCounts(points, Edges(points), b);
    EdgeRead(points, b);
    if b < BUCKETS - 1 {
      SortedEntryIsQuantile(Features(points), EdgeIndex(b, |points|));
    }
  }
}
