/** Two-fold cross-fitting by task parity (crates/firstpass-bench/src/jev_replay.rs, and the `study` functions
    of crates/firstpass-bench/src/competitors.rs and crates/firstpass-bench/src/costaware.rs). */
module CrossFit {
  import opened Lists
  import opened Reals
  import opened Matrix
  import opened Buckets
  import Prior
  import StartRung
  import Conformal

  type Row = seq<RungOutcome>

  /** A measured task. */
  datatype Task = Task(id: string, rungs: Row)

  datatype PriorRecord = PriorRecord(rawOk: bool, probs: Option<seq<real>>)

  // ----- folds

  /** The elements at the positions of one parity, in order. */
  function Fold<T>(xs: seq<T>, parity: nat): seq<T> {
    if xs == [] then []
    else
      var n := |xs| - 1;
      Fold(xs[..n], parity) + if n % 2 == parity then [xs[n]] else []
  }

  method StepByTwo<T>(xs: seq<T>, skip: nat) returns (fold: seq<T>)
    requires skip < 2
    ensures fold == Fold(xs, skip)
    ensures EveryOther(xs, skip, fold)
  {
    hide EveryOther;
    FoldIsEveryOther(xs, skip);
    fold := [];
    var i := skip;
    FoldStart(xs, skip);
    while i < |xs|
      invariant i % 2 == skip
      invariant i <= |xs| ==> fold == Fold(xs[..i], skip)
      invariant i > |xs| ==> fold == Fold(xs, skip)
      decreases |xs| - i
    {
      FoldStep(xs, i, skip);
      if i + 1 < |xs| {
        FoldStep(xs, i + 1, skip);
      } else {
        assert xs[..i + 1] == xs;
      }
      fold := fold + [xs[i]];
      i := i + 2;
    }
    assert i <= |xs| ==> xs[..i] == xs;
  }

  lemma FoldStep<T>(xs: seq<T>, i: nat, parity: nat)
    requires i < |xs|
    ensures Fold(xs[..i + 1], parity) == Fold(xs[..i], parity) + if i % 2 == parity then [xs[i]] else []
  {
    assert xs[..i + 1][..i] == xs[..i];
  }

  lemma FoldStart<T>(xs: seq<T>, skip: nat)
    requires skip < 2
    ensures skip <= |xs| ==> Fold(xs[..skip], skip) == []
    ensures skip > |xs| ==> Fold(xs, skip) == []
  {
    if skip == 1 && |xs| >= 1 {
      FoldStep(xs, 0, 1);
    }
  }

  /** A fold looks at nothing of the other parity. */
  lemma {:induction false} FoldIgnoresTheOther<T>(xs: seq<T>, ys: seq<T>, parity: nat)
    requires |xs| == |ys| && forall j :: 0 <= j < |xs| && j % 2 == parity ==> xs[j] == ys[j]
    ensures Fold(xs, parity) == Fold(ys, parity)
  {
    if xs != [] {
      FoldIgnoresTheOther(xs[..|xs| - 1], ys[..|ys| - 1], parity);
    }
  }

  ghost predicate EveryOther<T>(xs: seq<T>, parity: nat, fold: seq<T>) {
    && |fold| == (|xs| + 1 - parity) / 2
    && forall k :: 0 <= k < |fold| ==> 2 * k + parity < |xs| && fold[k] == xs[2 * k + parity]
  }

  /** A fold holds every other element, in order. */
  lemma {:induction false} FoldIsEveryOther<T>(xs: seq<T>, parity: nat)
    requires parity < 2
    ensures EveryOther(xs, parity, Fold(xs, parity))
  {
    hide Fold, EveryOther;
    if xs == [] {
      EmptyFold<T>(parity);
      NoneOfNothing<T>(parity);
    } else {
      var n := |xs| - 1;
      FoldIsEveryOther(xs[..n], parity);
      FoldStep(xs, n, parity);
      assert xs[..n + 1] == xs;
      OneMoreOfTwo(xs, parity, Fold(xs[..n], parity));
    }
  }

  lemma NoneOfNothing<T>(parity: nat)
    requires parity < 2
    ensures EveryOther<T>([], parity, [])
  {}

  lemma OneMoreOfTwo<T>(xs: seq<T>, parity: nat, fold: seq<T>)
    requires parity < 2 && xs != [] && EveryOther(xs[..|xs| - 1], parity, fold)
    ensures EveryOther(xs, parity, fold + if (|xs| - 1) % 2 == parity then [xs[|xs| - 1]] else [])
  {
    var n := |xs| - 1;
    var all := fold + if n % 2 == parity then [xs[n]] else [];
    forall k | 0 <= k < |all| ensures 2 * k + parity < |xs| && all[k] == xs[2 * k + parity] {
      if k < |fold| {
        assert fold[k] == xs[..n][2 * k + parity];
      } else {
        assert 2 * k + parity == n;
      }
    }
  }

  lemma {:induction false} FoldsCoverOnce<T>(xs: seq<T>)
    ensures multiset(Fold(xs, 1)) + multiset(Fold(xs, 0)) == multiset(xs)
  {
    hide Fold;
    if xs == [] {
      EmptyFold<T>(0);
      EmptyFold<T>(1);
    } else {
      var n := |xs| - 1;
      FoldsCoverOnce(xs[..n]);
      FoldStep(xs, n, 0);
      FoldStep(xs, n, 1);
      assert xs[..n + 1] == xs && xs == xs[..n] + [xs[n]];
      PushCounts(xs[..n], xs[n]);
      PushCounts(Fold(xs[..n], n % 2), xs[n]);
      NothingPushed(Fold(xs[..n], 1 - n % 2));
    }
  }

  lemma NothingPushed<T>(xs: seq<T>)
    ensures xs + [] == xs
  {}

  lemma PushCounts<T>(xs: seq<T>, x: T)
    ensures multiset(xs + [x]) == multiset(xs) + multiset{x}
  {}

  lemma EmptyFold<T>(parity: nat)
    ensures Fold<T>([], parity) == []
  {}

  // ----- what is fitted on a fold

  function Rungs(tasks: seq<Task>): (rows: seq<Row>)
    ensures |rows| == |tasks|
  {
    seq(|tasks|, i requires 0 <= i < |tasks| => tasks[i].rungs)
  }

  function CostsAt(fold: seq<Row>, r: nat): seq<real> {
    if fold == [] then []
    else
      var last := fold[|fold| - 1];
      CostsAt(fold[..|fold| - 1], r) + if r < |last| then [last[r].cost] else []
  }

  function Mean(xs: seq<real>): real {
    if xs == [] then 0.0 else Sum(xs) / |xs| as real
  }

  function MeanCosts(fold: seq<Row>, n: nat): (price: seq<real>)
    ensures |price| == n
  {
    seq(n, r requires 0 <= r < n => Mean(CostsAt(fold, r)))
  }

  lemma CostsAtStep(fold: seq<Row>, i: nat, r: nat)
    requires i < |fold|
    ensures CostsAt(fold[..i + 1], r)
         == if r < |fold[i]| then CostsAt(fold[..i], r) + [fold[i][r].cost] else CostsAt(fold[..i], r)
  {
    assert fold[..i + 1][..i] == fold[..i];
    assert CostsAt(fold[..i], r) + [] == CostsAt(fold[..i], r);
  }

  method MeanCostPerRung(fold: seq<Row>, n: nat) returns (price: seq<real>)
    ensures price == MeanCosts(fold, n)
  {
    price := [];
    for r := 0 to n
      invariant |price| == r && forall q :: 0 <= q < r ==> price[q] == Mean(CostsAt(fold, q))
    {
      var total, count := 0.0, 0;
      for i := 0 to |fold|
        invariant total == Sum(CostsAt(fold[..i], r)) && count == |CostsAt(fold[..i], r)|
      {
        CostsAtStep(fold, i, r);
        if r < |fold[i]| {
          SumPush(CostsAt(fold[..i], r), fold[i][r].cost);
          total := total + fold[i][r].cost;
          count := count + 1;
        }
      }
      assert fold[..|fold|] == fold;
      price := price + [if count == 0 then 0.0 else total / count as real];
    }
  }

  /** The mean cost of a rung times the rows that have it is what it cost them; no row, no cost. */
  lemma MeanCostsTheRows(fold: seq<Row>, n: nat, r: nat)
    requires r < n
    ensures MeanCosts(fold, n)[r] * |Having(fold, r)| as real == Sum(PaidAt(fold, r))
    ensures Having(fold, r) == {} ==> MeanCosts(fold, n)[r] == 0.0
  {
    hide Sum, Having, PaidAt, CostsAt;
    CostsAtCount(fold, r);
    var xs := CostsAt(fold, r);
    SumOfNone();
    if xs != [] {
      QuotientTimes(Sum(xs), |xs| as real);
    }
  }

  /** What the rows paid at rung `r`, nothing for a row without it. */
  ghost function PaidAt(fold: seq<Row>, r: nat): (costs: seq<real>)
    ensures |costs| == |fold|
  {
    seq(|fold|, i requires 0 <= i < |fold| => if r < |fold[i]| then fold[i][r].cost else 0.0)
  }

  ghost function HasRung(r: nat): Row -> bool {
    (row: Row) => r < |row|
  }

  ghost function Having(fold: seq<Row>, r: nat): set<int> { Where(fold, HasRung(r)) }

  lemma HavingOneMore(fold: seq<Row>, r: nat)
    requires fold != []
    ensures var n := |fold| - 1;
            && |Having(fold, r)| == |Having(fold[..n], r)| + (if r < |fold[n]| then 1 else 0)
            && PaidAt(fold, r) == PaidAt(fold[..n], r) + [if r < |fold[n]| then fold[n][r].cost else 0.0]
  {
    hide Where;
    WhereOneMore(fold, HasRung(r));
  }

  lemma {:induction false} CostsAtCount(fold: seq<Row>, r: nat)
    ensures |CostsAt(fold, r)| == |Having(fold, r)|
    ensures Sum(CostsAt(fold, r)) == Sum(PaidAt(fold, r))
  {
    hide Sum, Having, PaidAt;
    if fold == [] {
      NoRowHas(r);
    } else {
      var n := |fold| - 1;
      CostsAtCount(fold[..n], r);
      CostsAtStep(fold, n, r);
      assert fold[..n + 1] == fold;
      HavingOneMore(fold, r);
      var cost := if r < |fold[n]| then fold[n][r].cost else 0.0;
      SumPush(PaidAt(fold[..n], r), cost);
      SumPush(CostsAt(fold[..n], r), cost);
    }
  }

  lemma NoRowHas(r: nat)
    ensures Having([], r) == {} && PaidAt([], r) == []
  {
    WhereNone(HasRung(r));
  }

  predicate CheapPasses(row: Row) { row != [] && row[0].gateFullPass }

  /** Prompt length against rung-0 success, for the tasks whose prompt is known. */
  function LengthPoints(fold: seq<Task>, chars: map<string, real>): seq<Point> {
    if fold == [] then []
    else
      var last := fold[|fold| - 1];
      LengthPoints(fold[..|fold| - 1], chars)
      + if last.id in chars then [Point(chars[last.id], CheapPasses(last.rungs))] else []
  }

  /** Realised rung-0 cost against rung-0 success. */
  function CostPoints(fold: seq<Row>): (points: seq<Point>)
    ensures |points| <= |fold|
  {
    if fold == [] then []
    else
      var last := fold[|fold| - 1];
      CostPoints(fold[..|fold| - 1]) + if last != [] then [Point(last[0].cost, last[0].gateFullPass)] else []
  }

  method CollectLengths(fold: seq<Task>, chars: map<string, real>) returns (points: seq<Point>)
    ensures points == LengthPoints(fold, chars)
  {
    points := [];
    for i := 0 to |fold|
      invariant points == LengthPoints(fold[..i], chars)
    {
      assert fold[..i + 1][..i] == fold[..i];
      if fold[i].id in chars {
        points := points + [Point(chars[fold[i].id], CheapPasses(fold[i].rungs))];
      }
    }
    assert fold[..|fold|] == fold;
  }

  method CollectCosts(fold: seq<Row>) returns (points: seq<Point>)
    ensures points == CostPoints(fold)
  {
    points := [];
    for i := 0 to |fold|
      invariant points == CostPoints(fold[..i])
    {
      assert fold[..i + 1][..i] == fold[..i];
      if fold[i] != [] {
        points := points + [Point(fold[i][0].cost, fold[i][0].gateFullPass)];
      }
    }
    assert fold[..|fold|] == fold;
  }

  lemma {:induction false} LengthPointsAppend(a: seq<Task>, b: seq<Task>, chars: map<string, real>)
    ensures LengthPoints(a + b, chars) == LengthPoints(a, chars) + LengthPoints(b, chars)
    decreases |b|
  {
    hide CheapPasses;
    if b == [] {
      assert a + b == a;
    } else {
      assert (a + b)[..|a + b| - 1] == a + b[..|b| - 1];
      LengthPointsAppend(a, b[..|b| - 1], chars);
    }
  }

  lemma {:induction false} CostPointsAppend(a: seq<Row>, b: seq<Row>)
    ensures CostPoints(a + b) == CostPoints(a) + CostPoints(b)
    decreases |b|
  {
    if b == [] {
      assert a + b == a;
    } else {
      assert (a + b)[..|a + b| - 1] == a + b[..|b| - 1];
      CostPointsAppend(a, b[..|b| - 1]);
    }
  }

  /** The examples of several tasks follow one another; a task gives one of its prompt length if that is known, and
      one of its cheap attempt's cost if it has a rung, both with whether that attempt passed its gate. */
  lemma PointsFollow(a: seq<Task>, b: seq<Task>, task: Task, chars: map<string, real>)
    ensures LengthPoints(a + b, chars) == LengthPoints(a, chars) + LengthPoints(b, chars)
    ensures CostPoints(Rungs(a + b)) == CostPoints(Rungs(a)) + CostPoints(Rungs(b))
    ensures LengthPoints([task], chars)
            == if task.id !in chars then []
               else [Point(chars[task.id], task.rungs != [] && task.rungs[0].gateFullPass)]
    ensures CostPoints(Rungs([task]))
            == if task.rungs == [] then [] else [Point(task.rungs[0].cost, task.rungs[0].gateFullPass)]
  {
    hide CheapPasses, LengthPoints, CostPoints;
    OneTaskPoints(task, chars);
    LengthPointsAppend(a, b, chars);
    CostPointsAppend(Rungs(a), Rungs(b));
    assert Rungs(a + b) == Rungs(a) + Rungs(b);
  }

  lemma OneTaskPoints(task: Task, chars: map<string, real>)
    ensures LengthPoints([task], chars)
            == if task.id !in chars then []
               else [Point(chars[task.id], task.rungs != [] && task.rungs[0].gateFullPass)]
    ensures CostPoints(Rungs([task]))
            == if task.rungs == [] then [] else [Point(task.rungs[0].cost, task.rungs[0].gateFullPass)]
  {
    assert [task][..0] == [] && Rungs([task]) == [task.rungs] && [task.rungs][..0] == [];
  }

  type Fit = p: Predictor | |p.edges| == |p.hit| == |p.seen| == BUCKETS && p.edges[BUCKETS - 1] == Infinity
    witness Predictor([Infinity, Infinity, Infinity, Infinity], [0, 0, 0, 0], [0, 0, 0, 0], 0.0)

  function LengthFit(fold: seq<Task>, chars: map<string, real>): Fit {
    var points := LengthPoints(fold, chars);
    Fitted(points, |points|)
  }

  function CostFit(fold: seq<Row>): Fit { Fitted(CostPoints(fold), |fold|) }

  /** A task's usable prior, of the ladder's length. */
  function PriorOf(priors: map<string, PriorRecord>, id: string, n: nat): (prior: Option<seq<real>>)
    ensures prior.Some? ==> |prior.value| == n > 0
  {
    if id !in priors || !priors[id].rawOk || priors[id].probs.None? || |priors[id].probs.value| != n then None
    else Prior.Cumulative(priors[id].probs.value)
  }

  // ----- one task joined with what the other fold says about it

  datatype TaskFit = TaskFit(row: Row, prior: Option<seq<real>>, price: seq<real>, pHindsight: real,
                             exAnteR0: Option<real>, exAnteCounts: Option<(nat, nat)>)

  function Hindsight(fit: Fit, row: Row): real {
    if row == [] then 1.0 else Rate(fit, row[0].cost)
  }

  function FitFor(rows: seq<Task>, priors: map<string, PriorRecord>, chars: map<string, real>, n: nat, i: nat): TaskFit
    requires i < |rows|
  {
    var other := Fold(rows, 1 - i % 2);
    Join(rows[i], PriorOf(priors, rows[i].id, n), MeanCosts(Rungs(other), n), CostFit(Rungs(other)),
         LengthFit(other, chars), chars)
  }

  function Join(task: Task, prior: Option<seq<real>>, price: seq<real>, pred: Fit, exante: Fit,
                chars: map<string, real>): TaskFit
  {
    var known := task.id in chars;
    TaskFit(task.rungs, prior, price, Hindsight(pred, task.rungs),
            if known then Some(Rate(exante, chars[task.id])) else None,
            if known then Some(Counts(exante, chars[task.id])) else None)
  }

  /** A task's own row and prior, with prices, length rate and hindsight rate of the tasks of the other parity. */
  ghost predicate JoinedWith(rows: seq<Task>, priors: map<string, PriorRecord>, chars: map<string, real>, n: nat,
                             i: nat, t: TaskFit)
    requires i < |rows|
  {
    var id, row, other := rows[i].id, rows[i].rungs, Fold(rows, 1 - i % 2);
    var usable := id in priors && priors[id].rawOk && priors[id].probs.Some? && |priors[id].probs.value| == n;
    && t.row == row
    && t.prior == (if usable then Prior.Cumulative(priors[id].probs.value) else None)
    && t.price == MeanCosts(Rungs(other), n)
    && t.pHindsight == (if row == [] then 1.0 else Rate(CostFit(Rungs(other)), row[0].cost))
    && (id !in chars ==> t.exAnteR0.None? && t.exAnteCounts.None?)
    && (id in chars ==>
          && t.exAnteR0 == Some(Rate(LengthFit(other, chars), chars[id]))
          && t.exAnteCounts == Some(Counts(LengthFit(other, chars), chars[id])))
  }

  method BuildTaskFits(rows: seq<Task>, priors: map<string, PriorRecord>, chars: map<string, real>, n: nat)
    returns (fits: seq<TaskFit>)
    ensures |fits| == |rows|
    ensures forall i :: 0 <= i < |rows| ==> fits[i] == FitFor(rows, priors, chars, n, i)
    ensures forall i :: 0 <= i < |rows| ==> JoinedWith(rows, priors, chars, n, i, fits[i])
  {
    hide Fold, Rungs, MeanCosts, CostPoints, LengthPoints, Fitted, Rate, Counts;
    var foldA := StepByTwo(rows, 0);
    var foldB := StepByTwo(rows, 1);
    var rungsA, rungsB := Rungs(foldA), Rungs(foldB);
    var costsA := CollectCosts(rungsA);
    var costsB := CollectCosts(rungsB);
    var predForA := Buckets.Fit(costsB, |rungsB|);
    var predForB := Buckets.Fit(costsA, |rungsA|);
    var priceForA := MeanCostPerRung(rungsB, n);
    var priceForB := MeanCostPerRung(rungsA, n);
    var lengthsA := CollectLengths(foldA, chars);
    var lengthsB := CollectLengths(foldB, chars);
    var exanteForA := Buckets.Fit(lengthsB, |lengthsB|);
    var exanteForB := Buckets.Fit(lengthsA, |lengthsA|);
    fits := [];
    for i := 0 to |rows|
      invariant |fits| == i
      invariant forall j :: 0 <= j < i ==> fits[j] == FitFor(rows, priors, chars, n, j)
    {
      var inA := i % 2 == 0;
      var prior := PriorOf(priors, rows[i].id, n);
      var fit := if inA then Join(rows[i], prior, priceForA, predForA, exanteForA, chars)
                 else Join(rows[i], prior, priceForB, predForB, exanteForB, chars);
      assert 1 - i % 2 == if inA then 1 else 0;
      fits := fits + [fit];
    }
  }

  // ----- the arms

  datatype Arm = PriorArm | ExAnteArm | BlendedArm

  /** `[p, 1, 1, ...]`: some rung must suffice. */
  function R0Only(r0: real, n: nat): (v: seq<real>)
    ensures |v| == if n == 0 then 1 else n
  {
    seq(if n == 0 then 1 else n, k => if k == 0 then Prior.Clamp(r0) else 1.0)
  }

  /** Where the original serves at all: a prior speaks of every rung, and there is a rung for a single
      probability to be about. Without a prior or a length an arm falls back and asks for nothing. */
  predicate Serves(arm: Arm, t: TaskFit) {
    match arm
    case PriorArm => t.prior.Some? ==> |t.prior.value| == |t.price|
    case ExAnteArm => t.exAnteR0.Some? ==> t.price != []
    case BlendedArm => t.prior.Some? ==> |t.prior.value| == |t.price| > 0
  }

  /** The pass probabilities an arm decides by; none when it falls back to first-pass. */
  function PassVector(arm: Arm, t: TaskFit): (vector: Option<seq<real>>)
    requires Serves(arm, t)
    ensures vector.Some? ==> |vector.value| == |t.price|
  {
    match arm
    case PriorArm => t.prior
    case ExAnteArm => if t.exAnteR0.None? then None else Some(R0Only(t.exAnteR0.value, |t.price|))
    case BlendedArm =>
      if t.prior.None? then None
      else
        var (hit, seen) := if t.exAnteCounts.Some? then t.exAnteCounts.value else (0, 0);
        Some(R0Only(Blended(t.prior.value[0], hit, seen), |t.price|))
  }

  /** What each arm believes: the prior as it is; the length bucket's rate for the cheap rung and certainty above it;
      or, for the cheap rung, prior and bucket weighed as ten examples against those seen. */
  lemma ArmBelieves(arm: Arm, t: TaskFit)
    requires Serves(arm, t)
    requires t.prior.Some? ==> forall r :: 0 <= r < |t.prior.value| ==> 0.0 <= t.prior.value[r] <= 1.0
    requires t.exAnteR0.Some? ==> 0.0 <= t.exAnteR0.value <= 1.0
    requires t.exAnteCounts.Some? ==> t.exAnteCounts.value.0 <= t.exAnteCounts.value.1
    ensures arm == PriorArm ==> PassVector(arm, t) == t.prior
    ensures arm == ExAnteArm ==> (PassVector(arm, t).None? <==> t.exAnteR0.None?)
    ensures arm == BlendedArm ==> (PassVector(arm, t).None? <==> t.prior.None?)
    ensures arm != PriorArm && PassVector(arm, t).Some? ==>
              && |PassVector(arm, t).value| == |t.price| > 0
              && forall r :: 1 <= r < |t.price| ==> PassVector(arm, t).value[r] == 1.0
    ensures arm == ExAnteArm && t.exAnteR0.Some? ==> PassVector(arm, t).value[0] == t.exAnteR0.value
    ensures arm == BlendedArm && t.prior.Some? ==>
              var (hit, seen) := if t.exAnteCounts.Some? then t.exAnteCounts.value else (0, 0);
              PassVector(arm, t).value[0] * (10 + seen) as real == 10.0 * t.prior.value[0] + hit as real
  {
    if arm == BlendedArm && t.prior.Some? {
      var (hit, seen) := if t.exAnteCounts.Some? then t.exAnteCounts.value else (0, 0);
      BlendIsWeightedMean(t.prior.value[0], hit, seen);
      QuotientTimes(10.0 * t.prior.value[0] + hit as real, 10.0 + seen as real);
      assert (10 + seen) as real == 10.0 + seen as real;
    }
  }

  /** The start rung an arm decides on: none for the fallback, otherwise the lowest cheapest walk. */
  ghost predicate Decides(arm: Arm, t: TaskFit, start: Option<nat>)
    requires Serves(arm, t)
  {
    match PassVector(arm, t)
    case None => start == None
    case Some(v) => start.Some? && StartRung.LowestMinimum(v, t.price, start.value)
  }

  lemma LowestMinimumIsUnique(v: seq<real>, price: seq<real>, s: nat, t: nat)
    requires |v| == |price| && StartRung.LowestMinimum(v, price, s) && StartRung.LowestMinimum(v, price, t)
    ensures s == t
  {
    hide StartRung.Walk;
    if price != [] {
      var ws, wt := StartRung.Walk(v, price, s, 1.0), StartRung.Walk(v, price, t, 1.0);
      assert ws <= wt && wt <= ws;
    }
  }

  lemma DecisionIsUnique(arm: Arm, t: TaskFit, s: Option<nat>, s': Option<nat>)
    requires Serves(arm, t) && Decides(arm, t, s) && Decides(arm, t, s')
    ensures s == s'
  {
    hide StartRung.LowestMinimum;
    var vector := PassVector(arm, t);
    if vector.Some? {
      LowestMinimumIsUnique(vector.value, t.price, s.value, s'.value);
    }
  }

  function From(start: Option<nat>): nat { if start.Some? then start.value else 0 }

  method ServePrior(t: TaskFit) returns (served: Served, hadPrior: bool, start: Option<nat>)
    requires Serves(PriorArm, t)
    ensures Decides(PriorArm, t, start) && hadPrior == start.Some?
    ensures served == FirstPassOutcome(t.row, From(start))
    ensures ServedFrom(t.row, if start.Some? then start.value else 0, served)
  {
    hide ServedFrom;
    if t.prior.None? {
      var ok, spent, rungs := FirstPassFrom(t.row, 0);
      return (ok, spent, rungs), false, None;
    }
    var s := StartRung.ArgminExpectedCostPrior(t.prior.value, t.price);
    var ok, spent, rungs := FirstPassFrom(t.row, s);
    served, hadPrior, start := (ok, spent, rungs), true, Some(s);
  }

  method ServeLearnedExante(t: TaskFit) returns (served: Served, hadPrior: bool, start: Option<nat>)
    requires Serves(ExAnteArm, t)
    ensures Decides(ExAnteArm, t, start) && hadPrior == start.Some?
    ensures served == FirstPassOutcome(t.row, From(start))
    ensures ServedFrom(t.row, if start.Some? then start.value else 0, served)
  {
    hide ServedFrom;
    if t.exAnteR0.None? {
      var ok, spent, rungs := FirstPassFrom(t.row, 0);
      return (ok, spent, rungs), false, None;
    }
    var v := R0Only(t.exAnteR0.value, |t.price|);
    var s := StartRung.ArgminExpectedCostPrior(v, t.price);
    var ok, spent, rungs := FirstPassFrom(t.row, s);
    served, hadPrior, start := (ok, spent, rungs), true, Some(s);
  }

  method ServePriorPlusLearned(t: TaskFit) returns (served: Served, hadPrior: bool, start: Option<nat>)
    requires Serves(BlendedArm, t)
    ensures Decides(BlendedArm, t, start) && hadPrior == start.Some?
    ensures served == FirstPassOutcome(t.row, From(start))
    ensures ServedFrom(t.row, if start.Some? then start.value else 0, served)
  {
    hide ServedFrom;
    if t.prior.None? {
      var ok, spent, rungs := FirstPassFrom(t.row, 0);
      return (ok, spent, rungs), false, None;
    }
    var (hit, seen) := if t.exAnteCounts.Some? then t.exAnteCounts.value else (0, 0);
    var v := R0Only(Blended(t.prior.value[0], hit, seen), |t.price|);
    var s := StartRung.ArgminExpectedCostPrior(v, t.price);
    var ok, spent, rungs := FirstPassFrom(t.row, s);
    served, hadPrior, start := (ok, spent, rungs), true, Some(s);
  }

  /** Of all joined tasks the arms can serve every one but a task of known length on a ladder without rungs,
      which the ex-ante arm has no probability vector for. */
  lemma EveryFitServes(rows: seq<Task>, priors: map<string, PriorRecord>, chars: map<string, real>, n: nat, i: nat,
                       arm: Arm)
    requires i < |rows|
    ensures Serves(arm, FitFor(rows, priors, chars, n, i)) <==> n > 0 || arm != ExAnteArm || rows[i].id !in chars
    ensures |FitFor(rows, priors, chars, n, i).price| == n
  {
    hide Prior.Cumulative, Rate, Counts, CostFit, LengthFit, MeanCosts, Fold;
  }

  // ----- blindness

  /** Task `k` measured again, with other outcomes. */
  function Remeasured(rows: seq<Task>, k: nat, rungs: Row): (out: seq<Task>)
    requires k < |rows|
    ensures |out| == |rows|
  {
    rows[k := Task(rows[k].id, rungs)]
  }

  /** Whatever task `k` measures, no task of its own fold, itself included, is served from another start
      by any of the ex-ante arms. */
  lemma StartRungIsBlind(rows: seq<Task>, priors: map<string, PriorRecord>, chars: map<string, real>, n: nat,
                         k: nat, rungs: Row, i: nat, arm: Arm, s: Option<nat>, s': Option<nat>)
    requires k < |rows| && i < |rows| && i % 2 == k % 2
    requires var t := FitFor(rows, priors, chars, n, i); Serves(arm, t) && Decides(arm, t, s)
    requires var t := FitFor(Remeasured(rows, k, rungs), priors, chars, n, i); Serves(arm, t) && Decides(arm, t, s')
    ensures s == s'
  {
    hide StartRung.LowestMinimum, Fold, Fitted, Rate, Counts, LengthPoints, CostPoints, MeanCosts;
    var t, t' := FitFor(rows, priors, chars, n, i), FitFor(Remeasured(rows, k, rungs), priors, chars, n, i);
    FoldIgnoresTheOther(rows, Remeasured(rows, k, rungs), 1 - i % 2);
    assert PassVector(arm, t) == PassVector(arm, t') && t.price == t'.price;
    assert Decides(arm, t, s');
    DecisionIsUnique(arm, t, s, s');
  }

  /** The other fold does move: on two tasks, dearer cheap attempts at task 0 send task 1 to the top. */
  lemma OtherFoldIsMoved(priors: map<string, PriorRecord>, top: RungOutcome, a: RungOutcome, b: RungOutcome, task: Task)
    requires top.cost == 10.0 && a.cost == 1.0 && b.cost == 9.0
    requires PriorOf(priors, task.id, 2) == Some([0.5, 1.0])
    ensures var rows := [Task("0", [a, top]), task];
            && Serves(PriorArm, FitFor(rows, priors, map[], 2, 1))
            && Serves(PriorArm, FitFor(Remeasured(rows, 0, [b, top]), priors, map[], 2, 1))
            && Decides(PriorArm, FitFor(rows, priors, map[], 2, 1), Some(0))
            && Decides(PriorArm, FitFor(Remeasured(rows, 0, [b, top]), priors, map[], 2, 1), Some(1))
  {
    hide Serves, Decides, FitFor;
    var rows := [Task("0", [a, top]), task];
    assert Remeasured(rows, 0, [b, top]) == [Task("0", [b, top]), task];
    StartAtPrice(priors, rows, [a, top], task, 0);
    StartAtPrice(priors, Remeasured(rows, 0, [b, top]), [b, top], task, 1);
  }

  lemma StartAtPrice(priors: map<string, PriorRecord>, rows: seq<Task>, row: Row, task: Task, start: nat)
    requires rows == [Task("0", row), task] && |row| == 2 && PriorOf(priors, task.id, 2) == Some([0.5, 1.0])
    requires row[1].cost == 10.0 && if start == 0 then row[0].cost == 1.0 else start == 1 && row[0].cost == 9.0
    ensures Serves(PriorArm, FitFor(rows, priors, map[], 2, 1))
    ensures Decides(PriorArm, FitFor(rows, priors, map[], 2, 1), Some(start))
  {
    hide Fitted, Rate, Counts, StartRung.Walk, LengthPoints, CostPoints;
    MovedPrice(rows, row, task);
    StartRung.TwoRungWalks(0.5, 1.0, row[0].cost, 10.0);
  }

  lemma MovedPrice(rows: seq<Task>, row: Row, task: Task)
    requires rows == [Task("0", row), task] && |row| == 2
    ensures MeanCosts(Rungs(Fold(rows, 0)), 2) == [row[0].cost, row[1].cost]
  {
    hide Fold, CostsAt, Mean;
    var first := Task("0", row);
    EmptyFold<Task>(0);
    FoldStep(rows, 0, 0);
    FoldStep(rows, 1, 0);
    assert rows[..0] == [] && rows[..0 + 1] == [first] && rows[..1 + 1] == rows;
    assert [] + [first] == [first] && [first] + [] == [first];
    assert Rungs([first]) == [row];
    MeanOfOne(row, 0);
    MeanOfOne(row, 1);
  }

  lemma MeanOfOne(row: Row, r: nat)
    requires r < |row|
    ensures Mean(CostsAt([row], r)) == row[r].cost
  {
    hide Sum;
    assert [row][..0] == [] && CostsAt([], r) == [];
    assert CostsAt([row], r) == [row[r].cost];
    SumOfOne(row[r].cost);
  }

  lemma SumOfOne(x: real)
    ensures Sum([x]) == x
  {
    assert [x][..0] == [];
  }

  /** Each fold's threshold is calibrated on the other. */
  method ConformalLambdas(matrix: seq<Row>, alpha: real) returns (lambdas: seq<Conformal.Threshold>)
    ensures |lambdas| == 2
    ensures Conformal.Calibrated(Fold(matrix, 1), alpha, lambdas[0])
    ensures Conformal.Calibrated(Fold(matrix, 0), alpha, lambdas[1])
  {
    var even := StepByTwo(matrix, 0);
    var odd := StepByTwo(matrix, 1);
    var forEven := Conformal.Calibrate(odd, alpha);
    var forOdd := Conformal.Calibrate(even, alpha);
    lambdas := [forEven, forOdd];
  }

  lemma ThresholdIsBlind(matrix: seq<Row>, k: nat, row: Row, i: nat, alpha: real,
                         t: Conformal.Threshold, t': Conformal.Threshold)
    requires k < |matrix| && i < |matrix| && i % 2 == k % 2
    requires Conformal.Calibrated(Fold(matrix, 1 - i % 2), alpha, t)
    requires Conformal.Calibrated(Fold(matrix[k := row], 1 - i % 2), alpha, t')
    ensures t == t'
  {
    hide Conformal.Calibrated, Fold;
    FoldIgnoresTheOther(matrix, matrix[k := row], 1 - i % 2);
    Conformal.CalibrationIsUnique(Fold(matrix, 1 - i % 2), alpha, t, t');
  }

  // ----- what the decisions are worth

  ghost predicate MeasuredCostsNonNegative(rows: seq<Row>) {
    forall i, r :: 0 <= i < |rows| && 0 <= r < |rows[i]| ==> rows[i][r].cost >= 0.0
  }

  lemma {:induction false} CostsAtNonNegative(fold: seq<Row>, r: nat)
    requires MeasuredCostsNonNegative(fold)
    ensures Sum(CostsAt(fold, r)) >= 0.0
  {
    if fold != [] {
      var n := |fold| - 1;
      CostsAtNonNegative(fold[..n], r);
      CostsAtStep(fold, n, r);
      assert fold[..n + 1] == fold;
      if r < |fold[n]| {
        SumPush(CostsAt(fold[..n], r), fold[n][r].cost);
      }
    }
  }

  lemma MeanNonNegative(xs: seq<real>)
    requires Sum(xs) >= 0.0
    ensures Mean(xs) >= 0.0
  {
    hide Sum;
    if xs != [] {
      QuotientNonNegative(Sum(xs), |xs| as real);
    }
  }

  lemma {:induction false} FoldOf<T>(xs: seq<T>, parity: nat)
    ensures forall x :: x in Fold(xs, parity) ==> x in xs
  {
    if xs != [] {
      FoldOf(xs[..|xs| - 1], parity);
    }
  }

  lemma FoldPricesNonNegative(rows: seq<Task>, parity: nat, n: nat)
    requires MeasuredCostsNonNegative(Rungs(rows))
    ensures forall r :: 0 <= r < n ==> MeanCosts(Rungs(Fold(rows, parity)), n)[r] >= 0.0
  {
    hide Fold, CostsAt, Mean;
    var fold := Fold(rows, parity);
    FoldOf(rows, parity);
    forall i, r | 0 <= i < |fold| && 0 <= r < |fold[i].rungs| ensures Rungs(fold)[i][r].cost >= 0.0 {
      assert fold[i] in rows;
      var j :| 0 <= j < |rows| && rows[j] == fold[i];
      assert Rungs(rows)[j][r].cost >= 0.0;
    }
    forall r | 0 <= r < n ensures MeanCosts(Rungs(fold), n)[r] >= 0.0 {
      CostsAtNonNegative(Rungs(fold), r);
      MeanNonNegative(CostsAt(Rungs(fold), r));
    }
  }

  lemma ArmVectorIsSensible(rows: seq<Task>, priors: map<string, PriorRecord>, chars: map<string, real>, n: nat,
                            i: nat, arm: Arm)
    requires i < |rows| && n > 0 && MeasuredCostsNonNegative(Rungs(rows))
    ensures var t := FitFor(rows, priors, chars, n, i);
            Serves(arm, t) && (PassVector(arm, t).Some? ==> StartRung.Sensible(PassVector(arm, t).value, t.price))
  {
    hide Fold, LengthPoints, MeanCosts, CostFit, Fitted, Rate, Counts, Blended, Prior.Cumulative;
    var t, other := FitFor(rows, priors, chars, n, i), Fold(rows, 1 - i % 2);
    FoldPricesNonNegative(rows, 1 - i % 2, n);
    PriorVectorIsSensible(priors, rows[i].id, n, t.price);
    var points := LengthPoints(other, chars);
    if rows[i].id in chars {
      RatesAreProbabilities(points, |points|, chars[rows[i].id]);
    }
    if t.prior.Some? {
      var (hit, seen) := if t.exAnteCounts.Some? then t.exAnteCounts.value else (0, 0);
      BlendIsWeightedMean(t.prior.value[0], hit, seen);
    }
  }

  lemma PriorVectorIsSensible(priors: map<string, PriorRecord>, id: string, n: nat, price: seq<real>)
    requires |price| == n && forall r :: 0 <= r < n ==> price[r] >= 0.0
    ensures PriorOf(priors, id, n).Some? ==> StartRung.Sensible(PriorOf(priors, id, n).value, price)
  {
    hide Prior.Cumulative;
    if PriorOf(priors, id, n).Some? {
      Prior.PriorIsMonotoneAndCertain(priors[id].probs.value, price);
    }
  }

  /** Every arm decides well by what it believes: with its pass vector read as independent gates and the
      other fold's mean costs as prices, no start has a mean first-pass bill lower than the chosen one by
      more than the cut-off share of the prices. */
  lemma EveryArmMinimisesItsBill(rows: seq<Task>, priors: map<string, PriorRecord>, chars: map<string, real>, n: nat,
                                 i: nat, arm: Arm, s: nat, t: nat)
    requires i < |rows| && n > 0 && MeasuredCostsNonNegative(Rungs(rows)) && t < n
    requires var fit := FitFor(rows, priors, chars, n, i); Serves(arm, fit) && Decides(arm, fit, Some(s))
    ensures var fit := FitFor(rows, priors, chars, n, i);
            var v := PassVector(arm, fit).value;
            StartRung.MeanPaid(v, fit.price, s)
            <= StartRung.MeanPaid(v, fit.price, t) + StartRung.CUTOFF * StartRung.PriceSum(fit.price, s)
  {
    hide StartRung.LowestMinimum, StartRung.Sensible, StartRung.MeanPaid, StartRung.PriceSum, FitFor, PassVector;
    var fit := FitFor(rows, priors, chars, n, i);
    ArmVectorIsSensible(rows, priors, chars, n, i, arm);
    EveryFitServes(rows, priors, chars, n, i, arm);
    StartRung.ChoiceMinimisesTheBill(PassVector(arm, fit).value, fit.price, s, t);
  }

  // ----- the hindsight arm is not blind

  /** Two calibration tasks: at cost 1 passed, at cost 2 failed. */
  lemma HindsightBuckets(pass: RungOutcome, fail: RungOutcome)
    requires pass.cost == 1.0 && pass.gateFullPass && fail.cost == 2.0 && !fail.gateFullPass
    ensures Rate(CostFit([[pass], [fail]]), 1.0) == 1.0
    ensures Rate(CostFit([[pass], [fail]]), 2.0) == 0.0
  {
    var fold := [[pass], [fail]];
    var a, b := Point(1.0, true), Point(2.0, false);
    CostPointsOfTwo(pass, fail);
    var points := [a, b];
    assert Features(points) == [1.0, 2.0];
    SortedPair(1.0, 2.0);
    var edges := Edges(points);
    assert edges == [At(1.0), At(2.0), At(2.0), Infinity];
    CountPair(a, b, edges);
  }

  lemma CostPointsOfTwo(pass: RungOutcome, fail: RungOutcome)
    ensures CostPoints([[pass], [fail]]) == [Point(pass.cost, pass.gateFullPass), Point(fail.cost, fail.gateFullPass)]
  {
    var fold := [[pass], [fail]];
    assert fold[..1] == [[pass]] && fold[..1][..0] == [];
    assert CostPoints(fold[..1]) == [Point(pass.cost, pass.gateFullPass)];
  }

  lemma SortedPair(x: real, y: real)
    requires x <= y
    ensures Sorted([x, y]) == [x, y]
  {
    assert [x, y][..1] == [x] && [x][..0] == [];
    assert Sorted([x]) == Insert([], x);
  }

  lemma CountPair(a: Point, b: Point, edges: seq<Edge>)
    requires |edges| == BUCKETS && edges[BUCKETS - 1] == Infinity
    requires BucketOf(edges, a.x) == 0 && BucketOf(edges, b.x) == 1 && a.pass && !b.pass
    ensures Seen([a, b], edges, 0) == Seen([a, b], edges, 1) == 1
    ensures Hit([a, b], edges, 0) == 1 && Hit([a, b], edges, 1) == 0
  {
    hide BucketOf, Seen, Hit;
    CountNothing(edges);
    assert [] + [a] == [a] && [a] + [b] == [a, b];
    CountPush([], a, edges, 0);
    CountPush([], a, edges, 1);
    CountPush([a], b, edges, 0);
    CountPush([a], b, edges, 1);
  }

  /** The learned rule reads the task's own realised cost: the same task, tests and calibration, and only
      its own cheap attempt billed differently, and the rule changes where the task starts. */
  lemma HindsightIsNotBlind(pass: RungOutcome, fail: RungOutcome, cheap: RungOutcome, top: RungOutcome)
    requires pass.cost == 1.0 && pass.gateFullPass && fail.cost == 2.0 && !fail.gateFullPass
    requires cheap.cost == 1.0 && top.cost == 10.0
    ensures var dearer := cheap.(cost := 2.0);
            var fit := CostFit([[pass], [fail]]);
            && !StartRung.Skips([cheap, top], Hindsight(fit, [cheap, top]))
            && StartRung.Skips([dearer, top], Hindsight(fit, [dearer, top]))
  {
    hide CostFit, Rate;
    HindsightBuckets(pass, fail);
  }

  // ----- every task is scored exactly once

  /** The cost-aware study's scored set: the odd fold first, each row with the other fold's estimate. */
  method ScoredSet(matrix: seq<Row>) returns (valid: seq<(Row, real)>)
    ensures |valid| == |Fold(matrix, 1) + Fold(matrix, 0)|
    ensures forall k :: 0 <= k < |valid| ==> valid[k].0 == (Fold(matrix, 1) + Fold(matrix, 0))[k]
    ensures forall k :: 0 <= k < |valid| ==>
              valid[k].1 == if valid[k].0 == [] then 1.0
                            else Rate(CostFit(Fold(matrix, if k < |Fold(matrix, 1)| then 0 else 1)), valid[k].0[0].cost)
  {
    hide Fold, CostPoints, Fitted, Rate;
    var a := StepByTwo(matrix, 0);
    var b := StepByTwo(matrix, 1);
    var costsA := CollectCosts(a);
    var costsB := CollectCosts(b);
    var predForB := Buckets.Fit(costsA, |a|);
    var predForA := Buckets.Fit(costsB, |b|);
    valid := [];
    for k := 0 to |b|
      invariant |valid| == k
      invariant forall j :: 0 <= j < k ==> valid[j] == (b[j], Hindsight(predForB, b[j]))
    {
      valid := valid + [(b[k], Hindsight(predForB, b[k]))];
    }
    for k := 0 to |a|
      invariant |valid| == |b| + k
      invariant forall j :: 0 <= j < |b| ==> valid[j] == (b[j], Hindsight(predForB, b[j]))
      invariant forall j :: 0 <= j < k ==> valid[|b| + j] == (a[j], Hindsight(predForA, a[j]))
    {
      valid := valid + [(a[k], Hindsight(predForA, a[k]))];
    }
    forall k | 0 <= k < |valid|
      ensures valid[k].0 == (b + a)[k]
      ensures valid[k].1 == Hindsight(CostFit(Fold(matrix, if k < |b| then 0 else 1)), valid[k].0)
    {
      assert k >= |b| ==> valid[|b| + (k - |b|)] == (a[k - |b|], Hindsight(predForA, a[k - |b|]));
    }
  }

  /** Served correctly by plain first-pass. */
  function Solved(rows: seq<Row>): nat {
    if rows == [] then 0
    else Solved(rows[..|rows| - 1]) + if FirstPassOutcome(rows[|rows| - 1], 0).0 then 1 else 0
  }

  /** USD plain first-pass pays. */
  function Paid(rows: seq<Row>): real {
    if rows == [] then 0.0 else Paid(rows[..|rows| - 1]) + FirstPassOutcome(rows[|rows| - 1], 0).1
  }

  ghost function IsCorrect(): Served -> bool {
    (out: Served) => out.0
  }

  ghost function BillOf(): Served -> real {
    (out: Served) => out.1
  }

  /** Both in rows: how many are served correctly, and the sum of the bills, of whatever serves as first-pass from
      rung 0 does. */
  lemma {:induction false} SolvedAndPaid(rows: seq<Row>, served: seq<Served>)
    requires |served| == |rows| && forall i :: 0 <= i < |rows| ==> ServedFrom(rows[i], 0, served[i])
    ensures Solved(rows) == |Where(served, IsCorrect())|
    ensures Paid(rows) == Sum(Values(served, BillOf()))
  {
    hide Sum, ServedFrom, FirstPassOutcome, Where, Values;
    if rows == [] {
      WhereNone(IsCorrect());
      ValuesNone(BillOf());
    } else {
      var n := |rows| - 1;
      SolvedAndPaid(rows[..n], served[..n]);
      FirstPassServes(rows[n], 0);
      ServedFromIsUnique(rows[n], 0, served[n], FirstPassOutcome(rows[n], 0));
      WhereOneMore(served, IsCorrect());
      ValuesOneMore(served, BillOf());
    }
  }

  method FirstPassArm(valid: seq<(Row, real)>, ghost rows: seq<Row>) returns (ok: nat, cost: real)
    requires |rows| == |valid| && forall k :: 0 <= k < |rows| ==> rows[k] == valid[k].0
    ensures ok == Solved(rows) && cost == Paid(rows)
  {
    hide FirstPassOutcome;
    ok, cost := 0, 0.0;
    for k := 0 to |valid|
      invariant ok == Solved(rows[..k]) && cost == Paid(rows[..k])
    {
      assert rows[..k + 1][..k] == rows[..k];
      var correct, spent, rungs := FirstPassFrom(valid[k].0, 0);
      ok := ok + if correct then 1 else 0;
      cost := cost + spent;
    }
    assert rows[..|valid|] == rows;
  }

  lemma {:induction false} TotalsAppend(xs: seq<Row>, ys: seq<Row>)
    ensures Solved(xs + ys) == Solved(xs) + Solved(ys) && Paid(xs + ys) == Paid(xs) + Paid(ys)
    decreases |ys|
  {
    hide FirstPassOutcome;
    if ys == [] {
      assert xs + ys == xs;
    } else {
      var n := |ys| - 1;
      TotalsAppend(xs, ys[..n]);
      assert (xs + ys)[..|xs + ys| - 1] == xs + ys[..n];
    }
  }

  lemma TotalsStep(matrix: seq<Row>, parity: nat)
    requires matrix != []
    ensures var n := |matrix| - 1;
            var row, fold, fold' := matrix[n], Fold(matrix[..n], parity), Fold(matrix, parity);
            && Solved(fold') == Solved(fold) + (if n % 2 == parity && FirstPassOutcome(row, 0).0 then 1 else 0)
            && Paid(fold') == Paid(fold) + (if n % 2 == parity then FirstPassOutcome(row, 0).1 else 0.0)
  {
    hide FirstPassOutcome;
    var n := |matrix| - 1;
    var fold := Fold(matrix[..n], parity);
    assert (fold + [matrix[n]])[..|fold|] == fold;
    assert fold + [] == fold;
  }

  lemma {:induction false} TotalsOfFolds(matrix: seq<Row>)
    ensures Solved(Fold(matrix, 1)) + Solved(Fold(matrix, 0)) == Solved(matrix)
    ensures Paid(Fold(matrix, 1)) + Paid(Fold(matrix, 0)) == Paid(matrix)
  {
    hide FirstPassOutcome, Fold;
    if matrix == [] {
      EmptyFold<Row>(1);
      EmptyFold<Row>(0);
    } else {
      TotalsOfFolds(matrix[..|matrix| - 1]);
      TotalsStep(matrix, 0);
      TotalsStep(matrix, 1);
    }
  }

  /** The scored set is the matrix in another order, so plain first-pass totals are exact. */
  lemma ScoredSetIsThePopulation(matrix: seq<Row>)
    ensures multiset(Fold(matrix, 1) + Fold(matrix, 0)) == multiset(matrix)
    ensures Solved(Fold(matrix, 1) + Fold(matrix, 0)) == Solved(matrix)
    ensures Paid(Fold(matrix, 1) + Fold(matrix, 0)) == Paid(matrix)
  {
    hide Fold, Solved, Paid;
    FoldsCoverOnce(matrix);
    TotalsAppend(Fold(matrix, 1), Fold(matrix, 0));
    TotalsOfFolds(matrix);
  }
}
