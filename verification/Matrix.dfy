/** Measured ladder outcomes and plain first-pass over them (crates/firstpass-bench/src/coding_policy.rs,
    crates/firstpass-bench/src/costaware.rs). */
module Matrix {
  import opened Reals

  datatype Option<+T> = None | Some(value: T)

  /** What one task cost and produced at one rung. */
  datatype RungOutcome = RungOutcome(gateScore: real, gateFullPass: bool, oracleCorrect: bool,
                                     cost: real, judgeScore: Option<real>)

  /** Served correctly, USD spent, rungs paid. */
  type Served = (bool, real, nat)

  /** USD paid for the rungs from `lo` up to but not including `hi`. */
  function CostBetween(row: seq<RungOutcome>, lo: nat, hi: nat): real
    requires hi <= |row|
    decreases hi
  {
    if hi <= lo then 0.0 else CostBetween(row, lo, hi - 1) + row[hi - 1].cost
  }

  /** The first rung from `start` on whose gate passes fully, the length of the row if there is none. */
  function FirstPassing(row: seq<RungOutcome>, start: nat): (i: nat)
    ensures start < |row| ==> start <= i <= |row|
    ensures forall j :: start <= j < i && j < |row| ==> !row[j].gateFullPass
    ensures i < |row| ==> row[i].gateFullPass
    ensures |row| <= start ==> i == start
    decreases |row| - start
  {
    if start >= |row| then start
    else if row[start].gateFullPass then start
    else FirstPassing(row, start + 1)
  }

  function FirstPassOutcome(row: seq<RungOutcome>, start: nat): Served {
    var i := FirstPassing(row, start);
    if i < |row| then (row[i].oracleCorrect, CostBetween(row, start, i + 1), i + 1 - start)
    else (row != [] && row[|row| - 1].oracleCorrect, CostBetween(row, start, |row|),
          if start <= |row| then |row| - start else 0)
  }

  function Costs(row: seq<RungOutcome>): (costs: seq<real>)
    ensures |costs| == |row|
  {
    seq(|row|, j requires 0 <= j < |row| => row[j].cost)
  }

  lemma {:induction false} CostBetweenIsSum(row: seq<RungOutcome>, lo: nat, hi: nat)
    requires lo <= hi <= |row|
    ensures CostBetween(row, lo, hi) == Sum(Costs(row[lo..hi]))
    decreases hi
  {
    hide Sum;
    if lo == hi {
      SumOfNone();
    } else {
      CostBetweenIsSum(row, lo, hi - 1);
      assert Costs(row[lo..hi]) == Costs(row[lo..hi - 1]) + [row[hi - 1].cost];
      SumPush(Costs(row[lo..hi - 1]), row[hi - 1].cost);
    }
  }

  /** First-pass from `start` served rung `j`: its verdict, the bill and the number of the rungs from `start` to
      it, with no gate passing before it and its own passing unless it is the last. */
  ghost predicate ServedBy(row: seq<RungOutcome>, start: nat, out: Served, j: nat) {
    && start <= j < |row|
    && out == (row[j].oracleCorrect, Sum(Costs(row[start..j + 1])), j + 1 - start)
    && (forall i :: start <= i < j ==> !row[i].gateFullPass)
    && (row[j].gateFullPass || j == |row| - 1)
  }

  /** With no rung left to try nothing is paid, and the last rung's verdict is reported. */
  ghost predicate ServedFrom(row: seq<RungOutcome>, start: nat, out: Served) {
    if start < |row| then exists j :: ServedBy(row, start, out, j)
    else out == (row != [] && row[|row| - 1].oracleCorrect, 0.0, 0)
  }

  lemma FirstPassServes(row: seq<RungOutcome>, start: nat)
    ensures ServedFrom(row, start, FirstPassOutcome(row, start))
  {
    hide Sum;
    if start < |row| {
      var i := FirstPassing(row, start);
      var j := if i < |row| then i else |row| - 1;
      CostBetweenIsSum(row, start, j + 1);
      assert ServedBy(row, start, FirstPassOutcome(row, start), j);
    }
  }

  /** The row alone decides what is served. */
  lemma ServedFromIsUnique(row: seq<RungOutcome>, start: nat, a: Served, b: Served)
    requires ServedFrom(row, start, a) && ServedFrom(row, start, b)
    ensures a == b
  {
    hide Sum, Costs;
    if start < |row| {
      var i :| ServedBy(row, start, a, i);
      var j :| ServedBy(row, start, b, j);
      assert i == j;
    }
  }

  method FirstPassFrom(row: seq<RungOutcome>, start: nat) returns (ok: bool, spent: real, rungs: nat)
    ensures (ok, spent, rungs) == FirstPassOutcome(row, start)
    ensures ServedFrom(row, start, (ok, spent, rungs))
  {
    hide ServedFrom;
    FirstPassServes(row, start);
    spent := 0.0;
    var i := start;
    while i < |row|
      invariant start <= i && (start <= |row| ==> i <= |row|)
      invariant i <= |row| ==> spent == CostBetween(row, start, i)
      invariant |row| < i ==> i == start && spent == 0.0
      invariant FirstPassing(row, start) == FirstPassing(row, i)
      decreases |row| - i
    {
      spent := spent + row[i].cost;
      if row[i].gateFullPass {
        return row[i].oracleCorrect, spent, i + 1 - start;
      }
      i := i + 1;
    }
    ok := row != [] && row[|row| - 1].oracleCorrect;
    rungs := if start <= |row| then |row| - start else 0;
  }

  /** Paying rung by rung: the first rung tried, then whatever the rungs above it cost unless it passed. */
  lemma {:induction false} PaidRungByRung(row: seq<RungOutcome>, start: nat)
    requires start < |row|
    ensures FirstPassOutcome(row, start).1
            == row[start].cost + if row[start].gateFullPass then 0.0 else FirstPassOutcome(row, start + 1).1
  {
    assert CostBetween(row, start, start) == 0.0;
    CostSplit(row, start, |row|);
    if FirstPassing(row, start) < |row| {
      CostSplit(row, start, FirstPassing(row, start) + 1);
    }
  }

  lemma {:induction false} CostSplit(row: seq<RungOutcome>, lo: nat, hi: nat)
    requires lo < hi <= |row|
    ensures CostBetween(row, lo, hi) == row[lo].cost + CostBetween(row, lo + 1, hi)
    decreases hi
  {
    if lo + 1 < hi {
      CostSplit(row, lo, hi - 1);
    }
  }
}
