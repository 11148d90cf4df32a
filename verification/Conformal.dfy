/** Conformal calibration of the judge threshold and the cascade that uses it
    (`calibrate`, `judge_escalate` in crates/firstpass-bench/src/competitors.rs). */
module Conformal {
  import opened Lists
  import opened Reals
  import opened Matrix

  type Row = seq<RungOutcome>

  /** A judge threshold; `Never` is above every score. */
  datatype Threshold = At(value: real) | Never

  /** The judge's score clears the threshold; a judge that abstained clears nothing. */
  predicate Clears(o: RungOutcome, t: Threshold) {
    o.judgeScore.Some? && t.At? && o.judgeScore.value >= t.value
  }

  /** The rung-0 answer is accepted under the threshold although it is wrong. */
  predicate AcceptedWrong(row: Row, t: Threshold) {
    row != [] && Clears(row[0], t) && !row[0].oracleCorrect
  }

  function Errors(rows: seq<Row>, l: real): nat {
    if rows == [] then 0
    else Errors(rows[..|rows| - 1], l) + if AcceptedWrong(rows[|rows| - 1], At(l)) then 1 else 0
  }

  /** The conformal risk bound: the row to come is counted as one more error. */
  function RiskBound(errors: nat, n: nat): real {
    (errors as real + 1.0) / (n as real + 1.0)
  }

  /** The risk bound on these calibration rows is at most `alpha`. */
  predicate Meets(cal: seq<Row>, alpha: real, l: real) {
    RiskBound(Errors(cal, l), |cal|) <= alpha
  }

  /** Rung-0 judge scores of the rows that have one. */
  function Scores(cal: seq<Row>): seq<real> {
    if cal == [] then []
    else
      var r := cal[|cal| - 1];
      Scores(cal[..|cal| - 1]) + if r != [] && r[0].judgeScore.Some? then [r[0].judgeScore.value] else []
  }

  /** What calibration promises: the smallest calibration score that meets the bound, if any does. */
  ghost predicate Calibrated(cal: seq<Row>, alpha: real, t: Threshold) {
    match t
    case At(l) => l in Scores(cal) && Meets(cal, alpha, l)
                  && forall x :: x in Scores(cal) && x < l ==> !Meets(cal, alpha, x)
    case Never => forall x :: x in Scores(cal) ==> !Meets(cal, alpha, x)
  }

  lemma CalibrationIsUnique(cal: seq<Row>, alpha: real, t: Threshold, u: Threshold)
    requires Calibrated(cal, alpha, t) && Calibrated(cal, alpha, u)
    ensures t == u
  {
    if t.At? && u.At? {
      assert t.value in Scores(cal) && u.value in Scores(cal);
    }
  }

  // ----- the grid

  method CountErrors(cal: seq<Row>, l: real) returns (errors: nat)
    ensures errors == Errors(cal, l)
  {
    errors := 0;
    for i := 0 to |cal|
      invariant errors == Errors(cal[..i], l)
    {
      assert cal[..i + 1][..i] == cal[..i];
      errors := errors + if AcceptedWrong(cal[i], At(l)) then 1 else 0;
    }
    assert cal[..|cal|] == cal;
  }

  method CollectScores(cal: seq<Row>) returns (scores: seq<real>)
    ensures scores == Scores(cal)
  {
    scores := [];
    for i := 0 to |cal|
      invariant scores == Scores(cal[..i])
    {
      assert cal[..i + 1][..i] == cal[..i];
      var r := cal[i];
      if r != [] && r[0].judgeScore.Some? {
        scores := scores + [r[0].judgeScore.value];
      }
    }
    assert cal[..|cal|] == cal;
  }

  method Calibrate(cal: seq<Row>, alpha: real) returns (t: Threshold)
    ensures Calibrated(cal, alpha, t)
    ensures t.At? ==> IsScore(cal, t.value) && RiskHolds(cal, alpha, t.value)
    ensures t.At? ==> forall x :: IsScore(cal, x) && RiskHolds(cal, alpha, x) ==> t.value <= x
    ensures t.Never? ==> forall x :: IsScore(cal, x) ==> !RiskHolds(cal, alpha, x)
  {
    hide Errors, RiskBound, Scores, IsScore, RiskHolds;
    var scores := CollectScores(cal);
    var grid := SortedOnce(scores);
    for k := 0 to |grid|
      invariant forall j :: 0 <= j < k ==> !Meets(cal, alpha, grid[j])
    {
      var errors := CountErrors(cal, grid[k]);
      if RiskBound(errors, |cal|) <= alpha {
        FirstOnGrid(cal, alpha, grid, k);
        CalibratedOnScores(cal, alpha, At(grid[k]));
        return At(grid[k]);
      }
    }
    assert forall x :: x in Scores(cal) ==> x in grid;
    t := Never;
    CalibratedOnScores(cal, alpha, t);
  }

  lemma FirstOnGrid(cal: seq<Row>, alpha: real, grid: seq<real>, k: nat)
    requires StrictlyAscending(grid) && forall x :: x in grid <==> x in Scores(cal)
    requires k < |grid| && Meets(cal, alpha, grid[k])
    requires forall j :: 0 <= j < k ==> !Meets(cal, alpha, grid[j])
    ensures Calibrated(cal, alpha, At(grid[k]))
  {
    hide Meets, Scores;
    assert grid[k] in grid;
    forall x | x in Scores(cal) && x < grid[k] ensures !Meets(cal, alpha, x) {
      var j :| 0 <= j < |grid| && grid[j] == x;
      assert j < k;
    }
  }

  // ----- permissive thresholds err more

  lemma {:induction false} ErrorsAntitone(cal: seq<Row>, l: real, l': real)
    requires l <= l'
    ensures Errors(cal, l') <= Errors(cal, l)
  {
    if cal != [] {
      ErrorsAntitone(cal[..|cal| - 1], l, l');
    }
  }

  /** Every threshold above one that meets the bound meets it too. */
  lemma MeetsUpward(cal: seq<Row>, alpha: real, l: real, l': real)
    requires l <= l' && Meets(cal, alpha, l)
    ensures Meets(cal, alpha, l')
  {
    hide Errors;
    ErrorsAntitone(cal, l, l');
    QuotientOrder(Errors(cal, l') as real + 1.0, Errors(cal, l) as real + 1.0, |cal| as real + 1.0);
  }

  // ----- the leave-one-out guarantee

  lemma {:induction false} ErrorsWithout(rows: seq<Row>, i: nat, l: real)
    requires i < |rows|
    ensures Errors(rows, l) == Errors(Without(rows, i), l) + if AcceptedWrong(rows[i], At(l)) then 1 else 0
  {
    var n := |rows| - 1;
    if i < n {
      ErrorsWithout(rows[..n], i, l);
      assert Without(rows, i)[..n - 1] == Without(rows[..n], i);
    } else {
      assert Without(rows, i) == rows[..n];
    }
  }

  /** How many of the first `k` rows are accepted and wrong, each under its own threshold. */
  function Harmed(rows: seq<Row>, ts: seq<Threshold>, k: nat): nat
    requires |rows| == |ts| && k <= |rows|
  {
    if k == 0 then 0 else Harmed(rows, ts, k - 1) + if AcceptedWrong(rows[k - 1], ts[k - 1]) then 1 else 0
  }

  lemma {:induction false} HarmedAtMostErrors(rows: seq<Row>, ts: seq<Threshold>, k: nat, l: real)
    requires |rows| == |ts| && k <= |rows|
    requires forall i :: 0 <= i < k && AcceptedWrong(rows[i], ts[i]) ==> ts[i].value >= l
    ensures Harmed(rows, ts, k) <= Errors(rows[..k], l)
  {
    if k > 0 {
      HarmedAtMostErrors(rows, ts, k - 1, l);
      assert rows[..k][..k - 1] == rows[..k - 1];
    }
  }

  /** Row `i` is harmed, and no harmed row has a more permissive threshold. */
  ghost predicate LowestHarm(rows: seq<Row>, ts: seq<Threshold>, k: nat, i: nat)
    requires |rows| == |ts| && k <= |rows|
  {
    && i < k && AcceptedWrong(rows[i], ts[i])
    && forall j :: 0 <= j < k && AcceptedWrong(rows[j], ts[j]) ==> ts[i].value <= ts[j].value
  }

  lemma {:induction false} LowestHarmful(rows: seq<Row>, ts: seq<Threshold>, k: nat) returns (i: nat)
    requires |rows| == |ts| && k <= |rows| && Harmed(rows, ts, k) > 0
    ensures LowestHarm(rows, ts, k, i)
  {
    if Harmed(rows, ts, k - 1) == 0 {
      NoneHarmed(rows, ts, k - 1);
      i := k - 1;
    } else {
      i := LowestHarmful(rows, ts, k - 1);
      if AcceptedWrong(rows[k - 1], ts[k - 1]) && ts[k - 1].value < ts[i].value {
        i := k - 1;
      }
    }
  }

  lemma {:induction false} NoneHarmed(rows: seq<Row>, ts: seq<Threshold>, k: nat)
    requires |rows| == |ts| && k <= |rows| && Harmed(rows, ts, k) == 0
    ensures forall j :: 0 <= j < k ==> !AcceptedWrong(rows[j], ts[j])
  {
    if k > 0 {
      NoneHarmed(rows, ts, k - 1);
    }
  }

  /** An `alpha` share of `n` rows. */
  function Share(alpha: real, n: nat): real {
    alpha * n as real
  }

  lemma MeetsBoundsErrors(errors: nat, n: nat, alpha: real)
    requires RiskBound(errors, n) <= alpha
    ensures (errors + 1) as real <= Share(alpha, n + 1)
  {
    var c := n as real + 1.0;
    QuotientTimes(errors as real + 1.0, c);
    MulMonotone(c, (errors as real + 1.0) / c, alpha);
  }

  /** A row that is harmed under the threshold of all the others is the one error the bound allows for. */
  lemma OneRowBoundsAll(rows: seq<Row>, i: nat, t: Threshold, alpha: real)
    requires i < |rows| && Calibrated(Without(rows, i), alpha, t) && AcceptedWrong(rows[i], t)
    ensures Errors(rows, t.value) as real <= Share(alpha, |rows|)
  {
    hide Errors, Scores, RiskBound, Share, Without;
    ErrorsWithout(rows, i, t.value);
    MeetsBoundsErrors(Errors(Without(rows, i), t.value), |rows| - 1, alpha);
  }

  /** Every row's threshold is calibrated on all the other rows. */
  ghost predicate CalibratedOnTheRest(rows: seq<Row>, ts: seq<Threshold>, alpha: real) {
    |ts| == |rows| && forall i :: 0 <= i < |rows| ==> Calibrated(Without(rows, i), alpha, ts[i])
  }

  /** Distribution-free risk: calibrate for every row on all the others, and at most an `alpha` share of
      the rows is accepted and wrong, whatever the rows are. */
  lemma LeaveOneOutRisk(rows: seq<Row>, ts: seq<Threshold>, alpha: real)
    requires alpha >= 0.0 && CalibratedOnTheRest(rows, ts, alpha)
    ensures Harmed(rows, ts, |rows|) as real <= Share(alpha, |rows|)
  {
    hide Share, Errors, Harmed, CalibratedOnTheRest;
    assert |ts| == |rows| by {
      SameLength(rows, ts, alpha);
    }
    if Harmed(rows, ts, |rows|) == 0 {
      ShareNonNegative(alpha, |rows|);
    } else {
      var i := LowestHarmful(rows, ts, |rows|);
      HarmBoundedAt(rows, ts, i, alpha);
    }
  }

  lemma SameLength(rows: seq<Row>, ts: seq<Threshold>, alpha: real)
    requires CalibratedOnTheRest(rows, ts, alpha)
    ensures |ts| == |rows|
  {}

  lemma HarmBoundedAt(rows: seq<Row>, ts: seq<Threshold>, i: nat, alpha: real)
    requires |ts| == |rows| && CalibratedOnTheRest(rows, ts, alpha) && LowestHarm(rows, ts, |rows|, i)
    ensures Harmed(rows, ts, |rows|) as real <= Share(alpha, |rows|)
  {
    hide Share, Errors, Harmed, Calibrated, Without;
    HarmedAtMostErrors(rows, ts, |rows|, ts[i].value);
    assert rows[..|rows|] == rows;
    OneRowBoundsAll(rows, i, ts[i], alpha);
  }

  lemma ShareNonNegative(alpha: real, n: nat)
    requires alpha >= 0.0
    ensures Share(alpha, n) >= 0.0
  {
    MulNonNegative(alpha, n as real);
  }

  // ----- the cascade

  /** The rung the cascade serves: the first whose score clears the threshold, the last if none does. */
  function AcceptedRung(row: Row, t: Threshold, from: nat): (i: nat)
    requires from < |row|
    ensures from <= i < |row|
    ensures forall j :: from <= j < i ==> !Clears(row[j], t)
    ensures Clears(row[i], t) || i == |row| - 1
    decreases |row| - from
  {
    if Clears(row[from], t) || from == |row| - 1 then from else AcceptedRung(row, t, from + 1)
  }

  method JudgeEscalate(row: Row, t: Threshold) returns (ok: bool, spent: real)
    ensures row == [] ==> (ok, spent) == (false, 0.0)
    ensures row != [] ==> var i := AcceptedRung(row, t, 0);
                          (ok, spent) == (row[i].oracleCorrect, CostBetween(row, 0, i + 1))
    ensures row != [] ==> exists j :: CascadeServes(row, t, (ok, spent), j)
  {
    hide CascadeServes;
    if row != [] {
      CascadeOnScores(row, t);
    }
    spent := 0.0;
    for i := 0 to |row|
      invariant spent == CostBetween(row, 0, i)
      invariant i < |row| ==> AcceptedRung(row, t, 0) == AcceptedRung(row, t, i)
      invariant i == |row| ==> row == []
    {
      spent := spent + row[i].cost;
      if i + 1 == |row| || Clears(row[i], t) {
        return row[i].oracleCorrect, spent;
      }
    }
    ok := false;
  }

  /** On a ladder with somewhere to escalate to, the cascade serves a wrong rung-0 answer exactly when it
      is accepted and wrong in the sense the calibration counts. */
  lemma CascadeHarmIsCounted(row: Row, t: Threshold)
    requires |row| > 1
    ensures AcceptedRung(row, t, 0) == 0 && !row[0].oracleCorrect <==> AcceptedWrong(row, t)
  {}

  // ----- the same in raw scores

  /** The judge scored this rung at least `l`. */
  ghost predicate ScoredAtLeast(o: RungOutcome, l: real) {
    match o.judgeScore case Some(x) => x >= l case None => false
  }

  /** The rung-0 answer is wrong although the judge scored it at least `l`. */
  ghost function WrongWith(l: real): Row -> bool {
    (row: Row) => row != [] && ScoredAtLeast(row[0], l) && !row[0].oracleCorrect
  }

  lemma {:induction false} ErrorsCount(rows: seq<Row>, l: real)
    ensures Errors(rows, l) == |Where(rows, WrongWith(l))|
  {
    hide Where;
    if rows == [] {
      WhereNone(WrongWith(l));
    } else {
      ErrorsCount(rows[..|rows| - 1], l);
      WhereOneMore(rows, WrongWith(l));
    }
  }

  /** A rung-0 score of the calibration rows. */
  ghost predicate IsScore(cal: seq<Row>, x: real) {
    exists i :: 0 <= i < |cal| && cal[i] != [] && cal[i][0].judgeScore == Some(x)
  }

  lemma {:induction false} ScoresAreTheRows(cal: seq<Row>, x: real)
    ensures x in Scores(cal) <==> IsScore(cal, x)
  {
    hide IsScore;
    if cal == [] {
      NoScore(x);
    } else {
      ScoresAreTheRows(cal[..|cal| - 1], x);
      OneMoreScore(cal, x);
    }
  }

  lemma NoScore(x: real)
    ensures !IsScore([], x)
  {}

  lemma OneMoreScore(cal: seq<Row>, x: real)
    requires cal != []
    ensures var last := cal[|cal| - 1];
            IsScore(cal, x) <==> IsScore(cal[..|cal| - 1], x) || (last != [] && last[0].judgeScore == Some(x))
  {
    var n := |cal| - 1;
    if IsScore(cal[..n], x) {
      var i :| 0 <= i < n && cal[..n][i] != [] && cal[..n][i][0].judgeScore == Some(x);
      assert cal[i] == cal[..n][i];
    }
    if IsScore(cal, x) {
      var i :| 0 <= i < |cal| && cal[i] != [] && cal[i][0].judgeScore == Some(x);
      if i < n {
        assert cal[..n][i] == cal[i];
      }
    }
  }

  /** Counting the row to come as one more error, at most an `alpha` share is accepted and wrong. */
  ghost predicate RiskHolds(cal: seq<Row>, alpha: real, l: real) {
    (|Where(cal, WrongWith(l))| + 1) as real <= alpha * (|cal| + 1) as real
  }

  lemma MeetsIsRisk(cal: seq<Row>, alpha: real, l: real)
    ensures Meets(cal, alpha, l) <==> RiskHolds(cal, alpha, l)
  {
    hide Errors, Where;
    ErrorsCount(cal, l);
    ShareBound(Errors(cal, l) as real + 1.0, |cal| as real + 1.0, alpha);
  }

  lemma ShareBound(e: real, c: real, alpha: real)
    requires c > 0.0
    ensures e / c <= alpha <==> e <= alpha * c
  {
    QuotientTimes(e, c);
    QuotientAgainst(e / c, e, c, alpha);
  }

  lemma QuotientAgainst(q: real, e: real, c: real, alpha: real)
    requires c > 0.0 && q * c == e
    ensures q <= alpha <==> e <= alpha * c
  {
    if q <= alpha {
      MulMonotone(c, q, alpha);
    } else {
      Exceeds(q, alpha, c);
    }
  }

  lemma Exceeds(q: real, alpha: real, c: real)
    requires c > 0.0 && q > alpha
    ensures q * c > alpha * c
  {
    MulPositive(q - alpha, c);
    assert (q - alpha) * c == q * c - alpha * c;
  }

  /** Calibration on raw scores: the threshold is the lowest rung-0 score of the calibration rows at which the
      wrong answers scored that high, and one more, are at most an `alpha` share; no threshold accepts anything
      exactly when there is no such score. */
  lemma CalibratedOnScores(cal: seq<Row>, alpha: real, t: Threshold)
    requires Calibrated(cal, alpha, t)
    ensures t.At? ==> IsScore(cal, t.value) && RiskHolds(cal, alpha, t.value)
    ensures t.At? ==> forall x :: IsScore(cal, x) && RiskHolds(cal, alpha, x) ==> t.value <= x
    ensures t.Never? <==> forall x :: IsScore(cal, x) ==> !RiskHolds(cal, alpha, x)
  {
    hide Meets, Scores, RiskHolds, IsScore;
    forall x ensures x in Scores(cal) <==> IsScore(cal, x) {
      ScoresAreTheRows(cal, x);
    }
    forall x ensures Meets(cal, alpha, x) <==> RiskHolds(cal, alpha, x) {
      MeetsIsRisk(cal, alpha, x);
    }
  }

  /** The cascade on raw scores: it serves a rung exactly when no earlier one was scored at least the threshold and
      this one was or is the last, and pays every rung up to it. */
  ghost predicate CascadeServes(row: Row, t: Threshold, out: (bool, real), j: nat) {
    && j < |row|
    && out == (row[j].oracleCorrect, Sum(Costs(row[..j + 1])))
    && (forall i :: 0 <= i < j ==> t.Never? || !ScoredAtLeast(row[i], t.value))
    && ((t.At? && ScoredAtLeast(row[j], t.value)) || j == |row| - 1)
  }

  lemma CascadeOnScores(row: Row, t: Threshold)
    requires row != []
    ensures var j := AcceptedRung(row, t, 0);
            CascadeServes(row, t, (row[j].oracleCorrect, CostBetween(row, 0, j + 1)), j)
  {
    hide Sum;
    CostBetweenIsSum(row, 0, AcceptedRung(row, t, 0) + 1);
  }

  /** On a ladder with somewhere to escalate to, rung 0 is served exactly when it was scored at least the
      threshold. */
  lemma RungZeroServedExactlyWhen(row: Row, t: Threshold)
    requires |row| > 1
    ensures AcceptedRung(row, t, 0) == 0 <==> t.At? && ScoredAtLeast(row[0], t.value)
  {}
}
