/** Everything a measurement pays for, recorded or not (crates/firstpass-bench/src/coding_policy.rs:197-276). */
module Spending {
  import opened Reals
  import opened Matrix
  import opened Checkpoint

  // ----- what calls cost

  function CallCost(measured: Measured, ladder: Ladder, c: Call): real {
    if c.rung < |ladder| then measured(ladder[c.rung], c.task).cost else 0.0
  }

  function Usd(measured: Measured, ladder: Ladder, calls: seq<Call>): real {
    if calls == [] then 0.0
    else Usd(measured, ladder, calls[..|calls| - 1]) + CallCost(measured, ladder, calls[|calls| - 1])
  }

  lemma {:induction false} UsdAppend(measured: Measured, ladder: Ladder, a: seq<Call>, b: seq<Call>)
    ensures Usd(measured, ladder, a + b) == Usd(measured, ladder, a) + Usd(measured, ladder, b)
    decreases |b|
  {
    hide CallCost;
    if b == [] {
      assert a + b == a;
    } else {
      UsdAppend(measured, ladder, a, b[..|b| - 1]);
      assert (a + b)[..|a + b| - 1] == a + b[..|b| - 1];
    }
  }

  /** The calls for the first rungs of a task cost what its row says those rungs cost. */
  lemma {:induction false} UsdOfRow(measured: Measured, ladder: Ladder, t: string, n: nat)
    requires n <= |ladder|
    ensures Usd(measured, ladder, Calls(t, n)) == CostBetween(RowFor(measured, ladder, t), 0, n)
  {
    if n > 0 {
      UsdOfRow(measured, ladder, t, n - 1);
      assert Calls(t, n)[..n - 1] == Calls(t, n - 1);
    }
  }

  // ----- one run: rows bought, and at most one row broken off

  /** The calls for tasks that the file does not record with this ladder. */
  ghost function Unrecorded(calls: seq<Call>, file: seq<CheckpointRow>, ladder: Ladder): seq<Call> {
    if calls == [] then []
    else
      var c := calls[|calls| - 1];
      Unrecorded(calls[..|calls| - 1], file, ladder) + if Recorded(file, ladder, c.task) then [] else [c]
  }

  lemma {:induction false} UnrecordedIsTail(bought: seq<Call>, broken: seq<Call>, file: seq<CheckpointRow>,
                                            ladder: Ladder)
    requires forall c :: c in bought ==> Recorded(file, ladder, c.task)
    requires forall c :: c in broken ==> !Recorded(file, ladder, c.task)
    ensures Unrecorded(bought + broken, file, ladder) == broken
    decreases |bought| + |broken|
  {
    hide Recorded;
    var all := bought + broken;
    if broken != [] {
      var n := |broken| - 1;
      assert all[..|all| - 1] == bought + broken[..n];
      UnrecordedIsTail(bought, broken[..n], file, ladder);
    } else if bought != [] {
      var n := |bought| - 1;
      assert all[..|all| - 1] == bought[..n] + broken && all[|all| - 1] == bought[n];
      UnrecordedIsTail(bought[..n], broken, file, ladder);
    }
  }

  /** The calls `paid` on the way from one file to another: rows, whose calls cost what the file grows by,
      and then what was broken off. */
  ghost predicate Settles(measured: Measured, ladder: Ladder, file: seq<CheckpointRow>, later: seq<CheckpointRow>,
                          interrupted: bool, bought: seq<Call>, broken: seq<Call>) {
    && |later| >= |file| && |bought| == (|later| - |file|) * |ladder|
    && Usd(measured, ladder, bought) == Spend(later, ladder) - Spend(file, ladder)
    && |broken| <= (if interrupted then |ladder| else 0)
    && (forall c :: c in bought ==> Recorded(later, ladder, c.task))
    && (forall c :: c in broken ==> !Recorded(later, ladder, c.task))
  }

  lemma {:induction false} ContinueSettles(measured: Measured, ladder: Ladder, budget: Option<real>, tasks: seq<string>,
                                           done: map<string, seq<RungOutcome>>, spent: real, ticks: nat,
                                           file: seq<CheckpointRow>, matrix: seq<seq<RungOutcome>>, calls: seq<Call>)
    returns (bought: seq<Call>, broken: seq<Call>)
    requires Distinct(tasks) && Knows(measured, ladder, tasks, done, file)
    ensures var e := Continue(measured, ladder, budget, tasks, done, spent, ticks, file, matrix, calls);
            e.calls == calls + (bought + broken) && file <= e.file
            && Settles(measured, ladder, file, e.file, e.outcome.Interrupted?, bought, broken)
    decreases |tasks|
  {
    hide Knows, RowCost, RowFor, Recorded, Settles, Calls;
    bought, broken := [], [];
    NothingToSettle(measured, ladder, file, false);
    if tasks != [] {
      var t, row := tasks[0], RowFor(measured, ladder, tasks[0]);
      if t in done {
        KnowsAfterSkip(measured, ladder, tasks, done, file);
        bought, broken := ContinueSettles(measured, ladder, budget, tasks[1..], done - {t}, spent, ticks, file,
                                          matrix + [done[t]], calls);
      } else if !(budget.Some? && spent >= budget.value) {
        NotYetRecorded(measured, ladder, tasks, done, file);
        if ticks <= |ladder| {
          broken := Calls(t, ticks);
          BrokenOffSettles(measured, ladder, file, t, ticks);
          assert bought + broken == broken;
        } else {
          var r := CheckpointRow(t, ladder, row);
          KnowsAfterBuy(measured, ladder, tasks, done, file, r);
          var more, rest := ContinueSettles(measured, ladder, budget, tasks[1..], done, spent + RowCost(row),
                                            ticks - |ladder| - 1, file + [r], matrix + [row],
                                            calls + Calls(t, |ladder|));
          bought, broken := Calls(t, |ladder|) + more, rest;
          var e := Continue(measured, ladder, budget, tasks, done, spent, ticks, file, matrix, calls);
          RowSettles(measured, ladder, file, e.file, e.outcome.Interrupted?, t, more, rest);
          assert calls + Calls(t, |ladder|) + (more + rest) == calls + (bought + broken);
        }
      }
    }
  }

  lemma NotYetRecorded(measured: Measured, ladder: Ladder, tasks: seq<string>,
                       done: map<string, seq<RungOutcome>>, file: seq<CheckpointRow>)
    requires tasks != [] && tasks[0] !in done && Knows(measured, ladder, tasks, done, file)
    ensures !Recorded(file, ladder, tasks[0])
  {
    hide Recorded;
  }

  lemma NothingToSettle(measured: Measured, ladder: Ladder, file: seq<CheckpointRow>, interrupted: bool)
    ensures Settles(measured, ladder, file, file, interrupted, [], [])
  {
    hide Spend, Recorded;
  }

  lemma BrokenOffSettles(measured: Measured, ladder: Ladder, file: seq<CheckpointRow>, t: string, n: nat)
    requires !Recorded(file, ladder, t) && n <= |ladder|
    ensures Settles(measured, ladder, file, file, true, [], Calls(t, n))
  {
    hide Spend, Recorded;
  }

  lemma RowSettles(measured: Measured, ladder: Ladder, file: seq<CheckpointRow>, later: seq<CheckpointRow>,
                   interrupted: bool, t: string, more: seq<Call>, rest: seq<Call>)
    requires !Recorded(file, ladder, t)
    requires var r := CheckpointRow(t, ladder, RowFor(measured, ladder, t));
             file + [r] <= later && Settles(measured, ladder, file + [r], later, interrupted, more, rest)
    ensures Settles(measured, ladder, file, later, interrupted, Calls(t, |ladder|) + more, rest)
  {
    hide Spend, RowFor, RowCost, Calls, Usd, Recorded;
    var r := CheckpointRow(t, ladder, RowFor(measured, ladder, t));
    SpendAppend(file, r, ladder);
    UsdAppend(measured, ladder, Calls(t, |ladder|), more);
    UsdOfRow(measured, ladder, t, |ladder|);
    RowForLength(measured, ladder, t);
    RecordedAppend(file, r, ladder, t);
    RecordedMonotone(file + [r], later, ladder, t);
    CallsAreFor(t, |ladder|);
    OneRowMore(|later| - |file| - 1, |ladder|);
  }

  lemma RowForLength(measured: Measured, ladder: Ladder, t: string)
    ensures |RowFor(measured, ladder, t)| == |ladder|
    ensures RowCost(RowFor(measured, ladder, t)) == CostBetween(RowFor(measured, ladder, t), 0, |ladder|)
  {}

  lemma CallsAreFor(t: string, n: nat)
    ensures forall c :: c in Calls(t, n) ==> c.task == t
  {}

  lemma OneRowMore(rows: int, w: nat)
    ensures (rows + 1) * w == w + rows * w
  {}

  /** A run pays for the rows it records, at what the file grows by, and, when it is interrupted, for at most
      one more row that it does not record. */
  lemma RunSettles(measured: Measured, run: Run, file: seq<CheckpointRow>)
    requires Distinct(run.tasks) && Genuine(measured, file)
    ensures var e := Execute(measured, run, file);
            var lost := Unrecorded(e.calls, e.file, run.ladder);
            && Usd(measured, run.ladder, e.calls)
               == Spend(e.file, run.ladder) - Spend(file, run.ladder) + Usd(measured, run.ladder, lost)
            && file <= e.file && |e.calls| == (|e.file| - |file|) * |run.ladder| + |lost|
            && |lost| <= if e.outcome.Interrupted? then |run.ladder| else 0
  {
    hide Spend, Usd, Knows, Recorded, Unrecorded, LoadRows;
    KnowsAtStart(measured, run, file);
    var bought, broken := ContinueSettles(measured, run.ladder, run.budget, run.tasks, LoadRows(file, run.ladder),
                                          Spend(file, run.ladder), run.ticks, file, [], []);
    var e := Execute(measured, run, file);
    assert e.calls == bought + broken;
    UnrecordedIsTail(bought, broken, e.file, run.ladder);
    UsdAppend(measured, run.ladder, bought, broken);
  }

  lemma KnowsAtStart(measured: Measured, run: Run, file: seq<CheckpointRow>)
    requires Genuine(measured, file)
    ensures Knows(measured, run.ladder, run.tasks, LoadRows(file, run.ladder), file)
  {
    hide Recorded, LoadRows;
    LoadIsRecorded(measured, file, run.ladder);
  }

  // ----- any number of runs

  /** Number of rows the file holds for a ladder. */
  function RowCount(file: seq<CheckpointRow>, ladder: Ladder): nat { |RowsOf(file, ladder)| }

  lemma RowCountPush(file: seq<CheckpointRow>, r: CheckpointRow, ladder: Ladder)
    ensures RowCount(file + [r], ladder) == RowCount(file, ladder) + if r.ladder == ladder then 1 else 0
  {
    assert (file + [r])[..|file|] == file;
  }

  /** New rows of one ladder count for it alone. */
  lemma {:induction false} NewRows(file: seq<CheckpointRow>, later: seq<CheckpointRow>, own: Ladder, ladder: Ladder)
    requires file <= later && forall p :: |file| <= p < |later| ==> later[p].ladder == own
    ensures RowCount(later, ladder) == RowCount(file, ladder) + if own == ladder then |later| - |file| else 0
    ensures own != ladder ==> LoadRows(later, ladder) == LoadRows(file, ladder)
    decreases |later|
  {
    hide RowCount;
    if |file| == |later| {
      assert file == later;
    } else {
      var most, r := later[..|later| - 1], later[|later| - 1];
      assert later == most + [r];
      NewRows(file, most, own, ladder);
      RowCountPush(most, r, ladder);
      LoadAppend(most, r, ladder);
    }
  }

  /** What a series of runs of one ladder adds up to: USD paid, USD paid for nothing recorded, calls made and
      runs interrupted. */
  datatype Totals = Totals(paid: real, lost: real, calls: nat, interruptions: nat)

  ghost function RunTotals(measured: Measured, run: Run, file: seq<CheckpointRow>, ladder: Ladder): Totals {
    if run.ladder != ladder then Totals(0.0, 0.0, 0, 0)
    else
      var e := Execute(measured, run, file);
      Totals(Usd(measured, ladder, e.calls), Usd(measured, ladder, Unrecorded(e.calls, e.file, ladder)), |e.calls|,
             if e.outcome.Interrupted? then 1 else 0)
  }

  ghost function AllTotals(measured: Measured, runs: seq<Run>, file: seq<CheckpointRow>, ladder: Ladder): Totals {
    if runs == [] then Totals(0.0, 0.0, 0, 0)
    else
      var most := runs[..|runs| - 1];
      var a := AllTotals(measured, most, file, ladder);
      var b := RunTotals(measured, runs[|runs| - 1], After(measured, most, file), ladder);
      Totals(a.paid + b.paid, a.lost + b.lost, a.calls + b.calls, a.interruptions + b.interruptions)
  }

  /** What holds of a run, for any ladder: money and calls are conserved up to one row per interruption. */
  ghost predicate Conserved(totals: Totals, ladder: Ladder, file: seq<CheckpointRow>, later: seq<CheckpointRow>) {
    var rows := RowCount(later, ladder) - RowCount(file, ladder);
    && totals.paid == Spend(later, ladder) - Spend(file, ladder) + totals.lost
    && rows * |ladder| <= totals.calls <= (rows + totals.interruptions) * |ladder|
    && (totals.interruptions == 0 ==> totals.lost == 0.0)
  }

  lemma RunConserves(measured: Measured, run: Run, file: seq<CheckpointRow>, ladder: Ladder)
    requires Distinct(run.tasks) && Genuine(measured, file)
    ensures Conserved(RunTotals(measured, run, file, ladder), ladder, file, Execute(measured, run, file).file)
  {
    hide Usd, Unrecorded, RowCount, LoadRows, TotalCost;
    var done, spent := LoadRows(file, run.ladder), Spend(file, run.ladder);
    var e := Execute(measured, run, file);
    ContinueAppendsOwnLadder(measured, run.ladder, run.budget, run.tasks, done, spent, run.ticks, file, [], []);
    NewRows(file, e.file, run.ladder, ladder);
    if run.ladder == ladder {
      RunSettles(measured, run, file);
      var lost := Unrecorded(e.calls, e.file, ladder);
      NothingCostsNothing(measured, ladder, lost);
      OneRowMore(|e.file| - |file|, |ladder|);
    }
  }

  lemma NothingCostsNothing(measured: Measured, ladder: Ladder, calls: seq<Call>)
    ensures calls == [] ==> Usd(measured, ladder, calls) == 0.0
  {}

  lemma ConservedTwice(a: Totals, b: Totals, c: Totals, ladder: Ladder,
                       file: seq<CheckpointRow>, mid: seq<CheckpointRow>, later: seq<CheckpointRow>)
    requires Conserved(a, ladder, file, mid) && Conserved(b, ladder, mid, later)
    requires c == Totals(a.paid + b.paid, a.lost + b.lost, a.calls + b.calls, a.interruptions + b.interruptions)
    ensures Conserved(c, ladder, file, later)
  {
    hide Spend, RowCount;
    var r, s := RowCount(mid, ladder) - RowCount(file, ladder), RowCount(later, ladder) - RowCount(mid, ladder);
    AddRows(r, s, |ladder|);
    AddRows(r + a.interruptions, s + b.interruptions, |ladder|);
  }

  lemma AddRows(r: int, s: int, w: nat)
    ensures (r + s) * w == r * w + s * w
  {}

  /** Over any series of runs, interrupted anywhere: what was paid is what the file records more than before,
      plus what was lost to interruptions, and the calls made are those of the new rows plus at most one
      row's worth for every interrupted run. */
  lemma {:induction false} PaidIsRecordedPlusLost(measured: Measured, runs: seq<Run>, file: seq<CheckpointRow>,
                                                  ladder: Ladder)
    requires AllDistinct(runs) && Genuine(measured, file) && NoneTwice(file)
    ensures Conserved(AllTotals(measured, runs, file, ladder), ladder, file, After(measured, runs, file))
  {
    hide Conserved, RunTotals, Execute;
    if runs == [] {
      NothingConserved(file, ladder);
    } else {
      var most := runs[..|runs| - 1];
      var mid := After(measured, most, file);
      PaidIsRecordedPlusLost(measured, most, file, ladder);
      RunsKeep(measured, most, file);
      RunConserves(measured, runs[|runs| - 1], mid, ladder);
      ConservedTwice(AllTotals(measured, most, file, ladder), RunTotals(measured, runs[|runs| - 1], mid, ladder),
                     AllTotals(measured, runs, file, ladder), ladder, file, mid, After(measured, runs, file));
    }
  }

  lemma NothingConserved(file: seq<CheckpointRow>, ladder: Ladder)
    ensures Conserved(Totals(0.0, 0.0, 0, 0), ladder, file, file)
  {
    hide Spend, RowCount;
  }

  /** The cap on everything paid: with all runs of a ladder capped, the money paid from an empty file on is
      below the cap plus one recorded row plus what interruptions lost, and nothing is lost without one. */
  lemma CapOnEverythingPaid(measured: Measured, runs: seq<Run>, ladder: Ladder, cap: real)
    requires AllDistinct(runs) && forall i :: 0 <= i < |runs| ==> Capped(runs[i], ladder, cap)
    ensures var file, totals := After(measured, runs, []), AllTotals(measured, runs, [], ladder);
            && (totals.paid == totals.lost
                || exists p :: 0 <= p < |file| && file[p].ladder == ladder
                               && totals.paid < cap + RowCost(file[p].rungs) + totals.lost)
            && totals.calls <= (RowCount(file, ladder) + totals.interruptions) * |ladder|
            && (totals.interruptions == 0 ==> totals.lost == 0.0)
  {
    hide Spend, RowCost, After, AllTotals, RowsOf;
    PaidIsRecordedPlusLost(measured, runs, [], ladder);
    NothingSpent(ladder);
    NoRowsYet(ladder);
    SpendCapSurvivesInterruption(measured, runs, ladder, cap);
  }

  lemma NoRowsYet(ladder: Ladder)
    ensures RowCount([], ladder) == 0
  {}

  // ----- what the cap does not stop

  function Repeated(run: Run, n: nat): (runs: seq<Run>)
    ensures |runs| == n
  {
    seq(n, _ => run)
  }

  /** A run killed after its first call records nothing, so the next one pays for the same call again. With
      any cap above zero, interruptions alone can take what is paid past any amount. */
  lemma {:induction false} InterruptionsOutspendAnyCap(measured: Measured, ladder: Ladder, task: string, cap: real,
                                                       n: nat)
    requires ladder != [] && cap > 0.0
    ensures var runs := Repeated(Run([task], ladder, Some(cap), 1), n);
            && AllDistinct(runs) && (forall i :: 0 <= i < n ==> Capped(runs[i], ladder, cap))
            && After(measured, runs, []) == []
            && AllTotals(measured, runs, [], ladder).paid == n as real * measured(ladder[0], task).cost
  {
    hide Execute, After, AllTotals;
    var run := Run([task], ladder, Some(cap), 1);
    var runs := Repeated(run, n);
    if n == 0 {
      NoRuns(measured, ladder);
    } else {
      InterruptionsOutspendAnyCap(measured, ladder, task, cap, n - 1);
      assert runs[..n - 1] == Repeated(run, n - 1);
      LastRun(measured, runs, ladder);
      OneCallThenKilled(measured, ladder, task, cap);
      OneMoreCall(n, measured(ladder[0], task).cost);
    }
  }

  lemma NoRuns(measured: Measured, ladder: Ladder)
    ensures After(measured, [], []) == [] && AllTotals(measured, [], [], ladder).paid == 0.0
  {}

  lemma LastRun(measured: Measured, runs: seq<Run>, ladder: Ladder)
    requires runs != [] && runs[|runs| - 1].ladder == ladder
    ensures var most, last := runs[..|runs| - 1], runs[|runs| - 1];
            var e := Execute(measured, last, After(measured, most, []));
            && After(measured, runs, []) == e.file
            && AllTotals(measured, runs, [], ladder).paid
               == AllTotals(measured, most, [], ladder).paid + Usd(measured, ladder, e.calls)
  {
    hide Execute, Usd;
  }

  lemma OneMoreCall(n: nat, c: real)
    requires n > 0
    ensures n as real * c == (n - 1) as real * c + c
  {
    assert n as real == (n - 1) as real + 1.0;
  }

  lemma OneCallThenKilled(measured: Measured, ladder: Ladder, task: string, cap: real)
    requires ladder != [] && cap > 0.0
    ensures var e := Execute(measured, Run([task], ladder, Some(cap), 1), []);
            && e == Effect(Interrupted, [], [Call(task, 0)])
            && Usd(measured, ladder, e.calls) == measured(ladder[0], task).cost
  {
    NothingSpent(ladder);
    assert LoadRows([], ladder) == map[];
    assert Calls(task, 1) == [Call(task, 0)];
    assert [Call(task, 0)][..0] == [];
    assert [] + [Call(task, 0)] == [Call(task, 0)];
  }

  // ----- the boundary

  ghost predicate AllCapped(runs: seq<Run>, ladder: Ladder, cap: real) {
    forall i :: 0 <= i < |runs| ==> Capped(runs[i], ladder, cap)
  }

  /** Nothing was paid, or less than the cap plus one recorded row. */
  ghost predicate PaidWithinCap(measured: Measured, runs: seq<Run>, ladder: Ladder, cap: real) {
    var file, paid := After(measured, runs, []), AllTotals(measured, runs, [], ladder).paid;
    paid == 0.0 || exists p :: 0 <= p < |file| && file[p].ladder == ladder && paid < cap + RowCost(file[p].rungs)
  }

  /** The cap bounds everything paid by any series of capped runs with at most `i` interruptions. */
  ghost predicate CapBoundsAll(measured: Measured, ladder: Ladder, cap: real, i: nat) {
    forall runs ::
      AllDistinct(runs) && AllCapped(runs, ladder, cap) && AllTotals(measured, runs, [], ladder).interruptions <= i
      ==> PaidWithinCap(measured, runs, ladder, cap)
  }

  /** For any ladder whose first rung has a price, the cap bounds everything paid exactly as long as no run is
      interrupted. */
  lemma CapBoundsAllExactlyWithoutInterruption(measured: Measured, ladder: Ladder, task: string, cap: real, i: nat)
    requires ladder != [] && cap > 0.0 && measured(ladder[0], task).cost > 0.0
    ensures CapBoundsAll(measured, ladder, cap, i) <==> i == 0
  {
    hide After, AllTotals, RowCost, AllDistinct, Capped;
    if i == 0 {
      forall runs | AllDistinct(runs) && AllCapped(runs, ladder, cap)
                    && AllTotals(measured, runs, [], ladder).interruptions <= i
        ensures PaidWithinCap(measured, runs, ladder, cap)
      {
        CapOnEverythingPaid(measured, runs, ladder, cap);
      }
    } else {
      var runs := Repeated(Run([task], ladder, Some(cap), 1), 1);
      InterruptionsOutspendAnyCap(measured, ladder, task, cap, 1);
      OneRunOneInterruption(measured, runs, ladder);
      assert AllCapped(runs, ladder, cap) && !PaidWithinCap(measured, runs, ladder, cap);
    }
  }

  lemma OneRunOneInterruption(measured: Measured, runs: seq<Run>, ladder: Ladder)
    requires |runs| == 1
    ensures AllTotals(measured, runs, [], ladder).interruptions <= 1
  {
    hide Execute, Usd, Unrecorded;
    assert runs[..0] == [];
  }
}
