/** Paid measurement that survives interruption (`measure_resumable`, `load_checkpoint`,
    `append_checkpoint`, `load_matrix` in crates/firstpass-bench/src/coding_policy.rs). */
module Checkpoint {
  import opened Matrix

  type Ladder = seq<string>

  datatype CheckpointRow = CheckpointRow(taskId: string, ladder: Ladder, rungs: seq<RungOutcome>)

  /** What a model costs and produces on a task: model id, task id. */
  type Measured = (string, string) -> RungOutcome

  datatype Outcome =
    | Finished(matrix: seq<seq<RungOutcome>>)
    | CapReached
    | Interrupted

  /** One invocation. `ticks` says where it is killed or fails: every rung call takes one, and so does
      writing a finished row to the file. */
  datatype Run = Run(tasks: seq<string>, ladder: Ladder, budget: Option<real>, ticks: nat)

  /** A paid call: for which task, of which rung. */
  datatype Call = Call(task: string, rung: nat)

  /** How a run ended, the file it leaves behind and its paid calls, in order. */
  datatype Effect = Effect(outcome: Outcome, file: seq<CheckpointRow>, calls: seq<Call>)

  function RowFor(measured: Measured, ladder: Ladder, task: string): (row: seq<RungOutcome>)
    ensures |row| == |ladder|
  {
    seq(|ladder|, k requires 0 <= k < |ladder| => measured(ladder[k], task))
  }

  function RowCost(row: seq<RungOutcome>): real {
    CostBetween(row, 0, |row|)
  }

  // ----- reading the file

  /** Rows of this ladder by task; a later row for the same task replaces an earlier one. */
  function LoadRows(file: seq<CheckpointRow>, ladder: Ladder): map<string, seq<RungOutcome>> {
    if file == [] then map[]
    else
      var r := file[|file| - 1];
      var done := LoadRows(file[..|file| - 1], ladder);
      if r.ladder == ladder then done[r.taskId := r.rungs] else done
  }

  ghost function TotalCost(done: map<string, seq<RungOutcome>>): real {
    if done == map[] then 0.0
    else
      var k :| k in done;
      RowCost(done[k]) + TotalCost(done - {k})
  }

  /** The total does not depend on the order the map is walked in. */
  lemma {:induction false} TotalCostRemove(done: map<string, seq<RungOutcome>>, k: string)
    requires k in done
    ensures TotalCost(done) == RowCost(done[k]) + TotalCost(done - {k})
    decreases |done|
  {
    hide RowCost;
    var l :| l in done && TotalCost(done) == RowCost(done[l]) + TotalCost(done - {l});
    if k != l {
      TotalCostRemove(done - {l}, k);
      TotalCostRemove(done - {k}, l);
      assert done - {l} - {k} == done - {k} - {l};
    }
  }

  lemma TotalCostAdd(done: map<string, seq<RungOutcome>>, k: string, row: seq<RungOutcome>)
    requires k !in done
    ensures TotalCost(done[k := row]) == TotalCost(done) + RowCost(row)
  {
    TotalCostRemove(done[k := row], k);
    assert done[k := row] - {k} == done;
  }

  /** USD recorded in the file for this ladder. */
  ghost function Spend(file: seq<CheckpointRow>, ladder: Ladder): real {
    TotalCost(LoadRows(file, ladder))
  }

  // ----- one run

  ghost function Execute(measured: Measured, run: Run, file: seq<CheckpointRow>): Effect {
    Continue(measured, run.ladder, run.budget, run.tasks, LoadRows(file, run.ladder), Spend(file, run.ladder),
             run.ticks, file, [], [])
  }

  /** The rest of a run, from the tasks still to visit. */
  ghost function Continue(measured: Measured, ladder: Ladder, budget: Option<real>, tasks: seq<string>,
                          done: map<string, seq<RungOutcome>>, spent: real, ticks: nat,
                          file: seq<CheckpointRow>, matrix: seq<seq<RungOutcome>>, calls: seq<Call>): Effect
    decreases |tasks|
  {
    if tasks == [] then Effect(Finished(matrix), file, calls)
    else
      var t := tasks[0];
      if t in done then
        Continue(measured, ladder, budget, tasks[1..], done - {t}, spent, ticks, file, matrix + [done[t]], calls)
      else if budget.Some? && spent >= budget.value then Effect(CapReached, file, calls)
      else if ticks <= |ladder| then Effect(Interrupted, file, calls + Calls(t, ticks))
      else
        var row := RowFor(measured, ladder, t);
        Continue(measured, ladder, budget, tasks[1..], done, spent + RowCost(row), ticks - |ladder| - 1,
                 file + [CheckpointRow(t, ladder, row)], matrix + [row], calls + Calls(t, |ladder|))
  }

  /** The calls for the first `n` rungs of a task. */
  function Calls(t: string, n: nat): (calls: seq<Call>)
    ensures |calls| == n
  {
    seq(n, k requires 0 <= k < n => Call(t, k))
  }

  /** A line of the file: a row, nothing, or text that does not parse as a row. */
  datatype Line = Record(row: CheckpointRow) | Blank | Garbage

  /** The rows among the lines, in order. */
  function Parsed(lines: seq<Line>): seq<CheckpointRow> {
    if lines == [] then []
    else
      var last := lines[|lines| - 1];
      Parsed(lines[..|lines| - 1]) + if last.Record? then [last.row] else []
  }

  lemma ParsedStep(lines: seq<Line>, i: nat)
    requires i < |lines|
    ensures Parsed(lines[..i + 1])
         == if lines[i].Record? then Parsed(lines[..i]) + [lines[i].row] else Parsed(lines[..i])
  {
    assert lines[..i + 1][..i] == lines[..i];
    assert Parsed(lines[..i]) + [] == Parsed(lines[..i]);
  }

  /** The checkpoint: `kept` is false for a measurement without a checkpoint path. */
  class CheckpointFile {
    const kept: bool
    var lines: seq<Line>

    /** What a run can resume from. */
    function Rows(): seq<CheckpointRow>
      reads this
    {
      if kept then Parsed(lines) else []
    }

    constructor (kept: bool, lines: seq<Line>)
      ensures this.kept == kept && this.lines == lines
    {
      this.kept, this.lines := kept, lines;
    }

    /** Lines that do not parse yield nothing. */
    method Load(ladder: Ladder) returns (done: map<string, seq<RungOutcome>>)
      ensures done == LoadRows(Rows(), ladder)
    {
      done := map[];
      if !kept {
        return;
      }
      for i := 0 to |lines|
        invariant done == LoadRows(Parsed(lines[..i]), ladder)
      {
        ParsedStep(lines, i);
        if lines[i].Record? {
          LoadAppend(Parsed(lines[..i]), lines[i].row, ladder);
          if lines[i].row.ladder == ladder {
            done := done[lines[i].row.taskId := lines[i].row.rungs];
          }
        }
      }
      assert lines[..|lines|] == lines;
    }

    method Append(taskId: string, ladder: Ladder, row: seq<RungOutcome>)
      modifies this
      ensures lines == if kept then old(lines) + [Record(CheckpointRow(taskId, ladder, row))] else old(lines)
      ensures Rows() == if kept then old(Rows()) + [CheckpointRow(taskId, ladder, row)] else []
    {
      if !kept {
        return;
      }
      lines := lines + [Record(CheckpointRow(taskId, ladder, row))];
      ParsedStep(lines, |lines| - 1);
      assert lines[..|lines| - 1] == old(lines) && lines[..|lines| - 1 + 1] == lines;
    }
  }

  method SumCosts(row: seq<RungOutcome>) returns (cost: real)
    ensures cost == RowCost(row)
  {
    cost := 0.0;
    for i := 0 to |row|
      invariant cost == CostBetween(row, 0, i)
    {
      cost := cost + row[i].cost;
    }
  }

  method SumRecorded(done: map<string, seq<RungOutcome>>) returns (spent: real)
    ensures spent == TotalCost(done)
  {
    spent := 0.0;
    var left := done;
    while left != map[]
      invariant spent + TotalCost(left) == TotalCost(done)
      decreases |left|
    {
      var k :| k in left;
      TotalCostRemove(left, k);
      var cost := SumCosts(left[k]);
      spent := spent + cost;
      left := left - {k};
    }
  }

  /** One task: its rungs are called in order until the run is killed. */
  method CallRungs(measured: Measured, ladder: Ladder, t: string, ticks: nat)
    returns (row: seq<RungOutcome>, made: seq<Call>, left: nat)
    ensures ticks >= |ladder| ==>
              row == RowFor(measured, ladder, t) && made == Calls(t, |ladder|) && left == ticks - |ladder|
    ensures ticks < |ladder| ==> |row| < |ladder| && made == Calls(t, ticks) && left == 0
  {
    row, made, left := [], [], ticks;
    for k := 0 to |ladder|
      invariant k <= ticks && left == ticks - k
      invariant row == RowFor(measured, ladder, t)[..k] && made == Calls(t, k)
    {
      if left == 0 {
        return;
      }
      left := left - 1;
      row := row + [measured(ladder[k], t)];
      made := made + [Call(t, k)];
    }
  }

  /** With a checkpoint the rows of the file are those of the pure run; without one, result and calls are
      those of a run from an empty file, and nothing is written. */
  method MeasureResumable(file: CheckpointFile, measured: Measured, run: Run)
    returns (outcome: Outcome, calls: seq<Call>)
    modifies file
    ensures var e := Execute(measured, run, old(file.Rows()));
            outcome == e.outcome && calls == e.calls && file.Rows() == if file.kept then e.file else []
    ensures !file.kept ==> file.lines == old(file.lines)
  {
    hide Parsed, LoadRows, TotalCost, RowFor, RowCost, Calls;
    var done := file.Load(run.ladder);
    var spent := SumRecorded(done);
    var ticks := run.ticks;
    var matrix: seq<seq<RungOutcome>> := [];
    ghost var rows := file.Rows();
    calls := [];
    for i := 0 to |run.tasks|
      invariant Execute(measured, run, old(file.Rows()))
             == Continue(measured, run.ladder, run.budget, run.tasks[i..], done, spent, ticks, rows, matrix, calls)
      invariant file.Rows() == if file.kept then rows else []
      invariant !file.kept ==> file.lines == old(file.lines)
    {
      var t := run.tasks[i];
      assert run.tasks[i..][0] == t && run.tasks[i..][1..] == run.tasks[i + 1..];
      if t in done {
        matrix := matrix + [done[t]];
        done := done - {t};
        continue;
      }
      if run.budget.Some? && spent >= run.budget.value {
        return CapReached, calls;
      }
      var row, made, left := CallRungs(measured, run.ladder, t, ticks);
      calls, ticks := calls + made, left;
      if |row| < |run.ladder| || ticks == 0 {
        return Interrupted, calls;
      }
      ticks := ticks - 1;
      var cost := SumCosts(row);
      spent := spent + cost;
      file.Append(t, run.ladder, row);
      rows := rows + [CheckpointRow(t, run.ladder, row)];
      matrix := matrix + [row];
    }
    outcome := Finished(matrix);
  }

  // ----- what the file is worth

  /** The file holds a row for this task, measured with this ladder. */
  ghost predicate Recorded(file: seq<CheckpointRow>, ladder: Ladder, t: string) {
    exists i :: 0 <= i < |file| && file[i].taskId == t && file[i].ladder == ladder
  }

  /** Every row is what its own ladder measures on its task: nothing was invented or relabelled. */
  ghost predicate Genuine(measured: Measured, file: seq<CheckpointRow>) {
    forall i :: 0 <= i < |file| ==> file[i].rungs == RowFor(measured, file[i].ladder, file[i].taskId)
  }

  ghost predicate NoneTwice(file: seq<CheckpointRow>) {
    forall i, j :: 0 <= i < j < |file| ==> file[i].taskId != file[j].taskId || file[i].ladder != file[j].ladder
  }

  ghost predicate Distinct(tasks: seq<string>) {
    forall i, j :: 0 <= i < j < |tasks| ==> tasks[i] != tasks[j]
  }

  lemma LoadAppend(file: seq<CheckpointRow>, r: CheckpointRow, ladder: Ladder)
    ensures LoadRows(file + [r], ladder)
            == if r.ladder == ladder then LoadRows(file, ladder)[r.taskId := r.rungs] else LoadRows(file, ladder)
  {
    assert (file + [r])[..|file|] == file;
  }

  lemma RecordedAppend(file: seq<CheckpointRow>, r: CheckpointRow, ladder: Ladder, t: string)
    ensures Recorded(file + [r], ladder, t) <==> Recorded(file, ladder, t) || (r.taskId == t && r.ladder == ladder)
  {
    var g := file + [r];
    assert g[|file|] == r;
    if Recorded(file, ladder, t) {
      var i :| 0 <= i < |file| && file[i].taskId == t && file[i].ladder == ladder;
      assert g[i] == file[i];
    }
  }

  lemma RecordedMonotone(file: seq<CheckpointRow>, later: seq<CheckpointRow>, ladder: Ladder, t: string)
    requires file <= later && Recorded(file, ladder, t)
    ensures Recorded(later, ladder, t)
  {
    var i :| 0 <= i < |file| && file[i].taskId == t && file[i].ladder == ladder;
    assert later[i] == file[i];
  }

  /** Loading finds exactly the tasks recorded with this ladder, and only what this ladder measured. */
  lemma {:induction false} LoadIsRecorded(measured: Measured, file: seq<CheckpointRow>, ladder: Ladder)
    ensures forall t :: t in LoadRows(file, ladder) <==> Recorded(file, ladder, t)
    ensures Genuine(measured, file) ==>
              forall t :: t in LoadRows(file, ladder) ==> LoadRows(file, ladder)[t] == RowFor(measured, ladder, t)
  {
    if file != [] {
      var most, r := file[..|file| - 1], file[|file| - 1];
      LoadIsRecorded(measured, most, ladder);
      assert file == most + [r];
      forall t ensures t in LoadRows(file, ladder) <==> Recorded(file, ladder, t) {
        RecordedAppend(most, r, ladder, t);
      }
    }
  }

  /** A task's row is the last one the file holds for it and the ladder. */
  lemma {:induction false} LoadTakesTheLast(file: seq<CheckpointRow>, ladder: Ladder, p: nat)
    requires p < |file| && file[p].ladder == ladder
    requires forall q :: p < q < |file| ==> file[q].ladder != ladder || file[q].taskId != file[p].taskId
    ensures file[p].taskId in LoadRows(file, ladder) && LoadRows(file, ladder)[file[p].taskId] == file[p].rungs
  {
    if p < |file| - 1 {
      LoadTakesTheLast(file[..|file| - 1], ladder, p);
    }
  }

  /** What a run knows in the middle: of the tasks still to visit, `done` holds exactly those the file
      records, and what it holds is genuine. */
  ghost predicate Knows(measured: Measured, ladder: Ladder, tasks: seq<string>,
                        done: map<string, seq<RungOutcome>>, file: seq<CheckpointRow>) {
    && (forall t :: t in tasks ==> (t in done <==> Recorded(file, ladder, t)))
    && (forall t :: t in done ==> done[t] == RowFor(measured, ladder, t))
  }

  lemma KnowsAfterSkip(measured: Measured, ladder: Ladder, tasks: seq<string>,
                       done: map<string, seq<RungOutcome>>, file: seq<CheckpointRow>)
    requires tasks != [] && Distinct(tasks) && Knows(measured, ladder, tasks, done, file)
    ensures Distinct(tasks[1..]) && Knows(measured, ladder, tasks[1..], done - {tasks[0]}, file)
  {
    assert forall t :: t in tasks[1..] ==> t in tasks && t != tasks[0];
  }

  lemma KnowsAfterBuy(measured: Measured, ladder: Ladder, tasks: seq<string>,
                      done: map<string, seq<RungOutcome>>, file: seq<CheckpointRow>, r: CheckpointRow)
    requires tasks != [] && Distinct(tasks) && Knows(measured, ladder, tasks, done, file)
    requires r.taskId == tasks[0] && r.ladder == ladder
    ensures Distinct(tasks[1..]) && Knows(measured, ladder, tasks[1..], done, file + [r])
  {
    forall t | t in tasks[1..] ensures t in done <==> Recorded(file + [r], ladder, t) {
      assert t in tasks && t != tasks[0];
      RecordedAppend(file, r, ladder, t);
    }
  }

  lemma AppendNew(measured: Measured, file: seq<CheckpointRow>, r: CheckpointRow)
    requires Genuine(measured, file) && NoneTwice(file)
    requires r.rungs == RowFor(measured, r.ladder, r.taskId) && !Recorded(file, r.ladder, r.taskId)
    ensures Genuine(measured, file + [r]) && NoneTwice(file + [r])
  {}

  /** Whatever a run does and wherever it stops, the file only grows and stays genuine and free of
      repeated rows. */
  lemma {:induction false} ContinueKeeps(measured: Measured, ladder: Ladder, budget: Option<real>, tasks: seq<string>,
                                         done: map<string, seq<RungOutcome>>, spent: real, ticks: nat,
                                         file: seq<CheckpointRow>, matrix: seq<seq<RungOutcome>>, calls: seq<Call>)
    requires Distinct(tasks) && Knows(measured, ladder, tasks, done, file)
    requires Genuine(measured, file) && NoneTwice(file)
    ensures var e := Continue(measured, ladder, budget, tasks, done, spent, ticks, file, matrix, calls);
            file <= e.file && Genuine(measured, e.file) && NoneTwice(e.file)
    decreases |tasks|
  {
    if tasks != [] {
      var t := tasks[0];
      if t in done {
        KnowsAfterSkip(measured, ladder, tasks, done, file);
        ContinueKeeps(measured, ladder, budget, tasks[1..], done - {t}, spent, ticks, file, matrix + [done[t]], calls);
      } else if !(budget.Some? && spent >= budget.value) && ticks > |ladder| {
        var row := RowFor(measured, ladder, t);
        var r := CheckpointRow(t, ladder, row);
        KnowsAfterBuy(measured, ladder, tasks, done, file, r);
        AppendNew(measured, file, r);
        ContinueKeeps(measured, ladder, budget, tasks[1..], done, spent + RowCost(row), ticks - |ladder| - 1,
                      file + [r], matrix + [row], calls + Calls(t, |ladder|));
      }
    }
  }

  /** The matrix an uninterrupted, uncapped run without a checkpoint measures. */
  function FullMatrix(measured: Measured, ladder: Ladder, tasks: seq<string>): (matrix: seq<seq<RungOutcome>>)
    ensures |matrix| == |tasks|
  {
    seq(|tasks|, i requires 0 <= i < |tasks| => RowFor(measured, ladder, tasks[i]))
  }

  lemma {:induction false} ContinueFinishes(measured: Measured, ladder: Ladder, budget: Option<real>,
                                            tasks: seq<string>, done: map<string, seq<RungOutcome>>, spent: real,
                                            ticks: nat, file: seq<CheckpointRow>, matrix: seq<seq<RungOutcome>>,
                                            calls: seq<Call>)
    requires forall t :: t in done ==> done[t] == RowFor(measured, ladder, t)
    ensures var e := Continue(measured, ladder, budget, tasks, done, spent, ticks, file, matrix, calls);
            e.outcome.Finished? ==> e.outcome.matrix == matrix + FullMatrix(measured, ladder, tasks)
    decreases |tasks|
  {
    if tasks == [] {
      assert matrix + FullMatrix(measured, ladder, tasks) == matrix;
    } else {
      var t := tasks[0];
      var row := RowFor(measured, ladder, t);
      assert matrix + FullMatrix(measured, ladder, tasks)
          == (matrix + [row]) + FullMatrix(measured, ladder, tasks[1..]);
      if t in done {
        ContinueFinishes(measured, ladder, budget, tasks[1..], done - {t}, spent, ticks, file, matrix + [done[t]],
                         calls);
      } else if !(budget.Some? && spent >= budget.value) && ticks > |ladder| {
        ContinueFinishes(measured, ladder, budget, tasks[1..], done, spent + RowCost(row), ticks - |ladder| - 1,
                         file + [CheckpointRow(t, ladder, row)], matrix + [row], calls + Calls(t, |ladder|));
      }
    }
  }

  /** Any run that finishes, on whatever genuine file earlier runs left, returns exactly the uninterrupted
      matrix: no row of another ladder, none missing, none stale. */
  lemma FinishedRunIsUninterruptedRun(measured: Measured, run: Run, file: seq<CheckpointRow>)
    requires Genuine(measured, file)
    ensures var e := Execute(measured, run, file);
            e.outcome.Finished? ==> e.outcome.matrix == FullMatrix(measured, run.ladder, run.tasks)
    ensures var e := Execute(measured, run, file);
            e.outcome.Finished? ==>
              && |e.outcome.matrix| == |run.tasks|
              && forall i :: 0 <= i < |run.tasks| ==>
                   |e.outcome.matrix[i]| == |run.ladder|
                   && forall k :: 0 <= k < |run.ladder| ==>
                        e.outcome.matrix[i][k] == measured(run.ladder[k], run.tasks[i])
  {
    LoadIsRecorded(measured, file, run.ladder);
    ContinueFinishes(measured, run.ladder, run.budget, run.tasks, LoadRows(file, run.ladder), Spend(file, run.ladder),
                     run.ticks, file, [], []);
  }

  /** Without a cap and with time for every rung call and write, a run does finish. */
  lemma {:induction false} ContinueReachesTheEnd(measured: Measured, ladder: Ladder, tasks: seq<string>,
                                                 done: map<string, seq<RungOutcome>>, spent: real, ticks: nat,
                                                 file: seq<CheckpointRow>, matrix: seq<seq<RungOutcome>>,
                                                 calls: seq<Call>)
    requires ticks >= |tasks| * (|ladder| + 1)
    ensures Continue(measured, ladder, None, tasks, done, spent, ticks, file, matrix, calls).outcome.Finished?
    decreases |tasks|
  {
    if tasks != [] {
      var t, row := tasks[0], RowFor(measured, ladder, tasks[0]);
      assert |tasks| * (|ladder| + 1) == |tasks[1..]| * (|ladder| + 1) + (|ladder| + 1);
      assert |tasks[1..]| * (|ladder| + 1) >= 0;
      if t in done {
        ContinueReachesTheEnd(measured, ladder, tasks[1..], done - {t}, spent, ticks, file, matrix + [done[t]], calls);
      } else {
        ContinueReachesTheEnd(measured, ladder, tasks[1..], done, spent + RowCost(row), ticks - |ladder| - 1,
                              file + [CheckpointRow(t, ladder, row)], matrix + [row], calls + Calls(t, |ladder|));
      }
    }
  }

  // ----- what is paid for

  lemma {:induction false} CallsCount(t: string, n: nat, c: Call)
    ensures multiset(Calls(t, n))[c] == if c.task == t && c.rung < n then 1 else 0
  {
    if n > 0 {
      CallsCount(t, n - 1, c);
      assert Calls(t, n) == Calls(t, n - 1) + [Call(t, n - 1)];
    }
  }

  /** Of a run's further calls: which tasks and rungs they can be for, each once, and that a task that ends
      up recorded had all its rungs called. */
  ghost predicate PaysFairly(ladder: Ladder, tasks: seq<string>, done: map<string, seq<RungOutcome>>,
                             file: seq<CheckpointRow>, paid: seq<Call>) {
    forall c :: c in paid ==> c.task in tasks && c.task !in done && OnceEach(ladder, file, paid, c)
  }

  ghost predicate OnceEach(ladder: Ladder, file: seq<CheckpointRow>, paid: seq<Call>, c: Call) {
    && c.rung < |ladder| && multiset(paid)[c] == 1
    && (Recorded(file, ladder, c.task) ==> forall k :: 0 <= k < |ladder| ==> Call(c.task, k) in paid)
  }

  lemma {:induction false} ContinuePays(measured: Measured, ladder: Ladder, budget: Option<real>, tasks: seq<string>,
                                        done: map<string, seq<RungOutcome>>, spent: real, ticks: nat,
                                        file: seq<CheckpointRow>, matrix: seq<seq<RungOutcome>>, calls: seq<Call>)
    returns (paid: seq<Call>)
    requires Distinct(tasks) && Knows(measured, ladder, tasks, done, file)
    ensures var e := Continue(measured, ladder, budget, tasks, done, spent, ticks, file, matrix, calls);
            e.calls == calls + paid && PaysFairly(ladder, tasks, done, e.file, paid)
    decreases |tasks|
  {
    hide Knows, RowCost, RowFor, Recorded, PaysFairly, OnceEach, Calls;
    paid := [];
    NothingPaid(ladder, tasks, done,
                Continue(measured, ladder, budget, tasks, done, spent, ticks, file, matrix, calls).file);
    if tasks != [] {
      var t, row := tasks[0], RowFor(measured, ladder, tasks[0]);
      if t in done {
        KnowsAfterSkip(measured, ladder, tasks, done, file);
        paid := ContinuePays(measured, ladder, budget, tasks[1..], done - {t}, spent, ticks, file,
                             matrix + [done[t]], calls);
        var e := Continue(measured, ladder, budget, tasks, done, spent, ticks, file, matrix, calls);
        SkippedPart(ladder, tasks, done, e.file, paid);
      } else if !(budget.Some? && spent >= budget.value) {
        if ticks <= |ladder| {
          paid := Calls(t, ticks);
          BrokenOff(measured, ladder, tasks, done, file, ticks);
        } else {
          var r := CheckpointRow(t, ladder, row);
          KnowsAfterBuy(measured, ladder, tasks, done, file, r);
          var rest := ContinuePays(measured, ladder, budget, tasks[1..], done, spent + RowCost(row),
                                   ticks - |ladder| - 1, file + [r], matrix + [row], calls + Calls(t, |ladder|));
          paid := Calls(t, |ladder|) + rest;
          var e := Continue(measured, ladder, budget, tasks, done, spent, ticks, file, matrix, calls);
          PaidPart(ladder, tasks, done, e.file, rest);
        }
      }
    }
  }

  lemma NothingPaid(ladder: Ladder, tasks: seq<string>, done: map<string, seq<RungOutcome>>, file: seq<CheckpointRow>)
    ensures PaysFairly(ladder, tasks, done, file, [])
  {}

  lemma SkippedPart(ladder: Ladder, tasks: seq<string>, done: map<string, seq<RungOutcome>>,
                    file: seq<CheckpointRow>, paid: seq<Call>)
    requires Distinct(tasks) && tasks != [] && PaysFairly(ladder, tasks[1..], done - {tasks[0]}, file, paid)
    ensures PaysFairly(ladder, tasks, done, file, paid)
  {
    hide OnceEach;
    assert tasks[0] !in tasks[1..];
  }

  lemma BrokenOff(measured: Measured, ladder: Ladder, tasks: seq<string>, done: map<string, seq<RungOutcome>>,
                  file: seq<CheckpointRow>, ticks: nat)
    requires Distinct(tasks) && Knows(measured, ladder, tasks, done, file)
    requires tasks != [] && tasks[0] !in done && ticks <= |ladder|
    ensures PaysFairly(ladder, tasks, done, file, Calls(tasks[0], ticks))
  {
    var paid := Calls(tasks[0], ticks);
    forall c | c in paid ensures c.task in tasks && c.task !in done && OnceEach(ladder, file, paid, c) {
      CallsCount(tasks[0], ticks, c);
    }
  }

  lemma PaidPart(ladder: Ladder, tasks: seq<string>, done: map<string, seq<RungOutcome>>,
                 file: seq<CheckpointRow>, rest: seq<Call>)
    requires Distinct(tasks) && tasks != [] && tasks[0] !in done
    requires PaysFairly(ladder, tasks[1..], done, file, rest)
    ensures PaysFairly(ladder, tasks, done, file, Calls(tasks[0], |ladder|) + rest)
  {
    hide Recorded, PaysFairly;
    var t := tasks[0];
    var paid := Calls(t, |ladder|) + rest;
    RestIsForOthers(ladder, tasks, done, file, rest);
    forall c | c in paid ensures c.task in tasks && c.task !in done && OnceEach(ladder, file, paid, c) {
      CallsCount(t, |ladder|, c);
      if c.task == t {
        forall k | 0 <= k < |ladder| ensures Call(t, k) in paid {
          assert Calls(t, |ladder|)[k] == Call(t, k);
        }
      } else {
        assert c in rest;
      }
    }
    assert PaysFairly(ladder, tasks, done, file, paid) by {
      FairIfEach(ladder, tasks, done, file, paid);
    }
  }

  lemma FairIfEach(ladder: Ladder, tasks: seq<string>, done: map<string, seq<RungOutcome>>,
                   file: seq<CheckpointRow>, paid: seq<Call>)
    requires forall c :: c in paid ==> c.task in tasks && c.task !in done && OnceEach(ladder, file, paid, c)
    ensures PaysFairly(ladder, tasks, done, file, paid)
  {}

  lemma RestIsForOthers(ladder: Ladder, tasks: seq<string>, done: map<string, seq<RungOutcome>>,
                        file: seq<CheckpointRow>, rest: seq<Call>)
    requires Distinct(tasks) && tasks != [] && PaysFairly(ladder, tasks[1..], done, file, rest)
    ensures forall c :: c in rest ==>
              c.task in tasks && c.task != tasks[0] && c.task !in done && OnceEach(ladder, file, rest, c)
  {
    hide OnceEach;
    assert forall t :: t in tasks[1..] ==> t in tasks && t != tasks[0];
  }

  /** One run never calls a model for a task the file already records with this ladder, calls no rung of a
      task twice, and every rung of what it records. */
  lemma RunNeverRebuys(measured: Measured, run: Run, file: seq<CheckpointRow>)
    requires Distinct(run.tasks) && Genuine(measured, file)
    ensures var e := Execute(measured, run, file);
            forall c :: c in e.calls ==> !Recorded(file, run.ladder, c.task) && OnceEach(run.ladder, e.file, e.calls, c)
  {
    hide OnceEach;
    LoadIsRecorded(measured, file, run.ladder);
    var e := Execute(measured, run, file);
    var paid := ContinuePays(measured, run.ladder, run.budget, run.tasks, LoadRows(file, run.ladder),
                             Spend(file, run.ladder), run.ticks, file, [], []);
    assert e.calls == paid;
  }

  // ----- the spend cap

  /** Every row of this ladder from position `from` on was bought while the recorded spend of the ladder
      was below the cap. */
  ghost predicate BoughtUnderCap(file: seq<CheckpointRow>, from: nat, ladder: Ladder, cap: real) {
    forall p :: from <= p < |file| && file[p].ladder == ladder ==> Spend(file[..p], ladder) < cap
  }

  lemma SpendAppend(file: seq<CheckpointRow>, r: CheckpointRow, ladder: Ladder)
    requires !Recorded(file, r.ladder, r.taskId)
    ensures Spend(file + [r], ladder) == Spend(file, ladder) + if r.ladder == ladder then RowCost(r.rungs) else 0.0
  {
    hide RowCost;
    LoadAppend(file, r, ladder);
    if r.ladder == ladder {
      LoadIsRecorded((m: string, t: string) => RungOutcome(0.0, false, false, 0.0, None), file, ladder);
      TotalCostAdd(LoadRows(file, ladder), r.taskId, r.rungs);
    }
  }

  lemma CapAppend(file: seq<CheckpointRow>, from: nat, r: CheckpointRow, ladder: Ladder, cap: real)
    requires BoughtUnderCap(file, from, ladder, cap)
    requires r.ladder == ladder ==> Spend(file, ladder) < cap
    ensures BoughtUnderCap(file + [r], from, ladder, cap)
  {
    hide Spend;
    var g := file + [r];
    forall p | from <= p < |g| && g[p].ladder == ladder ensures Spend(g[..p], ladder) < cap {
      assert g[..p] == if p < |file| then file[..p] else file;
    }
  }

  lemma {:induction false} ContinueStaysUnderCap(measured: Measured, ladder: Ladder, cap: real, tasks: seq<string>,
                                                 done: map<string, seq<RungOutcome>>, spent: real, ticks: nat,
                                                 file: seq<CheckpointRow>, matrix: seq<seq<RungOutcome>>,
                                                 calls: seq<Call>, from: nat)
    requires Distinct(tasks) && Knows(measured, ladder, tasks, done, file)
    requires spent == Spend(file, ladder) && BoughtUnderCap(file, from, ladder, cap)
    ensures var e := Continue(measured, ladder, Some(cap), tasks, done, spent, ticks, file, matrix, calls);
            BoughtUnderCap(e.file, from, ladder, cap)
    decreases |tasks|
  {
    hide RowCost, Spend, BoughtUnderCap;
    if tasks != [] {
      var t := tasks[0];
      if t in done {
        KnowsAfterSkip(measured, ladder, tasks, done, file);
        ContinueStaysUnderCap(measured, ladder, cap, tasks[1..], done - {t}, spent, ticks, file,
                              matrix + [done[t]], calls, from);
      } else if spent < cap && ticks > |ladder| {
        var row := RowFor(measured, ladder, t);
        var r := CheckpointRow(t, ladder, row);
        KnowsAfterBuy(measured, ladder, tasks, done, file, r);
        SpendAppend(file, r, ladder);
        CapAppend(file, from, r, ladder, cap);
        ContinueStaysUnderCap(measured, ladder, cap, tasks[1..], done, spent + RowCost(row), ticks - |ladder| - 1,
                              file + [r], matrix + [row], calls + Calls(t, |ladder|), from);
      }
    }
  }

  // ----- where a run stops

  /** Tasks among the first `i` that are not known yet. */
  ghost function Missing(tasks: seq<string>, known: set<string>, i: nat): nat
    requires i <= |tasks|
  {
    if i == 0 then 0 else (if tasks[0] in known then 0 else 1) + Missing(tasks[1..], known, i - 1)
  }

  /** USD their rows cost. */
  ghost function Owed(measured: Measured, ladder: Ladder, tasks: seq<string>, known: set<string>, i: nat): real
    requires i <= |tasks|
  {
    if i == 0 then 0.0
    else
      (if tasks[0] in known then 0.0 else RowCost(RowFor(measured, ladder, tasks[0])))
      + Owed(measured, ladder, tasks[1..], known, i - 1)
  }

  /** The cap is reached when the run comes to task `i`: `spent` and what the tasks before it cost. */
  ghost predicate Barred(measured: Measured, ladder: Ladder, budget: Option<real>, spent: real, tasks: seq<string>,
                         known: set<string>, i: nat)
  {
    i < |tasks| && budget.Some? && spent + Owed(measured, ladder, tasks, known, i) >= budget.value
  }

  /** There is no time left for every call of task `i` and for writing its row. */
  ghost predicate TooLate(ladder: Ladder, ticks: nat, tasks: seq<string>, known: set<string>, i: nat)
    requires i < |tasks|
  {
    ticks < (Missing(tasks, known, i) + 1) * (|ladder| + 1)
  }

  ghost predicate Obstacle(measured: Measured, ladder: Ladder, budget: Option<real>, spent: real, ticks: nat,
                           tasks: seq<string>, known: set<string>, i: nat)
  {
    && i < |tasks| && tasks[i] !in known
    && (Barred(measured, ladder, budget, spent, tasks, known, i) || TooLate(ladder, ticks, tasks, known, i))
  }

  ghost predicate FirstObstacle(measured: Measured, ladder: Ladder, budget: Option<real>, spent: real, ticks: nat,
                                tasks: seq<string>, known: set<string>, i: nat)
  {
    && Obstacle(measured, ladder, budget, spent, ticks, tasks, known, i)
    && forall j: nat :: j < i ==> !Obstacle(measured, ladder, budget, spent, ticks, tasks, known, j)
  }

  /** An obstacle one task further on is an obstacle for what is left of the run. */
  lemma ObstacleShifts(measured: Measured, ladder: Ladder, budget: Option<real>, spent: real, ticks: nat,
                       tasks: seq<string>, known: set<string>, i: nat)
    requires tasks != [] && (tasks[0] in known || ticks > |ladder|)
    ensures var buys := tasks[0] !in known;
            var spent' := if buys then spent + RowCost(RowFor(measured, ladder, tasks[0])) else spent;
            var ticks': nat := if buys then ticks - |ladder| - 1 else ticks;
            Obstacle(measured, ladder, budget, spent, ticks, tasks, known, i + 1)
            <==> Obstacle(measured, ladder, budget, spent', ticks', tasks[1..], known, i)
  {
    hide RowCost, RowFor;
    if i + 1 < |tasks| {
      var n, w := Missing(tasks[1..], known, i), |ladder| + 1;
      assert (n + 1 + 1) * w == (n + 1) * w + w;
    }
  }

  /** A run ends at its first obstacle, as capped if the cap is one and as interrupted otherwise; without one it
      finishes. */
  lemma {:induction false} ContinueStopsAt(measured: Measured, ladder: Ladder, budget: Option<real>, tasks: seq<string>,
                                           done: map<string, seq<RungOutcome>>, spent: real, ticks: nat,
                                           file: seq<CheckpointRow>, matrix: seq<seq<RungOutcome>>, calls: seq<Call>,
                                           known: set<string>)
    requires Distinct(tasks) && forall t :: t in tasks ==> (t in done <==> t in known)
    ensures var e := Continue(measured, ladder, budget, tasks, done, spent, ticks, file, matrix, calls);
            && (e.outcome.Finished? <==>
                  forall i: nat :: !Obstacle(measured, ladder, budget, spent, ticks, tasks, known, i))
            && (forall i: nat :: FirstObstacle(measured, ladder, budget, spent, ticks, tasks, known, i) ==>
                  e.outcome == if Barred(measured, ladder, budget, spent, tasks, known, i) then CapReached
                               else Interrupted)
    decreases |tasks|
  {
    hide RowCost, RowFor, Obstacle, FirstObstacle, Barred, TooLate;
    if tasks == [] {
      forall i: nat ensures !Obstacle(measured, ladder, budget, spent, ticks, tasks, known, i) {
        ObstacleIs(measured, ladder, budget, spent, ticks, tasks, known, i);
      }
      forall i: nat ensures !FirstObstacle(measured, ladder, budget, spent, ticks, tasks, known, i) {
        FirstObstacleIs(measured, ladder, budget, spent, ticks, tasks, known, i);
      }
    } else {
      var t, row := tasks[0], RowFor(measured, ladder, tasks[0]);
      assert t in tasks && forall s :: s in tasks[1..] ==> s in tasks && s != t;
      ObstacleIs(measured, ladder, budget, spent, ticks, tasks, known, 0);
      if t in done {
        ContinueStopsAt(measured, ladder, budget, tasks[1..], done - {t}, spent, ticks, file, matrix + [done[t]],
                        calls, known);
        StopsLater(measured, ladder, budget, spent, ticks, spent, ticks, tasks, known,
                   Continue(measured, ladder, budget, tasks, done, spent, ticks, file, matrix, calls).outcome);
      } else if !(budget.Some? && spent >= budget.value) && ticks > |ladder| {
        ContinueStopsAt(measured, ladder, budget, tasks[1..], done, spent + RowCost(row), ticks - |ladder| - 1,
                        file + [CheckpointRow(t, ladder, row)], matrix + [row], calls + Calls(t, |ladder|), known);
        StopsLater(measured, ladder, budget, spent, ticks, spent + RowCost(row), ticks - |ladder| - 1, tasks, known,
                   Continue(measured, ladder, budget, tasks, done, spent, ticks, file, matrix, calls).outcome);
      } else {
        forall i: nat | FirstObstacle(measured, ladder, budget, spent, ticks, tasks, known, i) ensures i == 0 {
          FirstObstacleIs(measured, ladder, budget, spent, ticks, tasks, known, i);
        }
      }
    }
  }

  lemma ObstacleIs(measured: Measured, ladder: Ladder, budget: Option<real>, spent: real, ticks: nat,
                   tasks: seq<string>, known: set<string>, i: nat)
    ensures Obstacle(measured, ladder, budget, spent, ticks, tasks, known, i) ==> i < |tasks|
    ensures tasks != [] ==>
              && (Obstacle(measured, ladder, budget, spent, ticks, tasks, known, 0)
                  <==> tasks[0] !in known && ((budget.Some? && spent >= budget.value) || ticks <= |ladder|))
              && (Barred(measured, ladder, budget, spent, tasks, known, 0)
                  <==> budget.Some? && spent >= budget.value)
  {}

  lemma FirstObstacleIs(measured: Measured, ladder: Ladder, budget: Option<real>, spent: real, ticks: nat,
                        tasks: seq<string>, known: set<string>, i: nat)
    ensures FirstObstacle(measured, ladder, budget, spent, ticks, tasks, known, i)
            <==> Obstacle(measured, ladder, budget, spent, ticks, tasks, known, i)
                 && forall j: nat :: j < i ==> !Obstacle(measured, ladder, budget, spent, ticks, tasks, known, j)
  {
    hide Obstacle;
  }

  /** Past a first task that is no obstacle the obstacles are those of the rest. */
  lemma StopsLater(measured: Measured, ladder: Ladder, budget: Option<real>, spent: real, ticks: nat,
                   spent': real, ticks': nat, tasks: seq<string>, known: set<string>, outcome: Outcome)
    requires tasks != [] && !Obstacle(measured, ladder, budget, spent, ticks, tasks, known, 0)
    requires tasks[0] in known || ticks > |ladder|
    requires var buys := tasks[0] !in known;
             && spent' == (if buys then spent + RowCost(RowFor(measured, ladder, tasks[0])) else spent)
             && ticks' == if buys then ticks - |ladder| - 1 else ticks
    requires outcome.Finished? <==>
               forall i: nat :: !Obstacle(measured, ladder, budget, spent', ticks', tasks[1..], known, i)
    requires forall i: nat :: FirstObstacle(measured, ladder, budget, spent', ticks', tasks[1..], known, i) ==>
               outcome == if Barred(measured, ladder, budget, spent', tasks[1..], known, i) then CapReached
                          else Interrupted
    ensures outcome.Finished? <==>
              forall i: nat :: !Obstacle(measured, ladder, budget, spent, ticks, tasks, known, i)
    ensures forall i: nat :: FirstObstacle(measured, ladder, budget, spent, ticks, tasks, known, i) ==>
              outcome == if Barred(measured, ladder, budget, spent, tasks, known, i) then CapReached else Interrupted
  {
    hide RowCost, RowFor, Obstacle, FirstObstacle, Barred;
    var rest := tasks[1..];
    forall i: nat
      ensures Obstacle(measured, ladder, budget, spent, ticks, tasks, known, i + 1)
              <==> Obstacle(measured, ladder, budget, spent', ticks', rest, known, i)
    {
      ObstacleShifts(measured, ladder, budget, spent, ticks, tasks, known, i);
    }
    if !outcome.Finished? {
      var i: nat :| Obstacle(measured, ladder, budget, spent', ticks', rest, known, i);
      assert Obstacle(measured, ladder, budget, spent, ticks, tasks, known, i + 1);
    } else {
      forall i: nat ensures !Obstacle(measured, ladder, budget, spent, ticks, tasks, known, i) {
        if i > 0 {
          assert !Obstacle(measured, ladder, budget, spent', ticks', rest, known, i - 1);
          assert (i - 1) + 1 == i;
        }
      }
    }
    forall i: nat | FirstObstacle(measured, ladder, budget, spent, ticks, tasks, known, i)
      ensures outcome == if Barred(measured, ladder, budget, spent, tasks, known, i) then CapReached else Interrupted
    {
      FirstObstacleIs(measured, ladder, budget, spent, ticks, tasks, known, i);
      var k: nat := i - 1;
      assert k + 1 == i;
      forall j: nat | j < k ensures !Obstacle(measured, ladder, budget, spent', ticks', rest, known, j) {
        assert !Obstacle(measured, ladder, budget, spent, ticks, tasks, known, j + 1);
      }
      FirstObstacleIs(measured, ladder, budget, spent', ticks', rest, known, k);
      BarShifts(measured, ladder, budget, spent, spent', ticks, tasks, known, k);
    }
  }

  lemma BarShifts(measured: Measured, ladder: Ladder, budget: Option<real>, spent: real, spent': real, ticks: nat,
                  tasks: seq<string>, known: set<string>, k: nat)
    requires k + 1 < |tasks| || Obstacle(measured, ladder, budget, spent, ticks, tasks, known, k + 1)
    requires spent' == if tasks[0] in known then spent else spent + RowCost(RowFor(measured, ladder, tasks[0]))
    ensures k + 1 < |tasks|
    ensures Barred(measured, ladder, budget, spent, tasks, known, k + 1)
            <==> Barred(measured, ladder, budget, spent', tasks[1..], known, k)
  {
    hide RowCost, RowFor;
  }

  /** What the file already answers. */
  ghost function Known(run: Run, file: seq<CheckpointRow>): set<string> {
    set t | t in run.tasks && Recorded(file, run.ladder, t)
  }

  /** The obstacle a run meets at its task `i`: the task has no row yet, and either the recorded spend with what the
      tasks before it cost is at the cap, or time is too short for its calls and its row. */
  ghost predicate Stops(measured: Measured, run: Run, file: seq<CheckpointRow>, i: nat) {
    Obstacle(measured, run.ladder, run.budget, Spend(file, run.ladder), run.ticks, run.tasks, Known(run, file), i)
  }

  /** Exactly how a run ends: it finishes when no task stops it; the first that does ends it as capped when the cap
      is reached there, and as interrupted when only time is short. */
  lemma RunEndsExactlyWhen(measured: Measured, run: Run, file: seq<CheckpointRow>)
    requires Distinct(run.tasks)
    ensures Execute(measured, run, file).outcome.Finished? <==> forall i: nat :: !Stops(measured, run, file, i)
    ensures forall i: nat ::
              Stops(measured, run, file, i) && (forall j: nat :: j < i ==> !Stops(measured, run, file, j)) ==>
              && i < |run.tasks|
              && Execute(measured, run, file).outcome
                 == if Barred(measured, run.ladder, run.budget, Spend(file, run.ladder), run.tasks, Known(run, file), i)
                    then CapReached else Interrupted
  {
    hide Obstacle, FirstObstacle, Barred, LoadRows, TotalCost;
    var done, spent, known := LoadRows(file, run.ladder), Spend(file, run.ladder), Known(run, file);
    LoadIsRecorded(measured, file, run.ladder);
    ContinueStopsAt(measured, run.ladder, run.budget, run.tasks, done, spent, run.ticks, file, [], [], known);
    assert forall i: nat :: Stops(measured, run, file, i)
             <==> Obstacle(measured, run.ladder, run.budget, spent, run.ticks, run.tasks, known, i);
    forall i: nat | Stops(measured, run, file, i) && forall j: nat :: j < i ==> !Stops(measured, run, file, j)
      ensures FirstObstacle(measured, run.ladder, run.budget, spent, run.ticks, run.tasks, known, i)
      ensures i < |run.tasks|
    {
      ObstacleIs(measured, run.ladder, run.budget, spent, run.ticks, run.tasks, known, i);
      forall j: nat | j < i
        ensures !Obstacle(measured, run.ladder, run.budget, spent, run.ticks, run.tasks, known, j)
      {
        assert !Stops(measured, run, file, j);
      }
      FirstObstacleIs(measured, run.ladder, run.budget, spent, run.ticks, run.tasks, known, i);
    }
  }

  lemma {:induction false} ContinueCapsAtCap(measured: Measured, ladder: Ladder, budget: Option<real>,
                                             tasks: seq<string>, done: map<string, seq<RungOutcome>>, spent: real,
                                             ticks: nat, file: seq<CheckpointRow>, matrix: seq<seq<RungOutcome>>,
                                             calls: seq<Call>)
    requires Distinct(tasks) && Knows(measured, ladder, tasks, done, file) && spent == Spend(file, ladder)
    ensures var e := Continue(measured, ladder, budget, tasks, done, spent, ticks, file, matrix, calls);
            e.outcome.CapReached? ==> budget.Some? && Spend(e.file, ladder) >= budget.value
    decreases |tasks|
  {
    hide RowCost, Spend;
    if tasks != [] {
      var t := tasks[0];
      if t in done {
        KnowsAfterSkip(measured, ladder, tasks, done, file);
        ContinueCapsAtCap(measured, ladder, budget, tasks[1..], done - {t}, spent, ticks, file, matrix + [done[t]],
                          calls);
      } else if !(budget.Some? && spent >= budget.value) && ticks > |ladder| {
        var row := RowFor(measured, ladder, t);
        var r := CheckpointRow(t, ladder, row);
        KnowsAfterBuy(measured, ladder, tasks, done, file, r);
        SpendAppend(file, r, ladder);
        ContinueCapsAtCap(measured, ladder, budget, tasks[1..], done, spent + RowCost(row), ticks - |ladder| - 1,
                          file + [r], matrix + [row], calls + Calls(t, |ladder|));
      }
    }
  }

  /** No run stops for money before the file it leaves records spend of at least the cap. */
  lemma CapReachedIsSpent(measured: Measured, run: Run, file: seq<CheckpointRow>)
    requires Distinct(run.tasks) && Genuine(measured, file)
    ensures var e := Execute(measured, run, file);
            e.outcome.CapReached? ==> run.budget.Some? && Spend(e.file, run.ladder) >= run.budget.value
  {
    hide Spend;
    LoadIsRecorded(measured, file, run.ladder);
    ContinueCapsAtCap(measured, run.ladder, run.budget, run.tasks, LoadRows(file, run.ladder), Spend(file, run.ladder),
                      run.ticks, file, [], []);
  }

  // ----- any number of runs

  /** The file after a series of runs, each finished, capped or interrupted anywhere. */
  ghost function After(measured: Measured, runs: seq<Run>, file: seq<CheckpointRow>): seq<CheckpointRow> {
    if runs == [] then file
    else Execute(measured, runs[|runs| - 1], After(measured, runs[..|runs| - 1], file)).file
  }

  ghost predicate AllDistinct(runs: seq<Run>) {
    forall i :: 0 <= i < |runs| ==> Distinct(runs[i].tasks)
  }

  lemma RunKeeps(measured: Measured, run: Run, file: seq<CheckpointRow>)
    requires Distinct(run.tasks) && Genuine(measured, file) && NoneTwice(file)
    ensures var e := Execute(measured, run, file);
            file <= e.file && Genuine(measured, e.file) && NoneTwice(e.file)
  {
    LoadIsRecorded(measured, file, run.ladder);
    ContinueKeeps(measured, run.ladder, run.budget, run.tasks, LoadRows(file, run.ladder), Spend(file, run.ladder),
                  run.ticks, file, [], []);
  }

  /** Over any series of runs the file only grows, every row is what its ladder measures, and no task is
      recorded twice for one ladder. */
  lemma {:induction false} RunsKeep(measured: Measured, runs: seq<Run>, file: seq<CheckpointRow>)
    requires AllDistinct(runs) && Genuine(measured, file) && NoneTwice(file)
    ensures var f := After(measured, runs, file);
            file <= f && Genuine(measured, f) && NoneTwice(f)
  {
    hide Execute;
    if runs != [] {
      RunsKeep(measured, runs[..|runs| - 1], file);
      RunKeeps(measured, runs[|runs| - 1], After(measured, runs[..|runs| - 1], file));
    }
  }

  lemma {:induction false} RunsExtend(measured: Measured, runs: seq<Run>, n: nat, file: seq<CheckpointRow>)
    requires AllDistinct(runs) && Genuine(measured, file) && NoneTwice(file) && n <= |runs|
    ensures After(measured, runs[..n], file) <= After(measured, runs, file)
    decreases |runs|
  {
    hide Execute;
    if n == |runs| {
      assert runs[..n] == runs;
    } else {
      var most := runs[..|runs| - 1];
      RunsExtend(measured, most, n, file);
      assert most[..n] == runs[..n];
      RunsKeep(measured, most, file);
      RunKeeps(measured, runs[|runs| - 1], After(measured, most, file));
    }
  }

  /** A task recorded by the end of run `i` is never paid for again with that ladder by any later run. */
  lemma NeverPaidTwice(measured: Measured, runs: seq<Run>, file: seq<CheckpointRow>, i: nat, j: nat, t: string)
    requires AllDistinct(runs) && Genuine(measured, file) && NoneTwice(file) && i <= j < |runs|
    requires Recorded(After(measured, runs[..i], file), runs[j].ladder, t)
    ensures forall c :: c in Execute(measured, runs[j], After(measured, runs[..j], file)).calls ==> c.task != t
  {
    hide Execute, After, OnceEach;
    assert runs[..j][..i] == runs[..i];
    RunsExtend(measured, runs[..j], i, file);
    RunsKeep(measured, runs[..j], file);
    RecordedMonotone(After(measured, runs[..i], file), After(measured, runs[..j], file), runs[j].ladder, t);
    RunNeverRebuys(measured, runs[j], After(measured, runs[..j], file));
  }

  lemma {:induction false} ContinueAppendsOwnLadder(measured: Measured, ladder: Ladder, budget: Option<real>,
                                                    tasks: seq<string>, done: map<string, seq<RungOutcome>>,
                                                    spent: real, ticks: nat, file: seq<CheckpointRow>,
                                                    matrix: seq<seq<RungOutcome>>, calls: seq<Call>)
    ensures var e := Continue(measured, ladder, budget, tasks, done, spent, ticks, file, matrix, calls);
            file <= e.file && forall p :: |file| <= p < |e.file| ==> e.file[p].ladder == ladder
    decreases |tasks|
  {
    if tasks != [] {
      var t, row := tasks[0], RowFor(measured, ladder, tasks[0]);
      if t in done {
        ContinueAppendsOwnLadder(measured, ladder, budget, tasks[1..], done - {t}, spent, ticks, file,
                                 matrix + [done[t]], calls);
      } else if !(budget.Some? && spent >= budget.value) && ticks > |ladder| {
        ContinueAppendsOwnLadder(measured, ladder, budget, tasks[1..], done, spent + RowCost(row), ticks - |ladder| - 1,
                                 file + [CheckpointRow(t, ladder, row)], matrix + [row], calls + Calls(t, |ladder|));
      }
    }
  }

  /** A run of this ladder spends under a cap of at most `cap`; runs of other ladders are free to differ. */
  ghost predicate Capped(run: Run, ladder: Ladder, cap: real) {
    run.ladder == ladder ==> run.budget.Some? && run.budget.value <= cap
  }

  lemma RunStaysUnderCap(measured: Measured, run: Run, file: seq<CheckpointRow>, ladder: Ladder, cap: real)
    requires Distinct(run.tasks) && Genuine(measured, file) && Capped(run, ladder, cap)
    requires BoughtUnderCap(file, 0, ladder, cap)
    ensures BoughtUnderCap(Execute(measured, run, file).file, 0, ladder, cap)
  {
    hide Spend;
    var done, spent := LoadRows(file, run.ladder), Spend(file, run.ladder);
    var e := Execute(measured, run, file);
    LoadIsRecorded(measured, file, run.ladder);
    ContinueAppendsOwnLadder(measured, run.ladder, run.budget, run.tasks, done, spent, run.ticks, file, [], []);
    if run.ladder == ladder {
      assert run.budget == Some(run.budget.value);
      ContinueStaysUnderCap(measured, ladder, run.budget.value, run.tasks, done, spent, run.ticks, file, [], [],
                            |file|);
      assert BoughtUnderCap(e.file, |file|, ladder, run.budget.value);
    }
    forall p | 0 <= p < |e.file| && e.file[p].ladder == ladder ensures Spend(e.file[..p], ladder) < cap {
      if p < |file| {
        assert e.file[..p] == file[..p] && e.file[p] == file[p];
      }
    }
  }

  lemma {:induction false} RunsStayUnderCap(measured: Measured, runs: seq<Run>, ladder: Ladder, cap: real)
    requires AllDistinct(runs) && forall i :: 0 <= i < |runs| ==> Capped(runs[i], ladder, cap)
    ensures BoughtUnderCap(After(measured, runs, []), 0, ladder, cap)
  {
    hide Execute;
    if runs != [] {
      var most := runs[..|runs| - 1];
      RunsStayUnderCap(measured, most, ladder, cap);
      RunsKeep(measured, most, []);
      RunStaysUnderCap(measured, runs[|runs| - 1], After(measured, most, []), ladder, cap);
    }
  }

  /** What was bought under the cap overshoots it by less than the cost of one recorded row. */
  lemma {:induction false} OvershootIsOneRow(file: seq<CheckpointRow>, ladder: Ladder, cap: real)
    requires NoneTwice(file) && BoughtUnderCap(file, 0, ladder, cap)
    ensures Spend(file, ladder) == 0.0 ||
            exists p :: 0 <= p < |file| && file[p].ladder == ladder
                        && Spend(file, ladder) < cap + RowCost(file[p].rungs)
  {
    hide RowCost, TotalCost;
    if file == [] {
      NothingSpent(ladder);
    } else {
      var most, r := file[..|file| - 1], file[|file| - 1];
      assert file == most + [r];
      assert !Recorded(most, r.ladder, r.taskId);
      SpendAppend(most, r, ladder);
      assert file[..|file| - 1] == most;
      if r.ladder != ladder {
        forall p | 0 <= p < |most| && most[p].ladder == ladder ensures Spend(most[..p], ladder) < cap {
          assert most[..p] == file[..p] && most[p] == file[p];
        }
        OvershootIsOneRow(most, ladder, cap);
        if p :| 0 <= p < |most| && most[p].ladder == ladder && Spend(most, ladder) < cap + RowCost(most[p].rungs) {
          assert file[p] == most[p];
        }
      }
    }
  }

  lemma NothingSpent(ladder: Ladder)
    ensures Spend([], ladder) == 0.0
  {}

  /** The cap survives interruption: over any series of runs from an empty file, the recorded spend of a
      ladder stays below the cap plus the cost of one of its recorded tasks. */
  lemma SpendCapSurvivesInterruption(measured: Measured, runs: seq<Run>, ladder: Ladder, cap: real)
    requires AllDistinct(runs) && forall i :: 0 <= i < |runs| ==> Capped(runs[i], ladder, cap)
    ensures var file := After(measured, runs, []);
            Spend(file, ladder) == 0.0 ||
            exists p :: 0 <= p < |file| && file[p].ladder == ladder
                        && Spend(file, ladder) < cap + RowCost(file[p].rungs)
  {
    hide Spend, RowCost, After;
    RunsKeep(measured, runs, []);
    RunsStayUnderCap(measured, runs, ladder, cap);
    OvershootIsOneRow(After(measured, runs, []), ladder, cap);
  }

  // ----- repeated tasks

  function Rows(file: seq<CheckpointRow>, ladder: Ladder, t: string): nat {
    if file == [] then 0
    else
      var r := file[|file| - 1];
      Rows(file[..|file| - 1], ladder, t) + if r.taskId == t && r.ladder == ladder then 1 else 0
  }

  lemma RowsAppend(file: seq<CheckpointRow>, r: CheckpointRow, ladder: Ladder, t: string)
    ensures Rows(file + [r], ladder, t) == Rows(file, ladder, t) + if r.taskId == t && r.ladder == ladder then 1 else 0
  {
    assert (file + [r])[..|file|] == file;
  }

  lemma {:induction false} RowsAndRecords(file: seq<CheckpointRow>, ladder: Ladder, t: string)
    ensures Rows(file, ladder, t) > 0 <==> Recorded(file, ladder, t)
    ensures NoneTwice(file) ==> Rows(file, ladder, t) <= 1
  {
    if file != [] {
      var most, r := file[..|file| - 1], file[|file| - 1];
      RowsAndRecords(most, ladder, t);
      assert file == most + [r];
      RecordedAppend(most, r, ladder, t);
      if NoneTwice(file) && r.taskId == t && r.ladder == ladder {
        forall i | 0 <= i < |most| ensures !(most[i].taskId == t && most[i].ladder == ladder) {
          assert file[i] == most[i] && file[|most|] == r;
        }
      }
    }
  }

  /** Every visit of a task beyond the one its old row answers appends a row. */
  lemma {:induction false} VisitsAppend(measured: Measured, ladder: Ladder, budget: Option<real>, tasks: seq<string>,
                                        done: map<string, seq<RungOutcome>>, spent: real, ticks: nat,
                                        file: seq<CheckpointRow>, matrix: seq<seq<RungOutcome>>, calls: seq<Call>,
                                        t: string)
    ensures var e := Continue(measured, ladder, budget, tasks, done, spent, ticks, file, matrix, calls);
            e.outcome.Finished? ==>
              Rows(e.file, ladder, t) + (if t in done && t in tasks then 1 else 0)
              == Rows(file, ladder, t) + multiset(tasks)[t]
    decreases |tasks|
  {
    if tasks != [] {
      var s, row := tasks[0], RowFor(measured, ladder, tasks[0]);
      assert tasks == [s] + tasks[1..];
      if s in done {
        VisitsAppend(measured, ladder, budget, tasks[1..], done - {s}, spent, ticks, file, matrix + [done[s]], calls,
                     t);
      } else if !(budget.Some? && spent >= budget.value) && ticks > |ladder| {
        RowsAppend(file, CheckpointRow(s, ladder, row), ladder, t);
        VisitsAppend(measured, ladder, budget, tasks[1..], done, spent + RowCost(row), ticks - |ladder| - 1,
                     file + [CheckpointRow(s, ladder, row)], matrix + [row], calls + Calls(s, |ladder|), t);
      }
    }
  }

  /** A run that finishes buys nothing twice exactly when its task list has no repeated id: the second
      visit of an id finds its row already taken out of the map and pays again. */
  lemma NothingBoughtTwiceExactlyWhenDistinct(measured: Measured, run: Run, file: seq<CheckpointRow>)
    requires Genuine(measured, file) && NoneTwice(file) && Execute(measured, run, file).outcome.Finished?
    ensures NoneTwice(Execute(measured, run, file).file) <==> Distinct(run.tasks)
  {
    hide Spend, RowCost;
    var e := Execute(measured, run, file);
    if Distinct(run.tasks) {
      RunKeeps(measured, run, file);
    } else {
      var i, j :| 0 <= i < j < |run.tasks| && run.tasks[i] == run.tasks[j];
      var t := run.tasks[i];
      assert run.tasks == run.tasks[..j] + run.tasks[j..];
      assert run.tasks[..j][i] in multiset(run.tasks[..j]) && run.tasks[j..][0] in multiset(run.tasks[j..]);
      LoadIsRecorded(measured, file, run.ladder);
      RowsAndRecords(file, run.ladder, t);
      VisitsAppend(measured, run.ladder, run.budget, run.tasks, LoadRows(file, run.ladder), Spend(file, run.ladder),
                   run.ticks, file, [], [], t);
      RowsAndRecords(e.file, run.ladder, t);
    }
  }

  // ----- replaying the file

  datatype LoadError = Malformed | NoRows | UnknownLadder | SeveralLadders | WrongWidth

  datatype Loaded = Ok(matrix: seq<seq<RungOutcome>>, ladder: Ladder) | Err(error: LoadError)

  /** The ladders of the file in order of first appearance. */
  function Ladders(file: seq<CheckpointRow>): seq<Ladder> {
    if file == [] then []
    else
      var seen := Ladders(file[..|file| - 1]);
      var l := file[|file| - 1].ladder;
      if l in seen then seen else seen + [l]
  }

  function RowsOf(file: seq<CheckpointRow>, ladder: Ladder): seq<seq<RungOutcome>> {
    if file == [] then []
    else
      var r := file[|file| - 1];
      RowsOf(file[..|file| - 1], ladder) + if r.ladder == ladder then [r.rungs] else []
  }

  /** Reading the file back for replay: unlike resuming, a line that does not parse is an error. */
  function LoadMatrixFrom(lines: seq<Line>, want: Option<Ladder>): Loaded {
    if Garbage in lines then Err(Malformed) else LoadMatrix(Parsed(lines), want)
  }

  function LoadMatrix(file: seq<CheckpointRow>, want: Option<Ladder>): Loaded {
    if file == [] then Err(NoRows)
    else
      var ladders := Ladders(file);
      if want.Some? && want.value !in ladders then Err(UnknownLadder)
      else if want.None? && |ladders| != 1 then Err(SeveralLadders)
      else
        var chosen := if want.Some? then want.value else ladders[0];
        var matrix := RowsOf(file, chosen);
        if AnyOtherWidth(matrix, |chosen|) then Err(WrongWidth) else Ok(matrix, chosen)
  }

  predicate AnyOtherWidth(matrix: seq<seq<RungOutcome>>, n: nat) {
    exists i :: 0 <= i < |matrix| && |matrix[i]| != n
  }

  lemma {:induction false} RowsOfAppend(a: seq<CheckpointRow>, b: seq<CheckpointRow>, ladder: Ladder)
    ensures RowsOf(a + b, ladder) == RowsOf(a, ladder) + RowsOf(b, ladder)
    decreases |b|
  {
    if b == [] {
      assert a + b == a;
    } else {
      assert (a + b)[..|a + b| - 1] == a + b[..|b| - 1];
      RowsOfAppend(a, b[..|b| - 1], ladder);
    }
  }

  lemma {:induction false} ParsedAppend(a: seq<Line>, b: seq<Line>)
    ensures Parsed(a + b) == Parsed(a) + Parsed(b)
    decreases |b|
  {
    if b == [] {
      assert a + b == a;
    } else {
      assert (a + b)[..|a + b| - 1] == a + b[..|b| - 1];
      ParsedAppend(a, b[..|b| - 1]);
    }
  }

  /** Lines and rows are read one after another: only records yield rows, only this ladder's rows are kept, and
      their order stays. */
  lemma ReadInOrder(a: seq<Line>, b: seq<Line>, line: Line, ladder: Ladder)
    ensures Parsed([line]) == match line case Record(row) => [row] case Blank => [] case Garbage => []
    ensures RowsOf(Parsed(a + b), ladder) == RowsOf(Parsed(a), ladder) + RowsOf(Parsed(b), ladder)
    ensures line.Record? ==>
              RowsOf(Parsed([line]), ladder) == if line.row.ladder == ladder then [line.row.rungs] else []
  {
    ParsedAppend(a, b);
    RowsOfAppend(Parsed(a), Parsed(b), ladder);
    assert [line][..0] == [];
    if line.Record? {
      assert [line.row][..0] == [] && [] + [line.row] == [line.row];
    }
  }

  lemma {:induction false} RowsOfHolds(file: seq<CheckpointRow>, ladder: Ladder)
    ensures forall x :: x in RowsOf(file, ladder) ==>
              exists p :: 0 <= p < |file| && file[p].ladder == ladder && file[p].rungs == x
    ensures forall p :: 0 <= p < |file| && file[p].ladder == ladder ==> file[p].rungs in RowsOf(file, ladder)
  {
    if file != [] {
      var n := |file| - 1;
      var most := file[..n];
      RowsOfHolds(most, ladder);
      forall x | x in RowsOf(file, ladder)
        ensures exists p :: 0 <= p < |file| && file[p].ladder == ladder && file[p].rungs == x
      {
        if x in RowsOf(most, ladder) {
          var p :| 0 <= p < n && most[p].ladder == ladder && most[p].rungs == x;
          assert file[p] == most[p];
        } else {
          assert file[n].rungs == x;
        }
      }
      forall p | 0 <= p < |file| && file[p].ladder == ladder ensures file[p].rungs in RowsOf(file, ladder) {
        if p < n {
          assert most[p] == file[p];
        }
      }
    }
  }

  ghost predicate Holds(file: seq<CheckpointRow>, ladder: Ladder) {
    exists p :: 0 <= p < |file| && file[p].ladder == ladder
  }

  /** Every row of the ladder is as wide as the ladder. */
  ghost predicate RightWidth(file: seq<CheckpointRow>, ladder: Ladder) {
    forall p :: 0 <= p < |file| && file[p].ladder == ladder ==> |file[p].rungs| == |ladder|
  }

  /** When a file can be replayed: every line parses, the ladder named is there, or only one is if none is named,
      and its rows are all as wide as it. */
  lemma ReplayExactlyWhen(lines: seq<Line>, ladder: Ladder)
    ensures var file := Parsed(lines);
            && (LoadMatrixFrom(lines, Some(ladder)).Ok?
                <==> Garbage !in lines && Holds(file, ladder) && RightWidth(file, ladder))
            && (LoadMatrixFrom(lines, None).Ok?
                <==> Garbage !in lines && file != [] && AllOf(file, file[0].ladder)
                     && RightWidth(file, file[0].ladder))
            && (LoadMatrixFrom(lines, Some(ladder)).Ok? ==>
                  LoadMatrixFrom(lines, Some(ladder)) == Ok(RowsOf(file, ladder), ladder))
            && (LoadMatrixFrom(lines, None).Ok? ==>
                  LoadMatrixFrom(lines, None) == Ok(RowsOf(file, file[0].ladder), file[0].ladder))
  {
    hide LoadMatrix, Parsed, Holds, AllOf, RightWidth, RowsOf;
    var file := Parsed(lines);
    ReplayNamed(file, ladder);
    if file != [] {
      ReplayUnnamed(file);
    } else {
      NothingToReplay();
    }
  }

  lemma NothingToReplay()
    ensures LoadMatrix([], None) == Err(NoRows)
  {}

  lemma ReplayNamed(file: seq<CheckpointRow>, ladder: Ladder)
    ensures LoadMatrix(file, Some(ladder)).Ok? <==> Holds(file, ladder) && RightWidth(file, ladder)
    ensures LoadMatrix(file, Some(ladder)).Ok? ==>
              LoadMatrix(file, Some(ladder)) == Ok(RowsOf(file, ladder), ladder)
  {
    hide Ladders, RowsOf, RightWidth, AnyOtherWidth;
    LaddersOfRows(file, ladder);
    WidthsOfRows(file, ladder);
  }

  lemma ReplayUnnamed(file: seq<CheckpointRow>)
    requires file != []
    ensures LoadMatrix(file, None).Ok? <==> AllOf(file, file[0].ladder) && RightWidth(file, file[0].ladder)
    ensures LoadMatrix(file, None).Ok? ==>
              LoadMatrix(file, None) == Ok(RowsOf(file, file[0].ladder), file[0].ladder)
  {
    hide Ladders, RowsOf, RightWidth, AllOf, AnyOtherWidth;
    var ladder := file[0].ladder;
    LaddersOfRows(file, ladder);
    WidthsOfRows(file, ladder);
    assert Holds(file, ladder);
    if |Ladders(file)| == 1 {
      OneEntry(Ladders(file), ladder, Ladders(file)[0]);
    }
  }

  lemma WidthsOfRows(file: seq<CheckpointRow>, ladder: Ladder)
    ensures RowsOf(file, ladder) != [] <==> Holds(file, ladder)
    ensures AnyOtherWidth(RowsOf(file, ladder), |ladder|) <==> !RightWidth(file, ladder)
  {
    hide RowsOf;
    RowsOfHolds(file, ladder);
    var rows := RowsOf(file, ladder);
    if rows != [] {
      assert rows[0] in rows;
    }
    if i :| 0 <= i < |rows| && |rows[i]| != |ladder| {
      assert rows[i] in rows;
    }
    if !RightWidth(file, ladder) {
      var p :| 0 <= p < |file| && file[p].ladder == ladder && |file[p].rungs| != |ladder|;
      assert file[p].rungs in rows;
    }
  }

  /** Of this ladder the file holds exactly the rows of the first `n` tasks, in their order; rows of other
      ladders may lie between them. */
  ghost predicate HoldsFirst(measured: Measured, file: seq<CheckpointRow>, ladder: Ladder, tasks: seq<string>, n: nat) {
    && n <= |tasks| && RowsOf(file, ladder) == FullMatrix(measured, ladder, tasks[..n])
    && forall k :: 0 <= k < |tasks| ==> (Recorded(file, ladder, tasks[k]) <==> k < n)
  }

  lemma HoldsNothing(measured: Measured, ladder: Ladder, tasks: seq<string>)
    ensures HoldsFirst(measured, [], ladder, tasks, 0)
  {}

  lemma HoldsOneMore(measured: Measured, file: seq<CheckpointRow>, ladder: Ladder, tasks: seq<string>, n: nat)
    requires Distinct(tasks) && n < |tasks| && HoldsFirst(measured, file, ladder, tasks, n)
    ensures var r := CheckpointRow(tasks[n], ladder, RowFor(measured, ladder, tasks[n]));
            HoldsFirst(measured, file + [r], ladder, tasks, n + 1)
  {
    hide RowFor, Recorded;
    var r := CheckpointRow(tasks[n], ladder, RowFor(measured, ladder, tasks[n]));
    assert (file + [r])[..|file|] == file;
    assert FullMatrix(measured, ladder, tasks[..n + 1]) == FullMatrix(measured, ladder, tasks[..n]) + [r.rungs];
    forall k | 0 <= k < |tasks| ensures Recorded(file + [r], ladder, tasks[k]) <==> k < n + 1 {
      RecordedAppend(file, r, ladder, tasks[k]);
    }
  }

  /** Resuming with the same task list only ever goes on where the file left off. */
  lemma {:induction false} ContinueHolds(measured: Measured, ladder: Ladder, budget: Option<real>, all: seq<string>,
                                         i: nat, n: nat, done: map<string, seq<RungOutcome>>, spent: real,
                                         ticks: nat, file: seq<CheckpointRow>, matrix: seq<seq<RungOutcome>>,
                                         calls: seq<Call>) returns (m: nat)
    requires Distinct(all) && i <= |all| && n <= |all|
    requires HoldsFirst(measured, file, ladder, all, if i < n then n else i)
    requires forall k :: i <= k < |all| ==> (all[k] in done <==> k < n)
    ensures var e := Continue(measured, ladder, budget, all[i..], done, spent, ticks, file, matrix, calls);
            n <= m && HoldsFirst(measured, e.file, ladder, all, m) && (e.outcome.Finished? ==> m == |all|)
    decreases |all| - i
  {
    hide HoldsFirst, RowFor, RowCost;
    m := if i < n then n else i;
    if i < |all| {
      var t, row := all[i], RowFor(measured, ladder, all[i]);
      assert all[i..][0] == t && all[i..][1..] == all[i + 1..];
      if t in done {
        m := ContinueHolds(measured, ladder, budget, all, i + 1, n, done - {t}, spent, ticks, file,
                           matrix + [done[t]], calls);
      } else if !(budget.Some? && spent >= budget.value) && ticks > |ladder| {
        HoldsOneMore(measured, file, ladder, all, i);
        m := ContinueHolds(measured, ladder, budget, all, i + 1, n, done, spent + RowCost(row), ticks - |ladder| - 1,
                           file + [CheckpointRow(t, ladder, row)], matrix + [row], calls + Calls(t, |ladder|));
      }
    } else {
      assert all[i..] == [];
    }
  }

  /** Rows of another ladder change nothing of what the file holds for this one. */
  lemma {:induction false} OtherLadderUntouched(measured: Measured, file: seq<CheckpointRow>, later: seq<CheckpointRow>,
                                                ladder: Ladder, tasks: seq<string>, n: nat)
    requires HoldsFirst(measured, file, ladder, tasks, n)
    requires file <= later && forall p :: |file| <= p < |later| ==> later[p].ladder != ladder
    ensures HoldsFirst(measured, later, ladder, tasks, n)
    decreases |later|
  {
    hide FullMatrix, Recorded;
    if |file| == |later| {
      assert file == later;
    } else {
      var most, r := later[..|later| - 1], later[|later| - 1];
      OtherLadderUntouched(measured, file, most, ladder, tasks, n);
      assert later == most + [r];
      assert RowsOf(most, ladder) + [] == RowsOf(most, ladder);
      forall k | 0 <= k < |tasks| ensures Recorded(later, ladder, tasks[k]) <==> k < n {
        RecordedAppend(most, r, ladder, tasks[k]);
      }
    }
  }

  /** One of the runs with this ladder got to the end of its task list. */
  ghost predicate SomeFinished(measured: Measured, runs: seq<Run>, ladder: Ladder) {
    exists j :: 0 <= j < |runs| && runs[j].ladder == ladder && FinishesAt(measured, runs, j)
  }

  ghost predicate FinishesAt(measured: Measured, runs: seq<Run>, j: nat)
    requires j < |runs|
  {
    Execute(measured, runs[j], After(measured, runs[..j], [])).outcome.Finished?
  }

  /** All runs with this ladder are of one task list; runs with other ladders are free. */
  ghost predicate SameTasks(runs: seq<Run>, ladder: Ladder, tasks: seq<string>) {
    forall i :: 0 <= i < |runs| && runs[i].ladder == ladder ==> runs[i].tasks == tasks
  }

  lemma {:induction false} RunsHold(measured: Measured, runs: seq<Run>, ladder: Ladder, tasks: seq<string>)
    returns (n: nat)
    requires Distinct(tasks) && SameTasks(runs, ladder, tasks)
    ensures HoldsFirst(measured, After(measured, runs, []), ladder, tasks, n)
    ensures SomeFinished(measured, runs, ladder) ==> n == |tasks|
    decreases |runs|
  {
    hide HoldsFirst, Execute, FinishesAt;
    if runs == [] {
      n := 0;
      HoldsNothing(measured, ladder, tasks);
    } else {
      var most, run := runs[..|runs| - 1], runs[|runs| - 1];
      var m := RunsHold(measured, most, ladder, tasks);
      n := RunHolds(measured, run, After(measured, most, []), ladder, tasks, m);
      if SomeFinished(measured, runs, ladder) {
        var j :| 0 <= j < |runs| && runs[j].ladder == ladder && FinishesAt(measured, runs, j);
        EarlierFinish(measured, runs, j);
        HoldsInRange(measured, After(measured, runs, []), ladder, tasks, n);
      }
    }
  }

  lemma HoldsInRange(measured: Measured, file: seq<CheckpointRow>, ladder: Ladder, tasks: seq<string>, n: nat)
    requires HoldsFirst(measured, file, ladder, tasks, n)
    ensures n <= |tasks|
  {}

  lemma EarlierFinish(measured: Measured, runs: seq<Run>, j: nat)
    requires j < |runs| && FinishesAt(measured, runs, j)
    ensures var most, run := runs[..|runs| - 1], runs[|runs| - 1];
            if j < |most| then FinishesAt(measured, most, j)
            else Execute(measured, run, After(measured, most, [])).outcome.Finished?
  {
    hide Execute, After;
    if j < |runs| - 1 {
      assert runs[..|runs| - 1][..j] == runs[..j];
    }
  }

  lemma RunHolds(measured: Measured, run: Run, file: seq<CheckpointRow>, ladder: Ladder, tasks: seq<string>, m: nat)
    returns (n: nat)
    requires Distinct(tasks) && (run.ladder == ladder ==> run.tasks == tasks)
    requires HoldsFirst(measured, file, ladder, tasks, m)
    ensures var e := Execute(measured, run, file);
            && m <= n && HoldsFirst(measured, e.file, ladder, tasks, n)
            && (run.ladder == ladder && e.outcome.Finished? ==> n == |tasks|)
  {
    hide Spend, RowCost, RowsOf, FullMatrix, LoadRows;
    n := m;
    var done, spent := LoadRows(file, run.ladder), Spend(file, run.ladder);
    if run.ladder == ladder {
      LoadIsRecorded(measured, file, ladder);
      assert tasks[0..] == tasks;
      n := ContinueHolds(measured, ladder, run.budget, tasks, 0, m, done, spent, run.ticks, file, [], []);
    } else {
      ContinueAppendsOwnLadder(measured, run.ladder, run.budget, run.tasks, done, spent, run.ticks, file, [], []);
      OtherLadderUntouched(measured, file, Execute(measured, run, file).file, ladder, tasks, m);
    }
  }

  /** The ladders listed are those of the rows, and the list has one entry exactly when all rows share it. */
  lemma {:induction false} LaddersOfRows(file: seq<CheckpointRow>, ladder: Ladder)
    ensures ladder in Ladders(file) <==> RowsOf(file, ladder) != []
    ensures file != [] ==> Ladders(file) != []
    ensures ladder in Ladders(file) && |Ladders(file)| == 1 <==> file != [] && AllOf(file, ladder)
  {
    if file != [] {
      var most, r := file[..|file| - 1], file[|file| - 1];
      LaddersOfRows(most, ladder);
      LaddersOfRows(most, r.ladder);
      assert file == most + [r];
      if ladder in Ladders(file) && |Ladders(file)| == 1 {
        OneEntry(Ladders(file), ladder, r.ladder);
        assert |most| > 0 ==> ladder in Ladders(most);
      }
    }
  }

  ghost predicate AllOf(file: seq<CheckpointRow>, ladder: Ladder) {
    forall p :: 0 <= p < |file| ==> file[p].ladder == ladder
  }

  lemma OneEntry(ladders: seq<Ladder>, a: Ladder, b: Ladder)
    requires |ladders| == 1 && a in ladders && b in ladders
    ensures a == b
  {}

  function Lines(file: seq<CheckpointRow>): (lines: seq<Line>)
    ensures |lines| == |file|
  {
    seq(|file|, i requires 0 <= i < |file| => Record(file[i]))
  }

  lemma {:induction false} LinesParse(file: seq<CheckpointRow>)
    ensures Garbage !in Lines(file) && Parsed(Lines(file)) == file
  {
    if file != [] {
      LinesParse(file[..|file| - 1]);
      assert Lines(file)[..|file| - 1] == Lines(file[..|file| - 1]);
    }
  }

  /** Reading the file back at any moment, naming the ladder: what is read is the front of the full matrix, in
      task order, whatever runs of other ladders wrote in between. */
  lemma ReplayReadsTheFront(measured: Measured, runs: seq<Run>, ladder: Ladder, tasks: seq<string>) returns (n: nat)
    requires Distinct(tasks) && SameTasks(runs, ladder, tasks)
    ensures var file := After(measured, runs, []);
            && n <= |tasks| && (SomeFinished(measured, runs, ladder) ==> n == |tasks|)
            && (n > 0 ==> LoadMatrixFrom(Lines(file), Some(ladder))
                          == Ok(FullMatrix(measured, ladder, tasks[..n]), ladder))
            && (n == 0 ==> LoadMatrixFrom(Lines(file), Some(ladder))
                           == Err(if file == [] then NoRows else UnknownLadder))
            && (n > 0 ==> LoadMatrixFrom(Lines(file), None)
                          == if AllOf(file, ladder) then Ok(FullMatrix(measured, ladder, tasks[..n]), ladder)
                             else Err(SeveralLadders))
  {
    hide After, Parsed, SameTasks, SomeFinished, Ladders, RowsOf;
    var file := After(measured, runs, []);
    n := RunsHold(measured, runs, ladder, tasks);
    LinesParse(file);
    LaddersOfRows(file, ladder);
    var matrix := RowsOf(file, ladder);
    assert |matrix| == n;
    assert forall i :: 0 <= i < |matrix| ==> |matrix[i]| == |ladder|;
    assert n > 0 ==> file != [] by {
      NoRowsInNothing(ladder);
    }
    if n > 0 && AllOf(file, ladder) {
      OneEntry(Ladders(file), ladder, Ladders(file)[0]);
    }
  }

  lemma NoRowsInNothing(ladder: Ladder)
    ensures RowsOf([], ladder) == []
  {}

  /** A measurement finished by any number of interrupted runs of one task list is a reusable asset: reading the
      file back with the ladder named gives exactly the matrix the run returned, with runs of other ladders, task
      lists and caps in between. Without naming it the same is read if the file holds no other ladder; otherwise
      the two experiments are not mixed but refused. */
  lemma ReplayReadsWhatWasMeasured(measured: Measured, runs: seq<Run>, ladder: Ladder, tasks: seq<string>)
    requires Distinct(tasks) && tasks != [] && SameTasks(runs, ladder, tasks)
    requires SomeFinished(measured, runs, ladder)
    ensures var file := After(measured, runs, []);
            && LoadMatrixFrom(Lines(file), Some(ladder)) == Ok(FullMatrix(measured, ladder, tasks), ladder)
            && LoadMatrixFrom(Lines(file), None)
               == if AllOf(file, ladder) then Ok(FullMatrix(measured, ladder, tasks), ladder) else Err(SeveralLadders)
  {
    hide After, LoadMatrixFrom, Lines, AllOf, SameTasks, SomeFinished;
    var n := ReplayReadsTheFront(measured, runs, ladder, tasks);
    assert tasks[..|tasks|] == tasks;
  }
}
