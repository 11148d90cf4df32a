/** The agent retry loop and the signals it records (`run_task`, `signals_from` in
    crates/firstpass-bench/src/agentic.rs), and what the session-signal rule makes of them
    (`stage_router` in scripts/analyze-swe-checkpoint.py). */
module Trajectory {
  import opened Matrix
  import opened Reals
  import S = Sessions

  const WINDOW := 6

  /** One completed attempt of the cheap rung in the conversation, with what the tests told it. */
  datatype TurnRecord = TurnRecord(code: string, passed: bool, feedback: string)

  datatype Signals = Signals(toolErrors: nat, toolResults: nat, assistantTurns: nat, repeatedToolCalls: nat)

  datatype RecordedTurn = RecordedTurn(signals: Signals, rungs: seq<S.Gate>)

  /** What one rung answered to a conversation, after tests: the code (empty when no budget produced any),
      its USD cost, both verdicts and the visible-test feedback. */
  datatype Candidate = Candidate(code: string, cost: real, gatePass: bool, oracleCorrect: bool, feedback: string)

  /** The model and the sandbox: conversation so far and rung index; `None` is a failed call. */
  type Answers = (seq<TurnRecord>, nat) -> Option<Candidate>

  function Recent(history: seq<TurnRecord>): seq<TurnRecord> {
    if |history| > WINDOW then history[|history| - WINDOW..] else history
  }

  function Codes(records: seq<TurnRecord>): (codes: set<string>) {
    set i | 0 <= i < |records| :: records[i].code
  }

  function Failures(records: seq<TurnRecord>): nat {
    if records == [] then 0
    else Failures(records[..|records| - 1]) + if records[|records| - 1].passed then 0 else 1
  }

  lemma CodesPush(records: seq<TurnRecord>, i: nat)
    requires i < |records|
    ensures Codes(records[..i + 1]) == Codes(records[..i]) + {records[i].code}
  {
    var a, b := records[..i], records[..i + 1];
    forall c ensures c in Codes(b) <==> c in Codes(a) + {records[i].code} {
      if c in Codes(b) {
        var j :| 0 <= j < |b| && b[j].code == c;
        assert j < i ==> a[j].code == c;
      }
      if c in Codes(a) {
        var j :| 0 <= j < |a| && a[j].code == c;
        assert b[j].code == c;
      }
      if c == records[i].code {
        assert b[i].code == c;
      }
    }
  }

  lemma FailuresPush(records: seq<TurnRecord>, i: nat)
    requires i < |records|
    ensures Failures(records[..i + 1]) == Failures(records[..i]) + if records[i].passed then 0 else 1
  {
    assert records[..i + 1][..i] == records[..i];
  }

  lemma WindowStart(records: seq<TurnRecord>)
    ensures Codes(records[..0]) == {} && Failures(records[..0]) == 0
  {}

  /** Some code was submitted twice within the window. */
  ghost predicate Repeats(records: seq<TurnRecord>) {
    exists i, j :: 0 <= i < j < |records| && records[i].code == records[j].code
  }

  lemma {:induction false} RepetitionShrinksCodes(records: seq<TurnRecord>)
    ensures |Codes(records)| <= |records|
    ensures |Codes(records)| < |records| <==> Repeats(records)
  {
    if records != [] {
      var n := |records| - 1;
      var most, last := records[..n], records[n];
      RepetitionShrinksCodes(most);
      CodesPush(records, n);
      assert records[..n + 1] == records;
      if last.code in Codes(most) {
        assert Codes(most) + {last.code} == Codes(most);
        var i :| 0 <= i < |most| && most[i].code == last.code;
        assert records[i].code == records[n].code;
      }
      if Repeats(most) {
        var i, j :| 0 <= i < j < |most| && most[i].code == most[j].code;
        assert records[i].code == records[j].code;
      }
      if Repeats(records) {
        var i, j :| 0 <= i < j < |records| && records[i].code == records[j].code;
        if j == n {
          assert most[i].code == last.code;
        } else {
          assert most[i].code == most[j].code;
        }
      }
    }
  }

  /** Errors and repetition over the window, depth over the whole conversation; repetition is the window
      size minus the number of distinct codes, whatever order they came in. */
  ghost function SignalsOf(history: seq<TurnRecord>): Signals {
    RepetitionShrinksCodes(Recent(history));
    Signals(Failures(Recent(history)), |Recent(history)|, |history|, |Recent(history)| - |Codes(Recent(history))|)
  }

  method SignalsFrom(history: seq<TurnRecord>) returns (sig: Signals)
    ensures sig == SignalsOf(history)
  {
    hide Codes, Failures;
    var recent := Recent(history);
    WindowStart(recent);
    var repeats := 0;
    var seen: seq<string> := [];
    var errors := 0;
    ghost var distinct: set<string> := {};
    for i := 0 to |recent|
      invariant distinct == Codes(recent[..i]) && |distinct| == |seen| && repeats + |seen| == i
      invariant forall c :: c in seen <==> c in distinct
      invariant errors == Failures(recent[..i])
    {
      CodesPush(recent, i);
      FailuresPush(recent, i);
      if recent[i].code in seen {
        assert distinct + {recent[i].code} == distinct;
        repeats := repeats + 1;
      } else {
        seen := seen + [recent[i].code];
      }
      distinct := distinct + {recent[i].code};
      errors := errors + if recent[i].passed then 0 else 1;
    }
    assert recent[..|recent|] == recent;
    sig := Signals(errors, |recent|, |history|, repeats);
  }

  ghost function Failed(): TurnRecord -> bool {
    (record: TurnRecord) => !record.passed
  }

  /** The signals in counts: over the last six attempts, how many failed, how many there were, and how many were
      not the first of theirs with their code; and the number of attempts in all. */
  lemma SignalsCount(history: seq<TurnRecord>)
    ensures var start := if |history| > 6 then |history| - 6 else 0; var sig := SignalsOf(history);
            && sig.toolErrors == |Where(history[start..], Failed())|
            && sig.toolResults == |history| - start
            && sig.assistantTurns == |history|
            && sig.repeatedToolCalls == |history| - start - |set i | start <= i < |history| :: history[i].code|
  {
    var start := if |history| > 6 then |history| - 6 else 0;
    var recent := Recent(history);
    FailuresCount(recent);
    assert recent == history[start..];
    var now, codes := Codes(recent), set i | start <= i < |history| :: history[i].code;
    forall c ensures c in now <==> c in codes {
      if c in now {
        var i :| 0 <= i < |recent| && recent[i].code == c;
        assert history[start + i].code == c;
      }
      if c in codes {
        var i :| start <= i < |history| && history[i].code == c;
        assert recent[i - start].code == c;
      }
    }
    assert now == codes;
  }

  lemma {:induction false} FailuresCount(records: seq<TurnRecord>)
    ensures Failures(records) == |Where(records, Failed())|
  {
    hide Where;
    if records == [] {
      WhereNone(Failed());
    } else {
      FailuresCount(records[..|records| - 1]);
      WhereOneMore(records, Failed());
    }
  }

  // ----- the loop

  function GateOf(c: Candidate): S.Gate { S.Gate(c.gatePass, c.oracleCorrect, c.cost) }

  function RecordOf(c: Candidate): TurnRecord { TurnRecord(c.code, c.gatePass, c.feedback) }

  /** The rungs recorded for a turn: every rung answered the same conversation. */
  ghost predicate Answered(answers: Answers, history: seq<TurnRecord>, rungs: seq<S.Gate>) {
    forall k :: 0 <= k < |rungs| ==>
      && answers(history, k).Some?
      && rungs[k].gatePass == answers(history, k).value.gatePass
      && rungs[k].oracleCorrect == answers(history, k).value.oracleCorrect
      && rungs[k].cost == answers(history, k).value.cost
  }

  ghost predicate Asked(answers: Answers, nRungs: nat, turn: RecordedTurn, history: seq<TurnRecord>) {
    && turn.signals == SignalsOf(history)
    && |turn.rungs| == nRungs
    && Answered(answers, history, turn.rungs)
  }

  /** The cheap rung answered this conversation with `record`, and failed its gate. */
  ghost predicate CheapFailed(answers: Answers, history: seq<TurnRecord>, record: TurnRecord) {
    && answers(history, 0).Some? && !answers(history, 0).value.gatePass
    && record.code == answers(history, 0).value.code && record.feedback == answers(history, 0).value.feedback
    && !record.passed
  }

  /** What a trajectory is: turn `t` was asked after exactly the first `t` cheap answers, all of them failures. */
  ghost predicate Trajectory(answers: Answers, nRungs: nat, turns: seq<RecordedTurn>, history: seq<TurnRecord>) {
    && |history| <= |turns| <= |history| + 1
    && (history != [] ==> nRungs > 0)
    && (forall t :: 0 <= t < |turns| ==> Asked(answers, nRungs, turns[t], history[..t]))
    && (forall t :: 0 <= t < |history| ==> CheapFailed(answers, history[..t], history[t]))
  }

  /** USD of all rungs of the first `n` turns. */
  function Bill(turns: seq<RecordedTurn>, n: nat): real
    requires n <= |turns|
  {
    if n == 0 then 0.0 else Bill(turns, n - 1) + S.Spent(turns[n - 1].rungs, |turns[n - 1].rungs|)
  }

  /** The bill of every turn, all rungs included. */
  function TurnBills(turns: seq<RecordedTurn>): (bills: seq<real>)
    ensures |bills| == |turns|
  {
    seq(|turns|, t requires 0 <= t < |turns| => Sum(S.Costs(turns[t].rungs)))
  }

  lemma {:induction false} BillIsSum(turns: seq<RecordedTurn>, n: nat)
    requires n <= |turns|
    ensures Bill(turns, n) == Sum(TurnBills(turns[..n]))
  {
    hide Sum;
    if n == 0 {
      SumOfNone();
    } else {
      BillIsSum(turns, n - 1);
      var rungs := turns[n - 1].rungs;
      S.SpentIsSum(rungs, |rungs|);
      assert rungs[..|rungs|] == rungs;
      assert TurnBills(turns[..n]) == TurnBills(turns[..n - 1]) + [Sum(S.Costs(rungs))];
      SumPush(TurnBills(turns[..n - 1]), Sum(S.Costs(rungs)));
    }
  }

  lemma {:induction false} BillPrefix(turns: seq<RecordedTurn>, t: RecordedTurn, n: nat)
    requires n <= |turns|
    ensures Bill(turns + [t], n) == Bill(turns, n)
  {
    if n > 0 {
      BillPrefix(turns, t, n - 1);
    }
  }

  lemma BillOfAll(turns: seq<RecordedTurn>)
    ensures Bill(turns, |turns|) == Sum(TurnBills(turns))
  {
    hide Sum, TurnBills;
    BillIsSum(turns, |turns|);
    assert turns[..|turns|] == turns;
  }

  lemma {:induction false} SpentPrefix(rungs: seq<S.Gate>, g: S.Gate, n: nat)
    requires n <= |rungs|
    ensures S.Spent(rungs + [g], n) == S.Spent(rungs, n)
  {
    if n > 0 {
      SpentPrefix(rungs, g, n - 1);
    }
  }

  /** One turn: a failed call aborts it, otherwise every rung is recorded and the first rung's record kept. */
  method AskRungs(answers: Answers, nRungs: nat, history: seq<TurnRecord>)
    returns (rungs: Option<seq<S.Gate>>, first: Option<TurnRecord>, spent: real)
    ensures rungs.None? <==> exists k :: 0 <= k < nRungs && answers(history, k).None?
    ensures rungs.Some? ==> |rungs.value| == nRungs && Answered(answers, history, rungs.value)
    ensures rungs.Some? ==> spent == S.Spent(rungs.value, nRungs)
    ensures rungs.Some? ==> (first.Some? <==> nRungs > 0)
    ensures rungs.Some? && nRungs > 0 ==>
              answers(history, 0).Some? && first.value == RecordOf(answers(history, 0).value)
  {
    var out: seq<S.Gate> := [];
    first, spent := None, 0.0;
    for k := 0 to nRungs
      invariant |out| == k && spent == S.Spent(out, k) && Answered(answers, history, out)
      invariant first.Some? <==> k > 0
      invariant k > 0 ==> answers(history, 0).Some? && first.value == RecordOf(answers(history, 0).value)
    {
      var got := answers(history, k);
      if got.None? {
        return None, first, spent;
      }
      spent := spent + got.value.cost;
      SpentPrefix(out, GateOf(got.value), k);
      out := out + [GateOf(got.value)];
      if first.None? {
        first := Some(RecordOf(got.value));
      }
    }
    assert forall k :: 0 <= k < nRungs ==> out[k] == GateOf(answers(history, k).value);
    rungs := Some(out);
  }

  /** Why the loop ended: out of turns, or the cheap rung of the last turn passed (or there is no rung). */
  ghost predicate Ended(answers: Answers, nRungs: nat, maxTurns: nat, turns: seq<RecordedTurn>,
                        history: seq<TurnRecord>)
  {
    && |turns| <= maxTurns
    && (|turns| == |history| ==> |turns| == maxTurns)
    && (|turns| > |history| && nRungs > 0 ==>
          (answers(history, 0).Some? && answers(history, 0).value.gatePass))
  }

  /** `run_task`: `history` is the conversation when the loop ended. */
  method RunTask(answers: Answers, nRungs: nat, maxTurns: nat)
    returns (run: Option<(seq<RecordedTurn>, real)>, history: seq<TurnRecord>)
    ensures run.Some? ==> Trajectory(answers, nRungs, run.value.0, history)
    ensures run.Some? ==> Ended(answers, nRungs, maxTurns, run.value.0, history)
    ensures run.Some? ==> run.value.1 == Bill(run.value.0, |run.value.0|)
    ensures run.Some? ==> run.value.1 == Sum(TurnBills(run.value.0))
    ensures run.None? ==> |history| < maxTurns && exists k :: 0 <= k < nRungs && answers(history, k).None?
  {
    hide Answered, SignalsOf, Sum, TurnBills;
    history := [];
    var turns: seq<RecordedTurn> := [];
    var spent := 0.0;
    for t := 0 to maxTurns
      invariant |turns| == |history| == t
      invariant Trajectory(answers, nRungs, turns, history) && spent == Bill(turns, t)
    {
      var sig := SignalsFrom(history);
      var rungs, first, cost := AskRungs(answers, nRungs, history);
      if rungs.None? {
        return None, history;
      }
      var turn := RecordedTurn(sig, rungs.value);
      BillPrefix(turns, turn, t);
      TurnAdded(answers, nRungs, turns, turn, history);
      turns := turns + [turn];
      spent := spent + cost;
      if first.Some? && !first.value.passed {
        AnswerAdded(answers, nRungs, turns, history, first.value);
        history := history + [first.value];
      } else {
        BillOfAll(turns);
        return Some((turns, spent)), history;
      }
    }
    BillOfAll(turns);
    run := Some((turns, spent));
  }

  lemma TurnAdded(answers: Answers, nRungs: nat, turns: seq<RecordedTurn>, turn: RecordedTurn, history: seq<TurnRecord>)
    requires |turns| == |history| && Trajectory(answers, nRungs, turns, history)
    requires Asked(answers, nRungs, turn, history)
    ensures Trajectory(answers, nRungs, turns + [turn], history)
  {
    hide Asked, CheapFailed;
    assert history[..|history|] == history;
    var all := turns + [turn];
    forall t | 0 <= t < |all| ensures Asked(answers, nRungs, all[t], history[..t]) {
      assert t < |turns| ==> all[t] == turns[t];
    }
  }

  lemma AnswerAdded(answers: Answers, nRungs: nat, turns: seq<RecordedTurn>, history: seq<TurnRecord>,
                    record: TurnRecord)
    requires |turns| == |history| + 1 && Trajectory(answers, nRungs, turns, history)
    requires nRungs > 0 && CheapFailed(answers, history, record)
    ensures Trajectory(answers, nRungs, turns, history + [record])
  {
    hide Asked, CheapFailed;
    var more := history + [record];
    assert forall t :: 0 <= t <= |history| ==> more[..t] == history[..t];
    assert history[..|history|] == history;
    forall t | 0 <= t < |more| ensures CheapFailed(answers, more[..t], more[t]) {
      assert t < |history| ==> more[t] == history[t];
    }
  }

  // ----- what a recorded trajectory carries

  lemma {:induction false} AllFail(records: seq<TurnRecord>)
    requires forall i :: 0 <= i < |records| ==> !records[i].passed
    ensures Failures(records) == |records|
  {
    if records != [] {
      AllFail(records[..|records| - 1]);
    }
  }

  /** Turn `t` of every recorded trajectory carries `t` assistant turns and as many errors as results, its
      repeat count is positive exactly when the window holds a code twice, and every turn but the last
      fails at the cheap rung. */
  lemma RecordedSignals(answers: Answers, nRungs: nat, turns: seq<RecordedTurn>, history: seq<TurnRecord>, t: nat)
    requires Trajectory(answers, nRungs, turns, history) && t < |turns|
    ensures turns[t].signals.assistantTurns == t
    ensures turns[t].signals.toolErrors == turns[t].signals.toolResults == Min(t, 6)
    ensures turns[t].signals.repeatedToolCalls == Min(t, 6) - |Codes(Recent(history[..t]))|
    ensures turns[t].signals.repeatedToolCalls >= 1 <==> Repeats(history[t - Min(t, 6)..t])
    ensures |turns[t].rungs| == nRungs
    ensures t + 1 < |turns| ==> turns[t].rungs != [] && !turns[t].rungs[0].gatePass
  {
    hide Failures, Codes;
    var seen := history[..t];
    assert Recent(seen) == history[t - Min(t, 6)..t];
    assert Asked(answers, nRungs, turns[t], seen);
    forall i | 0 <= i < t ensures !seen[i].passed {
      assert CheapFailed(answers, history[..i], history[i]);
    }
    AllFail(Recent(seen));
    RepetitionShrinksCodes(Recent(seen));
    if t + 1 < |turns| {
      assert CheapFailed(answers, seen, history[t]);
      assert Answered(answers, seen, turns[t].rungs);
    }
  }

  function ToTurn(t: RecordedTurn): S.Turn
    requires t.rungs != []
  {
    S.RawTurn(t.signals.toolErrors, t.signals.repeatedToolCalls, t.rungs)
  }

  /** On recorded trajectories the tool-error count is the turn index: with a threshold within the window
      the session-signal rule serves the top rung exactly from turn `k` on or when a code was submitted
      twice within the last six turns, and the cheap rung otherwise. */
  lemma StageRouterReadsTheTurnIndex(answers: Answers, nRungs: nat, turns: seq<RecordedTurn>, history: seq<TurnRecord>,
                                     t: nat, k: nat)
    requires Trajectory(answers, nRungs, turns, history) && nRungs > 0 && t < |turns| && k <= 6
    ensures turns[t].rungs != []
    ensures var turn := ToTurn(turns[t]);
            var served := if t >= k || Repeats(history[t - Min(t, 6)..t]) then S.Top(turn) else S.Cheap(turn);
            S.StageRouter(turn, k) == (served.oracleCorrect, served.cost)
  {
    RecordedSignals(answers, nRungs, turns, history, t);
  }

  /** Beyond the window the count saturates: a threshold of seven or more can only be met by repetition. */
  lemma ThresholdBeyondTheWindow(answers: Answers, nRungs: nat, turns: seq<RecordedTurn>, history: seq<TurnRecord>,
                                 t: nat, k: nat)
    requires Trajectory(answers, nRungs, turns, history) && nRungs > 0 && t < |turns| && k > 6
    ensures turns[t].rungs != []
    ensures var turn := ToTurn(turns[t]);
            var served := if Repeats(history[t - Min(t, 6)..t]) then S.Top(turn) else S.Cheap(turn);
            S.StageRouter(turn, k) == (served.oracleCorrect, served.cost)
  {
    RecordedSignals(answers, nRungs, turns, history, t);
  }
}
