/** Recorded agent sessions and the per-turn serving rules replayed over them
    (scripts/analyze-swe-checkpoint.py). */
module Sessions {
  import opened Reals

  /** What one rung did on one turn. */
  datatype Gate = Gate(gatePass: bool, oracleCorrect: bool, cost: real)

  datatype RawTurn = RawTurn(toolErrors: nat, repeatedToolCalls: nat, rungs: seq<Gate>)

  /** A turn always has a rung to serve: every rule below reads the first and the last one. */
  type Turn = t: RawTurn | |t.rungs| > 0 witness RawTurn(0, 0, [Gate(true, true, 0.0)])

  /** What a rule served on a turn and what it paid for it. */
  type Served = (bool, real)

  function Cheap(t: Turn): Gate { t.rungs[0] }

  function Top(t: Turn): Gate { t.rungs[|t.rungs| - 1] }

  // ----- first-pass on one turn

  function Spent(rungs: seq<Gate>, n: nat): real
    requires n <= |rungs|
  {
    if n == 0 then 0.0 else Spent(rungs, n - 1) + rungs[n - 1].cost
  }

  /** `i` is the rung first-pass serves: the first one whose gate passes, the last one if none does. */
  ghost predicate ServesRung(rungs: seq<Gate>, i: nat) {
    && i < |rungs|
    && (forall j :: 0 <= j < i ==> !rungs[j].gatePass)
    && (rungs[i].gatePass || i == |rungs| - 1)
  }

  function ServedRung(rungs: seq<Gate>): (i: nat)
    requires |rungs| > 0
    ensures ServesRung(rungs, i)
  {
    if rungs[0].gatePass || |rungs| == 1 then 0
    else
      var i := ServedRung(rungs[1..]);
      assert forall j :: 1 <= j < i + 1 ==> rungs[j] == rungs[1..][j - 1];
      i + 1
  }

  lemma ServedRungIsUnique(rungs: seq<Gate>, i: nat, j: nat)
    requires ServesRung(rungs, i) && ServesRung(rungs, j)
    ensures i == j
  {}

  function FirstPassOutcome(rungs: seq<Gate>): Served
    requires |rungs| > 0
  {
    var i := ServedRung(rungs);
    (rungs[i].oracleCorrect, Spent(rungs, i + 1))
  }

  method FirstPass(rungs: seq<Gate>) returns (ok: bool, spent: real)
    requires |rungs| > 0
    ensures (ok, spent) == FirstPassOutcome(rungs)
    ensures Delivers(rungs, false, (ok, spent))
  {
    hide Delivers;
    FirstPassDelivers(rungs);
    spent := 0.0;
    for i := 0 to |rungs|
      invariant spent == Spent(rungs, i)
      invariant forall j :: 0 <= j < i ==> !rungs[j].gatePass
    {
      spent := spent + rungs[i].cost;
      if rungs[i].gatePass {
        ServedRungIsUnique(rungs, i, ServedRung(rungs));
        return rungs[i].oracleCorrect, spent;
      }
    }
    ServedRungIsUnique(rungs, |rungs| - 1, ServedRung(rungs));
    ok := rungs[|rungs| - 1].oracleCorrect;
  }

  function Costs(rungs: seq<Gate>): (costs: seq<real>)
    ensures |costs| == |rungs|
  {
    seq(|rungs|, j requires 0 <= j < |rungs| => rungs[j].cost)
  }

  /** What was served is the verdict of rung `j` at the price of all rungs up to it, the gates below having
      failed. A turn that is cut off gets the cheap rung, any other the first that passes, else the last. */
  ghost predicate DeliversAt(rungs: seq<Gate>, cut: bool, out: Served, j: nat) {
    && j < |rungs| && out == (rungs[j].oracleCorrect, Sum(Costs(rungs[..j + 1])))
    && (forall i :: 0 <= i < j ==> !rungs[i].gatePass)
    && if cut then j == 0 else rungs[j].gatePass || j == |rungs| - 1
  }

  ghost predicate Delivers(rungs: seq<Gate>, cut: bool, out: Served) {
    exists j :: DeliversAt(rungs, cut, out, j)
  }

  lemma {:induction false} SpentIsSum(rungs: seq<Gate>, n: nat)
    requires n <= |rungs|
    ensures Spent(rungs, n) == Sum(Costs(rungs[..n]))
  {
    hide Sum;
    if n == 0 {
      SumOfNone();
    } else {
      SpentIsSum(rungs, n - 1);
      assert Costs(rungs[..n]) == Costs(rungs[..n - 1]) + [rungs[n - 1].cost];
      SumPush(Costs(rungs[..n - 1]), rungs[n - 1].cost);
    }
  }

  lemma FirstPassDelivers(rungs: seq<Gate>)
    requires |rungs| > 0
    ensures Delivers(rungs, false, FirstPassOutcome(rungs))
  {
    hide Sum, Spent;
    var j := ServedRung(rungs);
    SpentIsSum(rungs, j + 1);
    assert DeliversAt(rungs, false, FirstPassOutcome(rungs), j);
  }

  lemma CheapDelivers(rungs: seq<Gate>)
    requires |rungs| > 0
    ensures Delivers(rungs, true, (rungs[0].oracleCorrect, rungs[0].cost))
  {
    hide Sum;
    assert Costs(rungs[..1]) == [] + [rungs[0].cost];
    SumPush([], rungs[0].cost);
    SumOfNone();
    assert DeliversAt(rungs, true, (rungs[0].oracleCorrect, rungs[0].cost), 0);
  }

  ghost predicate CostsNonNegative(turns: seq<Turn>) {
    forall i, j :: 0 <= i < |turns| && 0 <= j < |turns[i].rungs| ==> turns[i].rungs[j].cost >= 0.0
  }

  lemma {:induction false} SpentMonotone(rungs: seq<Gate>, m: nat, n: nat)
    requires m <= n <= |rungs|
    requires forall j :: 0 <= j < |rungs| ==> rungs[j].cost >= 0.0
    ensures Spent(rungs, m) <= Spent(rungs, n)
  {
    if m < n {
      SpentMonotone(rungs, m, n - 1);
    }
  }

  // ----- stop after k consecutive failed escalations

  datatype Stop = Stop(streak: nat, stopped: bool)

  function StopNext(st: Stop, t: Turn, k: int): Stop {
    if Cheap(t).gatePass || st.stopped then st
    else
      var streak := if Top(t).gatePass then 0 else st.streak + 1;
      Stop(streak, k > 0 && streak >= k)
  }

  function StopState(h: seq<Turn>, k: int): Stop {
    if h == [] then Stop(0, false) else StopNext(StopState(h[..|h| - 1], k), h[|h| - 1], k)
  }

  /** The turn is sent up the ladder: its cheap gate failed and the rule has not stopped. */
  predicate Escalates(st: Stop, t: Turn) {
    !Cheap(t).gatePass && !st.stopped
  }

  lemma StopStateStart(k: int)
    ensures StopState([], k) == Stop(0, false)
  {}

  lemma StopStateStep(turns: seq<Turn>, i: nat, k: int)
    requires i < |turns|
    ensures StopState(turns[..i + 1], k) == StopNext(StopState(turns[..i], k), turns[i], k)
  {
    assert turns[..i + 1][..i] == turns[..i];
  }

  function StopServe(st: Stop, t: Turn): Served {
    if !Cheap(t).gatePass && st.stopped then (Cheap(t).oracleCorrect, Cheap(t).cost)
    else FirstPassOutcome(t.rungs)
  }

  lemma StopServes(h: seq<Turn>, t: Turn, k: int)
    ensures var st := StopState(h, k);
            && (!Cheap(t).gatePass && st.stopped ==> StopServe(st, t) == (Cheap(t).oracleCorrect, Cheap(t).cost))
            && (Cheap(t).gatePass || !st.stopped ==> StopServe(st, t) == FirstPassOutcome(t.rungs))
    ensures var cut := !Cheap(t).gatePass && k > 0 && HasFailureRun(TopGates(h), k);
            Delivers(t.rungs, cut, StopServe(StopState(h, k), t))
  {
    hide Delivers, HasFailureRun, FirstPassOutcome, StopState, TopGates;
    FirstPassDelivers(t.rungs);
    CheapDelivers(t.rungs);
    if k > 0 {
      StoppedMeansFailureRun(h, k);
    } else {
      ZeroIsFirstPass(h, t, k);
    }
  }

  method StopAfter(turns: seq<Turn>, k: int) returns (out: seq<Served>)
    ensures |out| == |turns|
    ensures forall i :: 0 <= i < |turns| ==> out[i] == StopServe(StopState(turns[..i], k), turns[i])
    ensures forall i :: 0 <= i < |turns| ==>
              var cut := !Cheap(turns[i]).gatePass && k > 0 && HasFailureRun(TopGates(turns[..i]), k);
              Delivers(turns[i].rungs, cut, out[i])
  {
    hide FirstPassOutcome, StopState, Delivers, StopServe, HasFailureRun, TopGates;
    var streak: nat, stopped := 0, false;
    out := [];
    StopStateStart(k);
    assert turns[..0] == [];
    for i := 0 to |turns|
      invariant |out| == i
      invariant StopState(turns[..i], k) == Stop(streak, stopped)
      invariant forall j :: 0 <= j < i ==> out[j] == StopServe(StopState(turns[..j], k), turns[j])
      invariant forall j :: 0 <= j < i ==>
                  var cut := !Cheap(turns[j]).gatePass && k > 0 && HasFailureRun(TopGates(turns[..j]), k);
                  Delivers(turns[j].rungs, cut, out[j])
    {
      var t := turns[i];
      StopStateStep(turns, i, k);
      StopServes(turns[..i], t, k);
      var cheap := t.rungs[0];
      if !cheap.gatePass && stopped {
        out := out + [(cheap.oracleCorrect, cheap.cost)];
      } else {
        var ok, spent := FirstPass(t.rungs);
        out := out + [(ok, spent)];
        if !cheap.gatePass {
          streak := if t.rungs[|t.rungs| - 1].gatePass then 0 else streak + 1;
          stopped := k > 0 && streak >= k;
        }
      }
    }
  }

  /** Top-rung gates of the turns whose cheap gate failed, in order. */
  function TopGates(h: seq<Turn>): seq<bool> {
    if h == [] then []
    else
      var t := h[|h| - 1];
      TopGates(h[..|h| - 1]) + if Cheap(t).gatePass then [] else [Top(t).gatePass]
  }

  /** `gates` holds `k` failures in a row that end just before position `e`. */
  ghost predicate FailureRun(gates: seq<bool>, k: int, e: int) {
    && 0 <= e - k && e <= |gates|
    && forall i :: e - k <= i < e ==> !gates[i]
  }

  ghost predicate HasFailureRun(gates: seq<bool>, k: int) {
    exists e :: FailureRun(gates, k, e)
  }

  /** The rule has stopped exactly when `k` consecutive escalations failed at the top; until then its
      streak is the length of the run of failures the session currently ends in. */
  lemma {:induction false} StoppedMeansFailureRun(h: seq<Turn>, k: int)
    requires k > 0
    ensures StopState(h, k).stopped <==> HasFailureRun(TopGates(h), k)
    ensures !StopState(h, k).stopped ==> TrailingFailures(TopGates(h), StopState(h, k).streak)
  {
    if h == [] {
      assert TrailingFailures(TopGates(h), 0);
    } else {
      var g, t := h[..|h| - 1], h[|h| - 1];
      StoppedMeansFailureRun(g, k);
      if !Cheap(t).gatePass {
        AppendGate(TopGates(g), Top(t).gatePass, k, StopState(g, k).streak);
      } else {
        assert TopGates(h) == TopGates(g);
      }
    }
  }

  ghost predicate TrailingFailures(gates: seq<bool>, n: nat) {
    && n <= |gates|
    && (forall i :: |gates| - n <= i < |gates| ==> !gates[i])
    && (n < |gates| ==> gates[|gates| - n - 1])
  }

  lemma AppendGate(gates: seq<bool>, top: bool, k: int, n: nat)
    requires k > 0
    ensures HasFailureRun(gates, k) ==> HasFailureRun(gates + [top], k)
    ensures TrailingFailures(gates, n) && !HasFailureRun(gates, k) ==>
              var m := if top then 0 else n + 1;
              TrailingFailures(gates + [top], m) && (HasFailureRun(gates + [top], k) <==> m >= k)
  {
    var all := gates + [top];
    if HasFailureRun(gates, k) {
      var e :| FailureRun(gates, k, e);
      assert FailureRun(all, k, e);
    } else if TrailingFailures(gates, n) {
      var m := if top then 0 else n + 1;
      assert TrailingFailures(all, m);
      if m >= k {
        assert FailureRun(all, k, |all|);
      }
      if HasFailureRun(all, k) {
        var e :| FailureRun(all, k, e);
        if e < |all| {
          assert forall i :: e - k <= i < e ==> all[i] == gates[i];
          assert FailureRun(gates, k, e);
        }
        assert e == |all|;
      }
    }
  }

  /** Once the rule has stopped it never escalates again, whatever follows. */
  lemma {:induction false} StoppingIsAbsorbing(h: seq<Turn>, later: seq<Turn>, k: int)
    requires StopState(h, k).stopped
    ensures StopState(h + later, k) == StopState(h, k)
    decreases |later|
  {
    if later == [] {
      assert h + later == h;
    } else {
      var most := later[..|later| - 1];
      StoppingIsAbsorbing(h, most, k);
      assert (h + later)[..|h + later| - 1] == h + most;
    }
  }

  /** With `k = 0` the rule is plain first-pass on every turn. */
  lemma {:induction false} ZeroIsFirstPass(h: seq<Turn>, t: Turn, k: int)
    requires k <= 0
    ensures !StopState(h, k).stopped
    ensures StopServe(StopState(h, k), t) == FirstPassOutcome(t.rungs)
    decreases |h|
  {
    if h != [] {
      ZeroIsFirstPass(h[..|h| - 1], h[|h| - 1], k);
    }
  }

  lemma CheapCostsNoMore(t: Turn)
    requires CostsNonNegative([t])
    ensures Cheap(t).cost <= FirstPassOutcome(t.rungs).1
  {
    assert forall j :: 0 <= j < |t.rungs| ==> [t][0].rungs[j].cost >= 0.0;
    SpentMonotone(t.rungs, 1, ServedRung(t.rungs) + 1);
    assert Spent(t.rungs, 1) == Spent(t.rungs, 0) + t.rungs[0].cost;
  }

  /** A rule that stops sooner pays no more on any turn, and none pays more than first-pass. */
  lemma SoonerStopCostsLess(h: seq<Turn>, t: Turn, k: int, k': int)
    requires 1 <= k <= k' && CostsNonNegative([t])
    ensures StopServe(StopState(h, k), t).1 <= StopServe(StopState(h, k'), t).1 <= FirstPassOutcome(t.rungs).1
  {
    CheapCostsNoMore(t);
    StoppedMeansFailureRun(h, k);
    StoppedMeansFailureRun(h, k');
    if StopState(h, k').stopped {
      var e :| FailureRun(TopGates(h), k', e);
      assert FailureRun(TopGates(h), k, e);
    }
  }

  // ----- what a live router can see

  ghost predicate Width(turns: seq<Turn>, w: nat) {
    forall i :: 0 <= i < |turns| ==> |turns[i].rungs| == w
  }

  /** The gates that ran on a turn: up to and including the served rung when it is sent up the
      ladder, the cheap one alone otherwise. */
  function SeenGates(t: Turn, escalated: bool): seq<bool> {
    var n := if escalated then ServedRung(t.rungs) + 1 else 1;
    seq(n, i requires 0 <= i < n => t.rungs[i].gatePass)
  }

  /** Two sessions that a router running the rule on the first one could not tell apart. */
  ghost predicate SeesTheSame(a: seq<Turn>, b: seq<Turn>, k: int) {
    && |a| == |b|
    && forall i :: 0 <= i < |a| ==>
         var up := Escalates(StopState(a[..i], k), a[i]);
         SeenGates(a[i], up) == SeenGates(b[i], up)
  }

  ghost predicate DecidesTheSame(a: seq<Turn>, b: seq<Turn>, k: int)
    requires |a| == |b|
  {
    forall i :: 0 <= i < |a| ==> (Escalates(StopState(a[..i], k), a[i]) <==> Escalates(StopState(b[..i], k), b[i]))
  }

  /** On ladders of this width the rule never uses a gate that did not run. */
  ghost predicate UsesOnlyWhatItSees(w: nat) {
    forall a: seq<Turn>, b: seq<Turn>, k: int ::
      Width(a, w) && Width(b, w) && SeesTheSame(a, b, k) ==> DecidesTheSame(a, b, k)
  }

  lemma SeenCheapGate(a: Turn, b: Turn, escalated: bool)
    requires SeenGates(a, escalated) == SeenGates(b, escalated)
    ensures Cheap(a).gatePass == Cheap(b).gatePass
  {
    assert SeenGates(a, escalated)[0] == SeenGates(b, escalated)[0];
  }

  lemma SeenTopGate(a: Turn, b: Turn)
    requires |a.rungs| == |b.rungs| <= 2 && !Cheap(a).gatePass
    requires SeenGates(a, true) == SeenGates(b, true)
    ensures Top(a).gatePass == Top(b).gatePass
  {
    var last := |a.rungs| - 1;
    assert ServedRung(a.rungs) == last;
    assert SeenGates(a, true)[last] == SeenGates(b, true)[last];
  }

  lemma {:induction false} SameStateFromSameSight(a: seq<Turn>, b: seq<Turn>, k: int, w: nat, n: nat)
    requires w <= 2 && Width(a, w) && Width(b, w) && SeesTheSame(a, b, k) && n <= |a|
    ensures StopState(a[..n], k) == StopState(b[..n], k)
    decreases n
  {
    hide StopState, SeenGates, Width;
    if n == 0 {
      assert a[..0] == b[..0];
    } else {
      var i := n - 1;
      SameStateFromSameSight(a, b, k, w, i);
      StopStateStep(a, i, k);
      StopStateStep(b, i, k);
      SameWidth(a, b, w, i);
      SameNext(StopState(a[..i], k), a[i], b[i], k);
    }
  }

  lemma SameWidth(a: seq<Turn>, b: seq<Turn>, w: nat, i: nat)
    requires w <= 2 && Width(a, w) && Width(b, w) && i < |a| == |b|
    ensures |a[i].rungs| == |b[i].rungs| <= 2
  {}

  /** Two turns that look alike in this state lead to the same state. */
  lemma SameNext(st: Stop, a: Turn, b: Turn, k: int)
    requires |a.rungs| == |b.rungs| <= 2 && SeenGates(a, Escalates(st, a)) == SeenGates(b, Escalates(st, a))
    ensures StopNext(st, a, k) == StopNext(st, b, k)
  {
    hide SeenGates;
    SeenCheapGate(a, b, Escalates(st, a));
    if Escalates(st, a) {
      SeenTopGate(a, b);
    }
  }

  lemma TwoRungsSufficeToSee(w: nat)
    requires w <= 2
    ensures UsesOnlyWhatItSees(w)
  {
    forall a: seq<Turn>, b: seq<Turn>, k: int | Width(a, w) && Width(b, w) && SeesTheSame(a, b, k)
      ensures DecidesTheSame(a, b, k)
    {
      forall i | 0 <= i < |a|
        ensures Escalates(StopState(a[..i], k), a[i]) <==> Escalates(StopState(b[..i], k), b[i])
      {
        SameStateFromSameSight(a, b, k, w, i);
        SeenCheapGate(a[i], b[i], Escalates(StopState(a[..i], k), a[i]));
      }
    }
  }

  /** A turn of width `w` whose cheap gate fails, whose middle rungs pass and whose top gate is `top`. */
  function MiddleServes(w: nat, top: bool): (t: Turn)
    requires w >= 3
    ensures |t.rungs| == w && !Cheap(t).gatePass && t.rungs[1].gatePass && Top(t).gatePass == top
  {
    RawTurn(0, 0, seq(w, i => Gate(if i == 0 then false else if i == w - 1 then top else true, true, 1.0)))
  }

  /** With a middle rung that serves, the top gate the rule counts was never run: a run of two turns
      decided differently although nothing visible differed. */
  lemma ThreeRungsPeek(w: nat)
    requires w >= 3
    ensures !UsesOnlyWhatItSees(w)
  {
    var pass, fail := MiddleServes(w, true), MiddleServes(w, false);
    var a, b := [pass, pass], [fail, pass];
    ServedRungIsUnique(pass.rungs, 1, ServedRung(pass.rungs));
    ServedRungIsUnique(fail.rungs, 1, ServedRung(fail.rungs));
    assert SeenGates(pass, true) == SeenGates(fail, true);
    assert SeesTheSame(a, b, 1);
    assert a[..1] == [pass] && b[..1] == [fail];
    assert StopState([pass], 1) == StopNext(StopState([], 1), pass, 1) by { assert [pass][..0] == []; }
    assert StopState([fail], 1) == StopNext(StopState([], 1), fail, 1) by { assert [fail][..0] == []; }
    assert !DecidesTheSame(a, b, 1) by {
      assert Escalates(StopState(a[..1], 1), a[1]) && !Escalates(StopState(b[..1], 1), b[1]);
    }
  }

  /** The rule uses only what a live router sees exactly on ladders of at most two rungs. */
  lemma StopRuleIsLiveExactlyUpToTwoRungs(w: nat)
    ensures UsesOnlyWhatItSees(w) <==> w <= 2
  {
    if w <= 2 {
      TwoRungsSufficeToSee(w);
    } else {
      ThreeRungsPeek(w);
    }
  }

  // ----- choosing k on the training half

  function TotalOk(out: seq<Served>): nat {
    if out == [] then 0 else TotalOk(out[..|out| - 1]) + if out[|out| - 1].0 then 1 else 0
  }

  function TotalCost(out: seq<Served>): real {
    if out == [] then 0.0 else TotalCost(out[..|out| - 1]) + out[|out| - 1].1
  }

  function StopOutputs(turns: seq<Turn>, k: int): (out: seq<Served>)
    ensures |out| == |turns|
  {
    seq(|turns|, i requires 0 <= i < |turns| => StopServe(StopState(turns[..i], k), turns[i]))
  }

  /** Everything the rule serves over a set of sessions, sessions in order. */
  function SessionsOutputs(records: seq<seq<Turn>>, k: int): seq<Served> {
    if records == [] then []
    else SessionsOutputs(records[..|records| - 1], k) + StopOutputs(records[|records| - 1], k)
  }

  method Total(records: seq<seq<Turn>>, k: int) returns (ok: nat, cost: real)
    ensures ok == TotalOk(SessionsOutputs(records, k))
    ensures cost == TotalCost(SessionsOutputs(records, k))
  {
    hide StopState, StopServe;
    var all: seq<Served> := [];
    for r := 0 to |records|
      invariant all == SessionsOutputs(records[..r], k)
    {
      var out := StopAfter(records[r], k);
      assert out == StopOutputs(records[r], k);
      assert records[..r + 1][..r] == records[..r];
      all := all + out;
    }
    assert records[..|records|] == records;
    ok, cost := 0, 0.0;
    for i := 0 to |all|
      invariant ok == TotalOk(all[..i]) && cost == TotalCost(all[..i])
    {
      assert all[..i + 1][..i] == all[..i];
      ok := ok + if all[i].0 then 1 else 0;
      cost := cost + all[i].1;
    }
    assert all[..|all|] == all;
  }

  ghost function Correct(): Served -> bool {
    (out: Served) => out.0
  }

  ghost function Price(): Served -> real {
    (out: Served) => out.1
  }

  /** Correct turns and USD, counted and added up. */
  lemma {:induction false} TotalsCount(out: seq<Served>)
    ensures TotalOk(out) == |Where(out, Correct())|
    ensures TotalCost(out) == Sum(Values(out, Price()))
  {
    hide Sum, Where, Values;
    if out == [] {
      WhereNone(Correct());
      ValuesNone(Price());
    } else {
      TotalsCount(out[..|out| - 1]);
      WhereOneMore(out, Correct());
      ValuesOneMore(out, Price());
    }
  }

  /** The outputs of one session are its turns served one by one, and those of several follow one another. */
  lemma {:induction false} OutputsFollow(a: seq<seq<Turn>>, b: seq<seq<Turn>>, turns: seq<Turn>, k: int)
    ensures SessionsOutputs(a + b, k) == SessionsOutputs(a, k) + SessionsOutputs(b, k)
    ensures |SessionsOutputs([turns], k)| == |turns|
    ensures forall i :: 0 <= i < |turns| ==>
              SessionsOutputs([turns], k)[i] == StopServe(StopState(turns[..i], k), turns[i])
    decreases |b|
  {
    hide StopServe, StopState;
    assert [turns][..0] == [];
    assert SessionsOutputs([turns], k) == [] + StopOutputs(turns, k);
    if b == [] {
      assert a + b == a;
    } else {
      var n := |b| - 1;
      OutputsFollow(a, b[..n], turns, k);
      assert (a + b)[..|a + b| - 1] == a + b[..n];
    }
  }

  lemma {:induction false} TotalCostMonotone(x: seq<Served>, y: seq<Served>)
    requires |x| == |y| && forall i :: 0 <= i < |x| ==> x[i].1 <= y[i].1
    ensures TotalCost(x) <= TotalCost(y)
  {
    if x != [] {
      TotalCostMonotone(x[..|x| - 1], y[..|y| - 1]);
    }
  }

  lemma {:induction false} OutputsCostMonotone(records: seq<seq<Turn>>, k: int, k': int)
    requires 1 <= k <= k' && forall r :: 0 <= r < |records| ==> CostsNonNegative(records[r])
    ensures var x, y := SessionsOutputs(records, k), SessionsOutputs(records, k');
            |x| == |y| && forall i :: 0 <= i < |x| ==> x[i].1 <= y[i].1
  {
    if records != [] {
      OutputsCostMonotone(records[..|records| - 1], k, k');
      var turns := records[|records| - 1];
      forall i | 0 <= i < |turns|
        ensures StopOutputs(turns, k)[i].1 <= StopOutputs(turns, k')[i].1
      {
        assert CostsNonNegative([turns[i]]);
        SoonerStopCostsLess(turns[..i], turns[i], k, k');
      }
    }
  }

  /** The patience `k` loses no correct turn on these sessions against never stopping. */
  ghost predicate LosesNothing(records: seq<seq<Turn>>, k: int) {
    TotalOk(SessionsOutputs(records, k)) >= TotalOk(SessionsOutputs(records, 0))
  }

  const MAX_PATIENCE := 13

  /** Fits the patience on one half: the cheapest one that loses nothing there. Because sooner stops
      never cost more, that is simply the most impatient one that loses nothing. */
  method Pick(records: seq<seq<Turn>>) returns (k: int)
    requires forall r :: 0 <= r < |records| ==> CostsNonNegative(records[r])
    ensures 0 <= k <= 12
    ensures k > 0 ==> LosesNothing(records, k)
    ensures forall j :: 1 <= j <= 12 && LosesNothing(records, j) ==> 1 <= k <= j
  {
    var base, _ := Total(records, 0);
    k := 0;
    var best := 0.0;
    for j := 1 to MAX_PATIENCE
      invariant 0 <= k < j
      invariant k > 0 ==> LosesNothing(records, k) && best == TotalCost(SessionsOutputs(records, k))
      invariant forall i :: 1 <= i < j && LosesNothing(records, i) ==> 1 <= k <= i
    {
      var ok, cost := Total(records, j);
      if ok >= base && (k == 0 || cost < best) {
        if k > 0 {
          OutputsCostMonotone(records, k, j);
          TotalCostMonotone(SessionsOutputs(records, k), SessionsOutputs(records, j));
        }
        k, best := j, cost;
      }
    }
  }

  // ----- the session-signal rule

  function StageRouter(t: Turn, minErrors: int): Served {
    var troubled := t.toolErrors >= minErrors || t.repeatedToolCalls >= 1;
    var g := if troubled then Top(t) else Cheap(t);
    (g.oracleCorrect, g.cost)
  }
}
