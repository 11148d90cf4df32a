/** The anytime-valid session stop (`eprocess_stop` in scripts/analyze-swe-checkpoint.py): betting
    wealth against "the top rung's gate still passes at least `floor` of the time". */
module EProcess {
  import opened Probability
  import opened Reals
  import opened Sessions
  import Matrix

  datatype Params = Params(floor: real, delta: real, bet: real, probeEvery: int) {
    /** What the docstring's guarantee needs; outside it a factor can be negative. */
    predicate Valid() {
      0.0 <= floor < 1.0 && 0.0 < delta && 0.0 <= bet <= 1.0 && probeEvery != 0
    }

    function Lam(): real
      requires floor != 1.0
    {
      bet / (1.0 - floor)
    }

    /** The numbers the loop works with: what an observed top gate multiplies the wealth by, and the
        wealth at which the session is stopped. Bar and interval are arbitrary where the code would
        divide by zero (`Divides`). */
    function Rule(): Rule
      requires floor != 1.0
    {
      RawRule(1.0 + Lam() * (floor - 1.0), 1.0 + Lam() * (floor - 0.0), if delta == 0.0 then 1.0 else 1.0 / delta,
              if probeEvery == 0 then 1 else probeEvery)
    }
  }

  const SHIPPED := Params(0.25, 0.2, 0.9, 3)

  datatype RawRule = RawRule(onPass: real, onFail: real, level: real, probeEvery: int)

  type Rule = r: RawRule | r.probeEvery != 0 witness RawRule(1.0, 1.0, 1.0, 1)

  /** Python's remainder has the sign of the divisor. */
  function PyMod(a: int, b: int): int
    requires b != 0
  {
    if b > 0 then a % b else -((-a) % (-b))
  }

  function Abs(b: int): nat { if b < 0 then -b else b }

  /** Whatever the sign of the interval, the remainder is zero exactly at its multiples. */
  lemma PyModZero(a: nat, b: int)
    requires b != 0
    ensures PyMod(a, b) == 0 <==> a % Abs(b) == 0
  {
    if b < 0 {
      OppositeMultiples(a, -b);
    }
  }

  datatype State = State(wealth: real, skipped: nat)

  predicate Stopped(r: Rule, st: State) {
    st.wealth >= r.level
  }

  /** A failed cheap turn in this state is served as it is: the test has stopped the session and the
      turn is not the one in `probeEvery` that escalates anyway. */
  predicate Withholds(r: Rule, st: State) {
    Stopped(r, st) && PyMod(st.skipped + 1, r.probeEvery) != 0
  }

  function Next(r: Rule, st: State, t: Turn): State {
    if Cheap(t).gatePass then st
    else if Withholds(r, st) then State(st.wealth, st.skipped + 1)
    else State(st.wealth * if Top(t).gatePass then r.onPass else r.onFail,
               if Stopped(r, st) then st.skipped + 1 else st.skipped)
  }

  function After(r: Rule, h: seq<Turn>): State {
    if h == [] then State(1.0, 0) else Next(r, After(r, h[..|h| - 1]), h[|h| - 1])
  }

  lemma AfterNothing(r: Rule, h: seq<Turn>)
    requires h == []
    ensures After(r, h) == State(1.0, 0)
  {}

  lemma AfterStep(r: Rule, h: seq<Turn>, t: Turn)
    ensures After(r, h + [t]) == Next(r, After(r, h), t)
  {
    assert (h + [t])[..|h|] == h;
  }

  /** The turn after history `h` is withheld from the ladder. */
  predicate Withheld(r: Rule, h: seq<Turn>, t: Turn) {
    !Cheap(t).gatePass && Withholds(r, After(r, h))
  }

  function Serve(r: Rule, h: seq<Turn>, t: Turn): Served {
    if Withheld(r, h, t) then (Cheap(t).oracleCorrect, Cheap(t).cost) else FirstPassOutcome(t.rungs)
  }

  /** A withheld turn is served and billed at the cheap rung, any other as first-pass does. */
  lemma ServeDelivers(r: Rule, h: seq<Turn>, t: Turn)
    ensures Delivers(t.rungs, Withheld(r, h, t), Serve(r, h, t))
  {
    hide Delivers, Withheld, FirstPassOutcome;
    FirstPassDelivers(t.rungs);
    CheapDelivers(t.rungs);
  }

  /** On the turn after history `h` the script divides by zero: a failed cheap turn needs the reciprocal of
      `delta`, and one met while stopped a remainder by the interval. */
  ghost predicate Divides(p: Params, r: Rule, h: seq<Turn>, t: Turn) {
    !Cheap(t).gatePass && (p.delta == 0.0 || (p.probeEvery == 0 && Stopped(r, After(r, h))))
  }

  ghost predicate SomeDivides(p: Params, r: Rule, turns: seq<Turn>) {
    exists i :: 0 <= i < |turns| && Divides(p, r, turns[..i], turns[i])
  }

  /** Nothing is returned where the script raises. */
  method EprocessStop(turns: seq<Turn>, p: Params) returns (out: Matrix.Option<seq<Served>>)
    ensures out.None? <==> p.floor == 1.0 || SomeDivides(p, p.Rule(), turns)
    ensures out.Some? ==> |out.value| == |turns|
    ensures out.Some? ==> forall i :: 0 <= i < |turns| ==> out.value[i] == Serve(p.Rule(), turns[..i], turns[i])
    ensures out.Some? ==> forall i :: 0 <= i < |turns| ==>
              Delivers(turns[i].rungs, Withheld(p.Rule(), turns[..i], turns[i]), out.value[i])
  {
    if p.floor == 1.0 {
      return Matrix.None;
    }
    var lam := p.bet / (1.0 - p.floor);
    var r := RawRule(1.0 + lam * (p.floor - 1.0), 1.0 + lam * (p.floor - 0.0),
                     if p.delta == 0.0 then 1.0 else 1.0 / p.delta, if p.probeEvery == 0 then 1 else p.probeEvery);
    assert r == p.Rule();
    out := ReplayRule(turns, p, r);
  }

  method ReplayRule(turns: seq<Turn>, p: Params, r: Rule) returns (out: Matrix.Option<seq<Served>>)
    requires p.probeEvery != 0 ==> r.probeEvery == p.probeEvery
    ensures out.None? <==> SomeDivides(p, r, turns)
    ensures out.Some? ==> |out.value| == |turns|
    ensures out.Some? ==> forall i :: 0 <= i < |turns| ==> out.value[i] == Serve(r, turns[..i], turns[i])
    ensures out.Some? ==> forall i :: 0 <= i < |turns| ==>
              Delivers(turns[i].rungs, Withheld(r, turns[..i], turns[i]), out.value[i])
  {
    hide After, SomeDivides, FirstPassOutcome, PyMod, Delivers;
    AfterNothing(r, turns[..0]);
    var wealth, skipped: nat := 1.0, 0;
    var served: seq<Served> := [];
    for i := 0 to |turns|
      invariant |served| == i
      invariant After(r, turns[..i]) == State(wealth, skipped)
      invariant forall j :: 0 <= j < i ==> served[j] == Serve(r, turns[..j], turns[j])
      invariant forall j :: 0 <= j < i ==> !Divides(p, r, turns[..j], turns[j])
    {
      var t := turns[i];
      AfterStep(r, turns[..i], t);
      assert turns[..i + 1] == turns[..i] + [t];
      var cheap := t.rungs[0];
      var ok, spent := FirstPass(t.rungs);
      if cheap.gatePass {
        served := served + [(ok, spent)];
        continue;
      }
      if p.delta == 0.0 {
        DividesAt(p, r, turns, i);
        return Matrix.None;
      }
      if wealth >= r.level {
        skipped := skipped + 1;
        if p.probeEvery == 0 {
          DividesAt(p, r, turns, i);
          return Matrix.None;
        }
        if PyMod(skipped, p.probeEvery) != 0 {
          served := served + [(cheap.oracleCorrect, cheap.cost)];
          continue;
        }
      }
      served := served + [(ok, spent)];
      wealth := wealth * if t.rungs[|t.rungs| - 1].gatePass then r.onPass else r.onFail;
    }
    NoneDivides(p, r, turns);
    forall i | 0 <= i < |turns| ensures Delivers(turns[i].rungs, Withheld(r, turns[..i], turns[i]), served[i]) {
      ServeDelivers(r, turns[..i], turns[i]);
    }
    out := Matrix.Some(served);
  }

  lemma DividesAt(p: Params, r: Rule, turns: seq<Turn>, i: nat)
    requires i < |turns| && Divides(p, r, turns[..i], turns[i])
    ensures SomeDivides(p, r, turns)
  {}

  lemma NoneDivides(p: Params, r: Rule, turns: seq<Turn>)
    requires forall j :: 0 <= j < |turns| ==> !Divides(p, r, turns[..j], turns[j])
    ensures !SomeDivides(p, r, turns)
  {}

  // ----- the null hypothesis

  /** Probability that the cheap gate fails on the turn drawn from `d`. */
  ghost function CheapFails(d: Dist<Turn>): real {
    if d == [] then 0.0
    else (if Cheap(d[0].value).gatePass then 0.0 else d[0].p) + CheapFails(d[1..])
  }

  /** Probability that the cheap gate fails and the top gate passes. */
  ghost function TopRescues(d: Dist<Turn>): real {
    if d == [] then 0.0
    else (if !Cheap(d[0].value).gatePass && Top(d[0].value).gatePass then d[0].p else 0.0) + TopRescues(d[1..])
  }

  ghost predicate KeepsFloorAt(floor: real, r: Rule, env: Env<Turn>, h: seq<Turn>) {
    !Withholds(r, After(r, h)) ==> TopRescues(env(h)) >= floor * CheapFails(env(h))
  }

  /** Escalation still pays: whatever happened so far, on a turn that would be sent up the ladder the
      top gate passes with conditional probability at least `floor`. Nothing is asked of turns the
      rule withholds. */
  ghost predicate EscalationPays(floor: real, r: Rule, env: Env<Turn>) {
    forall h :: KeepsFloorAt(floor, r, env, h)
  }

  ghost function WealthOf(r: Rule): seq<Turn> -> real {
    h => After(r, h).wealth
  }

  ghost predicate EverWithheld(r: Rule, h: seq<Turn>) {
    exists i :: 0 <= i < |h| && Withheld(r, h[..i], h[i])
  }

  ghost function EverWithholds(r: Rule): seq<Turn> -> bool {
    h => EverWithheld(r, h)
  }

  /** Under the parameters the guarantee needs, a pass keeps `1 - bet` of the wealth, no factor is
      negative, and a top gate exactly at the floor is a fair bet. */
  lemma FairBet(p: Params)
    requires p.Valid()
    ensures p.Rule().onPass == 1.0 - p.bet >= 0.0
    ensures p.Rule().onFail == 1.0 + p.Lam() * p.floor >= 1.0
    ensures p.Rule().onFail - p.Rule().onPass == p.Lam() >= 0.0
  {
    var lam := p.Lam();
    QuotientTimes(p.bet, 1.0 - p.floor);
    QuotientNonNegative(p.bet, 1.0 - p.floor);
    MulNonNegative(lam, p.floor);
    FairFactors(lam, p.floor, p.bet);
  }

  lemma FairFactors(lam: real, floor: real, bet: real)
    requires lam * (1.0 - floor) == bet
    ensures 1.0 + lam * (floor - 1.0) == 1.0 - bet
    ensures lam * floor - lam * (floor - 1.0) == lam
  {}

  lemma {:induction false} WealthNonNegative(r: Rule, h: seq<Turn>)
    requires r.onPass >= 0.0 && r.onFail >= 0.0
    ensures After(r, h).wealth >= 0.0
  {
    if h != [] {
      var w := After(r, h[..|h| - 1]).wealth;
      WealthNonNegative(r, h[..|h| - 1]);
      MulNonNegative(w, r.onPass);
      MulNonNegative(w, r.onFail);
    }
  }

  /** What a turn multiplies the wealth by in state `st`. */
  ghost function Gain(r: Rule, st: State): Turn -> real {
    (t: Turn) =>
      if Cheap(t).gatePass || Withholds(r, st) then 1.0 else if Top(t).gatePass then r.onPass else r.onFail
  }

  lemma NextGain(r: Rule, st: State, t: Turn)
    ensures Next(r, st, t).wealth == st.wealth * Gain(r, st)(t)
  {}

  lemma GainIsStep(r: Rule, h: seq<Turn>, t: Turn)
    ensures WealthOf(r)(h + [t]) == WealthOf(r)(h) * Gain(r, After(r, h))(t)
  {
    hide After;
    AfterStep(r, h, t);
    NextGain(r, After(r, h), t);
  }

  lemma {:induction false} MeanGain(r: Rule, st: State, d: Dist<Turn>)
    ensures Withholds(r, st) ==> Mean(d, Gain(r, st)) == Mass(d)
    ensures !Withholds(r, st) ==>
              Mean(d, Gain(r, st))
              == Mass(d) + (r.onFail - 1.0) * CheapFails(d) - (r.onFail - r.onPass) * TopRescues(d)
  {
    hide Mean, Mass, CheapFails, TopRescues, Withholds;
    if d == [] {
      MeanGainOfNothing(r, st);
    } else {
      MeanGain(r, st, d[1..]);
      MeanGainStep(r, st, d);
      if !Withholds(r, st) {
        OneMoreOutcome(d[0].p, r.onPass, r.onFail, CheapFails(d[1..]), TopRescues(d[1..]));
      }
    }
  }

  lemma MeanGainOfNothing(r: Rule, st: State)
    ensures Mean([], Gain(r, st)) == Mass<Turn>([]) == CheapFails([]) == TopRescues([]) == 0.0
  {}

  lemma MeanGainStep(r: Rule, st: State, d: Dist<Turn>)
    requires d != []
    ensures Mass(d) == d[0].p + Mass(d[1..])
    ensures Mean(d, Gain(r, st)) == d[0].p * Gain(r, st)(d[0].value) + Mean(d[1..], Gain(r, st))
    ensures CheapFails(d) == (if Cheap(d[0].value).gatePass then 0.0 else d[0].p) + CheapFails(d[1..])
    ensures TopRescues(d)
         == (if !Cheap(d[0].value).gatePass && Top(d[0].value).gatePass then d[0].p else 0.0) + TopRescues(d[1..])
  {}

  lemma OneMoreOutcome(p: real, pass: real, fail: real, fails: real, rescues: real)
    ensures (fail - 1.0) * (p + fails) == (fail - 1.0) * p + (fail - 1.0) * fails
    ensures (fail - pass) * (p + rescues) == (fail - pass) * p + (fail - pass) * rescues
    ensures p * fail == p + (fail - 1.0) * p && p * pass == p * fail - (fail - pass) * p
    ensures (fail - 1.0) * (0.0 + fails) == (fail - 1.0) * fails
    ensures (fail - pass) * (0.0 + rescues) == (fail - pass) * rescues
  {}

  /** One turn that keeps the floor does not raise the wealth on average. */
  lemma MeanGainAtMostOne(p: Params, st: State, d: Dist<Turn>)
    requires p.Valid() && Mass(d) == 1.0
    requires !Withholds(p.Rule(), st) ==> TopRescues(d) >= p.floor * CheapFails(d)
    ensures Mean(d, Gain(p.Rule(), st)) <= 1.0
  {
    hide Mean, Mass, Gain, CheapFails, TopRescues, Withholds;
    MeanGain(p.Rule(), st, d);
    FairBet(p);
    if !Withholds(p.Rule(), st) {
      Shortfall(p.Lam(), p.floor, CheapFails(d), TopRescues(d));
    }
  }

  lemma Shortfall(lam: real, floor: real, fails: real, rescues: real)
    requires lam >= 0.0 && rescues >= floor * fails
    ensures lam * floor * fails - lam * rescues <= 0.0
  {
    MulMonotone(lam, floor * fails, rescues);
    assert lam * (floor * fails) == lam * floor * fails;
  }

  lemma WealthNotGrowing(r: Rule, env: Env<Turn>, h: seq<Turn>)
    requires After(r, h).wealth >= 0.0 && Mean(env(h), Gain(r, After(r, h))) <= 1.0
    ensures NotGrowingAt(env, WealthOf(r), h)
  {
    hide After, Gain, WealthOf, NotGrowingAt, Mean;
    var v, g := WealthOf(r), Gain(r, After(r, h));
    WealthAt(r, h);
    forall t ensures v(h + [t]) == v(h) * g(t) {
      GainIsStep(r, h, t);
    }
    ProductNotGrowing(env, v, h, g);
  }

  lemma WealthAt(r: Rule, h: seq<Turn>)
    ensures WealthOf(r)(h) == After(r, h).wealth
  {}

  lemma WealthIsSupermartingale(p: Params, env: Env<Turn>)
    requires p.Valid() && IsEnv(env) && EscalationPays(p.floor, p.Rule(), env)
    ensures NonNegativeSupermartingale(env, WealthOf(p.Rule()))
  {
    hide After;
    FairBet(p);
    forall h ensures WealthOf(p.Rule())(h) >= 0.0 {
      WealthNonNegative(p.Rule(), h);
    }
    forall h ensures NotGrowingAt(env, WealthOf(p.Rule()), h) {
      assert IsDist(env(h)) && KeepsFloorAt(p.floor, p.Rule(), env, h);
      MeanGainAtMostOne(p, After(p.Rule(), h), env(h));
      WealthNonNegative(p.Rule(), h);
      WealthNotGrowing(p.Rule(), env, h);
    }
  }

  /** The anytime guarantee: while escalation still pays, the rule ever withholds a turn with
      probability at most `delta`, however long the session runs and with every probe still
      feeding the wealth. */
  lemma WrongStopProbability(p: Params, env: Env<Turn>, n: nat)
    requires p.Valid() && IsEnv(env) && EscalationPays(p.floor, p.Rule(), env)
    ensures Prob(env, n, EverWithholds(p.Rule())) <= p.delta
  {
    var r := p.Rule();
    var event := EverWithholds(r);
    if p.delta >= 1.0 {
      ExpectAtMostOne(env, [], n, event);
    } else {
      LevelAboveOne(p.delta);
      WealthIsSupermartingale(p, env);
      forall g | event(g) ensures Reached(WealthOf(r), g, r.level) {
        var i :| 0 <= i < |g| && Withheld(r, g[..i], g[i]);
        assert WealthOf(r)(g[..i]) >= r.level;
      }
      Ville(env, WealthOf(r), r.level, n, event);
    }
  }

  lemma LevelAboveOne(delta: real)
    requires 0.0 < delta < 1.0
    ensures 1.0 / delta > 1.0 && 1.0 / (1.0 / delta) == delta
  {
    var level := 1.0 / delta;
    QuotientTimes(1.0, delta);
    if level <= 1.0 {
      MulMonotone(delta, level, 1.0);
    }
  }

  // ----- exact accounting

  /** Turns that reached the ladder after a failed cheap gate and whose top gate came out `top`. */
  function Escalated(r: Rule, h: seq<Turn>, top: bool): nat {
    if h == [] then 0
    else
      var g, t := h[..|h| - 1], h[|h| - 1];
      Escalated(r, g, top)
      + if !Cheap(t).gatePass && !Withholds(r, After(r, g)) && Top(t).gatePass == top then 1 else 0
  }

  function WithheldTurns(r: Rule, h: seq<Turn>): nat {
    if h == [] then 0
    else WithheldTurns(r, h[..|h| - 1]) + if Withheld(r, h[..|h| - 1], h[|h| - 1]) then 1 else 0
  }

  /** Only the counts matter: wealth is a product over escalated turns, in whatever order they came. */
  lemma {:induction false} WealthCountsEscalations(r: Rule, h: seq<Turn>)
    ensures After(r, h).wealth == Pow(r.onPass, Escalated(r, h, true)) * Pow(r.onFail, Escalated(r, h, false))
  {
    hide After, Escalated, Pow;
    if h == [] {
      NothingCounted(r);
    } else {
      var g := h[..|h| - 1];
      WealthCountsEscalations(r, g);
      WealthCountsOneMore(r, g, h[|h| - 1]);
      assert h == g + [h[|h| - 1]];
    }
  }

  lemma NothingCounted(r: Rule)
    ensures After(r, []).wealth == Pow(r.onPass, Escalated(r, [], true)) * Pow(r.onFail, Escalated(r, [], false))
  {}

  lemma WealthCountsOneMore(r: Rule, g: seq<Turn>, t: Turn)
    requires After(r, g).wealth == Pow(r.onPass, Escalated(r, g, true)) * Pow(r.onFail, Escalated(r, g, false))
    ensures After(r, g + [t]).wealth
            == Pow(r.onPass, Escalated(r, g + [t], true)) * Pow(r.onFail, Escalated(r, g + [t], false))
  {
    hide After, Pow, Withholds;
    AfterStep(r, g, t);
    assert (g + [t])[..|g|] == g;
    PowStep(r.onPass, r.onFail, Escalated(r, g, true), Escalated(r, g, false));
  }

  lemma PowStep(x: real, y: real, m: nat, n: nat)
    ensures Pow(x, m) * Pow(y, n) * x == Pow(x, m + 1) * Pow(y, n)
    ensures Pow(x, m) * Pow(y, n) * y == Pow(x, m) * Pow(y, n + 1)
  {}

  /** Of the failed turns met while stopped, exactly every `probeEvery`-th one escalates. */
  lemma {:induction false} ProbeAccounting(r: Rule, h: seq<Turn>)
    ensures WithheldTurns(r, h) == After(r, h).skipped - After(r, h).skipped / Abs(r.probeEvery)
  {
    hide PyMod;
    if h != [] {
      var skipped := After(r, h[..|h| - 1]).skipped;
      ProbeAccounting(r, h[..|h| - 1]);
      NextQuotient(skipped, Abs(r.probeEvery));
      PyModZero(skipped + 1, r.probeEvery);
    }
  }

  /** Failed cheap turns met while the wealth stood at the bar or above. */
  ghost function MetStopped(r: Rule, h: seq<Turn>): nat {
    if h == [] then 0
    else
      var g, t := h[..|h| - 1], h[|h| - 1];
      MetStopped(r, g) + if !Cheap(t).gatePass && After(r, g).wealth >= r.level then 1 else 0
  }

  lemma {:induction false} SkippedAreMetStopped(r: Rule, h: seq<Turn>)
    ensures After(r, h).skipped == MetStopped(r, h)
  {
    hide PyMod;
    if h != [] {
      SkippedAreMetStopped(r, h[..|h| - 1]);
    }
  }

  /** A turn is withheld exactly when its cheap gate fails while the wealth times `delta` is at least one, unless
      it is one of every `probeEvery` such turns. */
  lemma WithheldExactlyWhen(p: Params, h: seq<Turn>, t: Turn)
    requires p.floor != 1.0 && p.delta > 0.0 && p.probeEvery != 0
    ensures var r := p.Rule();
            Withheld(r, h, t)
            <==> !Cheap(t).gatePass && After(r, h).wealth * p.delta >= 1.0
                 && (MetStopped(r, h) + 1) % Abs(p.probeEvery) != 0
  {
    hide After, MetStopped, PyMod;
    var r := p.Rule();
    SkippedAreMetStopped(r, h);
    PyModZero(MetStopped(r, h) + 1, p.probeEvery);
    AtTheBar(After(r, h).wealth, p.delta);
  }

  lemma AtTheBar(w: real, delta: real)
    requires delta > 0.0
    ensures w >= 1.0 / delta <==> w * delta >= 1.0
  {
    QuotientTimes(1.0, delta);
    if w >= 1.0 / delta {
      MulMonotone(delta, 1.0 / delta, w);
    } else {
      MulPositive(delta, 1.0 / delta - w);
    }
  }

  // ----- what withholding is worth

  /** The rung first-pass would serve on this turn. */
  ghost function Reach(t: Turn): (j: nat)
    ensures ServesRung(t.rungs, j)
  {
    ServedRung(t.rungs)
  }

  /** USD of first-pass on these turns. */
  ghost function FirstPassBill(turns: seq<Turn>): real {
    if turns == [] then 0.0
    else
      var t := turns[|turns| - 1];
      FirstPassBill(turns[..|turns| - 1]) + Sum(Costs(t.rungs[..Reach(t) + 1]))
  }

  /** USD the rungs above the cheap one would have cost on the withheld turns. */
  ghost function Spared(r: Rule, turns: seq<Turn>): real {
    if turns == [] then 0.0
    else
      var g, t := turns[..|turns| - 1], turns[|turns| - 1];
      Spared(r, g) + if Withheld(r, g, t) then Sum(Costs(t.rungs[1..Reach(t) + 1])) else 0.0
  }

  lemma CheapAndAbove(t: Turn)
    ensures Sum(Costs(t.rungs[..Reach(t) + 1])) == t.rungs[0].cost + Sum(Costs(t.rungs[1..Reach(t) + 1]))
  {
    hide Sum;
    var j := Reach(t);
    assert Costs(t.rungs[..j + 1]) == [t.rungs[0].cost] + Costs(t.rungs[1..j + 1]);
    SumAppend([t.rungs[0].cost], Costs(t.rungs[1..j + 1]));
    assert [t.rungs[0].cost] == [] + [t.rungs[0].cost];
    SumPush([], t.rungs[0].cost);
    SumOfNone();
  }

  lemma DeliveredPrice(t: Turn, cut: bool, out: Served)
    requires Delivers(t.rungs, cut, out)
    ensures out.1 == if cut then t.rungs[0].cost else Sum(Costs(t.rungs[..Reach(t) + 1]))
  {
    hide Sum;
    var j :| DeliversAt(t.rungs, cut, out, j);
    if cut {
      assert Costs(t.rungs[..1]) == [] + [t.rungs[0].cost];
      SumPush([], t.rungs[0].cost);
      SumOfNone();
    } else {
      ServedRungIsUnique(t.rungs, j, Reach(t));
    }
  }

  /** The money law: what a session pays under the rule is what first-pass would pay less what the rungs above the
      cheap one would have cost on the turns it withheld. */
  lemma {:induction false} WithholdingSparesTheLadder(r: Rule, turns: seq<Turn>, out: seq<Served>)
    requires |out| == |turns|
    requires forall i :: 0 <= i < |turns| ==> Delivers(turns[i].rungs, Withheld(r, turns[..i], turns[i]), out[i])
    ensures TotalCost(out) == FirstPassBill(turns) - Spared(r, turns)
    decreases |turns|
  {
    hide Delivers, Withheld, Sum;
    if turns != [] {
      var n := |turns| - 1;
      var g, t := turns[..n], turns[n];
      assert forall i :: 0 <= i <= n ==> g[..i] == turns[..i];
      WithholdingSparesTheLadder(r, g, out[..n]);
      DeliveredPrice(t, Withheld(r, g, t), out[n]);
      CheapAndAbove(t);
    }
  }

  /** With the shipped constants a session is stopped only after seven failed escalations, and a session
      whose top gate has never passed is stopped exactly from the seventh one on. */
  lemma SevenFailuresToStop(h: seq<Turn>)
    ensures var r := SHIPPED.Rule();
            && (Stopped(r, After(r, h)) ==> Escalated(r, h, false) >= 7)
            && (Escalated(r, h, true) == 0 ==> (Stopped(r, After(r, h)) <==> Escalated(r, h, false) >= 7))
            && WithheldTurns(r, h) == MetStopped(r, h) - MetStopped(r, h) / 3
  {
    var r := SHIPPED.Rule();
    ProbesOfThree(h);
    var a, f := Escalated(r, h, true), Escalated(r, h, false);
    WealthCountsEscalations(r, h);
    assert r.onPass == 0.1 && r.onFail == 1.3 && r.level == 5.0;
    PowAtMostOne(0.1, a);
    SeventhPower();
    if f <= 6 {
      PowMonotone(1.3, 0, f);
      PowMonotone(1.3, f, 6);
      MulShrinks(Pow(1.3, f), Pow(0.1, a));
    } else {
      PowMonotone(1.3, 7, f);
    }
  }

  lemma ProbesOfThree(h: seq<Turn>)
    ensures var r := SHIPPED.Rule(); WithheldTurns(r, h) == MetStopped(r, h) - MetStopped(r, h) / 3
  {
    hide After, WithheldTurns, MetStopped;
    ProbeAccounting(SHIPPED.Rule(), h);
    SkippedAreMetStopped(SHIPPED.Rule(), h);
  }

  lemma SeventhPower()
    ensures Pow(1.3, 6) < 5.0 < Pow(1.3, 7)
  {
    assert Pow(1.3, 2) == 1.69;
    assert Pow(1.3, 4) == 2.8561;
    assert Pow(1.3, 6) == 4.826809;
  }

  // ----- a session that turns around

  /** The cheap gate fails and the top gate would pass. */
  predicate Rescued(t: Turn) {
    !Cheap(t).gatePass && Top(t).gatePass
  }

  ghost predicate AllRescued(more: seq<Turn>) {
    forall i :: 0 <= i < |more| ==> Rescued(more[i])
  }

  /** What happened between two states of a stretch of `n` rescued turns: `e` of them escalated, each
      multiplying the wealth by the factor of a pass, and `w` were withheld, all but every `probe`-th of those
      met while stopped. */
  ghost predicate Turned(r: Rule, before: State, after: State, n: nat, e: nat, w: nat) {
    var m := Abs(r.probeEvery);
    && e + w == n
    && after.wealth == before.wealth * Pow(r.onPass, e)
    && before.skipped <= after.skipped <= before.skipped + n
    && w == (after.skipped - before.skipped) - (after.skipped / m - before.skipped / m)
  }

  lemma {:induction false} RescuedTurns(r: Rule, h: seq<Turn>, more: seq<Turn>) returns (e: nat, w: nat)
    requires AllRescued(more)
    ensures Turned(r, After(r, h), After(r, h + more), |more|, e, w)
    ensures w == WithheldTurns(r, h + more) - WithheldTurns(r, h)
    decreases |more|
  {
    hide After, WithheldTurns, PyMod, Pow;
    if more == [] {
      assert h + more == h;
      e, w := 0, 0;
      PowNothing(r.onPass);
    } else {
      var most, t := more[..|more| - 1], more[|more| - 1];
      var e', w' := RescuedTurns(r, h, most);
      assert h + more == (h + most) + [t];
      AfterStep(r, h + most, t);
      OneMoreTurn(r, h + most, t);
      var st := After(r, h + most);
      PyModZero(st.skipped + 1, r.probeEvery);
      NextQuotient(st.skipped, Abs(r.probeEvery));
      if Withholds(r, st) {
        e, w := e', w' + 1;
      } else {
        e, w := e' + 1, w';
        OneMorePower(After(r, h).wealth, r.onPass, e');
      }
    }
  }

  lemma PowNothing(x: real)
    ensures Pow(x, 0) == 1.0
  {}

  lemma OneMorePower(w: real, x: real, e: nat)
    ensures w * Pow(x, e) * x == w * Pow(x, e + 1)
  {
    hide Pow;
    OnePower(x, e);
    Regrouped(w, x, Pow(x, e));
  }

  lemma OneMoreTurn(r: Rule, g: seq<Turn>, t: Turn)
    requires Rescued(t)
    ensures WithheldTurns(r, g + [t]) == WithheldTurns(r, g) + if Withholds(r, After(r, g)) then 1 else 0
  {
    hide After, Withholds;
    assert (g + [t])[..|g|] == g;
  }

  /** Arithmetic of the probes: of `d` turns met while stopped at least one in `m` escalates. */
  lemma ProbesAmong(s: nat, d: nat, m: nat)
    requires m > 0
    ensures var q := (s + d) / m - s / m;
            q >= 0 && d <= q * m + (m - 1) && d - q <= (q + 1) * (m - 1)
  {
    var a, b, x, y := (s + d) / m, s / m, (s + d) % m, s % m;
    assert a * m + x == s + d && b * m + y == s;
    var q := a - b;
    assert q * m == a * m - b * m;
    if q < 0 {
      IntMulMonotone(q, -1, m);
    }
    assert (q + 1) * (m - 1) == q * m - q + (m - 1);
  }

  /** The wealth after `e` passes falls as `e` grows. */
  lemma {:induction false} PassesShrink(w: real, x: real, e: nat, f: nat)
    requires w >= 0.0 && 0.0 <= x <= 1.0 && e <= f
    ensures w * Pow(x, e) >= w * Pow(x, f)
    decreases f
  {
    if e < f {
      PassesShrink(w, x, e, f - 1);
      PowAtMostOne(x, f - 1);
      MulShrinks(Pow(x, f - 1), x);
      MulMonotone(w, Pow(x, f), Pow(x, f - 1));
    }
  }

  /** A session that turns around reopens. If `k` passes of the top gate would take the wealth below the bar,
      then from there on, over failed cheap turns whose top gate passes, at most `k` times the probe interval
      less one are withheld however many come, and after `k` times the interval the session is open. */
  lemma TurningAroundReopens(r: Rule, h: seq<Turn>, more: seq<Turn>, k: nat)
    requires AllRescued(more) && 0.0 <= r.onPass <= 1.0 && After(r, h).wealth >= 0.0
    requires After(r, h).wealth * Pow(r.onPass, k) < r.level
    ensures WithheldTurns(r, h + more) - WithheldTurns(r, h) <= k * (Abs(r.probeEvery) - 1)
    ensures |more| >= k * Abs(r.probeEvery) ==> !Stopped(r, After(r, h + more))
  {
    WithheldAreFew(r, h, more, k);
    var e, w := RescuedTurns(r, h, more);
    EscalatedEnough(r, h, After(r, h + more), |more|, e, w, k);
  }

  lemma EscalatedEnough(r: Rule, h: seq<Turn>, after: State, n: nat, e: nat, w: nat, k: nat)
    requires Turned(r, After(r, h), after, n, e, w)
    requires 0.0 <= r.onPass <= 1.0 && After(r, h).wealth >= 0.0 && After(r, h).wealth * Pow(r.onPass, k) < r.level
    ensures n >= k * Abs(r.probeEvery) ==> !Stopped(r, after)
  {
    hide After, Pow;
    var m, s := Abs(r.probeEvery), After(r, h).skipped;
    var d := after.skipped - s;
    ProbesAmong(s, d, m);
    var q := (s + d) / m - s / m;
    assert after.skipped == s + d && e == (n - d) + q;
    if n >= k * m {
      if e < k {
        TooFewEscalated(n, d, q, k, m);
      }
      PassesShrink(After(r, h).wealth, r.onPass, k, e);
    }
  }

  lemma TooFewEscalated(n: nat, d: nat, q: nat, k: nat, m: nat)
    requires m > 0 && d <= n && d <= q * m + (m - 1) && (n - d) + q < k
    ensures n < k * m
  {
    IntMulMonotone((n - d) + q + 1, k, m);
    assert ((n - d) + q + 1) * m == (n - d) * m + q * m + m;
    IntMulMonotone(1, m, n - d);
  }

  lemma {:induction false} WithheldAreFew(r: Rule, h: seq<Turn>, more: seq<Turn>, k: nat)
    requires AllRescued(more) && 0.0 <= r.onPass <= 1.0 && After(r, h).wealth >= 0.0
    requires After(r, h).wealth * Pow(r.onPass, k) < r.level
    ensures WithheldTurns(r, h + more) - WithheldTurns(r, h) <= k * (Abs(r.probeEvery) - 1)
    decreases |more|
  {
    hide After, WithheldTurns, Pow, PyMod;
    var m := Abs(r.probeEvery);
    if more == [] {
      assert h + more == h;
      IntMulMonotone(0, k, m - 1);
    } else {
      var most, t := more[..|more| - 1], more[|more| - 1];
      WithheldAreFew(r, h, most, k);
      assert h + more == (h + most) + [t];
      OneMoreTurn(r, h + most, t);
      if Withholds(r, After(r, h + most)) {
        var e, w := RescuedTurns(r, h, more);
        AfterStep(r, h + most, t);
        if e >= k {
          PassesShrink(After(r, h).wealth, r.onPass, k, e);
        }
        WithheldBeforeOpening(r, After(r, h), After(r, h + more), |more|, e, w, k);
      }
    }
  }

  lemma WithheldBeforeOpening(r: Rule, before: State, after: State, n: nat, e: nat, w: nat, k: nat)
    requires Turned(r, before, after, n, e, w) && e < k
    ensures w <= k * (Abs(r.probeEvery) - 1)
  {
    hide Pow;
    var m, s := Abs(r.probeEvery), before.skipped;
    var d := after.skipped - s;
    ProbesAmong(s, d, m);
    var q := (s + d) / m - s / m;
    IntMulMonotone(q + 1, k, m - 1);
  }

  // ----- when it does

  /** From history `h` on, any stretch of at least `n` rescued turns ends with the session open. */
  ghost predicate ReopensWithin(r: Rule, h: seq<Turn>, n: nat) {
    forall more :: |more| >= n && AllRescued(more) ==> !Stopped(r, After(r, h + more))
  }

  /** Whatever happened, a session that turns around reopens. */
  ghost predicate AlwaysReopens(r: Rule) {
    forall h :: ReopensFrom(r, h)
  }

  ghost predicate ReopensFrom(r: Rule, h: seq<Turn>) {
    exists n: nat :: ReopensWithin(r, h, n)
  }

  /** Bernoulli's inequality, for what is kept of a bet. */
  lemma {:induction false} KeptShare(b: real, k: nat)
    requires 0.0 <= b <= 1.0
    ensures Pow(1.0 - b, k) * (1.0 + k as real * b) <= 1.0
  {
    hide Pow;
    if k == 0 {
      PowNothing(1.0 - b);
    } else {
      var y, c := Pow(1.0 - b, k - 1), (k - 1) as real * b;
      KeptShare(b, k - 1);
      PowAtMostOne(1.0 - b, k - 1);
      OnePower(1.0 - b, k - 1);
      OneBet(k, b);
      MulNonNegative((k - 1) as real, b);
      KeptOneMore(y, b, c);
    }
  }

  lemma OnePower(x: real, e: nat)
    ensures Pow(x, e + 1) == x * Pow(x, e)
  {}

  lemma OneBet(k: nat, b: real)
    requires k > 0
    ensures k as real * b == (k - 1) as real * b + b
  {
    assert k as real == (k - 1) as real + 1.0;
  }

  lemma KeptOneMore(y: real, b: real, c: real)
    requires y >= 0.0 && b >= 0.0 && c >= 0.0 && y * (1.0 + c) <= 1.0
    ensures (1.0 - b) * y * (1.0 + (c + b)) <= 1.0
  {
    var z := (1.0 - b) * (1.0 + (c + b));
    MulNonNegative(b, b);
    MulNonNegative(c, b);
    OnePlus(b, c);
    MulMonotone(y, z, 1.0 + c);
    Regrouped(y, 1.0 - b, 1.0 + (c + b));
  }

  lemma Regrouped(y: real, p: real, x: real)
    ensures p * y * x == y * (p * x)
  {}

  lemma OnePlus(b: real, c: real)
    requires b * b >= 0.0 && c * b >= 0.0
    ensures (1.0 - b) * (1.0 + (c + b)) <= 1.0 + c
  {
    assert (1.0 - b) * (1.0 + (c + b)) == 1.0 + c - c * b - b * b;
  }

  /** Enough passes take any wealth below any bar. */
  lemma EnoughPasses(w: real, b: real, level: real) returns (k: nat)
    requires w >= 0.0 && 0.0 < b <= 1.0 && level > 0.0
    ensures w * Pow(1.0 - b, k) < level
  {
    hide Pow;
    MulPositive(level, b);
    var x := w / (level * b);
    QuotientNonNegative(w, level * b);
    k := x.Floor + 1;
    var kr, y := k as real, Pow(1.0 - b, k);
    KeptShare(b, k);
    PowAtMostOne(1.0 - b, k);
    QuotientTimes(w, level * b);
    assert kr > x;
    BelowTheBar(w, b, level, x, kr, y);
  }

  lemma BelowTheBar(w: real, b: real, level: real, x: real, k: real, y: real)
    requires w >= 0.0 && b > 0.0 && level > 0.0 && y >= 0.0 && 0.0 <= x < k
    requires x * (level * b) == w && y * (1.0 + k * b) <= 1.0
    ensures w * y < level
  {
    MulPositive(k - x, b);
    var c, d := x * b, k * b;
    BelowOne(y, c, d);
    MulPositive(level, 1.0 - y * c);
    WealthAsShare(w, level, y, c);
    assert w == level * c;
  }

  lemma BelowOne(y: real, c: real, d: real)
    requires y >= 0.0 && c <= d && y * (1.0 + d) <= 1.0
    ensures y * c < 1.0
  {
    var yc, yd := y * c, y * d;
    MulMonotone(y, c, d);
    assert yc <= yd && y + yd <= 1.0;
    if y == 0.0 {
      assert yc == 0.0;
    }
  }

  lemma WealthAsShare(w: real, level: real, y: real, c: real)
    ensures level * (1.0 - y * c) == level - level * c * y
  {}

  /** Under the parameters the guarantee needs, a session that turns around always reopens, unless nothing is
      bet and the bar is already met at the start. */
  lemma ReopensExactlyWhen(p: Params)
    requires p.Valid()
    ensures AlwaysReopens(p.Rule()) <==> p.bet > 0.0 || p.delta < 1.0
  {
    hide After, ReopensFrom;
    var r := p.Rule();
    if p.bet > 0.0 {
      forall h ensures ReopensFrom(r, h) {
        BetReopens(p, h);
      }
    } else {
      NothingBet(p);
      LevelAgainstOne(p.delta);
      if p.delta < 1.0 {
        forall h ensures ReopensFrom(r, h) {
          NeverStops(r, h);
        }
      } else {
        StaysStopped(r);
      }
    }
  }

  lemma LevelAgainstOne(delta: real)
    requires delta > 0.0
    ensures 1.0 / delta > 1.0 <==> delta < 1.0
  {
    QuotientTimes(1.0, delta);
    if delta < 1.0 {
      LevelAboveOne(delta);
    } else {
      LevelPositive(delta);
      MulMonotone(1.0 / delta, 1.0, delta);
    }
  }

  lemma BetReopens(p: Params, h: seq<Turn>)
    requires p.Valid() && p.bet > 0.0
    ensures ReopensFrom(p.Rule(), h)
  {
    hide After, Pow;
    var r := p.Rule();
    FairBet(p);
    WealthNonNegative(r, h);
    LevelPositive(p.delta);
    var k := EnoughPasses(After(r, h).wealth, p.bet, r.level);
    var n := k * Abs(r.probeEvery);
    IntMulMonotone(0, k, Abs(r.probeEvery));
    forall more | |more| >= n && AllRescued(more) ensures !Stopped(r, After(r, h + more)) {
      TurningAroundReopens(r, h, more, k);
    }
    assert ReopensWithin(r, h, n);
  }

  lemma LevelPositive(delta: real)
    requires delta > 0.0
    ensures 1.0 / delta > 0.0
  {
    QuotientTimes(1.0, delta);
    QuotientNonNegative(1.0, delta);
  }

  /** With nothing bet the wealth never moves. */
  lemma NothingBet(p: Params)
    requires p.Valid() && p.bet == 0.0
    ensures p.Rule().onPass == 1.0 && p.Rule().onFail == 1.0
    ensures forall h :: After(p.Rule(), h).wealth == 1.0
  {
    hide After;
    var r := p.Rule();
    assert p.Lam() == 0.0 by {
      QuotientTimes(p.bet, 1.0 - p.floor);
    }
    NoStake(p.Lam(), p.floor);
    forall h ensures After(r, h).wealth == 1.0 {
      UnitFactors(r, h);
    }
  }

  lemma NoStake(lam: real, floor: real)
    requires lam == 0.0
    ensures 1.0 + lam * (floor - 1.0) == 1.0 && 1.0 + lam * (floor - 0.0) == 1.0
  {}

  lemma {:induction false} UnitFactors(r: Rule, h: seq<Turn>)
    requires r.onPass == 1.0 && r.onFail == 1.0
    ensures After(r, h).wealth == 1.0
  {
    if h != [] {
      UnitFactors(r, h[..|h| - 1]);
    }
  }

  lemma NeverStops(r: Rule, h: seq<Turn>)
    requires r.level > 1.0 && forall g :: After(r, g).wealth == 1.0
    ensures ReopensFrom(r, h)
  {
    hide After;
    assert ReopensWithin(r, h, 0);
  }

  lemma StaysStopped(r: Rule)
    requires r.level <= 1.0 && forall g :: After(r, g).wealth == 1.0
    ensures !ReopensFrom(r, [])
  {
    hide After;
    var t: Turn := RawTurn(0, 0, [Gate(false, false, 0.0), Gate(true, true, 0.0)]);
    forall n: nat ensures !ReopensWithin(r, [], n) {
      var more := seq(n, _ => t);
      assert |more| >= n && AllRescued(more) && Stopped(r, After(r, [] + more));
    }
  }
}
