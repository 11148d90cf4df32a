/** Live mode: sessions arrive on one arm at a time and are paired first in, first out
    (`live` in scripts/sim-certified-selection-mbpp.py, `replay` in scripts/sim-certified-selection.py). */
module Pairing {
  import opened Reals
  import opened Probability
  import opened CertifiedSelection
  import opened SelectionError

  /** A session the coin sent to the incumbent (or to the challenger), and its outcome there. */
  datatype Arrival = Arrival(toIncumbent: bool, outcome: real)

  /** The outcomes one arm has produced so far, in order. */
  function Stream(arrivals: seq<Arrival>, incumbent: bool): seq<real> {
    if arrivals == [] then []
    else
      var a := arrivals[|arrivals| - 1];
      Stream(arrivals[..|arrivals| - 1], incumbent) + if a.toIncumbent == incumbent then [a.outcome] else []
  }

  lemma StreamStep(arrivals: seq<Arrival>, a: Arrival, incumbent: bool)
    ensures Stream(arrivals + [a], incumbent)
            == Stream(arrivals, incumbent) + if a.toIncumbent == incumbent then [a.outcome] else []
  {
    assert (arrivals + [a])[..|arrivals|] == arrivals;
  }

  lemma {:induction false} StreamPrefix(arrivals: seq<Arrival>, n: nat, incumbent: bool)
    requires n <= |arrivals|
    ensures Stream(arrivals[..n], incumbent) <= Stream(arrivals, incumbent)
    decreases |arrivals|
  {
    if n < |arrivals| {
      var most := arrivals[..|arrivals| - 1];
      StreamPrefix(most, n, incumbent);
      assert most[..n] == arrivals[..n];
    } else {
      assert arrivals[..n] == arrivals;
    }
  }

  /** The j-th difference is the j-th incumbent outcome minus the j-th challenger outcome. */
  function PairDiffs(inc: seq<real>, ch: seq<real>): (ds: seq<real>)
    ensures |ds| == Min(|inc|, |ch|)
  {
    seq(Min(|inc|, |ch|), j requires 0 <= j < Min(|inc|, |ch|) => inc[j] - ch[j])
  }

  /** All differences a sequence of arrivals makes available, whatever the order of the arms. */
  function Pairs(arrivals: seq<Arrival>): seq<real> {
    PairDiffs(Stream(arrivals, true), Stream(arrivals, false))
  }

  lemma {:induction false} EveryArrivalIsOnOneArm(arrivals: seq<Arrival>)
    ensures |arrivals| == |Stream(arrivals, true)| + |Stream(arrivals, false)|
  {
    if arrivals != [] {
      EveryArrivalIsOnOneArm(arrivals[..|arrivals| - 1]);
    }
  }

  lemma PairsPrefix(arrivals: seq<Arrival>, n: nat)
    requires n <= |arrivals|
    ensures Pairs(arrivals[..n]) <= Pairs(arrivals)
  {
    StreamPrefix(arrivals, n, true);
    StreamPrefix(arrivals, n, false);
  }

  /** The queues hold what has not been paired yet, and never both hold something. */
  ghost predicate Queued(arrivals: seq<Arrival>, qi: seq<real>, qc: seq<real>) {
    var inc, ch := Stream(arrivals, true), Stream(arrivals, false);
    var pairs := Min(|inc|, |ch|);
    && qi == inc[pairs..] && qc == ch[pairs..]
    && (qi == [] || qc == [])
    && |arrivals| == 2 * pairs + |qi| + |qc|
  }

  lemma PairOnIncumbent(inc: seq<real>, ch: seq<real>, x: real)
    ensures var n := Min(|inc|, |ch|);
            var inc' := inc + [x];
            if ch[n..] == [] then
              PairDiffs(inc', ch) == PairDiffs(inc, ch) && Min(|inc'|, |ch|) == n && inc'[n..] == inc[n..] + [x]
            else
              && PairDiffs(inc', ch) == PairDiffs(inc, ch) + [x - ch[n..][0]]
              && Min(|inc'|, |ch|) == n + 1 && inc[n..] == [] && inc'[n + 1..] == [] && ch[n + 1..] == ch[n..][1..]
  {}

  lemma PairOnChallenger(inc: seq<real>, ch: seq<real>, x: real)
    ensures var n := Min(|inc|, |ch|);
            var ch' := ch + [x];
            if inc[n..] == [] then
              PairDiffs(inc, ch') == PairDiffs(inc, ch) && Min(|inc|, |ch'|) == n && ch'[n..] == ch[n..] + [x]
            else
              && PairDiffs(inc, ch') == PairDiffs(inc, ch) + [inc[n..][0] - x]
              && Min(|inc|, |ch'|) == n + 1 && ch[n..] == [] && ch'[n + 1..] == [] && inc[n + 1..] == inc[n..][1..]
  {}

  /** One arrival either waits or completes exactly one pair, with the head of the other queue. */
  lemma ArrivalPairsOnce(arrivals: seq<Arrival>, a: Arrival, qi: seq<real>, qc: seq<real>)
    requires Queued(arrivals, qi, qc)
    ensures var qi' := if a.toIncumbent then qi + [a.outcome] else qi;
            var qc' := if a.toIncumbent then qc else qc + [a.outcome];
            if qi' == [] || qc' == [] then
              Queued(arrivals + [a], qi', qc') && Pairs(arrivals + [a]) == Pairs(arrivals)
            else
              && Queued(arrivals + [a], qi'[1..], qc'[1..])
              && Pairs(arrivals + [a]) == Pairs(arrivals) + [qi'[0] - qc'[0]]
              && (qi'[1..] == [] || qc'[1..] == [])
  {
    hide Stream, PairDiffs;
    StreamStep(arrivals, a, true);
    StreamStep(arrivals, a, false);
    var inc, ch := Stream(arrivals, true), Stream(arrivals, false);
    if a.toIncumbent {
      assert Stream(arrivals + [a], false) == ch;
      PairOnIncumbent(inc, ch, a.outcome);
    } else {
      assert Stream(arrivals + [a], true) == inc;
      PairOnChallenger(inc, ch, a.outcome);
    }
  }

  /** Between an arrival and the end of the inner loop: no pair is waiting and `ds` is up to date, or one
      is and `ds` is the state before the arrival. */
  ghost predicate Waiting(arrivals: seq<Arrival>, qi: seq<real>, qc: seq<real>, ds: seq<real>) {
    if qi == [] || qc == [] then
      Queued(arrivals, qi, qc) && Pairs(arrivals) == ds
    else
      && arrivals != [] && Pairs(arrivals[..|arrivals| - 1]) == ds
      && Queued(arrivals, qi[1..], qc[1..]) && (qi[1..] == [] || qc[1..] == [])
      && Pairs(arrivals) == ds + [qi[0] - qc[0]]
  }

  lemma ArrivalWaits(arrivals: seq<Arrival>, n: nat, qi: seq<real>, qc: seq<real>)
    requires n < |arrivals| && Queued(arrivals[..n], qi, qc)
    ensures var a := arrivals[n];
            Waiting(arrivals[..n + 1], if a.toIncumbent then qi + [a.outcome] else qi,
                    if a.toIncumbent then qc else qc + [a.outcome], Pairs(arrivals[..n]))
  {
    hide Queued, Pairs;
    assert arrivals[..n + 1] == arrivals[..n] + [arrivals[n]];
    assert arrivals[..n + 1][..n] == arrivals[..n];
    ArrivalPairsOnce(arrivals[..n], arrivals[n], qi, qc);
  }

  /** Popping the waiting pair brings `ds` up to date. */
  lemma PairPopped(arrivals: seq<Arrival>, n: nat, qi: seq<real>, qc: seq<real>, ds: seq<real>)
    requires n <= |arrivals| && Waiting(arrivals[..n], qi, qc, ds) && qi != [] && qc != []
    ensures var d := qi[0] - qc[0];
            && n > 0 && Pairs(arrivals[..n - 1]) == ds && Pairs(arrivals[..n]) == ds + [d]
            && ds + [d] <= Pairs(arrivals)
            && Queued(arrivals[..n], qi[1..], qc[1..]) && Waiting(arrivals[..n], qi[1..], qc[1..], ds + [d])
  {
    hide Queued, Pairs;
    assert arrivals[..n][..n - 1] == arrivals[..n - 1];
    PairsPrefix(arrivals, n);
  }

  lemma NoneWaiting(arrivals: seq<Arrival>, qi: seq<real>, qc: seq<real>, ds: seq<real>)
    requires Waiting(arrivals, qi, qc, ds) && (qi == [] || qc == [])
    ensures Queued(arrivals, qi, qc) && Pairs(arrivals) == ds
  {
    hide Queued, Pairs;
  }

  /** `arrivals` are the sessions up to the cap. The verdict is that of the paired fold on the two arm
      streams, and it falls at the arrival that completes the deciding pair. */
  method Live(arrivals: seq<Arrival>, m: real)
    returns (v: Verdict, n: nat, ghost qi: seq<real>, ghost qc: seq<real>)
    requires Playable(m)
    ensures v == FirstVerdict(m, Pairs(arrivals))
    ensures v == Undecided ==> n == |arrivals|
    ensures v != Undecided ==> 0 < n <= |arrivals| && |Pairs(arrivals[..n])| == DecidedAt(m, Pairs(arrivals))
    ensures v != Undecided ==> |Pairs(arrivals[..n - 1])| < DecidedAt(m, Pairs(arrivals))
    ensures Queued(arrivals[..n], qi, qc)
  {
    hide Pairs, Queued, DecidedAt, FirstVerdict, NothingDecided, Tests, Waiting, DecideAt, Stream, PairDiffs;
    var cert, halt := NewTests(m);
    var queueInc: seq<real>, queueCh: seq<real> := [], [];
    n := 0;
    ghost var ds: seq<real> := [];
    NothingArrived(arrivals[..0], m);
    while n < |arrivals|
      invariant n <= |arrivals| && fresh(cert) && fresh(halt) && Tests(cert, halt, m, ds)
      invariant ds == Pairs(arrivals[..n]) && Queued(arrivals[..n], queueInc, queueCh) && NothingDecided(m, ds)
    {
      var a := arrivals[n];
      ArrivalWaits(arrivals, n, queueInc, queueCh);
      if a.toIncumbent {
        queueInc := queueInc + [a.outcome];
      } else {
        queueCh := queueCh + [a.outcome];
      }
      n := n + 1;
      while queueInc != [] && queueCh != []
        invariant fresh(cert) && fresh(halt) && Tests(cert, halt, m, ds) && NothingDecided(m, ds)
        invariant Waiting(arrivals[..n], queueInc, queueCh, ds)
        decreases |queueInc|
      {
        PairPopped(arrivals, n, queueInc, queueCh, ds);
        var d := queueInc[0] - queueCh[0];
        queueInc, queueCh := queueInc[1..], queueCh[1..];
        v := DecidePair(cert, halt, m, d, ds, Pairs(arrivals));
        if v != Undecided {
          qi, qc := queueInc, queueCh;
          return;
        }
        ds := ds + [d];
      }
      NoneWaiting(arrivals[..n], queueInc, queueCh, ds);
    }
    assert arrivals[..n] == arrivals;
    NothingDecidedAtAll(m, ds);
    v := Undecided;
    qi, qc := queueInc, queueCh;
  }

  lemma NothingArrived(arrivals: seq<Arrival>, m: real)
    requires arrivals == [] && Playable(m)
    ensures Queued(arrivals, [], []) && Pairs(arrivals) == [] && NothingDecided(m, [])
  {}

  // ----- what it takes to decide

  /** The sessions of one arm. */
  ghost function OnArm(arrivals: seq<Arrival>, incumbent: bool): set<int> { Where(arrivals, GoesTo(incumbent)) }

  ghost function GoesTo(incumbent: bool): Arrival -> bool {
    (a: Arrival) => a.toIncumbent == incumbent
  }

  lemma {:induction false} StreamCounts(arrivals: seq<Arrival>, incumbent: bool)
    ensures |Stream(arrivals, incumbent)| == |OnArm(arrivals, incumbent)|
  {
    hide Where;
    if arrivals == [] {
      WhereNone(GoesTo(incumbent));
    } else {
      StreamCounts(arrivals[..|arrivals| - 1], incumbent);
      WhereOneMore(arrivals, GoesTo(incumbent));
    }
  }

  /** The stream of an arm holds its sessions' outcomes, as many as there are and nothing else. */
  lemma {:induction false} StreamHoldsTheArm(arrivals: seq<Arrival>, incumbent: bool)
    ensures |Stream(arrivals, incumbent)| == |OnArm(arrivals, incumbent)|
    ensures forall j :: 0 <= j < |Stream(arrivals, incumbent)| ==>
              HasOutcome(arrivals, incumbent, Stream(arrivals, incumbent)[j])
  {
    hide OnArm, Stream, HasOutcome;
    StreamCounts(arrivals, incumbent);
    if arrivals == [] {
      NoStream(incumbent);
    } else {
      var n := |arrivals| - 1;
      var most, a := arrivals[..n], arrivals[n];
      StreamHoldsTheArm(most, incumbent);
      assert arrivals == most + [a];
      StreamStep(most, a, incumbent);
      var s := Stream(arrivals, incumbent);
      forall j | 0 <= j < |s| ensures HasOutcome(arrivals, incumbent, s[j]) {
        if j < |Stream(most, incumbent)| {
          OutcomeStays(most, a, incumbent, s[j]);
        } else {
          OutcomeArrives(most, a, incumbent);
        }
      }
    }
  }

  lemma NoStream(incumbent: bool)
    ensures Stream([], incumbent) == []
  {}

  /** Some session of the arm had this outcome. */
  ghost predicate HasOutcome(arrivals: seq<Arrival>, incumbent: bool, x: real) {
    exists i :: 0 <= i < |arrivals| && arrivals[i].toIncumbent == incumbent && arrivals[i].outcome == x
  }

  lemma OutcomeStays(most: seq<Arrival>, a: Arrival, incumbent: bool, x: real)
    requires HasOutcome(most, incumbent, x)
    ensures HasOutcome(most + [a], incumbent, x)
  {
    var i :| 0 <= i < |most| && most[i].toIncumbent == incumbent && most[i].outcome == x;
    assert (most + [a])[i] == most[i];
  }

  lemma OutcomeArrives(most: seq<Arrival>, a: Arrival, incumbent: bool)
    requires a.toIncumbent == incumbent
    ensures HasOutcome(most + [a], incumbent, a.outcome)
  {
    assert (most + [a])[|most|] == a;
  }

  /** Every pairing of an incumbent with a challenger outcome lies at least `c` on the side that `sign` bets on. */
  ghost predicate ArmsDrift(arrivals: seq<Arrival>, m: real, sign: real, c: real) {
    forall i, j :: i in OnArm(arrivals, true) && j in OnArm(arrivals, false) ==>
      sign * (arrivals[i].outcome - arrivals[j].outcome - m) >= c
  }

  lemma PairsDrift(arrivals: seq<Arrival>, m: real, sign: real, c: real)
    requires ArmsDrift(arrivals, m, sign, c)
    ensures Drifts(m, sign, c, Pairs(arrivals))
  {
    hide Stream, ArmsDrift;
    var inc, ch, ds := Stream(arrivals, true), Stream(arrivals, false), Pairs(arrivals);
    forall k | 0 <= k < |ds| ensures sign * (ds[k] - m) >= c {
      var i := SessionAt(arrivals, true, k);
      var j := SessionAt(arrivals, false, k);
      PairOfSessions(arrivals, m, sign, c, i, j);
    }
  }

  /** The session behind an entry of a stream. */
  lemma SessionAt(arrivals: seq<Arrival>, incumbent: bool, k: nat) returns (i: nat)
    requires k < |Stream(arrivals, incumbent)|
    ensures i < |arrivals| && i in OnArm(arrivals, incumbent)
    ensures arrivals[i].outcome == Stream(arrivals, incumbent)[k]
  {
    hide Stream;
    StreamHoldsTheArm(arrivals, incumbent);
    var x := Stream(arrivals, incumbent)[k];
    assert HasOutcome(arrivals, incumbent, x);
    i :| i < |arrivals| && arrivals[i].toIncumbent == incumbent && arrivals[i].outcome == x;
  }

  lemma PairOfSessions(arrivals: seq<Arrival>, m: real, sign: real, c: real, i: nat, j: nat)
    requires ArmsDrift(arrivals, m, sign, c) && i < |arrivals| && j < |arrivals|
    requires i in OnArm(arrivals, true) && j in OnArm(arrivals, false)
    ensures sign * (arrivals[i].outcome - arrivals[j].outcome - m) >= c
  {
    hide OnArm;
  }

  lemma PairsBounded(arrivals: seq<Arrival>)
    requires forall i :: 0 <= i < |arrivals| ==> 0.0 <= arrivals[i].outcome <= 1.0
    ensures Bounded(Pairs(arrivals))
  {
    hide Stream, HasOutcome, OnArm;
    forall k | 0 <= k < |Pairs(arrivals)| ensures -1.0 <= Pairs(arrivals)[k] <= 1.0 {
      var i := SessionAt(arrivals, true, k);
      var j := SessionAt(arrivals, false, k);
    }
  }

  /** Power of live mode: with `n` sessions on either arm and outcomes at least `c` apart from the margin, the
      verdict of that side falls, by the n-th pair. */
  lemma LivePower(arrivals: seq<Arrival>, m: real, sign: real, c: real, n: nat)
    requires -1.0 < m < 1.0 && (sign == 1.0 || sign == -1.0) && c > 0.0 && ArmsDrift(arrivals, m, sign, c)
    requires forall i :: 0 <= i < |arrivals| ==> 0.0 <= arrivals[i].outcome <= 1.0
    requires |OnArm(arrivals, true)| >= n && |OnArm(arrivals, false)| >= n
    requires n as real * c >= 40.0 * (1.0 + sign * m)
    ensures FirstVerdict(m, Pairs(arrivals)) == if sign == -1.0 then Certified else Halted
    ensures 0 < DecidedAt(m, Pairs(arrivals)) <= n
  {
    hide Stream, FirstVerdict, DecidedAt, OnArm, ArmsDrift, Drifts, Bounded;
    StreamHoldsTheArm(arrivals, true);
    StreamHoldsTheArm(arrivals, false);
    PairsDrift(arrivals, m, sign, c);
    PairsBounded(arrivals);
    DriftDecides(m, sign, c, Pairs(arrivals), n);
  }

  // ----- what the coin cannot do

  /** The arrivals when the coin sends session after session where `coins` says and the j-th session of
      either arm has the outcome that row `j` of the tape holds for that arm. */
  function Deal(coins: seq<bool>, tape: seq<Row>): (arrivals: seq<Arrival>)
    requires |tape| >= |coins|
    ensures |arrivals| == |coins|
    decreases |coins|
  {
    if coins == [] then []
    else
      var most := Deal(coins[..|coins| - 1], tape);
      var incumbent := coins[|coins| - 1];
      StreamShorter(most, incumbent);
      var j := |Stream(most, incumbent)|;
      most + [Arrival(incumbent, if incumbent then tape[j].inc else tape[j].ch)]
  }

  lemma {:induction false} StreamShorter(arrivals: seq<Arrival>, incumbent: bool)
    ensures |Stream(arrivals, incumbent)| <= |arrivals|
  {
    if arrivals != [] {
      StreamShorter(arrivals[..|arrivals| - 1], incumbent);
    }
  }

  lemma {:induction false} DealtStreams(coins: seq<bool>, tape: seq<Row>, incumbent: bool)
    requires |tape| >= |coins|
    ensures var s := Stream(Deal(coins, tape), incumbent);
            |s| <= |tape| && forall j :: 0 <= j < |s| ==> s[j] == if incumbent then tape[j].inc else tape[j].ch
    decreases |coins|
  {
    StreamShorter(Deal(coins, tape), incumbent);
    if coins != [] {
      var most := coins[..|coins| - 1];
      DealtStreams(most, tape, incumbent);
      StreamStep(Deal(most, tape), Deal(coins, tape)[|coins| - 1], incumbent);
    }
  }

  function Coins(arrivals: seq<Arrival>): (coins: seq<bool>)
    ensures |coins| == |arrivals|
  {
    seq(|arrivals|, i requires 0 <= i < |arrivals| => arrivals[i].toIncumbent)
  }

  /** The tape holds what this arm produced. */
  ghost predicate OnTape(arrivals: seq<Arrival>, tape: seq<Row>, incumbent: bool) {
    var s := Stream(arrivals, incumbent);
    |s| <= |tape| && forall j :: 0 <= j < |s| ==> s[j] == if incumbent then tape[j].inc else tape[j].ch
  }

  /** Every live run is dealt from its own coins and any tape that holds what the two arms produced, so
      nothing is lost by speaking of coins and tapes. */
  lemma {:induction false} EveryRunIsDealt(arrivals: seq<Arrival>, tape: seq<Row>)
    requires |tape| >= |arrivals| && OnTape(arrivals, tape, true) && OnTape(arrivals, tape, false)
    ensures Deal(Coins(arrivals), tape) == arrivals
  {
    if arrivals != [] {
      var n := |arrivals| - 1;
      var most, a := arrivals[..n], arrivals[n];
      assert arrivals == most + [a];
      StreamStep(most, a, true);
      StreamStep(most, a, false);
      EarlierOnTape(most, a, tape, true);
      EarlierOnTape(most, a, tape, false);
      EveryRunIsDealt(most, tape);
      assert Coins(arrivals)[..n] == Coins(most);
      var j := |Stream(most, a.toIncumbent)|;
      assert Stream(arrivals, a.toIncumbent)[j] == a.outcome;
    }
  }

  lemma EarlierOnTape(most: seq<Arrival>, a: Arrival, tape: seq<Row>, incumbent: bool)
    requires OnTape(most + [a], tape, incumbent)
    ensures OnTape(most, tape, incumbent)
  {
    StreamStep(most, a, incumbent);
    var s, s' := Stream(most, incumbent), Stream(most + [a], incumbent);
    assert forall j :: 0 <= j < |s| ==> s[j] == s'[j];
  }

  /** Whatever the coins, the pairs are a prefix of the rows of the tape. */
  lemma DealtPairs(coins: seq<bool>, tape: seq<Row>)
    requires |tape| >= |coins|
    ensures Pairs(Deal(coins, tape)) <= Diffs(tape)
  {
    hide Stream, Deal;
    DealtStreams(coins, tape, true);
    DealtStreams(coins, tape, false);
  }

  /** Two coin sequences that leave both arms equally long give the same verdict. */
  lemma VerdictIgnoresTheCoins(coins: seq<bool>, coins': seq<bool>, tape: seq<Row>, m: real)
    requires Playable(m) && |tape| >= |coins| && |tape| >= |coins'|
    ensures var ds, ds' := Pairs(Deal(coins, tape)), Pairs(Deal(coins', tape));
            |ds| == |ds'| ==> FirstVerdict(m, ds) == FirstVerdict(m, ds')
  {
    hide Pairs, Deal, FirstVerdict;
    DealtPairs(coins, tape);
    DealtPairs(coins', tape);
    var ds, ds' := Pairs(Deal(coins, tape)), Pairs(Deal(coins', tape));
    assert ds == Diffs(tape)[..|ds|] && ds' == Diffs(tape)[..|ds'|];
  }

  /** Some coin sequence, chosen with all outcomes in view if need be, ends a live run on this tape in
      verdict `v`. */
  ghost predicate CanEnd(m: real, v: Verdict, tape: seq<Row>)
    requires Playable(m)
  {
    exists coins: seq<bool> :: |tape| >= |coins| && FirstVerdict(m, Pairs(Deal(coins, tape))) == v
  }

  ghost function LiveCanEnd(m: real, v: Verdict): seq<Row> -> bool
    requires Playable(m)
  {
    (tape: seq<Row>) => CanEnd(m, v, tape)
  }

  lemma LiveDecisionReachesBar(m: real, v: Verdict, tape: seq<Row>)
    requires Playable(m) && v != Undecided && CanEnd(m, v, tape)
    ensures BarReached(m, if v == Certified then -1.0 else 1.0, tape)
  {
    hide Pairs, Deal, FirstVerdict, BarReached;
    var coins: seq<bool> :| |tape| >= |coins| && FirstVerdict(m, Pairs(Deal(coins, tape))) == v;
    DealtPairs(coins, tape);
    PrefixReachesBar(m, Pairs(Deal(coins, tape)), tape);
  }

  lemma PrefixReachesBar(m: real, ds: seq<real>, tape: seq<Row>)
    requires Playable(m) && ds <= Diffs(tape) && FirstVerdict(m, ds) != Undecided
    ensures BarReached(m, if FirstVerdict(m, ds) == Certified then -1.0 else 1.0, tape)
  {
    hide Evidence, DecidedAt;
    var k := DecidedAt(m, ds);
    assert ds[..k] == Diffs(tape)[..k];
    var sign := if FirstVerdict(m, ds) == Certified then -1.0 else 1.0;
    assert Evidence(m, sign, Diffs(tape)[..k]) >= 1.0 / ALPHA;
  }

  /** Whatever sends the sessions to the arms, be it coins drawn in advance, a rule that looks at the outcomes
      so far or one that knows those to come, live mode inherits both error bounds of paired mode. */
  lemma LiveErrors(env: Env<Row>, m: real, n: nat)
    requires Playable(m) && IsEnv(env)
    ensures MeanOnSide(env, m, -1.0) ==> Prob(env, n, LiveCanEnd(m, Certified)) <= ALPHA
    ensures MeanOnSide(env, m, 1.0) ==> Prob(env, n, LiveCanEnd(m, Halted)) <= ALPHA
  {
    if MeanOnSide(env, m, -1.0) {
      LiveErrorOn(env, m, n, Certified, -1.0);
    }
    if MeanOnSide(env, m, 1.0) {
      LiveErrorOn(env, m, n, Halted, 1.0);
    }
  }

  lemma LiveErrorOn(env: Env<Row>, m: real, n: nat, v: Verdict, sign: real)
    requires Playable(m) && IsEnv(env) && MeanOnSide(env, m, sign)
    requires v != Undecided && sign == if v == Certified then -1.0 else 1.0
    ensures Prob(env, n, LiveCanEnd(m, v)) <= ALPHA
  {
    hide CanEnd, BarReached, MeanOnSide, IsEnv;
    NullIsPossible(env, m, sign);
    forall h | LiveCanEnd(m, v)(h) ensures BarReached(m, sign, h) {
      LiveDecisionReachesBar(m, v, h);
    }
    BarProbability(env, m, sign, n, LiveCanEnd(m, v));
  }
}
