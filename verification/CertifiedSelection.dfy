/** The two betting mixtures of certified selection and the decision they take together
    (scripts/sim-certified-selection-mbpp.py, scripts/sim-certified-selection.py). */
module CertifiedSelection {
  import opened Reals

  const GRID_SIZE := 18

  function Grid(): (grid: seq<real>)
    ensures |grid| == GRID_SIZE
  {
    seq(GRID_SIZE, (j: nat) => 0.05 * (j + 1) as real)
  }

  const ALPHA := 0.05

  /** The largest loss one observation can inflict on a unit bet. */
  function Worst(m: real, sign: real): real {
    if sign > 0.0 then 1.0 + m else 1.0 - m
  }

  function Lams(m: real, sign: real): (lams: seq<real>)
    requires Worst(m, sign) != 0.0
    ensures |lams| == GRID_SIZE
  {
    seq(GRID_SIZE, k requires 0 <= k < GRID_SIZE => Grid()[k] / Worst(m, sign))
  }

  /** Margins both tests can be built for; at -1 and 1 the code divides by zero. */
  predicate Playable(m: real) { m != -1.0 && m != 1.0 }

  /** The factor one bet gains on an observed difference `d`. */
  function Gain(lam: real, m: real, sign: real, d: real): real {
    1.0 + lam * (sign * (d - m))
  }

  function Gains(lam: real, m: real, sign: real, ds: seq<real>): (ys: seq<real>)
    ensures |ys| == |ds|
  {
    seq(|ds|, i requires 0 <= i < |ds| => Gain(lam, m, sign, ds[i]))
  }

  /** The wealth of one bet after the differences `ds`: the product of what it gained on each. */
  function Wealth(lam: real, m: real, sign: real, ds: seq<real>): real {
    Product(Gains(lam, m, sign, ds))
  }

  function Wealths(lams: seq<real>, m: real, sign: real, ds: seq<real>): (ws: seq<real>)
    ensures |ws| == |lams|
  {
    seq(|lams|, k requires 0 <= k < |lams| => Wealth(lams[k], m, sign, ds))
  }

  /** The equal-weight mean over the grid: the evidence against "sign * (E[D] - m) <= 0". */
  function Evidence(m: real, sign: real, ds: seq<real>): real
    requires Worst(m, sign) != 0.0
  {
    Sum(Wealths(Lams(m, sign), m, sign, ds)) / GRID_SIZE as real
  }

  lemma WealthStep(lam: real, m: real, sign: real, ds: seq<real>, d: real)
    ensures Wealth(lam, m, sign, ds + [d]) == Wealth(lam, m, sign, ds) * Gain(lam, m, sign, d)
  {
    hide Product;
    assert Gains(lam, m, sign, ds + [d]) == Gains(lam, m, sign, ds) + [Gain(lam, m, sign, d)];
    ProductPush(Gains(lam, m, sign, ds), Gain(lam, m, sign, d));
  }

  /** One round of bets on the same difference. */
  function Rebet(lams: seq<real>, ws: seq<real>, x: real): (ws': seq<real>)
    requires |ws| == |lams|
    ensures |ws'| == |lams|
  {
    seq(|lams|, k requires 0 <= k < |lams| => ws[k] * (1.0 + lams[k] * x))
  }

  lemma RebetIsOneMore(lams: seq<real>, m: real, sign: real, ds: seq<real>, d: real)
    ensures Rebet(lams, Wealths(lams, m, sign, ds), sign * (d - m)) == Wealths(lams, m, sign, ds + [d])
  {
    hide Wealth;
    forall k | 0 <= k < |lams|
      ensures Rebet(lams, Wealths(lams, m, sign, ds), sign * (d - m))[k] == Wealths(lams, m, sign, ds + [d])[k]
    {
      WealthStep(lams[k], m, sign, ds, d);
    }
  }

  class Mixture {
    const m: real
    const sign: real
    const lams: seq<real>
    var w: seq<real>
    ghost var seen: seq<real>

    ghost predicate Valid()
      reads this
    {
      && Worst(m, sign) != 0.0
      && lams == Lams(m, sign)
      && w == Wealths(lams, m, sign, seen)
    }

    constructor (m: real, sign: real)
      requires Worst(m, sign) != 0.0
      ensures Valid() && this.m == m && this.sign == sign && seen == []
    {
      this.m, this.sign := m, sign;
      var worst := if sign > 0.0 then 1.0 + m else 1.0 - m;
      lams := seq(GRID_SIZE, k requires 0 <= k < GRID_SIZE => Grid()[k] / worst);
      w := seq(GRID_SIZE, _ => 1.0);
      seen := [];
    }

    method Step(d: real)
      requires Valid()
      modifies this
      ensures Valid() && seen == old(seen) + [d]
    {
      var x := sign * (d - m);
      RebetIsOneMore(lams, m, sign, seen, d);
      w := Rebet(lams, w, x);
      seen := seen + [d];
    }

    method E() returns (e: real)
      requires Valid()
      ensures e == Evidence(m, sign, seen)
    {
      var sum := 0.0;
      for k := 0 to |w|
        invariant sum == Sum(w[..k])
      {
        assert w[..k + 1] == w[..k] + [w[k]];
        SumPush(w[..k], w[k]);
        sum := sum + w[k];
      }
      assert w[..|w|] == w;
      e := sum / |w| as real;
    }
  }

  // ----- the decision

  datatype Verdict = Certified | Halted | Undecided

  /** What the two tests say after exactly the differences `ds`. */
  function DecideAt(m: real, ds: seq<real>): Verdict
    requires Playable(m)
  {
    if Evidence(m, -1.0, ds) >= 1.0 / ALPHA then Certified
    else if Evidence(m, 1.0, ds) >= 1.0 / ALPHA then Halted
    else Undecided
  }

  /** The number of differences at which the first decision falls, all of them if none does. */
  function DecidedAt(m: real, ds: seq<real>): (n: nat)
    requires Playable(m)
    ensures n <= |ds|
    ensures forall k :: 1 <= k < n ==> DecideAt(m, ds[..k]) == Undecided
    ensures n < |ds| ==> n > 0 && DecideAt(m, ds[..n]) != Undecided
  {
    if ds == [] then 0
    else
      var most := ds[..|ds| - 1];
      var n := DecidedAt(m, most);
      assert forall k :: 0 <= k <= |most| ==> ds[..k] == most[..k];
      if n > 0 && DecideAt(m, most[..n]) != Undecided then n else |ds|
  }

  /** The first decision along `ds`. */
  function FirstVerdict(m: real, ds: seq<real>): Verdict
    requires Playable(m)
  {
    var n := DecidedAt(m, ds);
    if n == 0 then Undecided else DecideAt(m, ds[..n])
  }

  /** The verdict is the first decision met, and the only one of its kind to be first. */
  lemma FirstVerdictIs(m: real, ds: seq<real>, n: nat)
    requires Playable(m) && 1 <= n <= |ds|
    requires forall k :: 1 <= k < n ==> DecideAt(m, ds[..k]) == Undecided
    requires DecideAt(m, ds[..n]) != Undecided
    ensures DecidedAt(m, ds) == n && FirstVerdict(m, ds) == DecideAt(m, ds[..n])
  {
    var n' := DecidedAt(m, ds);
    if n' < n {
      assert false;
    }
  }

  lemma StillUndecided(m: real, ds: seq<real>)
    requires Playable(m)
    requires forall k :: 1 <= k <= |ds| ==> DecideAt(m, ds[..k]) == Undecided
    ensures FirstVerdict(m, ds) == Undecided
  {}

  /** Once taken, a decision stays: further differences cannot change it. */
  lemma VerdictIsFinal(m: real, ds: seq<real>, more: seq<real>)
    requires Playable(m) && FirstVerdict(m, ds) != Undecided
    ensures FirstVerdict(m, ds + more) == FirstVerdict(m, ds)
    ensures DecidedAt(m, ds + more) == DecidedAt(m, ds)
  {
    var n := DecidedAt(m, ds);
    assert forall k :: 0 <= k <= |ds| ==> (ds + more)[..k] == ds[..k];
    FirstVerdictIs(m, ds + more, n);
  }

  method Decide(cert: Mixture, halt: Mixture, d: real) returns (v: Verdict)
    requires cert != halt && cert.Valid() && halt.Valid() && cert.seen == halt.seen
    requires cert.m == halt.m && cert.sign == -1.0 && halt.sign == 1.0 && Playable(cert.m)
    modifies cert, halt
    ensures cert.Valid() && halt.Valid() && cert.seen == halt.seen == old(cert.seen) + [d]
    ensures v == DecideAt(cert.m, cert.seen)
  {
    cert.Step(d);
    halt.Step(d);
    var c := cert.E();
    var h := halt.E();
    v := if c >= 1.0 / ALPHA then Certified else if h >= 1.0 / ALPHA then Halted else Undecided;
  }

  ghost predicate NothingDecided(m: real, ds: seq<real>)
    requires Playable(m)
  {
    forall k :: 1 <= k <= |ds| ==> DecideAt(m, ds[..k]) == Undecided
  }

  lemma NothingDecidedYet(m: real, ds: seq<real>, d: real)
    requires Playable(m) && NothingDecided(m, ds) && DecideAt(m, ds + [d]) == Undecided
    ensures NothingDecided(m, ds + [d])
  {
    hide DecideAt;
    var ds' := ds + [d];
    assert forall k :: 0 <= k <= |ds| ==> ds'[..k] == ds[..k];
    assert ds'[..|ds'|] == ds';
  }

  /** A decision met after undecided pairs is the verdict of every run that has these pairs first. */
  lemma DecisionStands(m: real, ds: seq<real>, d: real, all: seq<real>)
    requires Playable(m) && NothingDecided(m, ds) && DecideAt(m, ds + [d]) != Undecided && ds + [d] <= all
    ensures FirstVerdict(m, all) == DecideAt(m, ds + [d]) && DecidedAt(m, all) == |ds| + 1
  {
    hide DecideAt;
    var ds' := ds + [d];
    assert forall k :: 0 <= k <= |ds| ==> ds[..k] == all[..k];
    assert all[..|ds'|] == ds';
    FirstVerdictIs(m, all, |ds'|);
  }

  /** Both tests have seen the differences `ds`. */
  ghost predicate Tests(cert: Mixture, halt: Mixture, m: real, ds: seq<real>)
    reads cert, halt
  {
    && cert != halt && cert.Valid() && halt.Valid() && cert.seen == halt.seen == ds
    && cert.m == halt.m == m && cert.sign == -1.0 && halt.sign == 1.0
  }

  method NewTests(m: real) returns (cert: Mixture, halt: Mixture)
    requires Playable(m)
    ensures fresh(cert) && fresh(halt) && Tests(cert, halt, m, [])
  {
    cert := new Mixture(m, -1.0);
    halt := new Mixture(m, 1.0);
  }

  /** One pair: a decision is the verdict of every stream of differences that goes on from here. */
  method DecidePair(cert: Mixture, halt: Mixture, m: real, d: real, ghost ds: seq<real>, ghost all: seq<real>)
    returns (v: Verdict)
    requires Playable(m) && Tests(cert, halt, m, ds) && NothingDecided(m, ds) && ds + [d] <= all
    modifies cert, halt
    ensures Tests(cert, halt, m, ds + [d])
    ensures v == Undecided ==> NothingDecided(m, ds + [d])
    ensures v != Undecided ==> v == FirstVerdict(m, all) && DecidedAt(m, all) == |ds| + 1
  {
    hide NothingDecided, DecideAt, FirstVerdict, DecidedAt;
    v := Decide(cert, halt, d);
    if v == Undecided {
      NothingDecidedYet(m, ds, d);
    } else {
      DecisionStands(m, ds, d, all);
    }
  }

  lemma NothingDecidedAtAll(m: real, ds: seq<real>)
    requires Playable(m) && NothingDecided(m, ds)
    ensures FirstVerdict(m, ds) == Undecided
  {
    StillUndecided(m, ds);
  }

  // ----- paired mode

  /** Outcomes of both models on one drawn task. */
  datatype RawRow = RawRow(inc: real, ch: real)

  type Row = r: RawRow | 0.0 <= r.inc <= 1.0 && 0.0 <= r.ch <= 1.0 witness RawRow(0.0, 0.0)

  function Diffs(rows: seq<Row>): (ds: seq<real>)
    ensures |ds| == |rows|
  {
    seq(|rows|, i requires 0 <= i < |rows| => rows[i].inc - rows[i].ch)
  }

  /** `rows` are the tasks drawn up to the cap. */
  method Paired(rows: seq<Row>, m: real) returns (v: Verdict, n: nat)
    requires Playable(m)
    ensures v == FirstVerdict(m, Diffs(rows))
    ensures v != Undecided ==> n == DecidedAt(m, Diffs(rows))
    ensures v == Undecided ==> n == |rows|
  {
    hide DecideAt, FirstVerdict, DecidedAt, NothingDecided, Tests;
    var cert, halt := NewTests(m);
    ghost var ds := Diffs(rows);
    n := 0;
    NothingSeenYet(m, ds);
    while n < |rows|
      invariant n <= |rows| && fresh(cert) && fresh(halt)
      invariant Tests(cert, halt, m, ds[..n]) && NothingDecided(m, ds[..n])
    {
      var t := rows[n];
      assert ds[..n + 1] == ds[..n] + [t.inc - t.ch];
      v := DecidePair(cert, halt, m, t.inc - t.ch, ds[..n], ds);
      n := n + 1;
      if v != Undecided {
        return;
      }
    }
    assert ds[..n] == ds;
    NothingDecidedAtAll(m, ds);
    v := Undecided;
  }

  lemma NothingSeenYet(m: real, ds: seq<real>)
    requires Playable(m)
    ensures ds[..0] == [] && NothingDecided(m, [])
  {}

  // ----- certify and halt exclude each other

  ghost predicate Bounded(ds: seq<real>) {
    forall i :: 0 <= i < |ds| ==> -1.0 <= ds[i] <= 1.0
  }

  lemma GridRange(k: nat)
    requires k < GRID_SIZE
    ensures 0.0 < Grid()[k] <= 0.9
  {}

  /** Every bet of the grid stays solvent: it is nonnegative and loses at most nine tenths a step. */
  lemma BetsStaySolvent(m: real, sign: real, k: nat, d: real)
    requires (sign == 1.0 || sign == -1.0) && Worst(m, sign) > 0.0 && k < GRID_SIZE && -1.0 <= d <= 1.0
    ensures Lams(m, sign)[k] >= 0.0
    ensures Gain(Lams(m, sign)[k], m, sign, d) >= 0.1
  {
    GridRange(k);
    var lam, y := Lams(m, sign)[k], sign * (d - m);
    SolventBet(lam, Grid()[k], Worst(m, sign), y);
    assert Gain(lam, m, sign, d) == 1.0 + lam * y;
  }

  lemma SolventBet(lam: real, g: real, worst: real, y: real)
    requires 0.0 < g <= 0.9 && worst > 0.0 && lam == g / worst && y >= -worst
    ensures lam >= 0.0 && 1.0 + lam * y >= 0.1
  {
    QuotientNonNegative(g, worst);
    QuotientTimes(g, worst);
    MulMonotone(lam, -worst, y);
    assert lam * -worst == -(lam * worst);
  }

  /** How far the observed total lies on the side of the margin that `sign` bets on. */
  function Drift(m: real, sign: real, ds: seq<real>): real {
    sign * (Sum(ds) - |ds| as real * m)
  }

  lemma {:induction false} SumOfGains(lam: real, m: real, sign: real, ds: seq<real>)
    ensures Sum(Gains(lam, m, sign, ds)) == |ds| as real + lam * Drift(m, sign, ds)
  {
    hide Sum, Gain;
    if ds == [] {
      EmptyTotals(lam, m, sign);
    } else {
      var most, d := ds[..|ds| - 1], ds[|ds| - 1];
      assert ds == most + [d];
      SumOfGains(lam, m, sign, most);
      assert Gains(lam, m, sign, ds) == Gains(lam, m, sign, most) + [Gain(lam, m, sign, d)];
      SumPush(Gains(lam, m, sign, most), Gain(lam, m, sign, d));
      SumPush(most, d);
      GainAndDrift(lam, m, sign, most, d);
    }
  }

  lemma EmptyTotals(lam: real, m: real, sign: real)
    ensures Sum(Gains(lam, m, sign, [])) == lam * Drift(m, sign, []) == 0.0
  {}

  lemma GainAndDrift(lam: real, m: real, sign: real, most: seq<real>, d: real)
    ensures |most| as real + lam * Drift(m, sign, most) + Gain(lam, m, sign, d)
         == |most + [d]| as real + lam * Drift(m, sign, most + [d])
  {
    hide Sum;
    SumPush(most, d);
    SumOfGainsStep(lam, m, sign, |most| as real, Sum(most), d);
  }

  lemma SumOfGainsStep(lam: real, m: real, sign: real, n: real, s: real, d: real)
    ensures n + lam * (sign * (s - n * m)) + (1.0 + lam * (sign * (d - m)))
            == (n + 1.0) + lam * (sign * (s + d - (n + 1.0) * m))
  {}

  /** No bet has gained unless the observed total lies strictly on its side of the margin. */
  lemma NoDriftNoGain(m: real, sign: real, k: nat, ds: seq<real>)
    requires (sign == 1.0 || sign == -1.0) && Worst(m, sign) > 0.0 && k < GRID_SIZE && Bounded(ds)
    requires Drift(m, sign, ds) <= 0.0
    ensures Wealth(Lams(m, sign)[k], m, sign, ds) <= 1.0
  {
    hide Product, Sum, Gain, Drift;
    var lam := Lams(m, sign)[k];
    var ys := Gains(lam, m, sign, ds);
    forall i | 0 <= i < |ys| ensures ys[i] >= 0.0 {
      BetsStaySolvent(m, sign, k, ds[i]);
    }
    BetsStaySolvent(m, sign, k, 0.0);
    MulNonPositive(lam, Drift(m, sign, ds));
    SumOfGains(lam, m, sign, ds);
    AverageBoundsProduct(ys);
  }

  lemma {:induction false} SomeSummandAboveOne(xs: seq<real>) returns (k: nat)
    requires Sum(xs) > |xs| as real
    ensures k < |xs| && xs[k] > 1.0
  {
    if xs[|xs| - 1] > 1.0 {
      k := |xs| - 1;
    } else {
      k := SomeSummandAboveOne(xs[..|xs| - 1]);
    }
  }

  /** Evidence above one means the observed total lies strictly on that side of the margin. */
  lemma EvidenceNeedsDrift(m: real, sign: real, ds: seq<real>)
    requires (sign == 1.0 || sign == -1.0) && Worst(m, sign) > 0.0 && Bounded(ds)
    requires Evidence(m, sign, ds) > 1.0
    ensures Drift(m, sign, ds) > 0.0
  {
    hide Wealth, Drift, Sum;
    var k := SomeSummandAboveOne(Wealths(Lams(m, sign), m, sign, ds));
    if Drift(m, sign, ds) <= 0.0 {
      NoDriftNoGain(m, sign, k, ds);
    }
  }

  lemma {:induction false} SumBounded(ds: seq<real>)
    requires Bounded(ds)
    ensures -(|ds| as real) <= Sum(ds) <= |ds| as real
  {
    if ds != [] {
      SumBounded(ds[..|ds| - 1]);
    }
  }

  lemma NothingSeenNoEvidence(m: real, sign: real)
    requires Worst(m, sign) != 0.0
    ensures Evidence(m, sign, []) == 1.0
  {
    hide Sum, Lams;
    SumOfOnes(Wealths(Lams(m, sign), m, sign, []));
  }

  lemma {:induction false} SumOfOnes(ws: seq<real>)
    requires forall k :: 0 <= k < |ws| ==> ws[k] == 1.0
    ensures Sum(ws) == |ws| as real
  {
    if ws != [] {
      SumOfOnes(ws[..|ws| - 1]);
    }
  }

  /** Beyond the range of differences the observed total lies on one side of the margin for certain. */
  lemma MarginOutOfRange(m: real, ds: seq<real>)
    requires Playable(m) && Bounded(ds)
    ensures m > 1.0 ==> Sum(ds) <= |ds| as real * m && (ds != [] ==> Sum(ds) < |ds| as real * m)
    ensures m < -1.0 ==> Sum(ds) >= |ds| as real * m && (ds != [] ==> Sum(ds) > |ds| as real * m)
  {
    hide Sum;
    SumBounded(ds);
    OutOfReach(Sum(ds), |ds| as real, m);
  }

  lemma OutOfReach(s: real, n: real, m: real)
    requires n >= 0.0 && -n <= s <= n
    ensures m > 1.0 ==> s <= n * m && (n > 0.0 ==> s < n * m)
    ensures m < -1.0 ==> s >= n * m && (n > 0.0 ==> s > n * m)
  {
    if m > 1.0 && n > 0.0 {
      MulPositive(n, m - 1.0);
      assert n * (m - 1.0) == n * m - n;
    }
    if m < -1.0 && n > 0.0 {
      MulPositive(n, -m - 1.0);
      assert n * (-m - 1.0) == -(n * m) - n;
    }
  }

  /** Evidence above one fixes the side of the observed total, whatever the margin. */
  lemma EvidenceFixesTheSide(m: real, ds: seq<real>)
    requires Playable(m) && Bounded(ds)
    ensures Evidence(m, -1.0, ds) > 1.0 ==> Sum(ds) < |ds| as real * m
    ensures Evidence(m, 1.0, ds) > 1.0 ==> Sum(ds) > |ds| as real * m
  {
    hide Evidence, Sum;
    NothingSeenNoEvidence(m, -1.0);
    NothingSeenNoEvidence(m, 1.0);
    MarginOutOfRange(m, ds);
    if m < 1.0 && Evidence(m, -1.0, ds) > 1.0 {
      EvidenceNeedsDrift(m, -1.0, ds);
    }
    if m > -1.0 && Evidence(m, 1.0, ds) > 1.0 {
      EvidenceNeedsDrift(m, 1.0, ds);
    }
  }

  /** On no sequence of outcomes are both tests above one: in particular never both above the bar. */
  lemma NeverBothAboveOne(m: real, ds: seq<real>)
    requires Playable(m) && Bounded(ds)
    ensures !(Evidence(m, -1.0, ds) > 1.0 && Evidence(m, 1.0, ds) > 1.0)
  {
    hide Evidence, Sum;
    EvidenceFixesTheSide(m, ds);
  }

  /** Certifying means the challenger was observed less than `m` worse, halting more than `m` worse;
      which of the two tests is consulted first makes no difference. */
  lemma DecisionsAgreeWithTheMean(m: real, ds: seq<real>)
    requires Playable(m) && Bounded(ds)
    ensures DecideAt(m, ds) == Certified ==> Sum(ds) < |ds| as real * m
    ensures DecideAt(m, ds) == Halted ==> Sum(ds) > |ds| as real * m
    ensures DecideAt(m, ds) == Halted <==> Evidence(m, 1.0, ds) >= 20.0
    ensures DecideAt(m, ds) == Certified <==> Evidence(m, -1.0, ds) >= 20.0
  {
    hide Evidence, Sum;
    EvidenceFixesTheSide(m, ds);
  }

  // ----- what the bets are worth

  /** On the worst difference there is, bet `k` of the grid keeps exactly what it did not stake: one twentieth is
      staked by the first bet and one more by each that follows. */
  lemma WorstDifferenceCostsTheStake(m: real, sign: real, k: nat)
    requires (sign == 1.0 || sign == -1.0) && Worst(m, sign) != 0.0 && k < GRID_SIZE
    ensures |Lams(m, sign)| == 18
    ensures Gain(Lams(m, sign)[k], m, sign, -sign) == 1.0 - 0.05 * (k + 1) as real
  {
    var lam, worst := Lams(m, sign)[k], Worst(m, sign);
    QuotientTimes(Grid()[k], worst);
    assert sign * (-sign - m) == -worst;
    assert lam * -worst == -(lam * worst);
  }

  /** Every difference lies at least `c` on the side of the margin that `sign` bets on. */
  ghost predicate Drifts(m: real, sign: real, c: real, ds: seq<real>) {
    forall i :: 0 <= i < |ds| ==> sign * (ds[i] - m) >= c
  }

  lemma {:induction false} DriftFeedsTheBet(lam: real, m: real, sign: real, c: real, a: real, ds: seq<real>)
    requires lam >= 0.0 && c >= 0.0 && a == lam * c && Drifts(m, sign, c, ds)
    ensures Wealth(lam, m, sign, ds) >= 1.0 + |ds| as real * a
    ensures Wealth(lam, m, sign, ds) >= Pow(1.0 + a, |ds|)
  {
    hide Wealth, Gain, Pow;
    if ds == [] {
      NothingGained(lam, m, sign, a);
    } else {
      var n := |ds| - 1;
      var most, w, x := ds[..n], Wealth(lam, m, sign, ds[..n]), sign * (ds[n] - m);
      assert ds == most + [ds[n]];
      DriftFeedsTheBet(lam, m, sign, c, a, most);
      WealthStep(lam, m, sign, most, ds[n]);
      GainIs(lam, m, sign, ds[n]);
      MulNonNegative(lam, c);
      MulNonNegative(n as real, a);
      MulMonotone(lam, c, x);
      PowMonotone(1.0 + a, 0, n);
      OneMoreGain(w, a, lam * x, n as real, Pow(1.0 + a, n));
      PowOneMore(1.0 + a, n);
    }
  }

  lemma NothingGained(lam: real, m: real, sign: real, a: real)
    ensures Wealth(lam, m, sign, []) == 1.0 && Pow(1.0 + a, 0) == 1.0
  {}

  lemma PowOneMore(x: real, n: nat)
    ensures Pow(x, n + 1) == x * Pow(x, n)
  {}

  lemma GainIs(lam: real, m: real, sign: real, d: real)
    ensures Gain(lam, m, sign, d) == 1.0 + lam * (sign * (d - m))
  {}

  lemma OneMoreGain(w: real, a: real, b: real, n: real, p: real)
    requires 0.0 <= a <= b && n >= 0.0 && n * a >= 0.0 && w >= 1.0 + n * a && w >= p >= 1.0
    ensures w * (1.0 + b) >= 1.0 + (n + 1.0) * a
    ensures w * (1.0 + b) >= (1.0 + a) * p
  {
    AtLeastProduct(w, 1.0 + b, p, 1.0 + a);
    AtLeastProduct(w, 1.0 + b, 1.0 + n * a, 1.0 + a);
    MulNonNegative(n * a, a);
    assert (1.0 + a) * (1.0 + n * a) == 1.0 + n * a + a + n * a * a;
    assert n * a * a == (n * a) * a;
  }

  lemma AtLeastProduct(w: real, y: real, p: real, x: real)
    requires w >= p >= 0.0 && y >= x >= 0.0
    ensures w * y >= x * p
  {
    MulMonotone(w, x, y);
    MulMonotone(x, p, w);
  }

  /** The first `n` stakes of the grid add up. */
  lemma {:induction false} StakesAddUp(m: real, sign: real, n: nat)
    requires Worst(m, sign) > 0.0 && n <= GRID_SIZE
    ensures Sum(Lams(m, sign)[..n]) * Worst(m, sign) == 0.025 * (n * (n + 1)) as real
  {
    hide Sum, Lams;
    var lams, worst := Lams(m, sign), Worst(m, sign);
    if n == 0 {
      SumOfNone();
      assert lams[..0] == [];
    } else {
      StakesAddUp(m, sign, n - 1);
      assert lams[..n] == lams[..n - 1] + [lams[n - 1]];
      SumPush(lams[..n - 1], lams[n - 1]);
      Stake(m, sign, n - 1);
      OneMoreStake(Sum(lams[..n - 1]), lams[n - 1], worst, n);
    }
  }

  lemma Stake(m: real, sign: real, k: nat)
    requires Worst(m, sign) > 0.0 && k < GRID_SIZE
    ensures Lams(m, sign)[k] * Worst(m, sign) == 0.05 * (k + 1) as real
    ensures Lams(m, sign)[k] >= 0.0
  {
    QuotientTimes(Grid()[k], Worst(m, sign));
    QuotientNonNegative(Grid()[k], Worst(m, sign));
  }

  lemma OneMoreStake(s: real, lam: real, worst: real, n: nat)
    requires n > 0 && s * worst == 0.025 * ((n - 1) * n) as real && lam * worst == 0.05 * n as real
    ensures (s + lam) * worst == 0.025 * (n * (n + 1)) as real
  {
    assert (s + lam) * worst == s * worst + lam * worst;
    assert n * (n + 1) == (n - 1) * n + 2 * n;
    assert (n * (n + 1)) as real == ((n - 1) * n) as real + 2.0 * n as real;
  }

  /** Wealths that each exceed one by their stake's share of `x` add up to as many ones and that share of all. */
  lemma {:induction false} WealthsAddUp(ws: seq<real>, lams: seq<real>, x: real)
    requires |ws| == |lams| && forall k :: 0 <= k < |ws| ==> ws[k] >= 1.0 + lams[k] * x
    ensures Sum(ws) >= |ws| as real + Sum(lams) * x
  {
    hide Sum;
    if ws == [] {
      SumOfNone();
    } else {
      var n := |ws| - 1;
      WealthsAddUp(ws[..n], lams[..n], x);
      assert ws == ws[..n] + [ws[n]] && lams == lams[..n] + [lams[n]];
      SumPush(ws[..n], ws[n]);
      SumPush(lams[..n], lams[n]);
      assert (Sum(lams[..n]) + lams[n]) * x == Sum(lams[..n]) * x + lams[n] * x;
    }
  }

  lemma {:induction false} SumAtLeastOne(ws: seq<real>, k: nat)
    requires k < |ws| && forall j :: 0 <= j < |ws| ==> ws[j] >= 0.0
    ensures Sum(ws) >= ws[k]
    ensures Sum(ws) >= 0.0
  {
    if k < |ws| - 1 {
      SumAtLeastOne(ws[..|ws| - 1], k);
    } else if |ws| > 1 {
      SumAtLeastOne(ws[..|ws| - 1], 0);
    }
  }

  /** Power: evidence grows with every difference on the right side of the margin, at least linearly in the total
      drift, and geometrically at the rate of any single bet, of which `a` is the stake's share of the drift. */
  lemma EvidenceGrows(m: real, sign: real, c: real, ds: seq<real>, k: nat, a: real)
    requires (sign == 1.0 || sign == -1.0) && Worst(m, sign) > 0.0 && c >= 0.0 && Drifts(m, sign, c, ds)
    requires k < GRID_SIZE && a == Lams(m, sign)[k] * c
    ensures Evidence(m, sign, ds) * Worst(m, sign) >= Worst(m, sign) + 0.475 * (|ds| as real * c)
    ensures Evidence(m, sign, ds) * 18.0 >= Pow(1.0 + a, |ds|)
  {
    hide Wealth, Sum, Pow, Lams, Drifts;
    var lams, worst, x := Lams(m, sign), Worst(m, sign), |ds| as real * c;
    var ws := Wealths(lams, m, sign, ds);
    forall j | 0 <= j < |ws| ensures ws[j] >= 1.0 + lams[j] * x && ws[j] >= 0.0 {
      Stake(m, sign, j);
      DriftFeedsTheBet(lams[j], m, sign, c, lams[j] * c, ds);
      MulNonNegative(|ds| as real, c);
      MulNonNegative(lams[j], x);
      assert |ds| as real * (lams[j] * c) == lams[j] * x;
    }
    Stake(m, sign, k);
    DriftFeedsTheBet(lams[k], m, sign, c, a, ds);
    SumAtLeastOne(ws, k);
    WealthsAddUp(ws, lams, x);
    StakesAddUp(m, sign, 18);
    assert lams[..18] == lams;
    assert Evidence(m, sign, ds) == Sum(ws) / 18.0;
    AverageOfWealths(Sum(ws), Sum(lams), x, worst, Evidence(m, sign, ds));
  }

  lemma AverageOfWealths(s: real, l: real, x: real, worst: real, e: real)
    requires worst > 0.0 && e == s / 18.0 && s >= 18.0 + l * x && l * worst == 0.025 * 342.0
    ensures e * worst >= worst + 0.475 * x
    ensures e * 18.0 == s
  {
    MulMonotone(worst, 18.0 + l * x, s);
    assert worst * (18.0 + l * x) == 18.0 * worst + (l * worst) * x;
    assert e * worst * 18.0 == worst * s;
  }

  /** Enough drift decides: once the number of differences times the drift is forty times the worst loss, the test
      of that side has spoken, and the other never does. */
  lemma DriftDecides(m: real, sign: real, c: real, ds: seq<real>, n: nat)
    requires (sign == 1.0 || sign == -1.0) && Playable(m) && Worst(m, sign) > 0.0 && Bounded(ds)
    requires c > 0.0 && Drifts(m, sign, c, ds) && n <= |ds| && n as real * c >= 40.0 * Worst(m, sign)
    ensures FirstVerdict(m, ds) == if sign == -1.0 then Certified else Halted
    ensures 0 < DecidedAt(m, ds) <= n
  {
    hide Evidence, Drifts, Sum, DecideAt;
    MulPositive(40.0, Worst(m, sign));
    DriftSpeaks(m, sign, c, ds, n);
    var at := DecidedAt(m, ds);
    assert at <= n;
    assert at > 0 by {
      if at == 0 {
        NothingMet(m, ds);
      }
    }
    DecidesOnItsSide(m, sign, c, ds, at);
    assert at == |ds| ==> at == n;
  }

  lemma NothingMet(m: real, ds: seq<real>)
    requires Playable(m) && DecidedAt(m, ds) == 0
    ensures ds == []
  {
    hide DecideAt;
  }

  lemma DriftSpeaks(m: real, sign: real, c: real, ds: seq<real>, n: nat)
    requires (sign == 1.0 || sign == -1.0) && Playable(m) && Worst(m, sign) > 0.0 && Bounded(ds)
    requires c > 0.0 && Drifts(m, sign, c, ds) && n <= |ds| && n as real * c >= 40.0 * Worst(m, sign)
    ensures DecideAt(m, ds[..n]) != Undecided && n > 0
  {
    hide Evidence, Sum;
    EvidenceGrows(m, sign, c, ds[..n], 0, Lams(m, sign)[0] * c);
    BarFromDrift(Evidence(m, sign, ds[..n]), Worst(m, sign), n as real * c);
    DecisionsAgreeWithTheMean(m, ds[..n]);
    MulPositive(40.0, Worst(m, sign));
    SomeFactor(n as real, c);
  }

  lemma SomeFactor(x: real, c: real)
    requires x * c > 0.0
    ensures x != 0.0
  {}

  lemma BarFromDrift(e: real, worst: real, x: real)
    requires worst > 0.0 && e * worst >= worst + 0.475 * x && x >= 40.0 * worst
    ensures e >= 20.0
  {
    assert (e - 20.0) * worst >= 0.0;
    NonNegativeFactor(e - 20.0, worst);
  }

  lemma DecidesOnItsSide(m: real, sign: real, c: real, ds: seq<real>, n: nat)
    requires (sign == 1.0 || sign == -1.0) && Playable(m) && Worst(m, sign) > 0.0 && Bounded(ds)
    requires c > 0.0 && Drifts(m, sign, c, ds) && n <= |ds|
    ensures DecideAt(m, ds[..n]) != Undecided ==> DecideAt(m, ds[..n]) == if sign == -1.0 then Certified else Halted
  {
    hide Evidence, Sum;
    DecisionsAgreeWithTheMean(m, ds[..n]);
    DriftOfSum(m, sign, c, ds[..n]);
  }

  lemma {:induction false} DriftOfSum(m: real, sign: real, c: real, ds: seq<real>)
    requires (sign == 1.0 || sign == -1.0) && c >= 0.0 && Drifts(m, sign, c, ds)
    ensures sign * (Sum(ds) - |ds| as real * m) >= 0.0
  {
    hide Sum;
    if ds == [] {
      SumOfNone();
    } else {
      var n := |ds| - 1;
      DriftOfSum(m, sign, c, ds[..n]);
      assert ds == ds[..n] + [ds[n]];
      SumPush(ds[..n], ds[n]);
      assert (n + 1) as real * m == n as real * m + m;
    }
  }

  /** In paired mode, on the outcomes themselves: a challenger that on every task falls short of the incumbent by
      less than the margin, by at least `c`, is certified, and one that falls short by more is halted. */
  lemma PairedPower(rows: seq<Row>, m: real, c: real, n: nat)
    requires -1.0 < m < 1.0 && c > 0.0 && n <= |rows|
    ensures (forall i :: 0 <= i < |rows| ==> m - (rows[i].inc - rows[i].ch) >= c)
            && n as real * c >= 40.0 * (1.0 - m) ==>
              FirstVerdict(m, Diffs(rows)) == Certified && 0 < DecidedAt(m, Diffs(rows)) <= n
    ensures (forall i :: 0 <= i < |rows| ==> rows[i].inc - rows[i].ch - m >= c)
            && n as real * c >= 40.0 * (1.0 + m) ==>
              FirstVerdict(m, Diffs(rows)) == Halted && 0 < DecidedAt(m, Diffs(rows)) <= n
  {
    hide FirstVerdict, DecidedAt;
    var ds := Diffs(rows);
    if (forall i :: 0 <= i < |rows| ==> m - (rows[i].inc - rows[i].ch) >= c) && n as real * c >= 40.0 * (1.0 - m) {
      DriftDecides(m, -1.0, c, ds, n);
    }
    if (forall i :: 0 <= i < |rows| ==> rows[i].inc - rows[i].ch - m >= c) && n as real * c >= 40.0 * (1.0 + m) {
      DriftDecides(m, 1.0, c, ds, n);
    }
  }
}
