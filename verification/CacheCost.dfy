/** What prefix caching saves over an agent session.

    `nocache_cost` and `withcache_cost` in scripts/analyze-agent-granularity.py: at every step the whole
    context is sent again, and a cache lets all but the new part be read at a tenth of the price while
    the new part is written at a premium. Token counts and prices are exact reals. */
module CacheCost {
  import opened Reals

  const CACHE_WRITE_MULT := 1.25
  const CACHE_READ_MULT := 0.1
  const MILLION := 1000000.0

  /** A session: first prompt, new context per step, output per step (tokens), and USD per million tokens. */
  datatype Session = Session(first: real, delta: real, out: real, priceIn: real, priceOut: real)

  ghost predicate NonNegative(s: Session) {
    s.first >= 0.0 && s.delta >= 0.0 && s.out >= 0.0 && s.priceIn >= 0.0 && s.priceOut >= 0.0
  }

  /** The context sent at step `k`. */
  function Context(s: Session, k: nat): real { s.first + k as real * s.delta }

  function InputTokens(s: Session, n: nat): real {
    if n == 0 then 0.0 else InputTokens(s, n - 1) + Context(s, n - 1)
  }

  method NocacheCost(n: nat, s: Session) returns (cost: real)
    ensures cost == Uncached(s, n)
    ensures cost == ((n as real * s.first + n as real * (n as real - 1.0) / 2.0 * s.delta) * s.priceIn
                     + n as real * s.out * s.priceOut) / 1000000.0
  {
    hide Uncached, Triangle;
    TriangleIs(n);
    var totalIn := 0.0;
    for k := 0 to n
      invariant totalIn == InputTokens(s, k)
    {
      totalIn := totalIn + (s.first + k as real * s.delta);
    }
    NocacheTotal(s, n, totalIn);
    cost := (totalIn * s.priceIn + n as real * s.out * s.priceOut) / MILLION;
  }

  method WithcacheCost(n: nat, s: Session) returns (cost: real)
    ensures cost == Cached(s, n)
    ensures n == 0 ==> cost == 0.0
    ensures n >= 1 ==>
              var k := (n - 1) as real;
              cost == ((1.25 * s.first + 0.1 * (k * s.first + k * (k - 1.0) / 2.0 * s.delta) + 1.25 * (k * s.delta))
                       * s.priceIn + n as real * s.out * s.priceOut) / 1000000.0
  {
    if n == 0 {
      return 0.0;
    }
    cost := s.first * CACHE_WRITE_MULT * s.priceIn / MILLION + s.out * s.priceOut / MILLION;
    assert Cached(s, 0) == 0.0;
    for k := 1 to n
      invariant cost == Cached(s, k)
    {
      var prefix := s.first + (k - 1) as real * s.delta;
      cost := cost + (prefix * CACHE_READ_MULT + s.delta * CACHE_WRITE_MULT) * s.priceIn / MILLION;
      cost := cost + s.out * s.priceOut / MILLION;
    }
    CachedInFull(s, n);
  }

  lemma CachedInFull(s: Session, n: nat)
    requires n >= 1
    ensures var k := (n - 1) as real;
            Cached(s, n)
            == ((1.25 * s.first + 0.1 * (k * s.first + k * (k - 1.0) / 2.0 * s.delta) + 1.25 * (k * s.delta))
                * s.priceIn + n as real * s.out * s.priceOut) / 1000000.0
  {
    hide Cached, Triangle;
    CachedClosed(s, n);
    TriangleIs(n - 1);
  }

  // ----- one step at a time

  /** What a step pays for its answer, either way. */
  function Answer(s: Session): real { s.out * s.priceOut / MILLION }

  function UncachedStep(s: Session, k: nat): real {
    Context(s, k) * s.priceIn / MILLION + Answer(s)
  }

  function CachedStep(s: Session, k: nat): real {
    if k == 0 then s.first * CACHE_WRITE_MULT * s.priceIn / MILLION + Answer(s)
    else (Context(s, k - 1) * CACHE_READ_MULT + s.delta * CACHE_WRITE_MULT) * s.priceIn / MILLION + Answer(s)
  }

  function Uncached(s: Session, n: nat): real {
    if n == 0 then 0.0 else Uncached(s, n - 1) + UncachedStep(s, n - 1)
  }

  function Cached(s: Session, n: nat): real {
    if n == 0 then 0.0 else Cached(s, n - 1) + CachedStep(s, n - 1)
  }

  lemma NocacheTotal(s: Session, n: nat, total: real)
    requires total == InputTokens(s, n)
    ensures Uncached(s, n) == (total * s.priceIn + n as real * s.out * s.priceOut) / MILLION
    ensures total == n as real * s.first + Triangle(n) * s.delta
  {
    hide Uncached, InputTokens, Triangle;
    UncachedIsTotal(s, n);
    InputTokensClosed(s, n);
  }

  /** 0 + 1 + ... + (n - 1). */
  function Triangle(n: nat): real { n as real * (n as real - 1.0) / 2.0 }

  lemma TriangleIs(n: nat)
    ensures Triangle(n) == n as real * (n as real - 1.0) / 2.0
  {}

  lemma {:induction false} InputTokensClosed(s: Session, n: nat)
    ensures InputTokens(s, n) == n as real * s.first + Triangle(n) * s.delta
  {
    if n > 0 {
      InputTokensClosed(s, n - 1);
      var m := (n - 1) as real;
      assert n as real == m + 1.0;
      assert Triangle(n) == Triangle(n - 1) + m;
      assert (Triangle(n - 1) + m) * s.delta == Triangle(n - 1) * s.delta + m * s.delta;
    }
  }

  lemma {:induction false} UncachedIsTotal(s: Session, n: nat)
    ensures Uncached(s, n) == (InputTokens(s, n) * s.priceIn + n as real * s.out * s.priceOut) / MILLION
  {
    if n > 0 {
      UncachedIsTotal(s, n - 1);
      OneMore(InputTokens(s, n - 1), Context(s, n - 1), s.priceIn, (n - 1) as real, s.out, s.priceOut);
      assert n as real == (n - 1) as real + 1.0;
    }
  }

  lemma OneMore(total: real, x: real, p: real, n: real, out: real, q: real)
    ensures ((total + x) * p + (n + 1.0) * out * q) / MILLION
         == (total * p + n * out * q) / MILLION + (x * p / MILLION + out * q / MILLION)
  {
    assert (total + x) * p == total * p + x * p;
    assert (n + 1.0) * out * q == n * out * q + out * q by {
      assert (n + 1.0) * out == n * out + out;
    }
  }

  function CachedTokens(s: Session, n: nat): real
    requires n >= 1
  {
    CACHE_WRITE_MULT * s.first + CACHE_READ_MULT * InputTokens(s, n - 1)
    + CACHE_WRITE_MULT * ((n - 1) as real * s.delta)
  }

  lemma {:induction false} CachedIsTotal(s: Session, n: nat)
    requires n >= 1
    ensures Cached(s, n) == (CachedTokens(s, n) * s.priceIn + n as real * s.out * s.priceOut) / MILLION
  {
    hide Cached, CachedTokens, NewTokens;
    if n == 1 {
      FirstCall(s);
    } else {
      CachedIsTotal(s, n - 1);
      CachedTokensStep(s, n);
      CachedStepTokens(s, n - 1);
      OneMore(CachedTokens(s, n - 1), NewTokens(s, n - 1), s.priceIn, (n - 1) as real, s.out, s.priceOut);
      assert n as real == (n - 1) as real + 1.0;
    }
  }

  lemma FirstCall(s: Session)
    ensures Cached(s, 1) == (CachedTokens(s, 1) * s.priceIn + 1.0 * s.out * s.priceOut) / MILLION
  {
    assert Cached(s, 1) == Cached(s, 0) + CachedStep(s, 0);
    assert InputTokens(s, 0) == 0.0;
    assert CachedTokens(s, 1) == s.first * CACHE_WRITE_MULT;
  }

  /** What step `k` bills as input, in full-price tokens. */
  function NewTokens(s: Session, k: nat): real
    requires k >= 1
  {
    Context(s, k - 1) * CACHE_READ_MULT + s.delta * CACHE_WRITE_MULT
  }

  lemma CachedTokensStep(s: Session, n: nat)
    requires n >= 2
    ensures CachedTokens(s, n) == CachedTokens(s, n - 1) + NewTokens(s, n - 1)
  {
    assert (n - 1) as real == (n - 2) as real + 1.0;
    assert (n - 1) as real * s.delta == (n - 2) as real * s.delta + s.delta;
    assert InputTokens(s, n - 1) == InputTokens(s, n - 2) + Context(s, n - 2);
  }

  lemma CachedStepTokens(s: Session, k: nat)
    requires k >= 1
    ensures Cached(s, k + 1) == Cached(s, k) + (NewTokens(s, k) * s.priceIn / MILLION + s.out * s.priceOut / MILLION)
  {}

  lemma CachedClosed(s: Session, n: nat)
    requires n >= 1
    ensures Cached(s, n)
         == ((CACHE_WRITE_MULT * s.first + CACHE_READ_MULT * ((n - 1) as real * s.first + Triangle(n - 1) * s.delta)
              + CACHE_WRITE_MULT * ((n - 1) as real * s.delta)) * s.priceIn + n as real * s.out * s.priceOut) / MILLION
  {
    CachedIsTotal(s, n);
    InputTokensClosed(s, n - 1);
  }

  // ----- the bound

  /** Caching never divides a bill by more than the read discount: uncached is at most ten times cached. */
  lemma {:induction false} SavingIsBoundedByTheReadDiscount(s: Session, n: nat)
    requires NonNegative(s)
    ensures 0.0 <= Cached(s, n)
    ensures 0.1 * Uncached(s, n) <= Cached(s, n)
  {
    hide UncachedStep, CachedStep, Context, Answer;
    if n > 0 {
      SavingIsBoundedByTheReadDiscount(s, n - 1);
      StepsInPrice(s, n - 1);
      InputsNonNegative(s, n, n - 1);
      InputsNonNegative(s, n, 0);
      ContextNonNegative(s, n - 1);
    }
  }

  lemma ContextNonNegative(s: Session, k: nat)
    requires NonNegative(s)
    ensures Context(s, 0) == s.first
    ensures Context(s, k) * (s.priceIn / MILLION) >= 0.0
  {
    MulNonNegative(k as real, s.delta);
    MulNonNegative(Context(s, k), s.priceIn / MILLION);
  }

  /** Both steps written with the price per token: the cached one re-reads the context at a tenth and pays
      the write premium on what is new. */
  lemma StepsInPrice(s: Session, k: nat)
    ensures UncachedStep(s, k) == Context(s, k) * (s.priceIn / MILLION) + Answer(s)
    ensures k == 0 ==> CachedStep(s, k) == 1.25 * (s.first * (s.priceIn / MILLION)) + Answer(s)
    ensures k >= 1 ==>
              CachedStep(s, k)
              == 0.1 * (Context(s, k) * (s.priceIn / MILLION)) + 1.15 * (s.delta * (s.priceIn / MILLION)) + Answer(s)
  {
    hide Answer;
    var p := s.priceIn / MILLION;
    if k >= 1 {
      var x := Context(s, k - 1);
      assert k as real == (k - 1) as real + 1.0;
      assert k as real * s.delta == (k - 1) as real * s.delta + s.delta;
      assert Context(s, k) == x + s.delta;
      assert (x + s.delta) * p == x * p + s.delta * p;
      assert (x * 0.1 + s.delta * 1.25) * p == 0.1 * (x * p) + 1.25 * (s.delta * p);
    }
  }

  // ----- the ratio

  /** Uncached over cached never falls as the session grows, cross-multiplied. */
  ghost predicate RatioGrowsAt(s: Session, n: nat) {
    Uncached(s, n) * Cached(s, n + 1) <= Uncached(s, n + 1) * Cached(s, n)
  }

  /** The first prompt is large enough, next to what a step adds, for its write premium to matter least. */
  predicate FirstPromptCarriesTheRatio(s: Session) {
    var p := s.priceIn / MILLION;
    0.25 * (Answer(s) * (s.delta * p)) <= 1.15 * (s.first * p * (s.first * p + Answer(s)))
  }

  /** Two later steps: the one further on has the better ratio. `a` and `b` are their contexts in USD. */
  lemma LaterStepsRatio(a: real, b: real, w: real, o: real)
    requires a <= b && w >= o >= 0.0
    ensures (a + o) * (0.1 * b + w) <= (b + o) * (0.1 * a + w)
  {
    MulNonNegative(b - a, w - 0.1 * o);
    assert (b + o) * (0.1 * a + w) - (a + o) * (0.1 * b + w) == (b - a) * (w - 0.1 * o);
  }

  /** The first step against a later one: what it takes, exactly, `e` USD of context after the second step. */
  lemma FirstStepRatio(x: real, d: real, o: real, e: real)
    ensures (x + d + e + o) * (1.25 * x + o) - (x + o) * (0.1 * (x + d + e) + 1.15 * d + o)
         == 1.15 * (x * (x + o)) - 0.25 * (o * d) + e * (1.15 * x + 0.9 * o)
  {
    var y := x + d + e;
    assert (y + o) * (1.25 * x + o) == 1.25 * (y * x) + y * o + 1.25 * (o * x) + o * o;
    assert (x + o) * (0.1 * y + 1.15 * d + o)
        == 0.1 * (x * y) + 1.15 * (x * d) + x * o + 0.1 * (o * y) + 1.15 * (o * d) + o * o;
    assert y * x == x * x + d * x + e * x;
    assert y * o == x * o + d * o + e * o;
  }

  /** Step `k` has no better a ratio than any later step `n`. */
  lemma StepRatios(s: Session, k: nat, n: nat)
    requires NonNegative(s) && FirstPromptCarriesTheRatio(s) && k < n
    ensures UncachedStep(s, k) * CachedStep(s, n) <= UncachedStep(s, n) * CachedStep(s, k)
  {
    hide UncachedStep, CachedStep, Answer;
    var p, o := s.priceIn / MILLION, Answer(s);
    StepsInPrice(s, k);
    StepsInPrice(s, n);
    InputsNonNegative(s, n, k);
    var w := 1.15 * (s.delta * p) + o;
    if k > 0 {
      LaterStepsRatio(Context(s, k) * p, Context(s, n) * p, w, o);
    } else {
      var x, d := s.first * p, s.delta * p;
      var e := Context(s, n) * p - x - d;
      assert e >= 0.0 && Context(s, 0) * p == x;
      MulNonNegative(e, 1.15 * x + 0.9 * o);
      FirstStepRatio(x, d, o, e);
    }
  }

  lemma InputsNonNegative(s: Session, n: nat, k: nat)
    requires NonNegative(s) && k < n
    ensures var p := s.priceIn / MILLION;
            && Answer(s) >= 0.0 && s.first * p >= 0.0 && s.delta * p >= 0.0
            && Context(s, k) * p <= Context(s, n) * p
            && s.first * p + s.delta * p <= Context(s, n) * p
            && Context(s, 0) == s.first
  {
    var p := s.priceIn / MILLION;
    MulNonNegative(s.out, s.priceOut);
    MulNonNegative(s.first, p);
    MulNonNegative(s.delta, p);
    MulMonotone(s.delta, k as real, n as real);
    MulMonotone(s.delta, 1.0, n as real);
    assert s.first + s.delta <= Context(s, n);
    MulMonotone(p, Context(s, k), Context(s, n));
    MulMonotone(p, s.first + s.delta, Context(s, n));
    assert (s.first + s.delta) * p == s.first * p + s.delta * p;
    assert p * Context(s, n) == Context(s, n) * p;
  }

  lemma {:induction false} BillAgainstStep(s: Session, j: nat, n: nat)
    requires NonNegative(s) && FirstPromptCarriesTheRatio(s) && j <= n
    ensures Uncached(s, j) * CachedStep(s, n) <= UncachedStep(s, n) * Cached(s, j)
  {
    hide FirstPromptCarriesTheRatio, UncachedStep, CachedStep;
    if j > 0 {
      BillAgainstStep(s, j - 1, n);
      StepRatios(s, j - 1, n);
      AddProducts(Uncached(s, j - 1), UncachedStep(s, j - 1), CachedStep(s, n),
                  UncachedStep(s, n), Cached(s, j - 1), CachedStep(s, j - 1));
    }
  }

  lemma AddProducts(u: real, v: real, c: real, w: real, e: real, f: real)
    requires u * c <= w * e && v * c <= w * f
    ensures (u + v) * c <= w * (e + f)
  {
    assert (u + v) * c == u * c + v * c;
    assert w * (e + f) == w * e + w * f;
  }

  /** Comparing `n` with `n + 1` calls is comparing the bill of `n` calls with the next step. */
  lemma RatioStep(s: Session, n: nat)
    ensures RatioGrowsAt(s, n) <==> Uncached(s, n) * CachedStep(s, n) <= UncachedStep(s, n) * Cached(s, n)
  {
    hide Uncached, Cached, UncachedStep, CachedStep;
    NextBills(s, n);
    CompareTotals(Uncached(s, n), Cached(s, n), UncachedStep(s, n), CachedStep(s, n));
  }

  lemma NextBills(s: Session, n: nat)
    ensures Uncached(s, n + 1) == Uncached(s, n) + UncachedStep(s, n)
    ensures Cached(s, n + 1) == Cached(s, n) + CachedStep(s, n)
  {}

  lemma CompareTotals(u: real, c: real, v: real, e: real)
    ensures u * (c + e) <= (u + v) * c <==> u * e <= v * c
  {
    assert u * (c + e) == u * c + u * e;
    assert (u + v) * c == u * c + v * c;
  }

  /** Two calls against one: the whole question is decided there. */
  lemma SecondCallDecides(s: Session)
    requires NonNegative(s)
    ensures RatioGrowsAt(s, 1) <==> FirstPromptCarriesTheRatio(s)
  {
    hide Answer, UncachedStep, CachedStep;
    var p, o := s.priceIn / MILLION, Answer(s);
    var x, d := s.first * p, s.delta * p;
    RatioStep(s, 1);
    assert Uncached(s, 1) == Uncached(s, 0) + UncachedStep(s, 0);
    assert Cached(s, 1) == Cached(s, 0) + CachedStep(s, 0);
    StepsInPrice(s, 0);
    StepsInPrice(s, 1);
    assert Context(s, 1) * p == x + d;
    assert Context(s, 0) * p == x;
    FirstStepRatio(x, d, o, 0.0);
  }

  /** The uncached-over-cached ratio is nondecreasing in the number of calls exactly when the first prompt
      carries it. */
  lemma RatioNeverFallsExactlyWhen(s: Session)
    requires NonNegative(s)
    ensures (forall n: nat :: n >= 1 ==> RatioGrowsAt(s, n)) <==> FirstPromptCarriesTheRatio(s)
  {
    hide FirstPromptCarriesTheRatio, RatioGrowsAt;
    SecondCallDecides(s);
    if FirstPromptCarriesTheRatio(s) {
      forall n: nat | n >= 1 ensures RatioGrowsAt(s, n) {
        BillAgainstStep(s, n, n);
        RatioStep(s, n);
      }
    }
  }

  /** It does whenever the first prompt is at least as long as what a step adds. */
  lemma LongFirstPromptCarriesTheRatio(s: Session)
    requires NonNegative(s) && s.first >= s.delta
    ensures FirstPromptCarriesTheRatio(s)
    ensures forall n: nat :: n >= 1 ==> RatioGrowsAt(s, n)
  {
    hide Answer, RatioGrowsAt;
    InputsNonNegative(s, 1, 0);
    var p := s.priceIn / MILLION;
    LongerFirst(s.first, s.delta, p, Answer(s));
    RatioNeverFallsExactlyWhen(s);
  }

  lemma LongerFirst(first: real, delta: real, p: real, o: real)
    requires first >= delta >= 0.0 && p >= 0.0 && o >= 0.0
    ensures 0.25 * (o * (delta * p)) <= 1.15 * (first * p * (first * p + o))
  {
    var x, d := first * p, delta * p;
    MulMonotone(p, delta, first);
    MulNonNegative(delta, p);
    LongerFirstUsd(x, d, o);
  }

  lemma LongerFirstUsd(x: real, d: real, o: real)
    requires x >= d >= 0.0 && o >= 0.0
    ensures 0.25 * (o * d) <= 1.15 * (x * (x + o))
  {
    MulMonotone(o, d, x);
    MulNonNegative(x, x);
    MulNonNegative(o, x);
    assert x * (x + o) == x * x + o * x;
  }

  /** Without it the ratio can fall: an empty first prompt costs the same either way, and the first
      context written costs more cached. */
  lemma EmptyFirstPromptLosesTheRatio()
    ensures var s := Session(0.0, 1000.0, 100.0, 1.0, 5.0);
            NonNegative(s) && !RatioGrowsAt(s, 1)
  {
    var s := Session(0.0, 1000.0, 100.0, 1.0, 5.0);
    SecondCallDecides(s);
  }
}
