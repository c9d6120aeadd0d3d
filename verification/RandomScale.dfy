/** Random numbers scaled to a range: exact functions of the value rand() delivers, one of `outcomes` =
RAND_MAX + 1 equally likely ones.  Arithmetic is exact, as it is in doubles for a 15-bit rand(). */
module RandomScale {
  import opened Arithmetic

  const INT_MAX: nat := 0x7fff_ffff

  /** The offset drawn: the fraction r/outcomes of `n`, truncated. */
  function Scaled(r: nat, n: nat, outcomes: nat): nat
    requires outcomes >= 1
  {
    r * n / outcomes
  }

  /** The least r whose offset is `v` or more. */
  function First(v: nat, n: nat, outcomes: nat): nat
    requires n >= 1
  {
    (v * outcomes + n - 1) / n
  }

  /** Division against a threshold. */
  lemma DivAtLeast(a: nat, d: nat, v: nat)
    requires d >= 1
    ensures a / d >= v <==> a >= v * d
  {
    DivBounds(a, d);
    if a / d < v { MulLess(a / d, v, d); }
    if a / d > v { MulLess(v, a / d, d); }
  }

  lemma ScaledAtLeast(r: nat, v: nat, n: nat, outcomes: nat)
    requires n >= 1 && outcomes >= 1
    ensures Scaled(r, n, outcomes) >= v <==> r >= First(v, n, outcomes)
  {
    DivAtLeast(r * n, outcomes, v);
    var a := v * outcomes;
    DivBounds(a + n - 1, n);
    var f := First(v, n, outcomes);
    assert f * n >= a && (f - 1) * n < a;
    if r < f { MulLess(r, f, n); } else if r > f { MulLess(f, r, n); }
  }

  function Interval(a: nat, b: nat): set<nat> {
    set r: nat | r < b && AtLeast(r, a)
  }

  predicate AtLeast(r: nat, a: nat) {
    a <= r
  }

  lemma {:induction false} IntervalSize(a: nat, b: nat)
    requires a <= b
    ensures |Interval(a, b)| == b - a
    decreases b
  {
    if a == b {
      assert Interval(a, b) == {};
    } else {
      IntervalSize(a, b - 1);
      assert Interval(a, b) == Interval(a, b - 1) + {b - 1};
    }
  }

  /** The rand() values that yield offset `v`. */
  function Hits(v: nat, n: nat, outcomes: nat): set<nat>
    requires outcomes >= 1
  {
    set r: nat | r < outcomes && Scaled(r, n, outcomes) == v
  }

  lemma FirstOfAll(n: nat, outcomes: nat)
    requires n >= 1
    ensures First(0, n, outcomes) == 0 && First(n, n, outcomes) == outcomes
  {
    DivUnique(outcomes, n, n - 1);
    assert n * outcomes + n - 1 == outcomes * n + (n - 1);
  }

  /** Adding q * n + s to a dividend adds q to the quotient, and one more if the remainders carry. */
  lemma DivCarry(a: nat, q: nat, s: nat, n: nat)
    requires s < n
    ensures (a + q * n + s) / n == a / n + q + if a % n + s < n then 0 else 1
  {
    var f, rest := a / n, a % n;
    assert a == f * n + rest;
    Distribute(f, q, n);
    if rest + s < n {
      assert a + q * n + s == (f + q) * n + (rest + s);
      DivUnique(f + q, n, rest + s);
    } else {
      Distribute(f + q, 1, n);
      assert a + q * n + s == (f + q + 1) * n + (rest + s - n);
      DivUnique(f + q + 1, n, rest + s - n);
    }
  }

  /** From one offset to the next the threshold moves by the floor or the ceiling of outcomes / n. */
  lemma FirstStep(v: nat, n: nat, outcomes: nat)
    requires n >= 1
    ensures var d := First(v + 1, n, outcomes) - First(v, n, outcomes);
            d == outcomes / n || (outcomes % n != 0 && d == outcomes / n + 1)
  {
    Distribute(v, 1, outcomes);
    var a, q, s := v * outcomes + n - 1, outcomes / n, outcomes % n;
    assert outcomes == q * n + s;
    assert (v + 1) * outcomes + n - 1 == a + q * n + s;
    DivCarry(a, q, s, n);
  }

  lemma HitCount(v: nat, n: nat, outcomes: nat)
    requires v < n && outcomes >= 1
    ensures |Hits(v, n, outcomes)| == First(v + 1, n, outcomes) - First(v, n, outcomes)
  {
    var a, b := First(v, n, outcomes), First(v + 1, n, outcomes);
    FirstStep(v, n, outcomes);
    forall r: nat ensures r in Hits(v, n, outcomes) <==> r in Interval(a, b) {
      ScaledAtLeast(r, v, n, outcomes);
      ScaledAtLeast(r, v + 1, n, outcomes);
      ScaledAtLeast(r, n, n, outcomes);
      FirstOfAll(n, outcomes);
    }
    assert Hits(v, n, outcomes) == Interval(a, b);
    IntervalSize(a, b);
  }

  /** Each offset is hit by the floor or by the ceiling of outcomes / n of the possible rand() values. */
  lemma EvenlySpread(v: nat, n: nat, outcomes: nat)
    requires v < n && outcomes >= 1
    ensures |Hits(v, n, outcomes)| == outcomes / n || |Hits(v, n, outcomes)| == (outcomes + n - 1) / n
  {
    HitCount(v, n, outcomes);
    FirstStep(v, n, outcomes);
    if outcomes % n != 0 { CeilOf(outcomes, n); }
  }

  /** The offset has one hit more than the floor. */
  predicate Favoured(v: nat, n: nat, outcomes: nat)
    requires n >= 1 && outcomes >= 1
  {
    |Hits(v, n, outcomes)| == outcomes / n + 1
  }

  function FavouredBelow(k: nat, n: nat, outcomes: nat): set<nat>
    requires n >= 1 && outcomes >= 1
  {
    set v: nat | v < k && Favoured(v, n, outcomes)
  }

  lemma FavouredSize(v: nat, n: nat, outcomes: nat)
    requires n >= 1 && outcomes >= 1
    ensures |FavouredBelow(v + 1, n, outcomes)| ==
            |FavouredBelow(v, n, outcomes)| + if Favoured(v, n, outcomes) then 1 else 0
  {
    assert FavouredBelow(v + 1, n, outcomes) ==
           FavouredBelow(v, n, outcomes) + if Favoured(v, n, outcomes) then {v} else {};
  }

  lemma FavouredStep(v: nat, n: nat, outcomes: nat)
    requires v < n && outcomes >= 1
    ensures First(v + 1, n, outcomes) - First(v, n, outcomes) ==
            outcomes / n + |FavouredBelow(v + 1, n, outcomes)| - |FavouredBelow(v, n, outcomes)|
  {
    HitCount(v, n, outcomes);
    FirstStep(v, n, outcomes);
    FavouredSize(v, n, outcomes);
  }

  lemma {:induction false} FirstCounts(k: nat, n: nat, outcomes: nat)
    requires k <= n && n >= 1 && outcomes >= 1
    ensures First(k, n, outcomes) == Times(k, outcomes / n) + |FavouredBelow(k, n, outcomes)|
    decreases k
  {
    if k == 0 {
      FirstOfAll(n, outcomes);
      assert FavouredBelow(0, n, outcomes) == {};
    } else {
      FirstCounts(k - 1, n, outcomes);
      FavouredStep(k - 1, n, outcomes);
    }
  }

  /** Exactly outcomes % n of the n offsets have that one hit more. */
  lemma FavouredCount(n: nat, outcomes: nat)
    requires n >= 1 && outcomes >= 1
    ensures |set v: nat | v < n && |Hits(v, n, outcomes)| == outcomes / n + 1| == outcomes % n
  {
    FirstCounts(n, n, outcomes);
    FirstOfAll(n, outcomes);
    DivBounds(outcomes, n);
    TimesIsProduct(n, outcomes / n);
    assert n * (outcomes / n) == (outcomes / n) * n;
    assert (set v: nat | v < n && |Hits(v, n, outcomes)| == outcomes / n + 1) == FavouredBelow(n, n, outcomes);
  }

  lemma CeilOf(a: nat, n: nat)
    requires n >= 1 && a % n != 0
    ensures (a + n - 1) / n == a / n + 1
  {
    var q, s := a / n, a % n;
    assert a + n - 1 == (q + 1) * n + (s - 1);
    DivUnique(q + 1, n, s - 1);
  }

  /** Every offset can be drawn exactly when there are no more of them than rand() values. */
  lemma ReachableIff(n: nat, outcomes: nat)
    requires n >= 1 && outcomes >= 1
    ensures (forall v: nat :: v < n ==> Hits(v, n, outcomes) != {}) <==> n <= outcomes
  {
    if n <= outcomes {
      DivAtLeast(outcomes, n, 1);
      DivAtLeast(outcomes + n - 1, n, 1);
      forall v: nat | v < n ensures Hits(v, n, outcomes) != {} {
        EvenlySpread(v, n, outcomes);
      }
    } else {
      forall r: nat | r < outcomes ensures Scaled(r, n, outcomes) != n - 1 {
        DivAtLeast(r * n, outcomes, n - 1);
        MulLess(r, outcomes, n);
        assert (n - 1) * outcomes == n * outcomes - outcomes;
      }
      assert Hits(n - 1, n, outcomes) == {};
    }
  }

  /** The span of the two bounds as the code computes it must be an int. */
  predicate SpanFits(low: int, high: int) {
    -1 - INT_MAX <= low <= INT_MAX && -1 - INT_MAX <= high <= INT_MAX
    && high - low < INT_MAX && low - high < INT_MAX
  }

  function Min(a: int, b: int): int { if a < b then a else b }

  function Max(a: int, b: int): int { if a < b then b else a }

  function Span(a: int, b: int): nat {
    Max(a, b) - Min(a, b) + 1
  }

  lemma ScaledFits(r: nat, n: nat, outcomes: nat)
    requires r < outcomes
    ensures n >= 1 ==> 0 <= Scaled(r, n, outcomes) < n
  {
    DivAtLeast(r * n, outcomes, n);
    MulLess(r, outcomes, n);
  }

  /** The offset is the fraction r/outcomes of the span, rounded down. */
  lemma ScaledIs(r: nat, n: nat, outcomes: nat)
    requires outcomes >= 1
    ensures Scaled(r, n, outcomes) * outcomes <= r * n < (Scaled(r, n, outcomes) + 1) * outcomes
  {
    DivBounds(r * n, outcomes);
    Distribute(Scaled(r, n, outcomes), 1, outcomes);
  }

  /** RandomInteger for the value `r` of rand(). */
  method RandomInteger(r: nat, low: int, high: int, outcomes: nat) returns (v: int)
    requires r < outcomes && SpanFits(low, high)
    ensures Min(low, high) <= v <= Max(low, high)
    ensures r in Hits(v - Min(low, high), Span(low, high), outcomes)
    ensures low <= high ==>
              (v - low) * outcomes <= r * (high - low + 1) < (v - low + 1) * outcomes
    ensures high <= low ==>
              (v - high) * outcomes <= r * (low - high + 1) < (v - high + 1) * outcomes
  {
    var nLow, nHigh := low, high;
    if nHigh < nLow {
      var tmp := nHigh;
      nHigh := nLow;
      nLow := tmp;
    }
    var k := r * (nHigh - nLow + 1) / outcomes;
    ScaledFits(r, nHigh - nLow + 1, outcomes);
    ScaledIs(r, nHigh - nLow + 1, outcomes);
    v := nLow + k;
  }

  /** For one and the same rand() value the order of the bounds does not matter. */
  lemma OrderOfBounds(r: nat, low: int, high: int, outcomes: nat, v: int, w: int)
    requires r < outcomes
    requires Min(low, high) <= v && r in Hits(v - Min(low, high), Span(low, high), outcomes)
    requires Min(high, low) <= w && r in Hits(w - Min(high, low), Span(high, low), outcomes)
    ensures v == w
  {
  }

  // ----- Reals -----

  function Fraction(r: nat, outcomes: nat): real
    requires outcomes >= 1
  {
    r as real / outcomes as real
  }

  lemma FractionBelow(r: nat, outcomes: nat, p: real)
    requires outcomes >= 1
    ensures Fraction(r, outcomes) < p <==> r as real < p * outcomes as real
  {
    var f, o := Fraction(r, outcomes), outcomes as real;
    assert f * o == r as real;
    if f < p { assert (p - f) * o > 0.0; } else { assert (f - p) * o >= 0.0; }
  }

  function Scale(d: real, width: real): real {
    d * width
  }

  /** A proper fraction of a width. */
  lemma Portion(d: real, width: real)
    requires 0.0 <= d < 1.0 && width >= 0.0
    ensures 0.0 <= Scale(d, width) <= width
    ensures Scale(d, width) < width <==> width != 0.0
  {
    if width > 0.0 {
      assert (1.0 - d) * width > 0.0;
      assert (1.0 - d) * width == width - d * width;
    }
  }

  lemma PortionIs(r: nat, outcomes: nat, width: real)
    requires outcomes >= 1
    ensures Scale(Fraction(r, outcomes), width) * outcomes as real == r as real * width
  {
    var o := outcomes as real;
    assert Fraction(r, outcomes) * o == r as real;
    assert Fraction(r, outcomes) * width * o == Fraction(r, outcomes) * o * width;
  }

  function Lower(a: real, b: real): real { if b < a then b else a }

  function Upper(a: real, b: real): real { if b < a then a else b }

  /** RandomReal: never below the smaller bound, and below the larger one exactly when the bounds differ; the
  order of the bounds does not matter. */
  method RandomReal(r: nat, low: real, high: real, outcomes: nat) returns (v: real)
    requires r < outcomes
    ensures v == Lower(low, high) + Scale(Fraction(r, outcomes), Upper(low, high) - Lower(low, high))
    ensures Lower(low, high) <= v <= Upper(low, high)
    ensures v < Upper(low, high) <==> low != high
    ensures low <= high ==> (v - low) * outcomes as real == r as real * (high - low)
    ensures high <= low ==> (v - high) * outcomes as real == r as real * (low - high)
  {
    var dLow, dHigh := low, high;
    if dHigh < dLow {
      var tmp := dHigh;
      dHigh := dLow;
      dLow := tmp;
    }
    assert dLow == Lower(low, high) && dHigh == Upper(low, high);
    var d := Fraction(r, outcomes);
    FractionBelow(r, outcomes, 0.0);
    FractionBelow(r, outcomes, 1.0);
    Portion(d, dHigh - dLow);
    PortionIs(r, outcomes, dHigh - dLow);
    v := dLow + Scale(d, dHigh - dLow);
  }

  /** RandomChance. */
  method RandomChance(r: nat, p: real, outcomes: nat) returns (hit: bool)
    requires r < outcomes
    ensures hit <==> r in Chances(p, outcomes)
    ensures hit <==> r as real < p * outcomes as real
  {
    FractionBelow(r, outcomes, p);
    var v := RandomReal(r, 0.0, 1.0, outcomes);
    hit := v < p;
  }

  /** The rand() values for which RandomChance(p) is true. */
  function Chances(p: real, outcomes: nat): set<nat>
    requires outcomes >= 1
  {
    set r: nat | r < outcomes && Fraction(r, outcomes) < p
  }

  function Ceil(x: real): int {
    -((-x).Floor)
  }

  /** RandomChance(p) is true for exactly the ceiling of p * outcomes values, none for p up to 0, all from 1 on. */
  lemma ChanceCount(p: real, outcomes: nat)
    requires outcomes >= 1
    ensures |Chances(p, outcomes)| == Min(Max(Ceil(p * outcomes as real), 0), outcomes)
  {
    var c := Ceil(p * outcomes as real);
    var m := Min(Max(c, 0), outcomes);
    forall r: nat ensures r in Chances(p, outcomes) <==> r in Interval(0, m) {
      FractionBelow(r, outcomes, p);
      assert r as real < p * outcomes as real <==> r < c;
    }
    assert Chances(p, outcomes) == Interval(0, m);
    IntervalSize(0, m);
  }
}
