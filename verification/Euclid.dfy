/** Euclid's algorithm as the do-while loop computes it, how often its body runs, and the least common
multiple derived from it. */
module Euclid {
  import opened Arithmetic

  predicate Divides(d: nat, a: nat)
    requires d >= 1
  {
    a % d == 0
  }

  ghost predicate CommonDivisor(d: nat, a: nat, b: nat) {
    d >= 1 && Divides(d, a) && Divides(d, b)
  }

  /** The greatest common divisor, and greatest in the strong sense: every common divisor divides it. */
  ghost predicate IsGcd(g: nat, a: nat, b: nat) {
    CommonDivisor(g, a, b) && forall d: nat :: CommonDivisor(d, a, b) ==> Divides(d, g)
  }

  lemma MultipleDivides(q: nat, d: nat)
    requires d >= 1
    ensures Divides(d, q * d) && q * d / d == q
  {
    DivUnique(q, d, 0);
  }

  /** Adding a multiple of `d` does not change whether `d` divides. */
  lemma AddMultiple(d: nat, x: nat, r: nat)
    requires d >= 1
    ensures Divides(d, x * d + r) <==> Divides(d, r)
  {
    DivBounds(r, d);
    Distribute(x, r / d, d);
    DivUnique(x + r / d, d, r % d);
  }

  /** A divisor of `b` divides `a` exactly when it divides the remainder. */
  lemma RemainderKeepsDivisors(d: nat, a: nat, b: nat)
    requires d >= 1 && b >= 1 && Divides(d, b)
    ensures Divides(d, a) <==> Divides(d, a % b)
  {
    DivBounds(a, b);
    DivBounds(b, d);
    Regroup(a / b, b / d, d);
    AddMultiple(d, (a / b) * (b / d), a % b);
  }

  lemma StepKeepsGcd(g: nat, a: nat, b: nat)
    requires b >= 1
    ensures IsGcd(g, b, a % b) ==> IsGcd(g, a, b)
  {
    if IsGcd(g, b, a % b) {
      RemainderKeepsDivisors(g, a, b);
      forall d: nat | CommonDivisor(d, a, b) ensures Divides(d, g) {
        RemainderKeepsDivisors(d, a, b);
        assert CommonDivisor(d, b, a % b);
      }
    }
  }

  /** How often the loop body runs on (a, b). */
  function Rounds(a: nat, b: nat): nat
    requires b >= 1
    decreases b
  {
    if a % b == 0 then 1 else 1 + Rounds(b, a % b)
  }

  /** What the loop returns. */
  function Gcd(a: nat, b: nat): nat
    requires b >= 1
    decreases b
  {
    if a % b == 0 then b else Gcd(b, a % b)
  }

  lemma {:induction false} GcdIsGcd(a: nat, b: nat)
    requires b >= 1
    ensures IsGcd(Gcd(a, b), a, b)
    decreases b
  {
    if a % b == 0 {
      MultipleDivides(1, b);
    } else {
      GcdIsGcd(b, a % b);
      StepKeepsGcd(Gcd(a, b), a, b);
    }
  }

  /** gcd: the do-while loop. */
  method GcdLoop(a0: nat, b0: nat) returns (g: nat, ghost rounds: nat)
    requires a0 > 0 && b0 > 0
    ensures g == Gcd(a0, b0) && IsGcd(g, a0, b0)
    ensures rounds == Rounds(a0, b0)
  {
    var a: nat, b: nat := a0, b0;
    GcdIsGcd(a0, b0);
    var tmp := b;
    b := a % b;
    a := tmp;
    rounds := 1;
    while b != 0
      invariant a > 0
      invariant b == 0 ==> a == Gcd(a0, b0) && rounds == Rounds(a0, b0)
      invariant b != 0 ==> Gcd(a, b) == Gcd(a0, b0) && rounds + Rounds(a, b) == Rounds(a0, b0)
      decreases b
    {
      tmp := b;
      b := a % b;
      a := tmp;
      rounds := rounds + 1;
    }
    g := a;
  }

  // ----- How many rounds -----

  function Fib(n: nat): nat {
    if n < 2 then n else Fib(n - 1) + Fib(n - 2)
  }

  /** Lame's bound: k rounds need operands at least as large as neighbouring Fibonacci numbers. */
  lemma {:induction false} Lame(a: nat, b: nat)
    requires a > b > 0
    ensures b >= Fib(Rounds(a, b) + 1) && a >= Fib(Rounds(a, b) + 2)
    decreases b
  {
    var k, r := Rounds(a, b), a % b;
    assert a >= b + r by {
      assert a == (a / b) * b + r;
      assert (a / b) * b == b + (a / b - 1) * b && (a / b - 1) * b >= 0;
    }
    if r != 0 {
      Lame(b, r);
      assert Fib(k + 2) == Fib(k + 1) + Fib(k);
    } else {
      assert Fib(3) == 2;
    }
  }

  /** The bound is met: neighbouring Fibonacci numbers take exactly as many rounds as it allows. */
  lemma {:induction false} LameIsTight(k: nat)
    requires k >= 1
    ensures Fib(k + 2) > Fib(k + 1) > 0 && Rounds(Fib(k + 2), Fib(k + 1)) == k
  {
    if k == 1 {
      assert Fib(3) == 2 && Fib(2) == 1;
    } else {
      LameIsTight(k - 1);
      assert Fib(k + 2) == 1 * Fib(k + 1) + Fib(k);
      DivUnique(1, Fib(k + 1), Fib(k));
    }
  }

  /** Operands in the wrong order cost exactly one round more; equal ones cost one round. */
  lemma SwappedCostsOne(a: nat, b: nat)
    requires a > 0 && b > 0
    ensures a < b ==> Rounds(a, b) == 1 + Rounds(b, a)
    ensures a == b ==> Rounds(a, b) == 1
  {
    if a < b {
      DivUnique(0, b, a);
    } else if a == b {
      MultipleDivides(1, b);
    }
  }

  // ----- The least common multiple -----

  ghost predicate CommonMultiple(m: nat, a: nat, b: nat)
    requires a >= 1 && b >= 1
  {
    m >= 1 && Divides(a, m) && Divides(b, m)
  }

  /** lcm: divide first, then multiply.  Both intermediate values are returned too. */
  method Lcm(a: nat, b: nat) returns (ret: nat, quotient: nat)
    requires a > 0 && b > 0
    ensures quotient * Gcd(a, b) == a
    ensures ret == quotient * b && quotient <= a && quotient <= ret
    ensures Gcd(a, b) * ret == a * b
    ensures CommonMultiple(ret, a, b)
    ensures forall m: nat :: CommonMultiple(m, a, b) ==> Divides(ret, m) && ret <= m
  {
    ret := a;
    var g, _ := GcdLoop(a, b);
    ret := ret / g;
    quotient := ret;
    LcmFacts(a, b, g, quotient);
    ret := ret * b;
  }

  lemma LcmFacts(a: nat, b: nat, g: nat, q: nat)
    requires a > 0 && b > 0 && g == Gcd(a, b) && IsGcd(g, a, b) && q == a / g
    ensures q * g == a && 1 <= q <= a && q <= q * b
    ensures g * (q * b) == a * b
    ensures CommonMultiple(q * b, a, b)
    ensures forall m: nat :: CommonMultiple(m, a, b) ==> Divides(q * b, m) && q * b <= m
  {
    var k := b / g;
    DivBounds(a, g);
    DivBounds(b, g);
    Products(a, b, g, q, k);
    MultipleDivides(k, a);
    MultipleDivides(q, b);
    forall m: nat | CommonMultiple(m, a, b) ensures Divides(q * b, m) && q * b <= m {
      LeastMultiple(a, b, g, q, k, m);
    }
  }

  lemma Products(a: nat, b: nat, g: nat, q: nat, k: nat)
    requires a > 0 && b > 0 && g >= 1 && q * g == a && k * g == b
    ensures q >= 1 && k >= 1 && q <= a && q <= q * b
    ensures q * b == k * a && g * (q * b) == a * b
  {
    Regroup(q, k, g);
    Regroup(g, q, b);
    assert q >= 1 && k >= 1;
    assert q * g >= q && q * b >= q;
  }

  /** Some combination of the operands is their gcd; integers, since one coefficient may be negative. */
  lemma {:induction false} Bezout(a: nat, b: nat) returns (x: int, y: int)
    requires b >= 1
    ensures x * a + y * b == Gcd(a, b)
    decreases b
  {
    if a % b == 0 {
      x, y := 0, 1;
    } else {
      var u, v := Bezout(b, a % b);
      DivBounds(a, b);
      BezoutStep(u, v, a / b, a, b, a % b);
      x, y := v, u - v * (a / b);
    }
  }

  lemma BezoutStep(u: int, v: int, t: int, a: int, b: int, r: int)
    requires a == t * b + r
    ensures v * a + (u - v * t) * b == u * b + v * r
  {
    assert v * a == v * (t * b) + v * r;
    IntRegroup(v, t, b);
    assert (u - v * t) * b == u * b - (v * t) * b;
  }

  lemma IntRegroup(v: int, t: int, b: int)
    ensures v * (t * b) == (v * t) * b
  {
  }

  /** Every common multiple is a multiple of q * b, where a == q * g and b == k * g. */
  lemma LeastMultiple(a: nat, b: nat, g: nat, q: nat, k: nat, m: nat)
    requires a > 0 && b > 0 && g == Gcd(a, b) && g >= 1 && q * g == a && k * g == b
    requires CommonMultiple(m, a, b)
    ensures Divides(q * b, m) && q * b <= m
  {
    var x, y := Bezout(a, b);
    var s, t := m / a, m / b;
    assert m == s * a && m == t * b;
    // g*m == x*a*m + y*b*m == x*a*(t*b) + y*b*(s*a) == (x*t + y*s) * (a*b), and a*b == g*(q*b)
    var c := x * t + y * s;
    Combine(x, y, a, b, s, t, m, g);
    assert g * m == c * (a * b);
    assert a * b == g * (q * b) by { Regroup(g, q, b); }
    Cancel(g, m, c, q * b);
    Multiple(m, c, q * b);
  }

  lemma Multiple(m: nat, c: int, w: nat)
    requires m == c * w && m >= 1
    ensures w >= 1 && Divides(w, m) && w <= m
  {
    if c <= 0 { NotPositive(c, w); }
    var n: nat := c;
    assert w >= 1;
    MultipleDivides(n, w);
    assert n * w >= w;
  }

  lemma NotPositive(c: int, w: nat)
    requires c <= 0
    ensures c * w <= 0
  {
  }

  lemma Combine(x: int, y: int, a: int, b: int, s: int, t: int, m: int, g: int)
    requires x * a + y * b == g && m == s * a && m == t * b
    ensures g * m == (x * t + y * s) * (a * b)
  {
    assert g * m == (x * a) * m + (y * b) * m;
    assert (x * a) * m == (x * a) * (t * b) == (x * t) * (a * b);
    assert (y * b) * m == (y * b) * (s * a) == (y * s) * (a * b);
  }

  lemma Cancel(g: nat, m: nat, c: int, w: nat)
    requires g >= 1 && g * m == c * (g * w)
    ensures m == c * w
  {
    assert c * (g * w) == g * (c * w);
    var d := m - c * w;
    assert g * d == 0;
    assert d > 0 ==> g * d > 0;
    assert d < 0 ==> g * d < 0;
  }
}
