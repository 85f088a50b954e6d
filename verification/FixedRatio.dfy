/** Fixed-ratio conversion: how many filters, which flags, and why every output position then falls
    exactly on a filter. */
module FixedRatio {
  // ---------- greatest common divisor ----------

  function Gcd(a: nat, b: nat): (g: nat)
    ensures a > 0 || b > 0 ==> g > 0
    decreases b
  {
    if b == 0 then a else Gcd(b, a % b)
  }

  ghost predicate Divides(d: int, a: int) {
    exists k: int :: Times(k, d) == a
  }

  function Times(k: int, d: int): int {
    k * d
  }

  lemma DividesIntro(d: int, a: int, k: int)
    requires a == k * d
    ensures Divides(d, a)
  {
    assert Times(k, d) == a;
  }

  /** gcd() of resampler.c */
  method GcdLoop(a0: nat, b0: nat) returns (a: nat)
    ensures a == Gcd(a0, b0)
  {
    var b: nat := b0;
    a := a0;
    while b != 0
      invariant Gcd(a, b) == Gcd(a0, b0)
      decreases b
    {
      a := a % b;
      var t := a;
      a := b;
      b := t;
    }
  }

  /** The loop of audio_resample_init. */
  method EuclidLoop(inputRate: nat, outputRate: nat) returns (g: nat)
    ensures g == Gcd(inputRate, outputRate)
  {
    var b: nat := outputRate;
    g := inputRate;
    while b != 0
      invariant Gcd(g, b) == Gcd(inputRate, outputRate)
      decreases b
    {
      var t := b;
      b := g % b;
      g := t;
    }
  }

  lemma DividesSum(d: int, a: int, b: int, m: int)
    requires Divides(d, a) && Divides(d, b)
    ensures Divides(d, a + m * b)
  {
    var k :| Times(k, d) == a;
    var l :| Times(l, d) == b;
    assert a + m * b == (k + m * l) * d;
    DividesIntro(d, a + m * b, k + m * l);
  }

  /** The gcd divides both arguments. */
  lemma {:induction false} GcdDivides(a: nat, b: nat)
    ensures Divides(Gcd(a, b), a) && Divides(Gcd(a, b), b)
    decreases b
  {
    if b == 0 {
      DividesIntro(a, a, 1);
      DividesIntro(a, 0, 0);
    } else {
      GcdDivides(b, a % b);
      DividesSum(Gcd(a, b), a % b, b, a / b);
      assert a == a % b + (a / b) * b;
    }
  }

  /** Coefficients with a * x + b * y == Gcd(a, b). */
  function Bezout(a: nat, b: nat): (int, int)
    decreases b
  {
    if b == 0 then (1, 0)
    else
      var (x, y) := Bezout(b, a % b);
      (y, x - (a / b) * y)
  }

  lemma BezoutStep(b: int, q: int, r: int, x: int, y: int)
    ensures (q * b + r) * y + b * (x - q * y) == b * x + r * y
  {
    assert (q * b + r) * y == q * b * y + r * y;
    assert b * (x - q * y) == b * x - b * (q * y);
    assert q * b * y == b * (q * y);
  }

  lemma {:induction false} BezoutHolds(a: nat, b: nat)
    ensures var (x, y) := Bezout(a, b);
            a * x + b * y == Gcd(a, b)
    decreases b
  {
    if b != 0 {
      var (x, y) := Bezout(b, a % b);
      BezoutHolds(b, a % b);
      var q, r := a / b, a % b;
      assert a == q * b + r;
      BezoutStep(b, q, r, x, y);
    }
  }

  /** Every common divisor divides the gcd. */
  lemma GcdIsGreatest(a: nat, b: nat, d: int)
    requires Divides(d, a) && Divides(d, b)
    ensures Divides(d, Gcd(a, b))
  {
    BezoutHolds(a, b);
    var (x, y) := Bezout(a, b);
    var k :| Times(k, d) == a;
    var l :| Times(l, d) == b;
    assert Gcd(a, b) == (k * x + l * y) * d;
    DividesIntro(d, Gcd(a, b), k * x + l * y);
  }

  lemma ProductsRegroup(k: int, x: int, l: int, y: int, d: int)
    ensures (k * d) * x + (l * d) * y == (k * x + l * y) * d
  {
  }

  /** The gcd of positive rates is positive, and divides them into coprime parts. */
  lemma ReducedRates(src: nat, dst: nat)
    requires src > 0 && dst > 0
    ensures var g := Gcd(src, dst);
            && g > 0 && src == (src / g) * g && dst == (dst / g) * g
            && src / g > 0 && dst / g > 0 && Coprime(src / g, dst / g)
  {
    var g := Gcd(src, dst);
    GcdDivides(src, dst);
    var a :| Times(a, g) == src;
    var b :| Times(b, g) == dst;
    QuotientIs(src, a, g);
    QuotientIs(dst, b, g);
    BezoutHolds(src, dst);
    var (x, y) := Bezout(src, dst);
    ProductsRegroup(a, x, b, y, g);
    CancelFactor(a * x + b * y, 1, g);
    assert Combine(a, b, x, y) == 1;
  }

  function Combine(a: int, b: int, x: int, y: int): int {
    a * x + b * y
  }

  /** Some combination of the two is 1. */
  ghost predicate Coprime(a: int, b: int) {
    exists x, y :: Combine(a, b, x, y) == 1
  }

  lemma QuotientIs(n: nat, k: int, g: nat)
    requires n > 0 && n == k * g
    ensures g > 0 && k > 0 && n / g == k && n == (n / g) * g
  {
    ProductSign(k, g);
    DivideProduct(k, g);
  }

  lemma ProductSign(k: int, g: nat)
    requires k * g > 0
    ensures k > 0 && g > 0
  {
  }

  lemma DivideProduct(k: int, g: int)
    requires g > 0
    ensures (k * g) / g == k
  {
    var q, r := (k * g) / g, (k * g) % g;
    assert k * g == q * g + r;
    SmallMultiple(k - q, g, r);
  }

  lemma SmallMultiple(d: int, g: int, r: int)
    requires g > 0 && 0 <= r < g && d * g == r
    ensures d == 0
  {
  }

  lemma CancelFactor(x: int, y: int, g: int)
    requires g > 0 && x * g == y * g
    ensures x == y
  {
  }

  /** Euclid's lemma. */
  lemma CoprimeDivides(n: int, a: int, c: int)
    requires Coprime(a, n) && Divides(n, a * c)
    ensures Divides(n, c)
  {
    var x, y :| Combine(a, n, x, y) == 1;
    var k :| Times(k, n) == a * c;
    assert c == c * (a * x + n * y);
    assert c * (a * x) == (a * c) * x == k * n * x;
    assert c == (k * x + c * y) * n by { ProductsRegroup(k, x, c, y, n); }
    DividesIntro(n, c, k * x + c * y);
  }

  lemma DividesScaled(d: int, a: int, g: int)
    requires g != 0
    ensures Divides(d * g, a * g) <==> Divides(d, a)
  {
    if Divides(d * g, a * g) {
      var k :| Times(k, d * g) == a * g;
      assert (k * d - a) * g == 0;
      DividesIntro(d, a, k);
    }
    if Divides(d, a) {
      var k :| Times(k, d) == a;
      assert k * (d * g) == a * g;
      DividesIntro(d * g, a * g, k);
    }
  }

  /** dst divides src * f exactly when dst / gcd divides f. */
  lemma FilterCountDivides(src: nat, dst: nat, f: int)
    requires src > 0 && dst > 0
    ensures Divides(dst, src * f) <==> Divides(dst / Gcd(src, dst), f)
  {
    ReducedRates(src, dst);
    var g := Gcd(src, dst);
    var a, b := src / g, dst / g;
    Commutes(a, g, f);
    DividesScaled(b, a * f, g);
    CoprimeFactor(a, b, f);
  }

  lemma Commutes(a: int, g: int, f: int)
    ensures (a * g) * f == (a * f) * g
  {
  }

  lemma CoprimeFactor(a: int, b: int, f: int)
    requires Coprime(a, b)
    ensures Divides(b, a * f) <==> Divides(b, f)
  {
    if Divides(b, a * f) {
      CoprimeDivides(b, a, f);
    }
    if Divides(b, f) {
      var k :| Times(k, b) == f;
      Commutes(k, b, a);
      DividesIntro(b, a * f, a * k);
    }
  }
}
