/** Powers modulo n, and the identity behind SRP-6a (sections 2.5.3 and 2.6 of RFC 5054): the two
    sides compute the same premaster secret from different halves of the exchange. */
module ModularPower {
  function Pow(b: int, e: nat): int {
    if e == 0 then 1 else b * Pow(b, e - 1)
  }

  /** What a modular exponentiation returns. */
  function PowMod(b: int, e: nat, n: int): (r: nat)
    requires n > 0
    ensures r < n
  {
    Pow(b, e) % n
  }

  /** a and b leave the same remainder. */
  ghost predicate Same(a: int, b: int, n: int)
    requires n > 0
  {
    exists k :: a - b == Multiple(k, n)
  }

  function Multiple(k: int, n: int): int {
    k * n
  }

  lemma MultiplesAdd(k: int, l: int, n: int)
    ensures Multiple(k, n) + Multiple(l, n) == Multiple(k + l, n)
    ensures Multiple(k, n) - Multiple(l, n) == Multiple(k - l, n)
  {
  }

  lemma MultipleIsFar(k: int, n: int)
    requires n > 0
    ensures k >= 1 ==> Multiple(k, n) >= n
    ensures k <= -1 ==> Multiple(k, n) <= -n
  {
    if k >= 1 {
      assert (k - 1) * n >= 0;
    } else if k <= -1 {
      assert (-k - 1) * n >= 0;
    }
  }

  lemma SameRemainder(a: int, n: int)
    requires n > 0
    ensures Same(a, a % n, n)
  {
    assert a - a % n == Multiple(a / n, n);
  }

  lemma SameSteps(a: int, b: int, c: int, n: int)
    requires n > 0 && Same(a, b, n)
    ensures Same(b, a, n)
    ensures Same(b, c, n) ==> Same(a, c, n)
  {
    var k :| a - b == Multiple(k, n);
    MultiplesAdd(0, k, n);
    assert b - a == Multiple(-k, n);
    if Same(b, c, n) {
      var l :| b - c == Multiple(l, n);
      MultiplesAdd(k, l, n);
      assert a - c == Multiple(k + l, n);
    }
  }

  /** The predicate is what its name says. */
  lemma {:induction false} SameMeansRemainders(a: int, b: int, n: int)
    requires n > 0
    ensures Same(a, b, n) <==> a % n == b % n
  {
    SameRemainder(a, n);
    SameRemainder(b, n);
    if a % n == b % n {
      SameSteps(b, b % n, b, n);
      SameSteps(a, a % n, b, n);
    }
    if Same(a, b, n) {
      SameSteps(a, a % n, b, n);
      SameSteps(a % n, a, b, n);
      SameSteps(a % n, b, b % n, n);
      var k :| a % n - b % n == Multiple(k, n);
      MultipleIsFar(k, n);
    }
  }

  lemma SameSum(a: int, b: int, c: int, d: int, n: int)
    requires n > 0 && Same(a, b, n) && Same(c, d, n)
    ensures Same(a + c, b + d, n) && Same(a - c, b - d, n)
  {
    var k :| a - b == Multiple(k, n);
    var l :| c - d == Multiple(l, n);
    MultiplesAdd(k, l, n);
    assert (a + c) - (b + d) == Multiple(k + l, n);
    assert (a - c) - (b - d) == Multiple(k - l, n);
  }

  lemma ProductDifference(a: int, b: int, c: int, d: int)
    ensures a * c - b * d == (a - b) * c + b * (c - d)
  {
  }

  lemma MultipleTimes(k: int, n: int, c: int)
    ensures Multiple(k, n) * c == Multiple(k * c, n) && c * Multiple(k, n) == Multiple(k * c, n)
  {
    assert k * n * c == k * c * n;
  }

  lemma SameProduct(a: int, b: int, c: int, d: int, n: int)
    requires n > 0 && Same(a, b, n) && Same(c, d, n)
    ensures Same(a * c, b * d, n)
  {
    var k :| a - b == Multiple(k, n);
    var l :| c - d == Multiple(l, n);
    ProductDifference(a, b, c, d);
    MultipleTimes(k, n, c);
    MultipleTimes(l, n, b);
    MultiplesAdd(k * c, l * b, n);
    assert a * c - b * d == Multiple(k * c + l * b, n);
  }

  lemma {:induction false} SamePower(a: int, b: int, e: nat, n: int)
    requires n > 0 && Same(a, b, n)
    ensures Same(Pow(a, e), Pow(b, e), n)
  {
    if e == 0 {
      assert 1 - 1 == Multiple(0, n);
    } else {
      SamePower(a, b, e - 1, n);
      SameProduct(a, b, Pow(a, e - 1), Pow(b, e - 1), n);
    }
  }

  lemma {:induction false} PowerOfSum(b: int, x: nat, y: nat)
    ensures Pow(b, x + y) == Pow(b, x) * Pow(b, y)
  {
    if x > 0 {
      PowerOfSum(b, x - 1, y);
      assert b * (Pow(b, x - 1) * Pow(b, y)) == b * Pow(b, x - 1) * Pow(b, y);
    }
  }

  lemma {:induction false} PowerOfPower(b: int, x: nat, y: nat)
    ensures x * y >= 0 && Pow(Pow(b, x), y) == Pow(b, x * y)
  {
    if y > 0 {
      PowerOfPower(b, x, y - 1);
      assert x * y == x + x * (y - 1);
      PowerOfSum(b, x, x * (y - 1));
    } else {
      assert x * y == 0;
    }
  }

  lemma {:induction false} PowerOfProduct(a: int, b: int, e: nat)
    ensures Pow(a * b, e) == Pow(a, e) * Pow(b, e)
  {
    if e > 0 {
      PowerOfProduct(a, b, e - 1);
      var p, q := Pow(a, e - 1), Pow(b, e - 1);
      assert a * b * (p * q) == (a * p) * (b * q) by { Regroup(a, b, p, q); }
    }
  }

  lemma Regroup(a: int, b: int, p: int, q: int)
    ensures a * b * (p * q) == (a * p) * (b * q)
  {
    assert a * b * (p * q) == a * (b * (p * q));
    assert b * (p * q) == p * (b * q);
    assert a * (p * (b * q)) == (a * p) * (b * q);
  }

  /** The server's premaster secret, with every reduction it makes. */
  function ServerSecret(big: int, v: int, u: nat, b: nat, n: int): nat
    requires n > 0
  {
    PowMod((big * PowMod(v, u, n)) % n, b, n)
  }

  /** The client's: (B - k g^x) to the a + u x. */
  function ClientSecret(big: int, g: int, k: int, x: nat, a: nat, u: nat, n: int): nat
    requires n > 0
  {
    assert u * x >= 0;
    PowMod(big - k * PowMod(g, x, n), a + u * x, n)
  }

  /** The server's public value B = k v + g^b. */
  function ServerPublic(g: int, k: int, v: int, b: nat, n: int): nat
    requires n > 0
  {
    (k * v + PowMod(g, b, n)) % n
  }

  /** The server's base A v^u is g to the a + u x. */
  lemma {:induction false} ServerBase(big: int, g: int, a: nat, u: nat, x: nat, n: int)
    requires n > 0 && Same(big, Pow(g, a), n)
    ensures u * x >= 0 && Same((big * PowMod(PowMod(g, x, n), u, n)) % n, Pow(g, a + u * x), n)
  {
    var v := PowMod(g, x, n);
    var vu := PowMod(v, u, n);
    PowerOfPower(g, x, u);
    assert u * x == x * u;
    var xu := x * u;
    assert Same(vu, Pow(g, xu), n) by {
      SameRemainder(Pow(v, u), n);
      SameSteps(Pow(v, u), vu, 0, n);
      SameRemainder(Pow(g, x), n);
      SameSteps(Pow(g, x), v, 0, n);
      SamePower(v, Pow(g, x), u, n);
      SameSteps(vu, Pow(v, u), Pow(g, xu), n);
    }
    SameProduct(big, Pow(g, a), vu, Pow(g, xu), n);
    PowerOfSum(g, a, xu);
    SameRemainder(big * vu, n);
    SameSteps(big * vu, (big * vu) % n, 0, n);
    SameSteps((big * vu) % n, big * vu, Pow(g, a + xu), n);
  }

  /** The client's base B - k g^x is g to the b. */
  lemma ClientBase(g: int, k: int, x: nat, b: nat, n: int)
    requires n > 0
    ensures var v := PowMod(g, x, n); Same(ServerPublic(g, k, v, b, n) - k * v, Pow(g, b), n)
  {
    var kv := k * PowMod(g, x, n);
    var gb := PowMod(g, b, n);
    assert kv - kv == Multiple(0, n);
    SameRemainder(kv + gb, n);
    SameSteps(kv + gb, (kv + gb) % n, 0, n);
    SameSum((kv + gb) % n, kv + gb, kv, kv, n);
    SameRemainder(Pow(g, b), n);
    SameSteps(Pow(g, b), gb, 0, n);
    SameSteps((kv + gb) % n - kv, gb, Pow(g, b), n);
  }

  /** Both sides hold the same secret, for every choice of a, b, x, u and k and every
      representative of g^a that the client sends. */
  lemma {:induction false} SecretsAgree(big: int, g: int, k: int, a: nat, b: nat, x: nat, u: nat, n: int)
    requires n > 0 && big % n == PowMod(g, a, n)
    ensures var v := PowMod(g, x, n);
      ServerSecret(big, v, u, b, n) == ClientSecret(ServerPublic(g, k, v, b, n), g, k, x, a, u, n)
  {
    var v := PowMod(g, x, n);
    var sBase := (big * PowMod(v, u, n)) % n;
    var cBase := ServerPublic(g, k, v, b, n) - k * v;
    SameMeansRemainders(big, Pow(g, a), n);
    ServerBase(big, g, a, u, x, n);
    ClientBase(g, k, x, b, n);
    var e: nat := a + u * x;
    SamePower(sBase, Pow(g, e), b, n);
    SamePower(cBase, Pow(g, b), e, n);
    PowerOfPower(g, e, b);
    PowerOfPower(g, b, e);
    assert e * b == b * e;
    SameSteps(Pow(cBase, e), Pow(g, e * b), 0, n);
    SameSteps(Pow(sBase, b), Pow(g, e * b), Pow(cBase, e), n);
    SameMeansRemainders(Pow(sBase, b), Pow(cBase, e), n);
  }
}
