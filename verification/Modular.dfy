/** Arithmetic modulo n: congruence, units, and the modular inverse by the
    extended Euclidean algorithm. */
module Modular {
  import opened Messages

  function Scaled(k: int, n: int): int {
    k * n
  }

  /** a and b differ by a multiple of n. */
  ghost predicate Cong(a: int, b: int, n: nat) {
    exists k :: a - b == Scaled(k, n)
  }

  lemma ProductAtLeast(k: int, n: nat)
    ensures k >= 1 ==> k * n >= n
    ensures k <= 0 ==> k * n <= 0
    ensures k <= -1 ==> k * n + n <= 0
  {
  }

  lemma CongFrom(a: int, b: int, k: int, n: nat)
    requires a - b == k * n
    ensures Cong(a, b, n)
  {
    assert a - b == Scaled(k, n);
  }

  lemma CongWitness(a: int, b: int, n: nat) returns (k: int)
    requires Cong(a, b, n)
    ensures a - b == k * n
  {
    k :| a - b == Scaled(k, n);
  }

  lemma CongRefl(a: int, n: nat)
    ensures Cong(a, a, n)
  {
    CongFrom(a, a, 0, n);
  }

  lemma CongSym(a: int, b: int, n: nat)
    requires n > 0 && Cong(a, b, n)
    ensures Cong(b, a, n)
  {
    var k := CongWitness(a, b, n);
    CongFrom(b, a, -k, n);
  }

  lemma CongTrans(a: int, b: int, c: int, n: nat)
    requires n > 0 && Cong(a, b, n) && Cong(b, c, n)
    ensures Cong(a, c, n)
  {
    var j := CongWitness(a, b, n);
    var k := CongWitness(b, c, n);
    assert a - c == (j + k) * n;
    CongFrom(a, c, j + k, n);
  }

  lemma CongAdd(a: int, b: int, c: int, d: int, n: nat)
    requires n > 0 && Cong(a, b, n) && Cong(c, d, n)
    ensures Cong(a + c, b + d, n)
  {
    var j := CongWitness(a, b, n);
    var k := CongWitness(c, d, n);
    assert (a + c) - (b + d) == (j + k) * n;
    CongFrom(a + c, b + d, j + k, n);
  }

  /** A congruence times a number. */
  lemma CongScale(a: int, b: int, c: int, n: nat)
    requires n > 0 && Cong(a, b, n)
    ensures Cong(a * c, b * c, n)
  {
    var j := CongWitness(a, b, n);
    assert a * c - b * c == (a - b) * c;
    assert (j * n) * c == (j * c) * n;
    CongFrom(a * c, b * c, j * c, n);
  }

  lemma CongMul(a: int, b: int, c: int, d: int, n: nat)
    requires n > 0 && Cong(a, b, n) && Cong(c, d, n)
    ensures Cong(a * c, b * d, n)
  {
    CongScale(a, b, c, n);
    CongScale(c, d, b, n);
    CongTrans(a * c, b * c, b * d, n);
  }

  lemma ModCong(a: int, n: nat)
    requires n > 0
    ensures Cong(a % n, a, n) && Cong(a, a % n, n)
  {
    CongFrom(a, a % n, a / n, n);
    CongSym(a, a % n, n);
  }

  lemma CongMod(a: int, b: int, n: nat)
    requires n > 0
    ensures Cong(a, b, n) <==> a % n == b % n
  {
    ModCong(a, n);
    ModCong(b, n);
    if a % n == b % n {
      CongTrans(a, a % n, b, n);
    }
    if Cong(a, b, n) {
      CongTrans(a % n, a, b, n);
      CongTrans(a % n, b, b % n, n);
      var k := CongWitness(a % n, b % n, n);
      ProductAtLeast(k, n);
    }
  }

  // ----- units -----

  ghost predicate Inverse(a: int, b: int, n: nat) {
    Cong(a * b, 1, n)
  }

  ghost predicate Unit(a: int, n: nat) {
    exists b :: Inverse(a, b, n)
  }

  /** Units cancel. */
  lemma Cancel(u: int, a: int, b: int, n: nat)
    requires n > 0 && Unit(u, n) && Cong(a * u, b * u, n)
    ensures Cong(a, b, n)
  {
    var v :| Inverse(u, v, n);
    CongScale(a * u, b * u, v, n);
    CongScale(u * v, 1, a, n);
    CongScale(u * v, 1, b, n);
    assert (u * v) * a == a * u * v && (u * v) * b == b * u * v;
    CongSym(a * u * v, a, n);
    CongTrans(a, a * u * v, b * u * v, n);
    CongTrans(a, b * u * v, b, n);
  }

  lemma UnitProduct(a: int, b: int, n: nat)
    requires n > 0 && Unit(a, n) && Unit(b, n)
    ensures Unit(a * b, n)
  {
    var u :| Inverse(a, u, n);
    var v :| Inverse(b, v, n);
    CongMul(a * u, 1, b * v, 1, n);
    assert (a * u) * (b * v) == (a * b) * (u * v);
    assert Inverse(a * b, u * v, n);
  }

  // ----- the extended Euclidean algorithm -----

  datatype Bezout = Bezout(gcd: nat, x: int, y: int)

  function Egcd(a: nat, b: nat): Bezout
    decreases b
  {
    if b == 0 then Bezout(a, 1, 0)
    else
      var e := Egcd(b, a % b);
      Bezout(e.gcd, e.y, e.x - a / b * e.y)
  }

  lemma CombineStep(a: int, b: int, q: int, r: int, x: int, y: int)
    requires a == q * b + r
    ensures a * y + b * (x - q * y) == b * x + r * y
  {
    assert a * y == q * b * y + r * y;
    assert b * (x - q * y) == b * x - q * b * y;
  }

  lemma {:induction false} EgcdCombines(a: nat, b: nat)
    ensures var e := Egcd(a, b); e.gcd == a * e.x + b * e.y
    decreases b
  {
    if b > 0 {
      EgcdCombines(b, a % b);
      var e := Egcd(b, a % b);
      CombineStep(a, b, a / b, a % b, e.x, e.y);
    }
  }

  lemma DividesWhole(a: int, n: nat, g: nat)
    requires n > 0 && g > 0 && Cong(n, 0, g) && Cong(a % n, 0, g)
    ensures Cong(a, 0, g)
  {
    var q := a / n;
    CongScale(n, 0, q, g);
    CongAdd(n * q, 0, a % n, 0, g);
  }

  lemma {:induction false} EgcdDivides(a: nat, b: nat)
    requires a > 0 || b > 0
    ensures var g := Egcd(a, b).gcd; g > 0 && Cong(a, 0, g) && Cong(b, 0, g)
    decreases b
  {
    if b == 0 {
      CongFrom(a, 0, 1, a);
      CongRefl(0, a);
    } else {
      EgcdDivides(b, a % b);
      DividesWhole(a, b, Egcd(a, b).gcd);
    }
  }

  /** The inverse in 0 .. n-1, when there is one. */
  function ModInverse(a: int, n: nat): Option<int>
    requires n > 0
  {
    var e := Egcd(a % n, n);
    if e.gcd == 1 then Some(e.x % n) else None
  }

  /** ModInverse finds an inverse exactly when there is one. */
  lemma ModInverseIff(a: int, n: nat)
    requires n > 1
    ensures ModInverse(a, n).Some? <==> Unit(a, n)
    ensures ModInverse(a, n).Some? ==> 0 <= ModInverse(a, n).value < n && Inverse(a, ModInverse(a, n).value, n)
  {
    var e := Egcd(a % n, n);
    EgcdCombines(a % n, n);
    EgcdDivides(a % n, n);
    if e.gcd == 1 {
      FoundInverse(a, e.x, e.y, n);
    }
    if Unit(a, n) {
      UnitMeansCoprime(a, n);
    }
  }

  lemma FoundInverse(a: int, x: int, y: int, n: nat)
    requires n > 1 && 1 == (a % n) * x + n * y
    ensures Inverse(a, x % n, n) && Unit(a, n)
  {
    ModCong(a, n);
    ModCong(x, n);
    CongMul(a, a % n, x % n, x, n);
    CongFrom((a % n) * x, 1, -y, n);
    CongTrans(a * (x % n), (a % n) * x, 1, n);
    assert Inverse(a, x % n, n);
  }

  lemma UnitMeansCoprime(a: int, n: nat)
    requires n > 1 && Unit(a, n)
    ensures Egcd(a % n, n).gcd == 1
  {
    var g := Egcd(a % n, n).gcd;
    EgcdDivides(a % n, n);
    DividesWhole(a, n, g);
    var b :| Inverse(a, b, n);
    var k := CongWitness(a * b, 1, n);
    CommonDivisorIsOne(a, b, k, n, g);
  }

  /** A common divisor of a and n divides 1 when a has an inverse modulo n. */
  lemma CommonDivisorIsOne(a: int, b: int, k: int, n: nat, g: nat)
    requires g > 0 && Cong(a, 0, g) && Cong(n, 0, g) && a * b - 1 == k * n
    ensures g == 1
  {
    CongScale(a, 0, b, g);
    CongScale(n, 0, -k, g);
    CongAdd(a * b, 0, n * -k, 0, g);
    var m := CongWitness(1, 0, g);
    OneIsProduct(m, g);
  }

  lemma OneIsProduct(m: int, g: nat)
    requires m * g == 1
    ensures g == 1
  {
    ProductAtLeast(m, g);
  }

  // ----- primes -----

  ghost predicate IsPrime(n: nat) {
    n > 1 && forall d :: 1 < d < n ==> n % d != 0
  }

  lemma DivisorAtMost(m: nat, g: nat)
    requires m > 0 && g > 0 && Cong(m, 0, g)
    ensures g <= m
  {
    var t := CongWitness(m, 0, g);
    ProductAtLeast(t, g);
  }

  /** Modulo a prime, everything but zero is a unit. */
  lemma PrimeUnits(a: int, n: nat)
    requires IsPrime(n) && a % n != 0
    ensures Unit(a, n)
  {
    EgcdDivides(a % n, n);
    var g := Egcd(a % n, n).gcd;
    DivisorAtMost(a % n, g);
    CongMod(n, 0, g);
    ModInverseIff(a, n);
  }

  /** Two numbers that differ modulo a prime have a unit for difference. */
  lemma DifferenceIsUnit(a: int, b: int, n: nat)
    requires IsPrime(n) && !Cong(a, b, n)
    ensures Unit(a - b, n)
  {
    if (a - b) % n == 0 {
      CongFrom(a, b, (a - b) / n, n);
    } else {
      PrimeUnits(a - b, n);
    }
  }
}
