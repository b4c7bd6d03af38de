/** The elliptic curve as an abstract group of prime order.  The point at
    infinity is (0, 0), as in Go's package elliptic. */
module Curves {
  import opened Messages
  import opened Words
  import opened Modular

  datatype Point = Point(x: int, y: int)

  const INFINITY := Point(0, 0)

  datatype Curve = Curve(p: nat, n: nat, g: Point, on: Point -> bool, add: (Point, Point) -> Point)

  /** The program negates a point by subtracting y from the field's prime. */
  function Negate(e: Curve, a: Point): Point {
    Point(a.x, e.p - a.y)
  }

  predicate AddsUp(e: Curve, a: Point, b: Point) {
    e.on(e.add(a, b)) && e.add(a, b) == e.add(b, a)
  }

  predicate Associates(e: Curve, a: Point, b: Point, c: Point) {
    e.add(e.add(a, b), c) == e.add(a, e.add(b, c))
  }

  /** Coordinates are field elements; infinity is neutral; the point with the
      negated y is the opposite of any other; n times a point is infinity. */
  predicate PointOk(e: Curve, a: Point) {
    && 0 <= a.x < e.p && 0 <= a.y < e.p && e.add(a, INFINITY) == a
    && (a != INFINITY ==> e.on(Point(a.x, e.p - a.y)) && e.add(a, Point(a.x, e.p - a.y)) == INFINITY)
    && Times(e, e.n, a) == INFINITY
  }

  ghost predicate IsGroup(e: Curve) {
    && IsPrime(e.n) && e.n < TWO_256 && e.p < TWO_256
    && e.on(INFINITY) && e.on(e.g) && e.g != INFINITY
    && (forall a, b {:trigger AddsUp(e, a, b)} :: e.on(a) && e.on(b) ==> AddsUp(e, a, b))
    && (forall a, b, c {:trigger Associates(e, a, b, c)} :: e.on(a) && e.on(b) && e.on(c) ==> Associates(e, a, b, c))
    && (forall a {:trigger PointOk(e, a)} :: e.on(a) ==> PointOk(e, a))
  }

  /** k times a point. */
  function Times(e: Curve, k: nat, a: Point): Point {
    if k == 0 then INFINITY else e.add(Times(e, k - 1, a), a)
  }

  /** Scalars are big-endian bytes. */
  function ScalarMult(e: Curve, a: Point, k: Bytes): Point {
    Times(e, FromBytes(k), a)
  }

  /** Package elliptic panics, None, on a point that is not on the curve. */
  function TryScalarMult(e: Curve, a: Point, k: Bytes): Option<Point> {
    if e.on(a) then Some(ScalarMult(e, a, k)) else None
  }

  function TryAdd(e: Curve, a: Point, b: Point): Option<Point> {
    if e.on(a) && e.on(b) then Some(e.add(a, b)) else None
  }

  lemma {:induction false} TimesOn(e: Curve, k: nat, a: Point)
    requires IsGroup(e) && e.on(a)
    ensures e.on(Times(e, k, a))
  {
    if k > 0 {
      TimesOn(e, k - 1, a);
      assert AddsUp(e, Times(e, k - 1, a), a);
    }
  }

  lemma {:induction false} TimesSum(e: Curve, j: nat, k: nat, a: Point)
    requires IsGroup(e) && e.on(a)
    ensures Times(e, j + k, a) == e.add(Times(e, j, a), Times(e, k, a))
    decreases k
  {
    TimesOn(e, j, a);
    if k == 0 {
      assert PointOk(e, Times(e, j, a));
    } else {
      TimesSum(e, j, k - 1, a);
      TimesOn(e, k - 1, a);
      assert Associates(e, Times(e, j, a), Times(e, k - 1, a), a);
    }
  }

  lemma {:induction false} TimesProduct(e: Curve, j: nat, k: nat, a: Point)
    requires IsGroup(e) && e.on(a)
    ensures Times(e, j * k, a) == Times(e, j, Times(e, k, a))
  {
    if j > 0 {
      TimesProduct(e, j - 1, k, a);
      assert j * k == (j - 1) * k + k;
      TimesSum(e, (j - 1) * k, k, a);
    }
  }

  lemma {:induction false} TimesInfinity(e: Curve, k: nat)
    requires IsGroup(e)
    ensures Times(e, k, INFINITY) == INFINITY
  {
    if k > 0 {
      TimesInfinity(e, k - 1);
      assert PointOk(e, INFINITY);
    }
  }

  /** Scalars count modulo the order. */
  lemma TimesMod(e: Curve, k: nat, a: Point)
    requires IsGroup(e) && e.on(a)
    ensures Times(e, k % e.n, a) == Times(e, k, a)
  {
    var q, m := WholePart(k, e.n);
    MultipleIsInfinity(e, q, m, a);
    TimesBeyond(e, m, k % e.n, a);
  }

  lemma WholePart(k: nat, n: nat) returns (q: nat, m: nat)
    requires n > 0
    ensures m == q * n && k == m + k % n
  {
    q, m := k / n, k / n * n;
  }

  lemma MultipleIsInfinity(e: Curve, q: nat, m: nat, a: Point)
    requires IsGroup(e) && e.on(a) && m == q * e.n
    ensures Times(e, m, a) == INFINITY
  {
    TimesProduct(e, q, e.n, a);
    assert PointOk(e, a);
    TimesInfinity(e, q);
  }

  lemma TimesBeyond(e: Curve, m: nat, r: nat, a: Point)
    requires IsGroup(e) && e.on(a) && Times(e, m, a) == INFINITY
    ensures Times(e, m + r, a) == Times(e, r, a)
  {
    TimesSum(e, m, r, a);
    TimesOn(e, r, a);
    assert AddsUp(e, INFINITY, Times(e, r, a));
    assert PointOk(e, Times(e, r, a));
  }

  lemma TimesCong(e: Curve, j: nat, k: nat, a: Point)
    requires IsGroup(e) && e.on(a) && Cong(j, k, e.n)
    ensures Times(e, j, a) == Times(e, k, a)
  {
    CongMod(j, k, e.n);
    TimesMod(e, j, a);
    TimesMod(e, k, a);
  }

  /** A multiple of a point is infinity only for a multiple of the order. */
  lemma TimesNotInfinity(e: Curve, k: nat, a: Point)
    requires IsGroup(e) && e.on(a) && a != INFINITY && k % e.n != 0
    ensures Times(e, k, a) != INFINITY
  {
    PrimeUnits(k, e.n);
    ModInverseIff(k, e.n);
    var v := ModInverse(k, e.n).value;
    assert k * v == v * k;
    TimesProduct(e, v, k, a);
    TimesInfinity(e, v);
    TimesCong(e, v * k, 1, a);
    TimesOn(e, 0, a);
    assert Times(e, 1, a) == e.add(INFINITY, a);
    assert AddsUp(e, INFINITY, a);
    assert PointOk(e, a);
  }

  /** Subtracting what was added: (s + t) a - t a = s a. */
  lemma TimesDifference(e: Curve, s: nat, t: nat, a: Point)
    requires IsGroup(e) && e.on(a) && Times(e, t, a) != INFINITY
    ensures e.add(Times(e, s + t, a), Negate(e, Times(e, t, a))) == Times(e, s, a)
  {
    TimesSum(e, s, t, a);
    TimesOn(e, s, a);
    TimesOn(e, t, a);
    var b := Times(e, t, a);
    assert PointOk(e, b);
    assert Associates(e, Times(e, s, a), b, Negate(e, b));
    assert PointOk(e, Times(e, s, a));
  }

  // ----- points as bytes -----

  /** 32 big-endian bytes of a coordinate; no coordinate is negative. */
  function Field(a: int): (b: Bytes)
    ensures |b| == 32
  {
    BigEndian(if a < 0 then 0 else a, 32)
  }

  function EncodePoint(a: Point): (b: Bytes)
    ensures |b| == 64
  {
    Field(a.x) + Field(a.y)
  }

  function DecodePoint(b: Bytes): Point
    requires |b| >= 64
  {
    Point(FromBytes(b[..32]), FromBytes(b[32..64]))
  }

  lemma {:induction false} Power256Sum(j: nat, k: nat)
    ensures Power256(j + k) == Power256(j) * Power256(k)
  {
    if j > 0 {
      Power256Sum(j - 1, k);
      assert 256 * (Power256(j - 1) * Power256(k)) == 256 * Power256(j - 1) * Power256(k);
    }
  }

  lemma Power32()
    ensures Power256(32) == TWO_256
  {
    WordPower();
    Power256Sum(8, 8);
    Power256Sum(16, 16);
  }

  /** A point of the curve survives encoding. */
  lemma PointRoundTrip(e: Curve, a: Point, rest: Bytes)
    requires IsGroup(e) && e.on(a)
    ensures DecodePoint(EncodePoint(a) + rest) == a
  {
    assert PointOk(e, a);
    Power32();
    DecodeEncode(a.x, 32);
    DecodeEncode(a.y, 32);
    var b := EncodePoint(a) + rest;
    assert b[..32] == BigEndian(a.x, 32) && b[32..64] == BigEndian(a.y, 32);
  }
}
