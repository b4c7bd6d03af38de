/** The threshold PRF: dealing, Lagrange coefficients and combination, as the
    loops of the program over limbs and bytes, and what they compute. */
module ThresholdPrf {
  import opened Messages
  import opened Words
  import opened Modular
  import opened Interpolation
  import opened Curves
  import opened HashChain

  /** Four limbs of a longer list. */
  function LimbsAt(list: seq<U64>, i: nat): Limbs
    requires i + 4 <= |list|
  {
    [list[i], list[i + 1], list[i + 2], list[i + 3]]
  }

  function Put(list: seq<U64>, i: nat, l: Limbs): (r: seq<U64>)
    requires i + 4 <= |list|
    ensures |r| == |list| && LimbsAt(r, i) == l
    ensures forall j :: 0 <= j && j + 4 <= |list| && (j + 4 <= i || i + 4 <= j) ==> LimbsAt(r, j) == LimbsAt(list, j)
  {
    list[i := l[0]][i + 1 := l[1]][i + 2 := l[2]][i + 3 := l[3]]
  }

  method StoreLimbs(list: array<U64>, i: nat, l: Limbs)
    requires i + 4 <= list.Length
    modifies list
    ensures list[..] == Put(old(list[..]), i, l)
  {
    list[i] := l[0];
    list[i + 1] := l[1];
    list[i + 2] := l[2];
    list[i + 3] := l[3];
  }

  // ----- the dealer -----

  function Power(x: int, k: nat): int {
    if k == 0 then 1 else x * Power(x, k - 1)
  }

  lemma ShiftUp(x: int, low: int, c: int, power: int)
    ensures x * (low + c * power) == x * low + c * (x * power)
  {
    assert x * (c * power) == c * (x * power);
  }

  lemma {:induction false} EvalAppend(a: seq<int>, c: int, x: int)
    ensures Eval(a + [c], x) == Eval(a, x) + c * Power(x, |a|)
  {
    if a == [] {
      assert [c][1..] == [] && a + [c] == [c];
    } else {
      var b := a + [c];
      assert b[1..] == a[1..] + [c] && b[0] == a[0];
      EvalAppend(a[1..], c, x);
      ShiftUp(x, Eval(a[1..], x), c, Power(x, |a| - 1));
    }
  }

  function Coefficients(random: seq<Bytes>): seq<int> {
    seq(|random|, j requires 0 <= j < |random| => FromBytes(random[j]))
  }

  /** One step of the dealer's sum, with its reductions modulo n. */
  lemma DealStep(sum: int, prior: int, c: int, power: int, n: nat)
    requires n > 0 && Cong(sum, prior, n)
    ensures Cong((sum + c * (power % n) % n) % n, prior + c * power, n)
  {
    ModCong(power, n);
    CongScale(power % n, power, c, n);
    assert (power % n) * c == c * (power % n) && power * c == c * power;
    ModCong(c * (power % n), n);
    CongTrans(c * (power % n) % n, c * (power % n), c * power, n);
    CongAdd(sum, prior, c * (power % n) % n, c * power, n);
    var t := sum + c * (power % n) % n;
    ModCong(t, n);
    CongTrans(t % n, t, prior + c * power, n);
  }

  lemma EvalPrefix(a: seq<int>, j: nat, x: int)
    requires j < |a|
    ensures Eval(a[..j + 1], x) == Eval(a[..j], x) + a[j] * Power(x, j)
  {
    EvalAppend(a[..j], a[j], x);
    assert a[..j + 1] == a[..j] + [a[j]];
  }

  /** Adds c i^j to the sum, reducing after every operation. */
  method AddTerm(n: nat, sum: int, ghost prior: int, c: int, i: nat, j: nat) returns (r: int)
    requires n > 0 && Cong(sum, prior, n)
    ensures Cong(r, prior + c * Power(i, j), n)
  {
    DealStep(sum, prior, c, Power(i, j), n);
    var ibig := Power(i, j) % n;
    var tpbig := c * ibig;
    tpbig := tpbig % n;
    r := sum + tpbig;
    r := r % n;
  }

  /** Party i's secret key: the polynomial at i modulo n, though the first
      coefficient may exceed n and every step reduces. */
  method DealKey(n: nat, ra64: seq<U64>, ghost a: seq<int>, i: nat) returns (sk: Limbs)
    requires 1 < n < TWO_256 && |a| >= 1 && |ra64| == 4 * |a|
    requires forall j :: 0 <= j < |a| ==> LimbValue(LimbsAt(ra64, 4 * j)) == a[j]
    ensures LimbValue(sk) == Eval(a, i) % n
  {
    var skbig := U64toBigint_256(LimbsAt(ra64, 0));
    var j := 1;
    assert a[..1] == [a[0]] && Eval(a[..1], i) == a[0] by {
      assert [a[0]][1..] == [];
    }
    CongRefl(a[0], n);
    while 4 * j < |ra64|
      invariant 1 <= j <= |a|
      invariant Cong(skbig, Eval(a[..j], i), n)
    {
      var tpbig := U64toBigint_256(LimbsAt(ra64, 4 * j));
      skbig := AddTerm(n, skbig, Eval(a[..j], i), tpbig, i, j);
      EvalPrefix(a, j, i);
      j := j + 1;
    }
    assert a[..j] == a;
    CongMod(skbig, Eval(a, i), n);
    skbig := skbig % n;
    sk := BiginttoU64_256(skbig);
  }

  /** The dealer's limbs for the random bytes. */
  method DealCoefficients(random: seq<Bytes>) returns (ra64: seq<U64>)
    requires forall j :: 0 <= j < |random| ==> |random[j]| == 32
    ensures |ra64| == 4 * |random|
    ensures forall j :: 0 <= j < |random| ==> LimbValue(LimbsAt(ra64, 4 * j)) == Coefficients(random)[j]
  {
    var ra := new U64[4 * |random|];
    var i := 0;
    while i < |random|
      invariant 0 <= i <= |random|
      invariant forall j :: 0 <= j < i ==> LimbValue(LimbsAt(ra[..], 4 * j)) == Coefficients(random)[j]
    {
      LimbsOfBytes(random[i]);
      assert random[i][..32] == random[i];
      StoreLimbs(ra, 4 * i, BytetoU64_256(random[i]));
      i := i + 1;
    }
    ra64 := ra[..];
  }

  function SecretKey(n: nat, a: seq<int>, i: nat): (s: nat)
    requires n > 0
    ensures s < n
  {
    Eval(a, i) % n
  }

  /** What the dealer hands to party i. */
  ghost predicate Dealt(e: Curve, a: seq<int>, sk: seq<U64>, vk: seq<U64>, i: nat)
    requires e.n > 0 && 4 * i + 4 <= |sk| && 8 * i + 8 <= |vk|
  {
    && LimbValue(LimbsAt(sk, 4 * i)) == SecretKey(e.n, a, i)
    && Point(LimbValue(LimbsAt(vk, 8 * i)), LimbValue(LimbsAt(vk, 8 * i + 4))) == Times(e, SecretKey(e.n, a, i), e.g)
  }

  lemma DealtStays(e: Curve, a: seq<int>, sk: seq<U64>, vk: seq<U64>, sk': seq<U64>, vk': seq<U64>, i: nat, n: nat)
    requires e.n > 0 && i <= n && 4 * n + 4 <= |sk| == |sk'| && 8 * n + 8 <= |vk| == |vk'|
    requires sk'[..4 * n] == sk[..4 * n] && vk'[..8 * n] == vk[..8 * n]
    requires i < n && Dealt(e, a, sk, vk, i)
    ensures Dealt(e, a, sk', vk', i)
  {
    assert forall t :: 0 <= t < 4 * n ==> sk'[..4 * n][t] == sk'[t] && sk[..4 * n][t] == sk[t];
    assert forall t :: 0 <= t < 8 * n ==> vk'[..8 * n][t] == vk'[t] && vk[..8 * n][t] == vk[t];
  }

  /** Both coordinates of a party's public key. */
  method PublicKey(e: Curve, key: Limbs) returns (x: Limbs, y: Limbs)
    requires IsGroup(e)
    ensures Point(LimbValue(x), LimbValue(y)) == Times(e, LimbValue(key), e.g)
  {
    BytesOfLimbs(key);
    var pub := ScalarMult(e, e.g, U64toByte_256(key));
    TimesOn(e, LimbValue(key), e.g);
    assert PointOk(e, pub);
    x := BiginttoU64_256(pub.x);
    y := BiginttoU64_256(pub.y);
  }

  method StoreKeys(sk64: array<U64>, vk64: array<U64>, i: nat, key: Limbs, x: Limbs, y: Limbs)
    requires sk64 != vk64 && 4 * i + 4 <= sk64.Length && 8 * i + 8 <= vk64.Length
    modifies sk64, vk64
    ensures LimbsAt(sk64[..], 4 * i) == key && LimbsAt(vk64[..], 8 * i) == x && LimbsAt(vk64[..], 8 * i + 4) == y
    ensures sk64[..4 * i] == old(sk64[..4 * i]) && vk64[..8 * i] == old(vk64[..8 * i])
  {
    StoreLimbs(sk64, 4 * i, key);
    StoreLimbs(vk64, 8 * i, x);
    StoreLimbs(vk64, 8 * i + 4, y);
    assert forall t :: 0 <= t < 4 * i ==> sk64[t] == sk64[..][t];
    assert forall t :: 0 <= t < 8 * i ==> vk64[t] == vk64[..][t];
  }

  method GenKeyDealer(e: Curve, n: nat, k: nat, random: seq<Bytes>) returns (vk: seq<U64>, sk: seq<U64>)
    requires IsGroup(e) && k >= 1 && |random| == k
    requires forall j :: 0 <= j < |random| ==> |random[j]| == 32
    ensures |vk| == 8 * n && |sk| == 4 * n
    ensures forall i :: 0 <= i < n ==> Dealt(e, Coefficients(random), sk, vk, i)
  {
    var vk64, sk64 := new U64[8 * n], new U64[4 * n];
    var ra64 := DealCoefficients(random);
    ghost var a := Coefficients(random);
    var i := 0;
    while i < n
      invariant 0 <= i <= n
      invariant forall j :: 0 <= j < i ==> Dealt(e, a, sk64[..], vk64[..], j)
    {
      ghost var skBefore, vkBefore := sk64[..], vk64[..];
      var key := DealKey(e.n, ra64, a, i);
      var x, y := PublicKey(e, key);
      StoreKeys(sk64, vk64, i, key, x, y);
      assert Dealt(e, a, sk64[..], vk64[..], i);
      forall j | 0 <= j < i ensures Dealt(e, a, sk64[..], vk64[..], j) {
        DealtStays(e, a, skBefore, vkBefore, sk64[..], vk64[..], j, i);
      }
      i := i + 1;
    }
    vk, sk := vk64[..], sk64[..];
  }

  // ----- Lagrange coefficients -----

  /** The ids before j other than the i-th. */
  function Seen(ids: seq<int>, i: nat, j: nat): seq<int>
    requires i < |ids| && j <= |ids|
  {
    if j <= i then ids[..j] else ids[..i] + ids[i + 1..j]
  }

  lemma SeenStep(ids: seq<int>, i: nat, j: nat, x: int)
    requires i < |ids| && j < |ids|
    ensures j == i ==> Seen(ids, i, j + 1) == Seen(ids, i, j)
    ensures j != i ==> NodeProduct(Seen(ids, i, j + 1), x) == NodeProduct(Seen(ids, i, j), x) * (x - ids[j])
  {
    var s := Seen(ids, i, j + 1);
    if j == i {
      assert s == Seen(ids, i, j);
    } else {
      assert s[..|s| - 1] == Seen(ids, i, j) && s[|s| - 1] == ids[j];
    }
  }

  lemma MulMod(a: int, b: int, n: nat)
    requires n > 0
    ensures (a % n) * b % n == a * b % n
  {
    ModCong(a, n);
    CongScale(a % n, a, b, n);
    CongMod((a % n) * b, a * b, n);
  }

  lemma LambdaRange(n: nat, ids: seq<int>, i: nat, x: int)
    requires n > 0 && i < |ids|
    ensures 0 <= Lambda(n, ids, i, x) < n
  {
  }

  /** Numerator and denominator of the i-th coefficient, reduced at every factor. */
  method Fraction(n: nat, idarr: seq<int>, k: nat, i: nat, id: int) returns (top: int, bottom: int)
    requires n > 1 && i < k <= |idarr|
    ensures top == Others(idarr[..k], i, id) % n
    ensures bottom == Others(idarr[..k], i, idarr[i]) % n
  {
    top, bottom := 1, 1;
    ghost var ids := idarr[..k];
    var j := 0;
    while j < k
      invariant 0 <= j <= k
      invariant top == NodeProduct(Seen(ids, i, j), id) % n
      invariant bottom == NodeProduct(Seen(ids, i, j), idarr[i]) % n
    {
      SeenStep(ids, i, j, id);
      SeenStep(ids, i, j, idarr[i]);
      if i != j {
        MulMod(NodeProduct(Seen(ids, i, j), id), id - idarr[j], n);
        MulMod(NodeProduct(Seen(ids, i, j), idarr[i]), idarr[i] - idarr[j], n);
        top := top * (id - idarr[j]);
        top := top % n;
        bottom := bottom * (idarr[i] - idarr[j]);
        bottom := bottom % n;
      }
      j := j + 1;
    }
    assert Seen(ids, i, k) == Without(ids, i);
  }

  /** The coefficients of the first k ids, as limbs; nothing when ids are missing. */
  method ComputeLagrangeinter(n: nat, idarr: seq<int>, k: nat, id: int) returns (lagrang: Option<seq<U64>>)
    requires 1 < n < TWO_256
    ensures lagrang.None? <==> |idarr| < k
    ensures lagrang.Some? ==> |lagrang.value| == 4 * k
    ensures lagrang.Some? ==>
      forall i :: 0 <= i < k ==> LimbValue(LimbsAt(lagrang.value, 4 * i)) == Lambda(n, idarr[..k], i, id)
  {
    if |idarr| < k {
      return None;
    }
    var lag := new U64[4 * k];
    var i := 0;
    while i < k
      invariant 0 <= i <= k
      invariant forall j :: 0 <= j < i ==> LimbValue(LimbsAt(lag[..], 4 * j)) == Lambda(n, idarr[..k], j, id)
    {
      var top, bottom := Fraction(n, idarr, k, i, id);
      var inverse := ModInverse(bottom, n);
      if inverse.Some? {
        bottom := inverse.value;
      }
      top := top * bottom;
      top := top % n;
      LambdaRange(n, idarr[..k], i, id);
      var tp64 := BiginttoU64_256(top);
      StoreLimbs(lag, 4 * i, tp64);
      i := i + 1;
    }
    lagrang := Some(lag[..]);
  }

  /** For any k parties of a dealing, in any order and for any target: every
      inverse exists, and the coefficients take their secret keys to the
      polynomial's value at the target. */
  lemma KeysInterpolate(n: nat, ids: seq<int>, a: seq<int>, x: int)
    requires IsPrime(n) && DistinctMod(ids, n) && |a| == |ids|
    requires forall i :: 0 <= i < |ids| ==> ids[i] >= 0
    ensures Cong(Dot(Lambdas(n, ids, x), Keys(n, a, ids)), Eval(a, x), n)
    ensures forall i :: 0 <= i < |ids| ==> ModInverse(Others(ids, i, ids[i]) % n, n).Some?
  {
    forall i | 0 <= i < |ids|
      ensures Cong(Keys(n, a, ids)[i], Eval(a, ids[i]), n) && ModInverse(Others(ids, i, ids[i]) % n, n).Some?
    {
      ModCong(Eval(a, ids[i]), n);
      DenominatorIsUnit(n, ids, i);
    }
    LagrangeInterpolates(n, ids, a, Keys(n, a, ids), x);
  }

  function Keys(n: nat, a: seq<int>, ids: seq<int>): (s: seq<int>)
    requires n > 0 && forall i :: 0 <= i < |ids| ==> ids[i] >= 0
    ensures |s| == |ids|
  {
    seq(|ids|, i requires 0 <= i < |ids| => SecretKey(n, a, ids[i]))
  }

  // ----- combining shares -----

  /** The combination of points, in the order the program adds them. */
  function Combination(e: Curve, ls: seq<int>, pts: seq<Point>): Point
    requires |ls| == |pts| && forall i :: 0 <= i < |ls| ==> ls[i] >= 0
  {
    if ls == [] then INFINITY
    else
      var k := |ls| - 1;
      var last := Times(e, ls[k], pts[k]);
      if k == 0 then last else e.add(last, Combination(e, ls[..k], pts[..k]))
  }

  function DecodeAll(shares: seq<Bytes>): (pts: seq<Point>)
    requires forall i :: 0 <= i < |shares| ==> |shares[i]| >= 64
    ensures |pts| == |shares|
  {
    seq(|shares|, i requires 0 <= i < |shares| => DecodePoint(shares[i]))
  }

  function Combined(e: Curve, ids: seq<int>, shares: seq<Bytes>): Point
    requires e.n > 0 && |ids| == |shares| && forall i :: 0 <= i < |shares| ==> |shares[i]| >= 64
  {
    Combination(e, Lambdas(e.n, ids, 0), DecodeAll(shares))
  }

  /** The program's encoding of any point, by way of limbs. */
  method LimbBytes(a: Point) returns (b: Bytes)
    requires 0 <= a.x < TWO_256 && 0 <= a.y < TWO_256
    ensures b == EncodePoint(a)
  {
    var tp64 := BiginttoU64_256(a.x);
    BytesOfLimbs(tp64);
    b := U64toByte_256(tp64);
    tp64 := BiginttoU64_256(a.y);
    BytesOfLimbs(tp64);
    b := b + U64toByte_256(tp64);
  }

  method LimbPoint(b: Bytes) returns (a: Point)
    requires |b| >= 64
    ensures a == DecodePoint(b)
  {
    var share_x, share_y := b[0..32], b[32..64];
    LimbsOfBytes(share_x);
    LimbsOfBytes(share_y);
    assert share_x[..32] == b[..32] && share_y[..32] == share_y;
    var gx := U64toBigint_256(BytetoU64_256(share_x));
    var gy := U64toBigint_256(BytetoU64_256(share_y));
    a := Point(gx, gy);
  }

  ghost predicate SharesOk(e: Curve, shares: seq<Bytes>) {
    forall i :: 0 <= i < |shares| ==> |shares[i]| >= 64 && e.on(DecodePoint(shares[i]))
  }

  lemma CombinationStep(e: Curve, ls: seq<int>, pts: seq<Point>, i: nat)
    requires i < |ls| == |pts| && forall j :: 0 <= j < |ls| ==> ls[j] >= 0
    ensures var last := Times(e, ls[i], pts[i]);
      Combination(e, ls[..i + 1], pts[..i + 1]) ==
        if i == 0 then last else e.add(last, Combination(e, ls[..i], pts[..i]))
  {
    assert ls[..i + 1][..i] == ls[..i] && pts[..i + 1][..i] == pts[..i];
  }

  /** One share point times its coefficient. */
  method ScaledShare(e: Curve, share: Bytes, lambda: Limbs) returns (point: Option<Point>)
    requires IsGroup(e) && |share| >= 64
    ensures point == if e.on(DecodePoint(share)) then Some(Times(e, LimbValue(lambda), DecodePoint(share))) else None
    ensures point.Some? ==> e.on(point.value)
  {
    var p := LimbPoint(share);
    BytesOfLimbs(lambda);
    point := TryScalarMult(e, p, U64toByte_256(lambda));
    if point.Some? {
      TimesOn(e, LimbValue(lambda), p);
    }
  }

  /** The first term is the sum; later ones are added. */
  method AddShare(e: Curve, i: nat, point: Point, tp: Point) returns (sum: Option<Point>)
    requires IsGroup(e) && e.on(point) && e.on(tp)
    ensures sum == Some(if i == 0 then point else e.add(point, tp)) && e.on(sum.value)
  {
    assert AddsUp(e, point, tp);
    if i == 0 {
      sum := Some(point);
    } else {
      sum := TryAdd(e, point, tp);
    }
  }

  /** One round of the loop: the share's term joins the sum. */
  method NextShare(e: Curve, i: nat, share: Bytes, lambda: Limbs, tp: Point) returns (sum: Option<Point>)
    requires IsGroup(e) && |share| >= 64 && e.on(tp)
    ensures sum.Some? <==> e.on(DecodePoint(share))
    ensures sum.Some? ==>
      var last := Times(e, LimbValue(lambda), DecodePoint(share));
      sum.value == (if i == 0 then last else e.add(last, tp)) && e.on(sum.value)
  {
    sum := ScaledShare(e, share, lambda);
    if sum.Some? {
      sum := AddShare(e, i, sum.value, tp);
    }
  }

  /** The loop over the shares; None when one is off the curve. */
  method CombineShares(e: Curve, lagrang: seq<U64>, ghost ls: seq<int>, k: nat, shares: seq<Bytes>)
    returns (tp: Option<Point>)
    requires IsGroup(e) && k <= |shares| && |lagrang| == 4 * k && |ls| == k
    requires forall i :: 0 <= i < k ==> |shares[i]| >= 64
    requires forall i :: 0 <= i < k ==> LimbValue(LimbsAt(lagrang, 4 * i)) == ls[i]
    ensures forall i :: 0 <= i < k ==> ls[i] >= 0
    ensures tp.Some? <==> SharesOk(e, shares[..k])
    ensures tp.Some? ==> tp.value == Combination(e, ls, DecodeAll(shares[..k])) && e.on(tp.value)
  {
    ghost var pts := DecodeAll(shares[..k]);
    tp := Some(INFINITY);
    var i := 0;
    while i < k
      invariant 0 <= i <= k
      invariant forall j :: 0 <= j < k ==> ls[j] >= 0
      invariant SharesOk(e, shares[..i])
      invariant tp.Some? && e.on(tp.value) && tp.value == Combination(e, ls[..i], pts[..i])
    {
      tp := NextShare(e, i, shares[i], LimbsAt(lagrang, 4 * i), tp.value);
      assert shares[..k][i] == shares[i];
      if tp.None? {
        return None;
      }
      CombinationStep(e, ls, pts, i);
      i := i + 1;
    }
    assert ls[..k] == ls && pts[..k] == pts;
  }

  /** None is a panic: ids or shares are missing, or a share's point is not on the curve. */
  method ComputePrfFromShares(e: Curve, sha: Bytes -> Bytes, idarr: seq<int>, k: nat, shares: seq<Bytes>)
    returns (prf: Option<Bytes>)
    requires IsGroup(e) && Is32(sha) && forall i :: 0 <= i < |shares| && i < k ==> |shares[i]| >= 64
    ensures prf.Some? <==> k <= |idarr| && k <= |shares| && SharesOk(e, shares[..k])
    ensures prf.Some? ==> prf.value == sha(EncodePoint(Combined(e, idarr[..k], shares[..k])))
  {
    var lagrang := ComputeLagrangeinter(e.n, idarr, k, 0);
    if lagrang.None? || |shares| < k {
      return None;
    }
    var tp := CombineShares(e, lagrang.value, Lambdas(e.n, idarr[..k], 0), k, shares);
    if tp.None? {
      return None;
    }
    assert PointOk(e, tp.value);
    var h_in := LimbBytes(tp.value);
    var outs := Bytetostring_256(sha(h_in));
    BytetostringIsIdentity(sha(h_in));
    prf := Some(outs);
  }

  /** A combination of multiples of one point is one multiple of it. */
  lemma {:induction false} CombinationIsDot(e: Curve, ls: seq<int>, ss: seq<int>, pts: seq<Point>, b: Point)
    requires IsGroup(e) && e.on(b) && |ls| == |ss| == |pts|
    requires forall i :: 0 <= i < |ls| ==> ls[i] >= 0 && ss[i] >= 0 && pts[i] == Times(e, ss[i], b)
    ensures Dot(ls, ss) >= 0 && Combination(e, ls, pts) == Times(e, Dot(ls, ss), b)
  {
    if ls != [] {
      var k := |ls| - 1;
      CombinationIsDot(e, ls[..k], ss[..k], pts[..k], b);
      assert ls[k] * ss[k] >= 0;
      TimesProduct(e, ls[k], ss[k], b);
      TimesSum(e, ls[k] * ss[k], Dot(ls[..k], ss[..k]), b);
    }
  }

  /** Party i's share of the input is its key times the input's point. */
  ghost predicate SharesOf(e: Curve, a: seq<int>, b: Point, ids: seq<int>, shares: seq<Bytes>)
    requires e.n > 0
  {
    && |shares| == |ids|
    && forall i :: 0 <= i < |ids| ==>
         ids[i] >= 0 && |shares[i]| >= 64 && DecodePoint(shares[i]) == Times(e, SecretKey(e.n, a, ids[i]), b)
  }

  /** Subset independence: whichever k distinct parties answer, and in whatever
      order, the combined point is the share point of party 0. */
  lemma SubsetIndependence(e: Curve, a: seq<int>, b: Point, ids: seq<int>, shares: seq<Bytes>)
    requires IsGroup(e) && e.on(b) && DistinctMod(ids, e.n) && |ids| == |a| && SharesOf(e, a, b, ids, shares)
    ensures Combined(e, ids, shares) == Times(e, SecretKey(e.n, a, 0), b)
  {
    var ls, ss, pts := Lambdas(e.n, ids, 0), Keys(e.n, a, ids), DecodeAll(shares);
    forall i | 0 <= i < |ids| ensures ls[i] >= 0 {
      LambdaRange(e.n, ids, i, 0);
    }
    CombinationIsDot(e, ls, ss, pts, b);
    KeysInterpolate(e.n, ids, a, 0);
    ModCong(Eval(a, 0), e.n);
    CongTrans(Dot(ls, ss), Eval(a, 0), SecretKey(e.n, a, 0), e.n);
    TimesCong(e, Dot(ls, ss), SecretKey(e.n, a, 0), b);
  }
}
