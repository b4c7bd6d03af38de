/** Lagrange interpolation modulo a prime: the computed coefficients carry the
    values of a polynomial at k points to its value at any target. */
module Interpolation {
  import opened Modular

  /** The polynomial with coefficients a, lowest first. */
  function Eval(a: seq<int>, x: int): int {
    if a == [] then 0 else a[0] + x * Eval(a[1..], x)
  }

  function Dot(u: seq<int>, v: seq<int>): int
    requires |u| == |v|
  {
    if u == [] then 0 else Dot(u[..|u| - 1], v[..|v| - 1]) + u[|u| - 1] * v[|v| - 1]
  }

  /** The product of x - id over the given ids. */
  function NodeProduct(ids: seq<int>, x: int): int {
    if ids == [] then 1 else NodeProduct(ids[..|ids| - 1], x) * (x - ids[|ids| - 1])
  }

  function Without(ids: seq<int>, i: nat): seq<int>
    requires i < |ids|
  {
    ids[..i] + ids[i + 1..]
  }

  /** The product of x - id over all ids but the i-th. */
  function Others(ids: seq<int>, i: nat, x: int): int
    requires i < |ids|
  {
    NodeProduct(Without(ids, i), x)
  }

  /** The i-th coefficient: Others at x over Others at the i-th id, modulo n.
      A denominator that has no inverse is used as it is. */
  function Lambda(n: nat, ids: seq<int>, i: nat, x: int): int
    requires n > 0 && i < |ids|
  {
    var bottom := Others(ids, i, ids[i]) % n;
    var inverse := match ModInverse(bottom, n) case Some(v) => v case None => bottom;
    (Others(ids, i, x) % n) * inverse % n
  }

  function Lambdas(n: nat, ids: seq<int>, x: int): seq<int>
    requires n > 0
  {
    seq(|ids|, i requires 0 <= i < |ids| => Lambda(n, ids, i, x))
  }

  ghost predicate DistinctMod(ids: seq<int>, n: nat)
    requires n > 0
  {
    forall i, j :: 0 <= i < |ids| && 0 <= j < |ids| && i != j ==> !Cong(ids[i], ids[j], n)
  }

  ghost predicate IsCoefficient(n: nat, ids: seq<int>, i: nat, x: int, l: int)
    requires n > 0 && i < |ids|
  {
    Cong(l * Others(ids, i, ids[i]), Others(ids, i, x), n)
  }

  // ----- products of nodes -----

  lemma {:induction false} ProductIsUnit(ids: seq<int>, x: int, n: nat)
    requires IsPrime(n) && forall j :: 0 <= j < |ids| ==> !Cong(x, ids[j], n)
    ensures Unit(NodeProduct(ids, x), n)
  {
    if ids == [] {
      CongRefl(1, n);
      assert Inverse(1, 1, n);
    } else {
      var pre, c := ids[..|ids| - 1], ids[|ids| - 1];
      ProductIsUnit(pre, x, n);
      DifferenceIsUnit(x, c, n);
      UnitProduct(NodeProduct(pre, x), x - c, n);
    }
  }

  /** Every denominator is a unit, so every inverse taken exists. */
  lemma DenominatorIsUnit(n: nat, ids: seq<int>, i: nat)
    requires IsPrime(n) && DistinctMod(ids, n) && i < |ids|
    ensures Unit(Others(ids, i, ids[i]), n)
    ensures ModInverse(Others(ids, i, ids[i]) % n, n).Some?
  {
    var rest := Without(ids, i);
    forall j | 0 <= j < |rest| ensures !Cong(ids[i], rest[j], n) {
      var k := if j < i then j else j + 1;
      assert rest[j] == ids[k];
    }
    ProductIsUnit(rest, ids[i], n);
    UnitMod(Others(ids, i, ids[i]), n);
    ModInverseIff(Others(ids, i, ids[i]) % n, n);
  }

  lemma UnitMod(a: int, n: nat)
    requires n > 0 && Unit(a, n)
    ensures Unit(a % n, n)
  {
    var b :| Inverse(a, b, n);
    ModCong(a, n);
    CongScale(a % n, a, b, n);
    CongTrans((a % n) * b, a * b, 1, n);
    assert Inverse(a % n, b, n);
  }

  lemma LambdaIsCoefficient(n: nat, ids: seq<int>, i: nat, x: int)
    requires IsPrime(n) && DistinctMod(ids, n) && i < |ids|
    ensures IsCoefficient(n, ids, i, x, Lambda(n, ids, i, x))
  {
    var den, num := Others(ids, i, ids[i]), Others(ids, i, x);
    DenominatorIsUnit(n, ids, i);
    ModInverseIff(den % n, n);
    QuotientTimes(num, den, ModInverse(den % n, n).value, n);
  }

  lemma QuotientTimes(num: int, den: int, inv: int, n: nat)
    requires n > 0 && Inverse(den % n, inv, n)
    ensures Cong((num % n) * inv % n * den, num, n)
  {
    ModCong((num % n) * inv, n);
    ModCong(num, n);
    ModCong(den, n);
    QuotientStep((num % n) * inv % n, num % n, inv, den % n, den, num, n);
  }

  lemma QuotientStep(q: int, a: int, inv: int, d: int, den: int, num: int, n: nat)
    requires n > 0 && Cong(q, a * inv, n) && Cong(den, d, n) && Cong(d * inv, 1, n) && Cong(a, num, n)
    ensures Cong(q * den, num, n)
  {
    CongMul(q, a * inv, den, d, n);
    CongScale(d * inv, 1, a, n);
    assert a * inv * d == d * inv * a;
    CongTrans(q * den, d * inv * a, a, n);
    CongTrans(q * den, a, num, n);
  }

  lemma {:induction false} ProductWithout(ids: seq<int>, i: nat, x: int)
    requires i < |ids|
    ensures NodeProduct(ids, x) == Others(ids, i, x) * (x - ids[i])
  {
    var pre, c := ids[..|ids| - 1], ids[|ids| - 1];
    if i == |ids| - 1 {
      assert Without(ids, i) == pre;
    } else {
      ProductWithout(pre, i, x);
      OthersLast(ids, i, x);
      SwapFactors(Others(pre, i, x), x - ids[i], x - c);
    }
  }

  lemma SwapFactors(a: int, b: int, c: int)
    ensures a * b * c == a * c * b
  {
  }

  lemma OthersLast(ids: seq<int>, i: nat, x: int)
    requires i < |ids| - 1
    ensures Others(ids, i, x) == Others(ids[..|ids| - 1], i, x) * (x - ids[|ids| - 1])
  {
    var rest := Without(ids, i);
    assert rest[..|rest| - 1] == Without(ids[..|ids| - 1], i) && rest[|rest| - 1] == ids[|ids| - 1];
  }

  // ----- Newton form -----

  function Newton(ds: seq<int>, ids: seq<int>, x: int): int
    requires |ds| == |ids|
  {
    if ds == [] then 0 else ds[0] + (x - ids[0]) * Newton(ds[1..], ids[1..], x)
  }

  /** The quotient of a polynomial by x - c. */
  function Divide(a: seq<int>, c: int): (q: seq<int>)
    ensures |q| == if a == [] then 0 else |a| - 1
  {
    if |a| <= 1 then [] else [Eval(a[1..], c)] + Divide(a[1..], c)
  }

  lemma {:induction false} DivideEval(a: seq<int>, c: int, x: int)
    ensures Eval(a, x) == Eval(a, c) + (x - c) * Eval(Divide(a, c), x)
  {
    if |a| > 1 {
      var b, q := a[1..], Divide(a[1..], c);
      DivideEval(b, c, x);
      assert Divide(a, c)[1..] == q;
      HornerStep(Eval(b, c), Eval(q, x), c, x);
    }
  }

  lemma HornerStep(bc: int, qx: int, c: int, x: int)
    ensures x * (bc + (x - c) * qx) == c * bc + (x - c) * (bc + x * qx)
  {
    assert x * ((x - c) * qx) == (x - c) * (x * qx);
  }

  function ToNewton(a: seq<int>, ids: seq<int>): (ds: seq<int>)
    requires |a| == |ids|
    ensures |ds| == |ids|
    decreases |a|
  {
    if a == [] then [] else [Eval(a, ids[0])] + ToNewton(Divide(a, ids[0]), ids[1..])
  }

  lemma {:induction false} NewtonForm(a: seq<int>, ids: seq<int>, x: int)
    requires |a| == |ids|
    ensures Newton(ToNewton(a, ids), ids, x) == Eval(a, x)
    decreases |a|
  {
    if a != [] {
      NewtonForm(Divide(a, ids[0]), ids[1..], x);
      assert ToNewton(a, ids)[1..] == ToNewton(Divide(a, ids[0]), ids[1..]);
      DivideEval(a, ids[0], x);
    }
  }

  lemma {:induction false} ProductFirst(ids: seq<int>, x: int)
    requires ids != []
    ensures NodeProduct(ids, x) == (x - ids[0]) * NodeProduct(ids[1..], x)
  {
    ProductWithout(ids, 0, x);
    assert Without(ids, 0) == ids[1..];
  }

  lemma {:induction false} NewtonLast(ds: seq<int>, ids: seq<int>, x: int)
    requires |ds| == |ids| > 0
    ensures Newton(ds, ids, x) == SplitNewton(ds, ids, x)
  {
    var k := |ids| - 1;
    if k > 0 {
      var ds', ids' := ds[1..], ids[1..];
      NewtonLast(ds', ids', x);
      assert ds[..k][1..] == ds'[..k - 1] && ids[..k][1..] == ids'[..k - 1];
      ProductFirst(ids[..k], x);
      Distribute(x - ids[0], Newton(ds'[..k - 1], ids'[..k - 1], x), ds[k], NodeProduct(ids'[..k - 1], x));
    }
  }

  lemma Distribute(a: int, b: int, c: int, d: int)
    ensures a * (b + c * d) == a * b + c * (a * d)
  {
    assert a * (c * d) == c * (a * d);
  }

  // ----- sums -----

  lemma {:induction false} DotCong(u: seq<int>, w: seq<int>, v: seq<int>, n: nat)
    requires n > 0 && |u| == |w| == |v| && forall i :: 0 <= i < |u| ==> Cong(u[i], w[i], n)
    ensures Cong(Dot(u, v), Dot(w, v), n)
  {
    if u == [] {
      CongRefl(0, n);
    } else {
      var k := |u| - 1;
      DotCong(u[..k], w[..k], v[..k], n);
      CongScale(u[k], w[k], v[k], n);
      CongAdd(Dot(u[..k], v[..k]), Dot(w[..k], v[..k]), u[k] * v[k], w[k] * v[k], n);
    }
  }

  lemma {:induction false} DotCongRight(u: seq<int>, v: seq<int>, w: seq<int>, n: nat)
    requires n > 0 && |u| == |w| == |v| && forall i :: 0 <= i < |u| ==> Cong(v[i], w[i], n)
    ensures Cong(Dot(u, v), Dot(u, w), n)
  {
    if u == [] {
      CongRefl(0, n);
    } else {
      var k := |u| - 1;
      DotCongRight(u[..k], v[..k], w[..k], n);
      CongScale(v[k], w[k], u[k], n);
      CongAdd(Dot(u[..k], v[..k]), Dot(u[..k], w[..k]), u[k] * v[k], u[k] * w[k], n);
    }
  }

  /** u + s w, position by position. */
  function Combine(u: seq<int>, s: int, w: seq<int>): (r: seq<int>)
    requires |u| == |w|
    ensures |r| == |u|
  {
    seq(|u|, i requires 0 <= i < |u| => u[i] + s * w[i])
  }

  lemma {:induction false} DotCombine(u: seq<int>, s: int, w: seq<int>, v: seq<int>)
    requires |u| == |w| == |v|
    ensures Dot(Combine(u, s, w), v) == Dot(u, v) + s * Dot(w, v)
  {
    if u != [] {
      var k := |u| - 1;
      DotCombine(u[..k], s, w[..k], v[..k]);
      assert Combine(u, s, w)[..k] == Combine(u[..k], s, w[..k]);
      SumStep(u[k], s, w[k], v[k], Dot(w[..k], v[..k]));
    }
  }

  lemma SumStep(a: int, s: int, w: int, v: int, d: int)
    ensures (a + s * w) * v + s * d == a * v + s * (d + w * v)
  {
    assert (a + s * w) * v == a * v + s * w * v;
    assert s * (d + w * v) == s * d + s * w * v;
  }

  lemma MergedSum(n: nat, u: seq<int>, s: int, w: seq<int>, t: seq<int>, r: seq<int>)
    requires n > 0 && |u| == |w| == |t| == |r|
    requires forall i :: 0 <= i < |u| ==> Cong(Combine(u, s, w)[i], t[i], n)
    ensures Cong(Dot(u, r) + s * Dot(w, r), Dot(t, r), n)
  {
    DotCong(Combine(u, s, w), t, r, n);
    DotCombine(u, s, w, r);
  }

  // ----- the interpolation step -----

  /** From k-1 points to k: with one more id c, the coefficient of an old id and
      the share of c's coefficient that falls to it make up its old coefficient. */
  lemma TermIdentity(n: nat, ids: seq<int>, i: nat, x: int, li: int, last: int, atX: int, atC: int)
    requires IsPrime(n) && DistinctMod(ids, n) && i < |ids| - 1
    requires IsCoefficient(n, ids, i, x, li) && IsCoefficient(n, ids, |ids| - 1, x, last)
    requires IsCoefficient(n, ids[..|ids| - 1], i, x, atX)
    requires IsCoefficient(n, ids[..|ids| - 1], i, ids[|ids| - 1], atC)
    ensures Cong(li + last * atC, atX, n)
  {
    var pre, c := ids[..|ids| - 1], ids[|ids| - 1];
    var d, nx, nc := Others(pre, i, ids[i]), Others(pre, i, x), Others(pre, i, c);
    OthersLast(ids, i, x);
    OthersLast(ids, i, ids[i]);
    ProductWithout(pre, i, x);
    ProductWithout(pre, i, c);
    assert Without(ids, |ids| - 1) == pre;
    DenominatorIsUnit(n, ids, i);
    CancelTerm(n, li, last, atX, atC, d, nx, nc, ids[i], c, x);
  }

  lemma ProductIdentities(li: int, last: int, atC: int, d: int, nc: int, xi: int, c: int)
    ensures (li + last * atC) * (d * (xi - c)) == li * (d * (xi - c)) + (atC * d) * (last * (xi - c))
    ensures nc * (last * (xi - c)) == last * (nc * (c - xi)) * -1
  {
    var y := xi - c;
    assert (li + last * atC) * (d * y) == li * (d * y) + last * atC * (d * y);
    assert last * atC * (d * y) == (atC * d) * (last * y);
    assert nc * (last * y) == last * (nc * y);
    assert nc * (c - xi) == -(nc * y);
  }

  lemma DifferenceIdentity(nx: int, x: int, c: int, xi: int)
    ensures nx * (x - c) + nx * (x - xi) * -1 == nx * (xi - c)
  {
  }

  /** The share of c's coefficient that falls to an old id. */
  lemma ShareOfLast(n: nat, last: int, atC: int, d: int, nx: int, nc: int, xi: int, c: int, x: int)
    requires n > 0 && Cong(last * (nc * (c - xi)), nx * (x - xi), n) && Cong(atC * d, nc, n)
    ensures Cong((atC * d) * (last * (xi - c)), nx * (x - xi) * -1, n)
  {
    CongScale(atC * d, nc, last * (xi - c), n);
    CongScale(last * (nc * (c - xi)), nx * (x - xi), -1, n);
    ProductIdentities(0, last, atC, d, nc, xi, c);
    CongTrans((atC * d) * (last * (xi - c)), nc * (last * (xi - c)), nx * (x - xi) * -1, n);
  }

  lemma CancelTerm(n: nat, li: int, last: int, atX: int, atC: int, d: int, nx: int, nc: int, xi: int, c: int, x: int)
    requires n > 0 && Unit(d * (xi - c), n)
    requires Cong(li * (d * (xi - c)), nx * (x - c), n)
    requires Cong(last * (nc * (c - xi)), nx * (x - xi), n)
    requires Cong(atX * d, nx, n) && Cong(atC * d, nc, n)
    ensures Cong(li + last * atC, atX, n)
  {
    var u := d * (xi - c);
    ShareOfLast(n, last, atC, d, nx, nc, xi, c, x);
    ProductIdentities(li, last, atC, d, nc, xi, c);
    DifferenceIdentity(nx, x, c, xi);
    CongAdd(li * u, nx * (x - c), (atC * d) * (last * (xi - c)), nx * (x - xi) * -1, n);
    CongScale(atX * d, nx, xi - c, n);
    SameProduct(atX, d, xi - c);
    CancelBoth(n, u, li + last * atC, atX, nx * (xi - c));
  }

  lemma SameProduct(a: int, b: int, c: int)
    ensures a * b * c == a * (b * c)
  {
  }

  lemma CancelBoth(n: nat, u: int, a: int, b: int, v: int)
    requires n > 0 && Unit(u, n) && Cong(a * u, v, n) && Cong(b * u, v, n)
    ensures Cong(a, b, n)
  {
    CongSym(b * u, v, n);
    CongTrans(a * u, v, b * u, n);
    Cancel(u, a, b, n);
  }

  function Values(ds: seq<int>, ids: seq<int>, at: seq<int>): (v: seq<int>)
    requires |ds| == |ids|
    ensures |v| == |at|
  {
    seq(|at|, i requires 0 <= i < |at| => Newton(ds, ids, at[i]))
  }

  lemma ProductVanishes(ids: seq<int>, i: nat)
    requires i < |ids|
    ensures NodeProduct(ids, ids[i]) == 0
  {
    ProductWithout(ids, i, ids[i]);
  }

  /** Any coefficients of the right kind interpolate a Newton form. */
  lemma {:induction false} NewtonInterpolates(n: nat, ids: seq<int>, ds: seq<int>, ls: seq<int>, x: int)
    requires IsPrime(n) && DistinctMod(ids, n) && |ds| == |ids| == |ls|
    requires forall i :: 0 <= i < |ids| ==> IsCoefficient(n, ids, i, x, ls[i])
    ensures Cong(Dot(ls, Values(ds, ids, ids)), Newton(ds, ids, x), n)
    decreases |ids|, 0
  {
    if ids == [] {
      CongRefl(0, n);
    } else {
      LambdasInterpolateBelow(n, ids, ds, x);
      LambdasInterpolateBelow(n, ids, ds, ids[|ids| - 1]);
      CoefficientsMeet(n, ids, ls, x);
      NewtonStep(n, ids, ds, ls, x);
      SplitsAgree(n, ids, ds, ls, x);
    }
  }

  ghost predicate InterpolatesBelow(n: nat, ids: seq<int>, ds: seq<int>, x: int)
    requires n > 0 && |ds| == |ids| > 0
  {
    var k := |ids| - 1;
    Cong(Dot(Lambdas(n, ids[..k], x), Values(ds[..k], ids[..k], ids[..k])), Newton(ds[..k], ids[..k], x), n)
  }

  ghost predicate Meets(n: nat, ids: seq<int>, ls: seq<int>, x: int, i: nat)
    requires n > 0 && i < |ids| - 1 && |ls| == |ids|
  {
    var k := |ids| - 1;
    Cong(Combine(ls[..k], ls[k], Lambdas(n, ids[..k], ids[k]))[i], Lambdas(n, ids[..k], x)[i], n)
  }

  lemma BelowSum(n: nat, ids: seq<int>, ls: seq<int>, x: int, r: seq<int>)
    requires n > 0 && |ids| == |ls| == |r| + 1
    requires forall i :: 0 <= i < |ids| - 1 ==> Meets(n, ids, ls, x, i)
    ensures var k := |ids| - 1;
      Cong(Dot(ls[..k], r) + ls[k] * Dot(Lambdas(n, ids[..k], ids[k]), r), Dot(Lambdas(n, ids[..k], x), r), n)
  {
    var k := |ids| - 1;
    var atX, atC := Lambdas(n, ids[..k], x), Lambdas(n, ids[..k], ids[k]);
    forall i | 0 <= i < k ensures Cong(Combine(ls[..k], ls[k], atC)[i], atX[i], n) {
      assert Meets(n, ids, ls, x, i);
    }
    MergedSum(n, ls[..k], ls[k], atC, atX, r);
  }

  /** The sum over all ids, its last term split by Newton's form. */
  function SplitSum(ds: seq<int>, ids: seq<int>, ls: seq<int>): int
    requires |ds| == |ids| == |ls| > 0
  {
    var k := |ids| - 1;
    var pre := ids[..k];
    Dot(ls[..k], Values(ds[..k], pre, pre)) + ls[k] * (Newton(ds[..k], pre, ids[k]) + ds[k] * NodeProduct(pre, ids[k]))
  }

  function SplitNewton(ds: seq<int>, ids: seq<int>, x: int): int
    requires |ds| == |ids| > 0
  {
    var k := |ids| - 1;
    Newton(ds[..k], ids[..k], x) + ds[k] * NodeProduct(ids[..k], x)
  }

  lemma NewtonStep(n: nat, ids: seq<int>, ds: seq<int>, ls: seq<int>, x: int)
    requires n > 0 && |ds| == |ids| == |ls| > 0
    requires InterpolatesBelow(n, ids, ds, x) && InterpolatesBelow(n, ids, ds, ids[|ids| - 1])
    requires forall i :: 0 <= i < |ids| - 1 ==> Meets(n, ids, ls, x, i)
    requires IsCoefficient(n, ids, |ids| - 1, x, ls[|ids| - 1])
    ensures Cong(SplitSum(ds, ids, ls), SplitNewton(ds, ids, x), n)
  {
    var k := |ids| - 1;
    var pre, low := ids[..k], ds[..k];
    var r := Values(low, pre, pre);
    BelowSum(n, ids, ls, x, r);
    LastPoint(n, ids, ls, ds[k], x);
    FinishStep(n, Dot(ls[..k], r), ls[k], Dot(Lambdas(n, pre, ids[k]), r), Newton(low, pre, ids[k]),
        ds[k] * NodeProduct(pre, ids[k]),
               Dot(Lambdas(n, pre, x), r), Newton(low, pre, x), ds[k] * NodeProduct(pre, x));
  }

  lemma SplitsAgree(n: nat, ids: seq<int>, ds: seq<int>, ls: seq<int>, x: int)
    requires |ds| == |ids| == |ls| > 0 && Cong(SplitSum(ds, ids, ls), SplitNewton(ds, ids, x), n)
    ensures Cong(Dot(ls, Values(ds, ids, ids)), Newton(ds, ids, x), n)
  {
    DotSplits(ds, ids, ls);
    NewtonLast(ds, ids, x);
  }

  lemma LambdasInterpolateBelow(n: nat, ids: seq<int>, ds: seq<int>, x: int)
    requires IsPrime(n) && DistinctMod(ids, n) && |ds| == |ids| > 0
    ensures InterpolatesBelow(n, ids, ds, x)
    decreases |ids| - 1, 1
  {
    var k := |ids| - 1;
    forall i | 0 <= i < k ensures IsCoefficient(n, ids[..k], i, x, Lambdas(n, ids[..k], x)[i]) {
      LambdaIsCoefficient(n, ids[..k], i, x);
    }
    NewtonInterpolates(n, ids[..k], ds[..k], Lambdas(n, ids[..k], x), x);
  }

  lemma CoefficientsMeet(n: nat, ids: seq<int>, ls: seq<int>, x: int)
    requires IsPrime(n) && DistinctMod(ids, n) && |ls| == |ids| > 0
    requires forall i :: 0 <= i < |ids| ==> IsCoefficient(n, ids, i, x, ls[i])
    ensures forall i :: 0 <= i < |ids| - 1 ==> Meets(n, ids, ls, x, i)
  {
    var k := |ids| - 1;
    var pre := ids[..k];
    forall i | 0 <= i < k ensures Meets(n, ids, ls, x, i) {
      LambdaIsCoefficient(n, pre, i, x);
      LambdaIsCoefficient(n, pre, i, ids[k]);
      TermIdentity(n, ids, i, x, ls[i], ls[k], Lambda(n, pre, i, x), Lambda(n, pre, i, ids[k]));
    }
  }

  /** At the old ids the last Newton term vanishes. */
  lemma DotSplits(ds: seq<int>, ids: seq<int>, ls: seq<int>)
    requires |ds| == |ids| == |ls| > 0
    ensures Dot(ls, Values(ds, ids, ids)) == SplitSum(ds, ids, ls)
  {
    var k := |ids| - 1;
    var pre, v := ids[..k], Values(ds, ids, ids);
    forall i | 0 <= i < k ensures v[..k][i] == Values(ds[..k], pre, pre)[i] {
      NewtonLast(ds, ids, ids[i]);
      assert pre[i] == ids[i];
      ProductVanishes(pre, i);
    }
    assert v[..k] == Values(ds[..k], pre, pre);
    NewtonLast(ds, ids, ids[k]);
  }

  lemma LastPoint(n: nat, ids: seq<int>, ls: seq<int>, d: int, x: int)
    requires n > 0 && |ls| == |ids| > 0 && IsCoefficient(n, ids, |ids| - 1, x, ls[|ids| - 1])
    ensures var k := |ids| - 1; Cong(ls[k] * (d * NodeProduct(ids[..k], ids[k])), d * NodeProduct(ids[..k], x), n)
  {
    var k := |ids| - 1;
    var w, wx := NodeProduct(ids[..k], ids[k]), NodeProduct(ids[..k], x);
    assert Without(ids, k) == ids[..k];
    CongScale(ls[k] * w, wx, d, n);
    assert ls[k] * w * d == ls[k] * (d * w);
  }

  lemma FinishStep(n: nat, low: int, last: int, dotC: int, atC: int, top: int, dotX: int, atX: int, topX: int)
    requires n > 0
    requires Cong(low + last * dotC, dotX, n) && Cong(dotC, atC, n) && Cong(dotX, atX, n)
    requires Cong(last * top, topX, n)
    ensures Cong(low + last * (atC + top), atX + topX, n)
  {
    CongSym(dotC, atC, n);
    CongScale(atC, dotC, last, n);
    CongAdd(low, low, atC * last, dotC * last, n) by {
      CongRefl(low, n);
    }
    assert atC * last == last * atC && dotC * last == last * dotC;
    CongTrans(low + last * atC, low + last * dotC, dotX, n);
    CongTrans(low + last * atC, dotX, atX, n);
    CongAdd(low + last * atC, atX, last * top, topX, n);
    assert low + last * (atC + top) == low + last * atC + last * top;
  }

  /** Lagrange correctness: for every coefficient list of length k, every k ids
      distinct modulo the prime and every target, the computed coefficients take
      the values at the ids to the value at the target. */
  lemma LagrangeInterpolates(n: nat, ids: seq<int>, a: seq<int>, shares: seq<int>, x: int)
    requires IsPrime(n) && DistinctMod(ids, n) && |a| == |ids| == |shares|
    requires forall i :: 0 <= i < |ids| ==> Cong(shares[i], Eval(a, ids[i]), n)
    ensures Cong(Dot(Lambdas(n, ids, x), shares), Eval(a, x), n)
  {
    var ds, ls := ToNewton(a, ids), Lambdas(n, ids, x);
    forall i | 0 <= i < |ids|
      ensures IsCoefficient(n, ids, i, x, ls[i]) && Cong(shares[i], Values(ds, ids, ids)[i], n)
    {
      LambdaIsCoefficient(n, ids, i, x);
      NewtonForm(a, ids, ids[i]);
    }
    NewtonInterpolates(n, ids, ds, ls, x);
    NewtonForm(a, ids, x);
    DotCongRight(ls, shares, Values(ds, ids, ids), n);
    CongTrans(Dot(ls, shares), Dot(ls, Values(ds, ids, ids)), Eval(a, x), n);
  }
}
