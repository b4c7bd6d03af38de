/** A party's share with its proof of equal discrete logarithms, and the check
    that accepts it. */
module ShareProof {
  import opened Messages
  import opened Words
  import opened Interpolation
  import opened Curves
  import opened HashChain
  import opened ThresholdPrf

  /** The point of an input: the generator times the input's hash. */
  function HashPoint(e: Curve, sha: Bytes -> Bytes, input: Bytes): Point {
    if input == [] then INFINITY else Times(e, FromBytes(sha(input)), e.g)
  }

  lemma HashPointOn(e: Curve, sha: Bytes -> Bytes, input: Bytes)
    requires IsGroup(e)
    ensures e.on(HashPoint(e, sha, input)) && PointOk(e, HashPoint(e, sha, input))
  {
    TimesOn(e, FromBytes(sha(input)), e.g);
    assert PointOk(e, HashPoint(e, sha, input));
  }

  method HashmapPoint(e: Curve, sha: Bytes -> Bytes, input: Bytes) returns (px: Limbs, py: Limbs)
    requires IsGroup(e) && Is32(sha)
    ensures Point(LimbValue(px), LimbValue(py)) == HashPoint(e, sha, input)
  {
    if |input| == 0 {
      return [0, 0, 0, 0], [0, 0, 0, 0];
    }
    var hashs := Bytetostring_256(sha(input));
    BytetostringIsIdentity(sha(input));
    var p := ScalarMult(e, e.g, hashs);
    HashPointOn(e, sha, input);
    px := BiginttoU64_256(p.x);
    py := BiginttoU64_256(p.y);
  }

  /** What both sides hash: generator, key, first commitment, input point, share
      point, second commitment. */
  function Transcript(e: Curve, vk: Bytes, h: Point, g: Point, share: Bytes, hCap: Point): Bytes {
    EncodePoint(e.g) + vk + EncodePoint(h) + EncodePoint(g) + share + EncodePoint(hCap)
  }

  function Challenge(e: Curve, sha: Bytes -> Bytes, vk: Bytes, h: Point, g: Point, share: Bytes, hCap: Point): Bytes {
    sha(Transcript(e, vk, h, g, share, hCap))
  }

  /** The share point, the challenge, and the response to it. */
  function ShareOf(e: Curve, sha: Bytes -> Bytes, input: Bytes, sk: Bytes, vk: Bytes, nonce: Bytes): Bytes
    requires e.n > 0
  {
    var g := HashPoint(e, sha, input);
    var point := EncodePoint(ScalarMult(e, g, sk));
    var c := Challenge(e, sha, vk, ScalarMult(e, e.g, nonce), g, point, ScalarMult(e, g, nonce));
    point + c + BigEndian((FromBytes(c) * FromBytes(sk) + FromBytes(nonce)) % e.n, 32)
  }

  /** scalar times a, minus c times b. */
  function Undo(e: Curve, a: Point, b: Point, z: Bytes, c: Bytes): Point {
    e.add(ScalarMult(e, a, z), Negate(e, ScalarMult(e, b, c)))
  }

  predicate Accepts(e: Curve, sha: Bytes -> Bytes, input: Bytes, vk: Bytes, share: Bytes)
    requires |vk| == 64 && |share| >= 128
  {
    var c, z, g := share[64..96], share[96..128], HashPoint(e, sha, input);
    input != [] && c == Challenge(e, sha, vk, Undo(e, e.g, DecodePoint(vk), z, c), g, share[..64],
                                  Undo(e, g, DecodePoint(share), z, c))
  }

  lemma TimesEncodes(e: Curve, k: nat, a: Point)
    requires IsGroup(e) && e.on(a)
    ensures var t := Times(e, k, a); e.on(t) && 0 <= t.x < TWO_256 && 0 <= t.y < TWO_256
  {
    TimesOn(e, k, a);
    assert PointOk(e, Times(e, k, a));
  }

  method ComputeShare(e: Curve, sha: Bytes -> Bytes, input: Bytes, sk: Bytes, vkx: Bytes, vky: Bytes, s: Bytes)
    returns (share: Option<Bytes>)
    requires IsGroup(e) && Is32(sha) && |sk| == |s| == 32
    ensures share == if input == [] then None else Some(ShareOf(e, sha, input, sk, vkx + vky, s))
  {
    if |input| == 0 {
      return None;
    }
    var gx, gy := HashmapPoint(e, sha, input);
    var gxb := U64toBigint_256(gx);
    var gyb := U64toBigint_256(gy);
    var g := Point(gxb, gyb);
    HashPointOn(e, sha, input);
    TimesEncodes(e, FromBytes(sk), g);
    var point := LimbBytes(ScalarMult(e, g, sk));
    var cin := ChallengeOf(e, sha, vkx + vky, s, g, point);
    var zin := Response(e.n, cin, sk, s);
    share := Some(point + cin + zin);
  }

  method ChallengeOf(e: Curve, sha: Bytes -> Bytes, vk: Bytes, s: Bytes, g: Point, point: Bytes) returns (cin: Bytes)
    requires IsGroup(e) && Is32(sha) && e.on(g)
    ensures cin == Challenge(e, sha, vk, ScalarMult(e, e.g, s), g, point, ScalarMult(e, g, s)) && |cin| == 32
  {
    TimesEncodes(e, FromBytes(s), e.g);
    TimesEncodes(e, FromBytes(s), g);
    assert PointOk(e, e.g) && PointOk(e, g);
    var h_in := LimbBytes(e.g);
    h_in := h_in + vk;
    var b := LimbBytes(ScalarMult(e, e.g, s));
    h_in := h_in + b;
    b := LimbBytes(g);
    h_in := h_in + b;
    h_in := h_in + point;
    b := LimbBytes(ScalarMult(e, g, s));
    h_in := h_in + b;
    cin := Bytetostring_256(sha(h_in));
    BytetostringIsIdentity(sha(h_in));
  }

  method Response(n: nat, cin: Bytes, sk: Bytes, s: Bytes) returns (zin: Bytes)
    requires 0 < n < TWO_256 && |cin| == |sk| == |s| == 32
    ensures zin == BigEndian((FromBytes(cin) * FromBytes(sk) + FromBytes(s)) % n, 32)
  {
    LimbsOfBytes(s);
    LimbsOfBytes(sk);
    LimbsOfBytes(cin);
    assert s[..32] == s && sk[..32] == sk && cin[..32] == cin;
    var sbig := U64toBigint_256(BytetoU64_256(s));
    var skbig := U64toBigint_256(BytetoU64_256(sk));
    var cbig := U64toBigint_256(BytetoU64_256(cin));
    cbig := cbig * skbig;
    cbig := cbig + sbig;
    cbig := cbig % n;
    var tp64 := BiginttoU64_256(cbig);
    BytesOfLimbs(tp64);
    zin := U64toByte_256(tp64);
  }

  /** The points the check works on lie on the curve, and neither product by the
      challenge is infinity: the program negates that to a point off the curve. */
  ghost predicate PointsUsable(e: Curve, vk: Bytes, share: Bytes)
    requires |vk| == 64 && |share| >= 128
  {
    Undoable(e, DecodePoint(vk), share[64..96]) && Undoable(e, DecodePoint(share), share[64..96])
  }

  ghost predicate Undoable(e: Curve, b: Point, c: Bytes) {
    e.on(b) && ScalarMult(e, b, c) != INFINITY
  }

  /** A commitment is recomputed and encoded; it may be infinity. */
  method UndoBytes(e: Curve, a: Point, b: Point, zb: Bytes, cb: Bytes) returns (r: Option<Bytes>)
    requires IsGroup(e) && e.on(a)
    ensures r == if Undoable(e, b, cb) then Some(EncodePoint(Undo(e, a, b, zb, cb))) else None
  {
    var tp, tm := ScalarMult(e, a, zb), TryScalarMult(e, b, cb);
    TimesEncodes(e, FromBytes(zb), a);
    if tm.None? {
      return None;
    }
    TimesEncodes(e, FromBytes(cb), b);
    assert PointOk(e, tm.value);
    NegationOn(e, tm.value);
    tm := Some(Point(tm.value.x, e.p - tm.value.y));
    assert e.on(tm.value) ==> AddsUp(e, tp, tm.value);
    tm := TryAdd(e, tp, tm.value);
    if tm.None? {
      return None;
    }
    assert PointOk(e, tm.value);
    var bytes := LimbBytes(tm.value);
    r := Some(bytes);
  }

  /** The program's negation stays on the curve for every point but infinity. */
  lemma NegationOn(e: Curve, a: Point)
    requires IsGroup(e) && e.on(a)
    ensures e.on(Negate(e, a)) <==> a != INFINITY
  {
    assert PointOk(e, a);
    assert e.on(Negate(e, a)) ==> PointOk(e, Negate(e, a));
  }

  /** The challenge the check recomputes from key and share. */
  method Recompute(e: Curve, sha: Bytes -> Bytes, input: Bytes, vk: Bytes, share: Bytes) returns (cin: Option<Bytes>)
    requires IsGroup(e) && Is32(sha) && input != [] && |vk| == 64 && |share| >= 128
    ensures cin.Some? <==> PointsUsable(e, vk, share)
    ensures cin.Some? ==>
      var c, z, g := share[64..96], share[96..128], HashPoint(e, sha, input);
      cin.value == Challenge(e, sha, vk, Undo(e, e.g, DecodePoint(vk), z, c), g, share[..64],
                             Undo(e, g, DecodePoint(share), z, c))
  {
    assert PointOk(e, e.g);
    var h_in := LimbBytes(e.g);
    h_in := h_in + vk;
    var cb, zb := share[64..96], share[96..128];
    var key := LimbPoint(vk);
    var b := UndoBytes(e, e.g, key, zb, cb);
    if b.None? {
      return None;
    }
    h_in := h_in + b.value;
    var gx, gy := HashmapPoint(e, sha, input);
    var gxb := U64toBigint_256(gx);
    var gyb := U64toBigint_256(gy);
    var g := Point(gxb, gyb);
    HashPointOn(e, sha, input);
    var gb := LimbBytes(g);
    h_in := h_in + gb;
    h_in := h_in + share[..64];
    var point := LimbPoint(share);
    b := UndoBytes(e, g, point, zb, cb);
    if b.None? {
      return None;
    }
    h_in := h_in + b.value;
    var cv := Bytetostring_256(sha(h_in));
    cin := Some(cv);
    BytetostringIsIdentity(sha(h_in));
  }

  /** None is the panic of package elliptic on a point off the curve. */
  method VerifyShare(e: Curve, sha: Bytes -> Bytes, input: Bytes, vkx: Bytes, vky: Bytes, share: Bytes)
    returns (ok: Option<bool>)
    requires IsGroup(e) && Is32(sha)
    requires input != [] && vkx != [] && vky != [] && share != [] ==> |vkx| == |vky| == 32 && |share| >= 128
    ensures input == [] || vkx == [] || vky == [] || share == [] ==> ok == Some(false)
    ensures input != [] && vkx != [] && vky != [] && share != [] ==>
      ok == if PointsUsable(e, vkx + vky, share) then Some(Accepts(e, sha, input, vkx + vky, share)) else None
  {
    if |input| == 0 || |vkx| == 0 || |vky| == 0 || |share| == 0 {
      return Some(false);
    }
    var cb := share[64..96];
    var cin := Recompute(e, sha, input, vkx + vky, share);
    if cin.None? {
      return None;
    }
    var same := SameBytes(cb, cin.value);
    ok := Some(same);
  }

  /** Compared limb by limb. */
  method SameBytes(cb: Bytes, cin: Bytes) returns (same: bool)
    requires |cb| == |cin| == 32
    ensures same <==> cb == cin
  {
    var cb64, cin64 := BytetoU64_256(cb), BytetoU64_256(cin);
    LimbsOfBytes(cb);
    LimbsOfBytes(cin);
    assert cb[..32] == cb && cin[..32] == cin;
    same := cb64 == cin64;
  }

  /** The response undoes the challenge: with t = c k, (t + s) a - c (k a) = s a. */
  lemma ResponseUndoes(e: Curve, a: Point, k: nat, c: nat, s: nat, t: nat)
    requires IsGroup(e) && e.on(a) && t == c * k && Times(e, c, Times(e, k, a)) != INFINITY
    ensures e.add(Times(e, (t + s) % e.n, a), Negate(e, Times(e, c, Times(e, k, a)))) == Times(e, s, a)
  {
    ProductTimes(e, a, k, c, t);
    SumUndoes(e, a, t, s, t + s);
  }

  lemma ProductTimes(e: Curve, a: Point, k: nat, c: nat, t: nat)
    requires IsGroup(e) && e.on(a) && t == c * k
    ensures Times(e, t, a) == Times(e, c, Times(e, k, a))
  {
    TimesProduct(e, c, k, a);
  }

  lemma SumUndoes(e: Curve, a: Point, t: nat, s: nat, u: nat)
    requires IsGroup(e) && e.on(a) && Times(e, t, a) != INFINITY && u == s + t
    ensures e.add(Times(e, u % e.n, a), Negate(e, Times(e, t, a))) == Times(e, s, a)
  {
    TimesMod(e, u, a);
    TimesDifference(e, s, t, a);
  }

  lemma NotInfinity(e: Curve, a: Point, k: nat, c: nat)
    requires IsGroup(e) && e.on(a) && a != INFINITY && k % e.n != 0 && c % e.n != 0
    ensures Times(e, c, Times(e, k, a)) != INFINITY
  {
    TimesNotInfinity(e, k, a);
    TimesOn(e, k, a);
    TimesNotInfinity(e, c, Times(e, k, a));
  }

  /** Share proof completeness.  For every non-empty input, secret key and nonce,
      with vk the public key's bytes: the 128 bytes of the share pass the check,
      provided that key, input hash and challenge are not 0 modulo the order. */
  lemma ShareIsAccepted(e: Curve, sha: Bytes -> Bytes, input: Bytes, sk: Bytes, nonce: Bytes)
    requires IsGroup(e) && Is32(sha) && input != [] && |sk| == |nonce| == 32
    requires var vk := EncodePoint(ScalarMult(e, e.g, sk));
      && FromBytes(sk) % e.n != 0 && FromBytes(sha(input)) % e.n != 0
      && FromBytes(ShareOf(e, sha, input, sk, vk, nonce)[64..96]) % e.n != 0
    ensures var vk := EncodePoint(ScalarMult(e, e.g, sk)); var share := ShareOf(e, sha, input, sk, vk, nonce);
      && |share| == 128 && PointsUsable(e, vk, share) && Accepts(e, sha, input, vk, share)
      && DecodePoint(share) == ScalarMult(e, HashPoint(e, sha, input), sk)
  {
    var g, pk := HashPoint(e, sha, input), ScalarMult(e, e.g, sk);
    var vk := EncodePoint(pk);
    var share := ShareOf(e, sha, input, sk, vk, nonce);
    var point, c, z := share[..64], share[64..96], share[96..128];
    ShareParts(e, sha, input, sk, vk, nonce);
    HashPointOn(e, sha, input);
    TimesNotInfinity(e, FromBytes(sha(input)), e.g);
    NotInfinity(e, e.g, FromBytes(sk), FromBytes(c));
    NotInfinity(e, g, FromBytes(sk), FromBytes(c));
    EncodedPointDecodes(e, FromBytes(sk), e.g, []);
    EncodedPointDecodes(e, FromBytes(sk), g, c + z);
    assert vk + [] == vk && share == point + (c + z);
    var t := FromBytes(c) * FromBytes(sk);
    ResponseUndoes(e, e.g, FromBytes(sk), FromBytes(c), FromBytes(nonce), t);
    ResponseUndoes(e, g, FromBytes(sk), FromBytes(c), FromBytes(nonce), t);
  }

  lemma EncodedPointDecodes(e: Curve, k: nat, a: Point, rest: Bytes)
    requires IsGroup(e) && e.on(a)
    ensures e.on(Times(e, k, a)) && DecodePoint(EncodePoint(Times(e, k, a)) + rest) == Times(e, k, a)
  {
    TimesEncodes(e, k, a);
    PointRoundTrip(e, Times(e, k, a), rest);
    assert EncodePoint(Times(e, k, a)) == EncodePoint(Times(e, k, a));
  }

  lemma ShareParts(e: Curve, sha: Bytes -> Bytes, input: Bytes, sk: Bytes, vk: Bytes, nonce: Bytes)
    requires IsGroup(e) && Is32(sha)
    ensures var share := ShareOf(e, sha, input, sk, vk, nonce); var g := HashPoint(e, sha, input);
      && |share| == 128 && share[..64] == EncodePoint(ScalarMult(e, g, sk))
      && share[64..96] == Challenge(e, sha, vk, ScalarMult(e, e.g, nonce), g, share[..64], ScalarMult(e, g, nonce))
      && FromBytes(share[96..128]) == (FromBytes(share[64..96]) * FromBytes(sk) + FromBytes(nonce)) % e.n
  {
    var g := HashPoint(e, sha, input);
    var point := EncodePoint(ScalarMult(e, g, sk));
    var c := Challenge(e, sha, vk, ScalarMult(e, e.g, nonce), g, point, ScalarMult(e, g, nonce));
    var z := (FromBytes(c) * FromBytes(sk) + FromBytes(nonce)) % e.n;
    SplitShare(point, c, BigEndian(z, 32));
    Power32();
    DecodeEncode(z, 32);
  }

  lemma SplitShare(point: Bytes, c: Bytes, z: Bytes)
    requires |point| == 64 && |c| == |z| == 32
    ensures var share := point + c + z;
      |share| == 128 && share[..64] == point && share[64..96] == c && share[96..128] == z
  {
  }

  // ----- the PRF as a whole -----

  /** The key bytes of party i in a dealing. */
  function KeyBytes(n: nat, a: seq<int>, i: nat): (sk: Bytes)
    requires n > 0
    ensures |sk| == 32
  {
    BigEndian(SecretKey(n, a, i), 32)
  }

  /** Each answer is a share as the program computes it, under some nonce. */
  ghost predicate Answers(e: Curve, sha: Bytes -> Bytes, input: Bytes, a: seq<int>, ids: seq<int>, vks: seq<Bytes>,
          nonces: seq<Bytes>, shares: seq<Bytes>)
    requires e.n > 0
  {
    && |shares| == |ids| == |nonces| == |vks|
    && forall i :: 0 <= i < |ids| ==>
         ids[i] >= 0 && shares[i] == ShareOf(e, sha, input, KeyBytes(e.n, a, ids[i]), vks[i], nonces[i])
  }

  /** The PRF does not depend on who answers: any k distinct parties of a
      dealing give, in any order and under any nonces, the hash of party 0's
      share point. */
  lemma PrfIsPartyZeros(e: Curve, sha: Bytes -> Bytes, input: Bytes, a: seq<int>, ids: seq<int>,
                        vks: seq<Bytes>, nonces: seq<Bytes>, shares: seq<Bytes>)
    requires IsGroup(e) && Is32(sha) && DistinctMod(ids, e.n) && |ids| == |a|
    requires Answers(e, sha, input, a, ids, vks, nonces, shares)
    ensures SharesOk(e, shares)
    ensures Combined(e, ids, shares) == ScalarMult(e, HashPoint(e, sha, input), KeyBytes(e.n, a, 0))
  {
    var g := HashPoint(e, sha, input);
    HashPointOn(e, sha, input);
    forall i | 0 <= i < |ids|
      ensures |shares[i]| == 128 && e.on(DecodePoint(shares[i]))
      ensures DecodePoint(shares[i]) == Times(e, SecretKey(e.n, a, ids[i]), g)
    {
      ShareDecodes(e, sha, input, a, ids[i], vks[i], nonces[i]);
    }
    KeyValue(e.n, a, 0);
    SubsetIndependence(e, a, g, ids, shares);
  }

  lemma ShareDecodes(e: Curve, sha: Bytes -> Bytes, input: Bytes, a: seq<int>, id: nat, vk: Bytes, nonce: Bytes)
    requires IsGroup(e) && Is32(sha)
    ensures var share := ShareOf(e, sha, input, KeyBytes(e.n, a, id), vk, nonce);
      && |share| == 128 && e.on(DecodePoint(share))
      && DecodePoint(share) == Times(e, SecretKey(e.n, a, id), HashPoint(e, sha, input))
  {
    var sk := KeyBytes(e.n, a, id);
    var share := ShareOf(e, sha, input, sk, vk, nonce);
    HashPointOn(e, sha, input);
    KeyValue(e.n, a, id);
    ShareParts(e, sha, input, sk, vk, nonce);
    EncodedPointDecodes(e, FromBytes(sk), HashPoint(e, sha, input), share[64..]);
    assert share == share[..64] + share[64..];
  }

  lemma KeyValue(n: nat, a: seq<int>, i: nat)
    requires 0 < n < TWO_256
    ensures FromBytes(KeyBytes(n, a, i)) == SecretKey(n, a, i)
  {
    Power32();
    DecodeEncode(SecretKey(n, a, i), 32);
  }

  /** Two choices of k distinct parties obtain the same output. */
  lemma SubsetsAgree(e: Curve, sha: Bytes -> Bytes, input: Bytes, a: seq<int>,
                     ids: seq<int>, vks: seq<Bytes>, nonces: seq<Bytes>, shares: seq<Bytes>,
                     ids': seq<int>, vks': seq<Bytes>, nonces': seq<Bytes>, shares': seq<Bytes>)
    requires IsGroup(e) && Is32(sha) && |ids| == |ids'| == |a|
    requires DistinctMod(ids, e.n) && Answers(e, sha, input, a, ids, vks, nonces, shares)
    requires DistinctMod(ids', e.n) && Answers(e, sha, input, a, ids', vks', nonces', shares')
    ensures SharesOk(e, shares) && SharesOk(e, shares')
    ensures sha(EncodePoint(Combined(e, ids, shares))) == sha(EncodePoint(Combined(e, ids', shares')))
  {
    PrfIsPartyZeros(e, sha, input, a, ids, vks, nonces, shares);
    PrfIsPartyZeros(e, sha, input, a, ids', vks', nonces', shares');
  }
}
