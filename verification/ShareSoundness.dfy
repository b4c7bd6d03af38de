/** What an accepted share proves: its challenge binds everything that was
    hashed, and two answers to one commitment give the key away. */
module ShareSoundness {
  import opened Messages
  import opened Modular
  import opened Curves
  import opened ShareProof
  import opened Words

  // ----- the challenge binds -----

  /** The commitments the check recomputes. */
  function KeyCommitment(e: Curve, vk: Bytes, share: Bytes): Point
    requires |vk| == 64 && |share| >= 128
  {
    Undo(e, e.g, DecodePoint(vk), share[96..128], share[64..96])
  }

  function ShareCommitment(e: Curve, sha: Bytes -> Bytes, input: Bytes, share: Bytes): Point
    requires |share| >= 128
  {
    Undo(e, HashPoint(e, sha, input), DecodePoint(share), share[96..128], share[64..96])
  }

  /** What the check hashes. */
  function Hashed(e: Curve, sha: Bytes -> Bytes, input: Bytes, vk: Bytes, share: Bytes): Bytes
    requires |vk| == 64 && |share| >= 128
  {
    Transcript(e, vk, KeyCommitment(e, vk, share), HashPoint(e, sha, input), share[..64],
               ShareCommitment(e, sha, input, share))
  }

  ghost predicate Checked(e: Curve, sha: Bytes -> Bytes, input: Bytes, vk: Bytes, share: Bytes) {
    |vk| == 64 && |share| >= 128 && PointsUsable(e, vk, share) && Accepts(e, sha, input, vk, share)
  }

  lemma TranscriptParts(e: Curve, vk: Bytes, h: Point, g: Point, share: Bytes, hCap: Point)
    requires |vk| == |share| == 64
    ensures var t := Transcript(e, vk, h, g, share, hCap);
      && |t| == 384 && t[64..128] == vk && t[128..192] == EncodePoint(h) && t[192..256] == EncodePoint(g)
      && t[256..320] == share && t[320..] == EncodePoint(hCap)
  {
    var t := Transcript(e, vk, h, g, share, hCap);
    assert t == EncodePoint(e.g) + (vk + (EncodePoint(h) + (EncodePoint(g) + (share + EncodePoint(hCap)))));
    assert t[64..] == vk + (EncodePoint(h) + (EncodePoint(g) + (share + EncodePoint(hCap))));
    assert t[128..] == EncodePoint(h) + (EncodePoint(g) + (share + EncodePoint(hCap)));
    assert t[192..] == EncodePoint(g) + (share + EncodePoint(hCap));
    assert t[256..] == share + EncodePoint(hCap);
  }

  lemma EncodingBinds(e: Curve, a: Point, b: Point)
    requires IsGroup(e) && e.on(a) && e.on(b) && EncodePoint(a) == EncodePoint(b)
    ensures a == b
  {
    PointRoundTrip(e, a, []);
    PointRoundTrip(e, b, []);
  }

  lemma UndoOn(e: Curve, a: Point, b: Point, z: Bytes, c: Bytes)
    requires IsGroup(e) && e.on(a) && Undoable(e, b, c)
    ensures e.on(Undo(e, a, b, z, c))
  {
    TimesEncodes(e, FromBytes(z), a);
    TimesEncodes(e, FromBytes(c), b);
    NegationOn(e, ScalarMult(e, b, c));
    assert AddsUp(e, ScalarMult(e, a, z), Negate(e, ScalarMult(e, b, c)));
  }

  /** Binding.  Two accepted shares with the same challenge are for the same key,
      input point and share point, with the same recomputed commitments; or two
      different strings, those the check hashed, have the same hash. */
  lemma ChallengeBinds(e: Curve, sha: Bytes -> Bytes, input: Bytes, vk: Bytes, share: Bytes,
                       input': Bytes, vk': Bytes, share': Bytes)
    requires IsGroup(e) && Checked(e, sha, input, vk, share) && Checked(e, sha, input', vk', share')
    requires share[64..96] == share'[64..96]
    ensures
      || (vk == vk' && HashPoint(e, sha, input) == HashPoint(e, sha, input') && share[..64] == share'[..64]
          && KeyCommitment(e, vk, share) == KeyCommitment(e, vk', share')
          && ShareCommitment(e, sha, input, share) == ShareCommitment(e, sha, input', share'))
      || (var t, t' := Hashed(e, sha, input, vk, share), Hashed(e, sha, input', vk', share');
          t != t' && sha(t) == sha(t') == share[64..96])
  {
    if Hashed(e, sha, input, vk, share) == Hashed(e, sha, input', vk', share') {
      HashPointOn(e, sha, input);
      HashPointOn(e, sha, input');
      SharePartsEqual(e, sha, input, vk, share, input', vk', share');
    }
  }

  lemma CommitmentsOn(e: Curve, sha: Bytes -> Bytes, input: Bytes, vk: Bytes, share: Bytes)
    requires IsGroup(e) && Checked(e, sha, input, vk, share)
    ensures e.on(KeyCommitment(e, vk, share)) && e.on(ShareCommitment(e, sha, input, share))
    ensures e.on(HashPoint(e, sha, input))
  {
    HashPointOn(e, sha, input);
    UndoOn(e, e.g, DecodePoint(vk), share[96..128], share[64..96]);
    UndoOn(e, HashPoint(e, sha, input), DecodePoint(share), share[96..128], share[64..96]);
  }

  lemma SharePartsEqual(e: Curve, sha: Bytes -> Bytes, input: Bytes, vk: Bytes, share: Bytes,
                        input': Bytes, vk': Bytes, share': Bytes)
    requires IsGroup(e) && Checked(e, sha, input, vk, share) && Checked(e, sha, input', vk', share')
    requires Hashed(e, sha, input, vk, share) == Hashed(e, sha, input', vk', share')
    ensures vk == vk' && HashPoint(e, sha, input) == HashPoint(e, sha, input') && share[..64] == share'[..64]
    ensures KeyCommitment(e, vk, share) == KeyCommitment(e, vk', share')
    ensures ShareCommitment(e, sha, input, share) == ShareCommitment(e, sha, input', share')
  {
    CommitmentsOn(e, sha, input, vk, share);
    CommitmentsOn(e, sha, input', vk', share');
    TranscriptParts(e, vk, KeyCommitment(e, vk, share), HashPoint(e, sha, input), share[..64],
                    ShareCommitment(e, sha, input, share));
    TranscriptParts(e, vk', KeyCommitment(e, vk', share'), HashPoint(e, sha, input'), share'[..64],
                    ShareCommitment(e, sha, input', share'));
    EncodingBinds(e, KeyCommitment(e, vk, share), KeyCommitment(e, vk', share'));
    EncodingBinds(e, HashPoint(e, sha, input), HashPoint(e, sha, input'));
    EncodingBinds(e, ShareCommitment(e, sha, input, share), ShareCommitment(e, sha, input', share'));
  }

  /** The input's point binds the input's hash modulo the order. */
  lemma InputPointBinds(e: Curve, sha: Bytes -> Bytes, input: Bytes, input': Bytes)
    requires IsGroup(e) && input != [] && input' != []
    ensures HashPoint(e, sha, input) == HashPoint(e, sha, input') <==>
            FromBytes(sha(input)) % e.n == FromBytes(sha(input')) % e.n
  {
    var j, k := FromBytes(sha(input)), FromBytes(sha(input'));
    TimesMod(e, j, e.g);
    TimesMod(e, k, e.g);
    if j % e.n != k % e.n && Times(e, j, e.g) == Times(e, k, e.g) {
      var u, t := ScalarSplit(e.n, j, k);
      SplitScalar(e, e.g, j, k, u, t);
      TimesOn(e, k, e.g);
      TimesOn(e, u, e.g);
      TimesOn(e, 0, e.g);
      assert PointOk(e, Times(e, k, e.g));
      Cancels(e, Times(e, k, e.g), Times(e, u, e.g), INFINITY);
      NonZeroDifference(e.n, j, k);
      TimesNotInfinity(e, u, e.g);
    }
  }

  // ----- special soundness -----

  lemma Cancels(e: Curve, x: Point, u: Point, w: Point)
    requires IsGroup(e) && e.on(x) && e.on(u) && e.on(w) && e.add(x, u) == e.add(x, w)
    ensures u == w
  {
    if x == INFINITY {
      assert AddsUp(e, x, u) && AddsUp(e, x, w) && PointOk(e, u) && PointOk(e, w);
    } else {
      TakesAway(e, x, u);
      TakesAway(e, x, w);
    }
  }

  lemma TakesAway(e: Curve, x: Point, u: Point)
    requires IsGroup(e) && e.on(x) && e.on(u) && x != INFINITY
    ensures e.add(Negate(e, x), e.add(x, u)) == u
  {
    assert PointOk(e, x) && PointOk(e, u);
    assert AddsUp(e, Negate(e, x), x) && AddsUp(e, INFINITY, u);
    assert Associates(e, Negate(e, x), x, u);
  }

  lemma AddsBack(e: Curve, a: Point, b: Point)
    requires IsGroup(e) && e.on(a) && e.on(b) && b != INFINITY
    ensures e.add(e.add(a, Negate(e, b)), b) == a
  {
    assert PointOk(e, b) && PointOk(e, a);
    assert Associates(e, a, Negate(e, b), b) && AddsUp(e, Negate(e, b), b);
  }

  /** The secret two answers give away: (z - z') / (c - c') modulo the order. */
  function Extracted(n: nat, z: nat, c: nat, z': nat, c': nat): nat
    requires n > 0
  {
    var v := ModInverse((c - c') % n, n);
    if v.Some? then v.value * ((z - z') % n) % n else 0
  }

  /** If z a - c b = z' a - c' b with c and c' different modulo the order, b is a multiple of a. */
  lemma AnswersGiveMultiple(e: Curve, a: Point, b: Point, z: nat, c: nat, z': nat, c': nat)
    requires IsGroup(e) && e.on(a) && e.on(b) && c % e.n != c' % e.n
    requires Times(e, c, b) != INFINITY && Times(e, c', b) != INFINITY
    requires e.add(Times(e, z, a), Negate(e, Times(e, c, b))) == e.add(Times(e, z', a), Negate(e, Times(e, c', b)))
    ensures b == Times(e, Extracted(e.n, z, c, z', c'), a)
  {
    var u, w := (z - z') % e.n, (c - c') % e.n;
    DifferenceOfAnswers(e, a, b, z, c, z', c');
    CongMod(c - c', 0, e.n);
    CongMod(c, c', e.n);
    NonZeroDifference(e.n, c, c');
    DividesOut(e, a, b, u, w);
  }

  lemma NonZeroDifference(n: nat, c: nat, c': nat)
    requires n > 0 && c % n != c' % n
    ensures (c - c') % n % n != 0
  {
    if (c - c') % n == 0 {
      CongMod(c - c', 0, n);
      var k := CongWitness(c - c', 0, n);
      CongFrom(c, c', k, n);
      CongMod(c, c', n);
    }
  }

  lemma ScalarSplit(n: nat, z: nat, z': nat) returns (u: nat, t: nat)
    requires n > 0
    ensures u == (z - z') % n && t == z' + u && Cong(z, t, n)
  {
    u := (z - z') % n;
    t := z' + u;
    ModCong(z - z', n);
    CongRefl(z', n);
    CongAdd(z', z', z - z', u, n);
  }

  lemma SplitScalar(e: Curve, a: Point, z: nat, z': nat, u: nat, t: nat)
    requires IsGroup(e) && e.on(a) && t == z' + u && Cong(z, t, e.n)
    ensures Times(e, z, a) == e.add(Times(e, z', a), Times(e, u, a))
  {
    TimesSum(e, z', u, a);
    TimesCong(e, z, t, a);
  }

  /** From p = q' + u and c = c' + w, and p - c = q' - c': u = w. */
  lemma DifferencesAgree(e: Curve, p: Point, q': Point, u: Point, c: Point, c': Point, w: Point)
    requires IsGroup(e) && e.on(q') && e.on(u) && e.on(c') && e.on(w)
    requires p == e.add(q', u) && c == e.add(c', w) && c != INFINITY && c' != INFINITY
    requires e.add(p, Negate(e, c)) == e.add(q', Negate(e, c'))
    ensures u == w
  {
    assert AddsUp(e, q', u) && AddsUp(e, c', w);
    AddsBack(e, p, c);
    AddsBack(e, q', c');
    CommonOn(e, q', c');
    assert Associates(e, e.add(q', Negate(e, c')), c', w);
    Cancels(e, q', u, w);
  }

  lemma CommonOn(e: Curve, a: Point, b: Point)
    requires IsGroup(e) && e.on(a) && e.on(b) && b != INFINITY
    ensures e.on(e.add(a, Negate(e, b)))
  {
    NegationOn(e, b);
    assert AddsUp(e, a, Negate(e, b));
  }

  /** The multiples (z - z') a and (c - c') b are the same. */
  lemma DifferenceOfAnswers(e: Curve, a: Point, b: Point, z: nat, c: nat, z': nat, c': nat)
    requires IsGroup(e) && e.on(a) && e.on(b) && Times(e, c, b) != INFINITY && Times(e, c', b) != INFINITY
    requires e.add(Times(e, z, a), Negate(e, Times(e, c, b))) == e.add(Times(e, z', a), Negate(e, Times(e, c', b)))
    ensures Times(e, (z - z') % e.n, a) == Times(e, (c - c') % e.n, b)
  {
    var u, t := ScalarSplit(e.n, z, z');
    var w, t' := ScalarSplit(e.n, c, c');
    SplitScalar(e, a, z, z', u, t);
    SplitScalar(e, b, c, c', w, t');
    TimesOn(e, z', a);
    TimesOn(e, u, a);
    TimesOn(e, c', b);
    TimesOn(e, w, b);
    DifferencesAgree(e, Times(e, z, a), Times(e, z', a), Times(e, u, a),
                     Times(e, c, b), Times(e, c', b), Times(e, w, b));
  }

  lemma DividesOut(e: Curve, a: Point, b: Point, u: nat, w: nat)
    requires IsGroup(e) && e.on(a) && e.on(b) && w % e.n != 0 && Times(e, u, a) == Times(e, w, b)
    ensures ModInverse(w, e.n).Some? && b == Times(e, ModInverse(w, e.n).value * u % e.n, a)
  {
    PrimeUnits(w, e.n);
    ModInverseIff(w, e.n);
    var v := ModInverse(w, e.n).value;
    assert v * w == w * v;
    UnitMultiple(e, b, v * w);
    ScaledSame(e, a, b, u, w, v, v * u, v * w);
  }

  lemma UnitMultiple(e: Curve, b: Point, y: nat)
    requires IsGroup(e) && e.on(b) && Cong(y, 1, e.n)
    ensures Times(e, y, b) == b
  {
    TimesCong(e, y, 1, b);
    assert Times(e, 0, b) == INFINITY && Times(e, 1, b) == e.add(INFINITY, b);
    assert AddsUp(e, INFINITY, b) && PointOk(e, b);
  }

  lemma ScaledSame(e: Curve, a: Point, b: Point, u: nat, w: nat, v: nat, x: nat, y: nat)
    requires IsGroup(e) && e.on(a) && e.on(b) && Times(e, u, a) == Times(e, w, b)
    requires x == v * u && y == v * w && Times(e, y, b) == b
    ensures b == Times(e, x % e.n, a)
  {
    TimesProduct(e, v, u, a);
    TimesProduct(e, v, w, b);
    TimesMod(e, x, a);
  }

  /** Special soundness.  Let a share and another with the same share point pass
      the check of one key and input point, under hashes that answer the same
      commitments with challenges different modulo the order.  Then the share is
      right: one k makes the key k G and the share point k times the input's
      point.  Under one hash the challenges could not differ, so there are two. */
  lemma SpecialSoundness(e: Curve, sha: Bytes -> Bytes, sha': Bytes -> Bytes, input: Bytes, vk: Bytes,
                         share: Bytes, share': Bytes)
    returns (k: nat)
    requires IsGroup(e) && Checked(e, sha, input, vk, share) && Checked(e, sha', input, vk, share')
    requires HashPoint(e, sha, input) == HashPoint(e, sha', input) && share[..64] == share'[..64]
    requires KeyCommitment(e, vk, share) == KeyCommitment(e, vk, share')
    requires ShareCommitment(e, sha, input, share) == ShareCommitment(e, sha', input, share')
    requires FromBytes(share[64..96]) % e.n != FromBytes(share'[64..96]) % e.n
    ensures DecodePoint(vk) == Times(e, k, e.g) && DecodePoint(share) == Times(e, k, HashPoint(e, sha, input))
  {
    var g := HashPoint(e, sha, input);
    HashPointOn(e, sha, input);
    var z, c := FromBytes(share[96..128]), FromBytes(share[64..96]);
    var z', c' := FromBytes(share'[96..128]), FromBytes(share'[64..96]);
    SamePoint(share, share');
    AnswersGiveMultiple(e, e.g, DecodePoint(vk), z, c, z', c');
    AnswersGiveMultiple(e, g, DecodePoint(share), z, c, z', c');
    k := Extracted(e.n, z, c, z', c');
  }

  lemma SamePoint(share: Bytes, share': Bytes)
    requires |share| >= 64 && |share'| >= 64 && share[..64] == share'[..64]
    ensures DecodePoint(share) == DecodePoint(share')
  {
    assert share[..32] == share[..64][..32] && share'[..32] == share'[..64][..32];
    assert share[32..64] == share[..64][32..64] && share'[32..64] == share'[..64][32..64];
  }
}
