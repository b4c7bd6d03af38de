/** The hash chain over proposals, down to bytes: equal block hashes bind the
    whole proposal history, or exhibit a collision among the bytes hashed. */
module HashChain {
  import opened Messages
  import opened Words

  const TWO_63 := 0x8000_0000_0000_0000

  predicate Int64(n: int) {
    -TWO_63 <= n < TWO_63
  }

  /** A 64-bit integer in two's complement, most significant byte first. */
  function IntToBytes(n: int): (b: Bytes)
    ensures |b| == 8
  {
    BigEndian(n % TWO_64, 8)
  }

  lemma IntToBytesInjective(n: int, m: int)
    requires Int64(n) && Int64(m) && IntToBytes(n) == IntToBytes(m)
    ensures n == m
  {
    WordPower();
    BigEndianInjective(n % TWO_64, m % TWO_64, 8);
  }

  ghost predicate Is32(sha: Bytes -> Bytes) {
    forall x :: |sha(x)| == 32
  }

  function GenHash(sha: Bytes -> Bytes, input: Bytes): Bytes {
    if input == [] then [] else sha(input)
  }

  datatype Entry = Entry(num: int, ops: seq<Bytes>)

  function MsgHash(sha: Bytes -> Bytes, ops: seq<Bytes>): Bytes {
    GenHash(sha, Join(ops))
  }

  /** The hash of a batch: its requests joined without separator, then hashed. */
  method GenBatchHash(sha: Bytes -> Bytes, batch: seq<Bytes>) returns (h: Bytes)
    ensures h == MsgHash(sha, batch)
  {
    var tmp := new Bytes[|batch|];
    var i := 0;
    while i < |batch|
      invariant 0 <= i <= |batch| && tmp[..i] == batch[..i]
    {
      tmp[i] := batch[i];
      i := i + 1;
    }
    assert tmp[..] == batch;
    h := GenHash(sha, Join(tmp[..]));
  }

  function SeqInput(sha: Bytes -> Bytes, e: Entry): Bytes {
    IntToBytes(e.num) + MsgHash(sha, e.ops)
  }

  /** The proposer's current hash after a history of proposals from the start. */
  function CurHash(sha: Bytes -> Bytes, es: seq<Entry>): Bytes
    decreases |es|, 1
  {
    if es == [] then [] else GenHash(sha, LinkInput(sha, es))
  }

  function LinkInput(sha: Bytes -> Bytes, es: seq<Entry>): Bytes
    requires es != []
    decreases |es|, 0
  {
    CurHash(sha, es[..|es| - 1]) + GenHash(sha, SeqInput(sha, es[|es| - 1]))
  }

  /** Every non-empty byte string hashed while building the chain. */
  ghost function Hashed(sha: Bytes -> Bytes, es: seq<Entry>): set<Bytes> {
    if es == [] then {}
    else
      var e := es[|es| - 1];
      Hashed(sha, es[..|es| - 1]) + {LinkInput(sha, es), SeqInput(sha, e)}
      + (if Join(e.ops) == [] then {} else {Join(e.ops)})
  }

  /** Same length, same sequence numbers, same joined batches. */
  ghost predicate SameHistory(a: seq<Entry>, b: seq<Entry>) {
    && |a| == |b|
    && forall i :: 0 <= i < |a| ==> a[i].num == b[i].num && Join(a[i].ops) == Join(b[i].ops)
  }

  /** Two different strings, one hashed in each history, with the same hash. */
  ghost predicate Collide(sha: Bytes -> Bytes, a: seq<Entry>, b: seq<Entry>) {
    exists x, y :: x in Hashed(sha, a) && y in Hashed(sha, b) && x != y && sha(x) == sha(y)
  }

  lemma SplitLink(p: Bytes, q: Bytes, p': Bytes, q': Bytes)
    requires p + q == p' + q' && |q| == |q'|
    ensures p == p' && q == q'
  {
    assert |p| == |p'|;
    assert p == (p + q)[..|p|] && q == (p + q)[|p|..];
    assert p' == (p' + q')[..|p'|] && q' == (p' + q')[|p'|..];
  }

  lemma SameEntry(sha: Bytes -> Bytes, e: Entry, f: Entry)
    requires Is32(sha) && Int64(e.num) && Int64(f.num) && SeqInput(sha, e) == SeqInput(sha, f)
    ensures e.num == f.num
    ensures Join(e.ops) == Join(f.ops) || (Join(e.ops) != [] && Join(f.ops) != [] &&
        sha(Join(e.ops)) == sha(Join(f.ops)))
  {
    assert IntToBytes(e.num) == SeqInput(sha, e)[..8] && IntToBytes(f.num) == SeqInput(sha, f)[..8];
    assert MsgHash(sha, e.ops) == SeqInput(sha, e)[8..] && MsgHash(sha, f.ops) == SeqInput(sha, f)[8..];
    IntToBytesInjective(e.num, f.num);
  }

  /** Equal hashes bind the histories, or a collision is at hand. */
  lemma {:induction false} EqualHashesBindHistory(sha: Bytes -> Bytes, a: seq<Entry>, b: seq<Entry>)
    requires Is32(sha)
    requires forall i :: 0 <= i < |a| ==> Int64(a[i].num)
    requires forall i :: 0 <= i < |b| ==> Int64(b[i].num)
    requires CurHash(sha, a) == CurHash(sha, b)
    ensures SameHistory(a, b) || Collide(sha, a, b)
    decreases |a|
  {
    if a == [] || b == [] {
      assert a != [] ==> |CurHash(sha, a)| == 32;
      assert b != [] ==> |CurHash(sha, b)| == 32;
    } else {
      var a', b', e, f := a[..|a| - 1], b[..|b| - 1], a[|a| - 1], b[|b| - 1];
      if LinkInput(sha, a) != LinkInput(sha, b) {
        assert Collide(sha, a, b);
      } else {
        SplitLink(CurHash(sha, a'), GenHash(sha, SeqInput(sha, e)), CurHash(sha, b'), GenHash(sha, SeqInput(sha, f)));
        EqualHashesBindHistory(sha, a', b');
        LastEntryBinds(sha, a, b);
        if Collide(sha, a', b') {
          CollisionStays(sha, a, b);
        } else if !Collide(sha, a, b) {
          SameHistoryGrows(a, b);
        }
      }
    }
  }

  lemma HashedGrows(sha: Bytes -> Bytes, es: seq<Entry>)
    requires es != []
    ensures Hashed(sha, es[..|es| - 1]) <= Hashed(sha, es)
    ensures LinkInput(sha, es) in Hashed(sha, es) && SeqInput(sha, es[|es| - 1]) in Hashed(sha, es)
    ensures Join(es[|es| - 1].ops) != [] ==> Join(es[|es| - 1].ops) in Hashed(sha, es)
  {
  }

  lemma CollisionStays(sha: Bytes -> Bytes, a: seq<Entry>, b: seq<Entry>)
    requires a != [] && b != [] && Collide(sha, a[..|a| - 1], b[..|b| - 1])
    ensures Collide(sha, a, b)
  {
    var x, y :| x in Hashed(sha, a[..|a| - 1]) && y in Hashed(sha, b[..|b| - 1]) && x != y && sha(x) == sha(y);
    HashedGrows(sha, a);
    HashedGrows(sha, b);
    assert x in Hashed(sha, a) && y in Hashed(sha, b);
  }

  lemma SameHistoryGrows(a: seq<Entry>, b: seq<Entry>)
    requires a != [] && b != [] && SameHistory(a[..|a| - 1], b[..|b| - 1])
    requires a[|a| - 1].num == b[|b| - 1].num && Join(a[|a| - 1].ops) == Join(b[|b| - 1].ops)
    ensures SameHistory(a, b)
  {
    forall i | 0 <= i < |a| ensures a[i].num == b[i].num && Join(a[i].ops) == Join(b[i].ops) {
      if i < |a| - 1 {
        assert a[..|a| - 1][i] == a[i] && b[..|b| - 1][i] == b[i];
      }
    }
  }

  lemma LastEntryBinds(sha: Bytes -> Bytes, a: seq<Entry>, b: seq<Entry>)
    requires Is32(sha) && a != [] && b != [] && Int64(a[|a| - 1].num) && Int64(b[|b| - 1].num)
    requires sha(SeqInput(sha, a[|a| - 1])) == sha(SeqInput(sha, b[|b| - 1]))
    ensures (a[|a| - 1].num == b[|b| - 1].num && Join(a[|a| - 1].ops) == Join(b[|b| - 1].ops)) || Collide(sha, a, b)
  {
    var e, f := a[|a| - 1], b[|b| - 1];
    HashedGrows(sha, a);
    HashedGrows(sha, b);
    if SeqInput(sha, e) == SeqInput(sha, f) {
      SameEntry(sha, e, f);
    }
  }

  /** The digest terms of the replica model for the same history. */
  function DigestOf(es: seq<Entry>): Digest {
    if es == [] then NoHash
    else Chained(DigestOf(es[..|es| - 1]), es[|es| - 1].num, Join(es[|es| - 1].ops))
  }

  /** Digest terms are equal exactly when the histories are the same: what the
      replica model takes for granted is that no collision occurs. */
  lemma {:induction false} DigestsBindHistory(a: seq<Entry>, b: seq<Entry>)
    ensures DigestOf(a) == DigestOf(b) <==> SameHistory(a, b)
    decreases |a|
  {
    if a == [] || b == [] {
    } else {
      var a', b' := a[..|a| - 1], b[..|b| - 1];
      DigestsBindHistory(a', b');
      assert forall i :: 0 <= i < |a'| ==> a'[i] == a[i];
      assert forall i :: 0 <= i < |b'| ==> b'[i] == b[i];
      if |a| == |b| && a[|a| - 1].num == b[|b| - 1].num && Join(a[|a| - 1].ops) == Join(b[|b| - 1].ops) {
        assert SameHistory(a', b') ==> SameHistory(a, b);
      }
    }
  }
}
