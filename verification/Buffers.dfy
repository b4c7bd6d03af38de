/** The buffers of package quorum: votes with their certificates, and
    per-number message collections. */
module Buffers {
  import opened Messages

  // ----- votes and certificates -----

  datatype VoteBook = VoteBook(
    buffer: map<Digest, set<int>>,
    sigs: map<Digest, seq<Signature>>,
    ids: map<Digest, seq<int>>)

  const EMPTY_VOTES := VoteBook(map[], map[], map[])

  function VotersOf(b: VoteBook, key: Digest): set<int> {
    if key in b.buffer then b.buffer[key] else {}
  }

  function SigsOf(b: VoteBook, key: Digest): seq<Signature> {
    if key in b.sigs then b.sigs[key] else []
  }

  function IdsOf(b: VoteBook, key: Digest): seq<int> {
    if key in b.ids then b.ids[key] else []
  }

  /** A vote is buffered once per voter; only a new voter with a signature
      extends the certificate. */
  function AddVote(b: VoteBook, key: Digest, nid: int, msg: Option<Signature>): VoteBook {
    var b1 := b.(buffer := b.buffer[key := VotersOf(b, key) + {nid}]);
    if msg.None? || nid in VotersOf(b, key) then b1
    else b1.(sigs := b.sigs[key := SigsOf(b, key) + [msg.value]],
             ids := b.ids[key := IdsOf(b, key) + [nid]])
  }

  function ClearVotes(b: VoteBook, key: Digest): VoteBook {
    VoteBook(b.buffer - {key}, b.sigs - {key}, b.ids - {key})
  }

  ghost predicate Distinct(s: seq<int>) {
    forall i, j :: 0 <= i < j < |s| ==> s[i] != s[j]
  }

  function Elements(s: seq<int>): set<int> {
    set x | x in s
  }

  /** Certificates mirror the buffered voters: parallel lists, each voter once. */
  ghost predicate MirrorsAt(b: VoteBook, key: Digest) {
    && |SigsOf(b, key)| == |IdsOf(b, key)|
    && Distinct(IdsOf(b, key))
    && Elements(IdsOf(b, key)) == VotersOf(b, key)
  }

  ghost predicate Mirrors(b: VoteBook) {
    forall key :: MirrorsAt(b, key)
  }

  datatype VoteOp = AddOp(key: Digest, nid: int, msg: Option<Signature>) | ClearOp(key: Digest)

  function ApplyVoteOp(b: VoteBook, op: VoteOp): VoteBook {
    match op
    case AddOp(key, nid, msg) => AddVote(b, key, nid, msg)
    case ClearOp(key) => ClearVotes(b, key)
  }

  function ApplyVoteOps(b: VoteBook, ops: seq<VoteOp>): VoteBook {
    if ops == [] then b else ApplyVoteOp(ApplyVoteOps(b, ops[..|ops| - 1]), ops[|ops| - 1])
  }

  /** Adding a vote keeps the mirror exactly when the vote is signed or repeated. */
  lemma AddVoteMirrors(b: VoteBook, key: Digest, nid: int, msg: Option<Signature>)
    requires Mirrors(b)
    ensures Mirrors(AddVote(b, key, nid, msg)) <==> (msg.Some? || nid in VotersOf(b, key))
  {
    var b' := AddVote(b, key, nid, msg);
    assert MirrorsAt(b, key);
    forall k | k != key ensures MirrorsAt(b', k) {
      assert MirrorsAt(b, k);
    }
    if msg.Some? || nid in VotersOf(b, key) {
      if nid in VotersOf(b, key) {
        assert VotersOf(b', key) == VotersOf(b, key);
      } else {
        assert Elements(IdsOf(b, key) + [nid]) == Elements(IdsOf(b, key)) + {nid};
      }
      assert MirrorsAt(b', key);
    } else {
      assert nid in VotersOf(b', key) && nid !in Elements(IdsOf(b', key));
      assert !MirrorsAt(b', key);
    }
  }

  /** Over any history of signed votes and clears, certificates mirror the buffer. */
  lemma {:induction false} CertificatesMirrorVotes(ops: seq<VoteOp>)
    requires forall i :: 0 <= i < |ops| && ops[i].AddOp? ==> ops[i].msg.Some?
    ensures Mirrors(ApplyVoteOps(EMPTY_VOTES, ops))
  {
    if ops == [] {
      forall key ensures MirrorsAt(EMPTY_VOTES, key) {}
    } else {
      var pre := ops[..|ops| - 1];
      CertificatesMirrorVotes(pre);
      var b, op := ApplyVoteOps(EMPTY_VOTES, pre), ops[|ops| - 1];
      match op {
        case AddOp(key, nid, msg) => AddVoteMirrors(b, key, nid, msg);
        case ClearOp(key) =>
          forall k ensures MirrorsAt(ClearVotes(b, key), k) {
            assert MirrorsAt(b, k);
          }
      }
    }
  }

  /** The i-th operation adds q's vote for key, and key is not cleared after it. */
  ghost predicate Standing(ops: seq<VoteOp>, i: int, key: Digest, q: int) {
    && 0 <= i < |ops| && Adds(ops[i], key, q)
    && forall j :: i < j < |ops| ==> ops[j] != ClearOp(key)
  }

  predicate Adds(op: VoteOp, key: Digest, q: int) {
    op.AddOp? && op.key == key && op.nid == q
  }

  lemma VoterStep(b: VoteBook, op: VoteOp, key: Digest, q: int)
    ensures q in VotersOf(ApplyVoteOp(b, op), key) <==>
            Adds(op, key, q) || (q in VotersOf(b, key) && op != ClearOp(key))
  {
  }

  /** The voters for a hash are exactly those who voted since it was last cleared. */
  lemma {:induction false} VotersSinceClear(ops: seq<VoteOp>, key: Digest, q: int)
    ensures q in VotersOf(ApplyVoteOps(EMPTY_VOTES, ops), key) <==> exists i :: Standing(ops, i, key, q)
  {
    if ops == [] {
    } else {
      var n := |ops| - 1;
      VotersSinceClear(ops[..n], key, q);
      VoterStep(ApplyVoteOps(EMPTY_VOTES, ops[..n]), ops[n], key, q);
      if exists i :: Standing(ops, i, key, q) {
        var i :| Standing(ops, i, key, q);
        if i < n { assert Standing(ops[..n], i, key, q) && ops[n] != ClearOp(key); }
      }
      if Adds(ops[n], key, q) {
        assert Standing(ops, n, key, q);
      } else if exists i :: Standing(ops[..n], i, key, q) {
        var i :| Standing(ops[..n], i, key, q);
        assert ops[n] != ClearOp(key) ==> Standing(ops, i, key, q);
      }
    }
  }

  lemma {:induction false} DistinctSize(s: seq<int>)
    requires Distinct(s)
    ensures |Elements(s)| == |s|
  {
    if s == [] {
    } else {
      var pre := s[..|s| - 1];
      DistinctSize(pre);
      assert Elements(s) == Elements(pre) + {s[|s| - 1]};
    }
  }

  /** BUFFER together with the CERTIFICATE it feeds. */
  class VoteBuffer {
    var buffer: map<Digest, set<int>>
    var certificate: map<Digest, seq<Signature>>
    var identities: map<Digest, seq<int>>

    function Book(): VoteBook reads this {
      VoteBook(buffer, certificate, identities)
    }

    constructor ()
      ensures Book() == EMPTY_VOTES
    {
      buffer, certificate, identities := map[], map[], map[];
    }

    method Init()
      modifies this
      ensures Book() == EMPTY_VOTES
    {
      buffer, certificate, identities := map[], map[], map[];
    }

    method InsertValue(input: Digest, nid: int, msg: Option<Signature>)
      modifies this
      ensures Book() == AddVote(old(Book()), input, nid, msg)
    {
      ghost var b := Book();
      var isNew := true;
      if input in buffer {
        var s := buffer[input];
        assert VotersOf(b, input) == s;
        var grown := s + {nid};
        buffer := buffer[input := grown];
        assert nid in s ==> grown == s;
        assert nid !in s ==> |grown| == |s| + 1;
        isNew := |grown| > |s|;
      } else {
        assert VotersOf(b, input) + {nid} == {nid};
        buffer := buffer[input := {nid}];
      }
      assert buffer == AddVote(b, input, nid, msg).buffer;
      if msg.Some? && isNew {
        InsertCertificate(input, nid, msg.value);
      }
    }

    method InsertCertificate(key: Digest, nid: int, msg: Signature)
      modifies this`certificate, this`identities
      ensures certificate == old(certificate)[key := SigsOf(old(Book()), key) + [msg]]
      ensures identities == old(identities)[key := IdsOf(old(Book()), key) + [nid]]
    {
      var certi := if key in certificate then certificate[key] else [];
      certificate := certificate[key := certi + [msg]];
      var ids := if key in identities then identities[key] else [];
      identities := identities[key := ids + [nid]];
    }

    method GetLen(input: Digest) returns (n: nat)
      ensures n == |VotersOf(Book(), input)|
    {
      if input in buffer {
        n := |buffer[input]|;
      } else {
        n := 0;
      }
    }

    method ClearBufferPC(input: Digest)
      modifies this
      ensures Book() == ClearVotes(old(Book()), input)
    {
      buffer := buffer - {input};
      certificate := certificate - {input};
      identities := identities - {input};
    }
  }

  // ----- messages collected per number -----

  datatype IntBook<M> = IntBook(senders: map<int, set<int>>, msgs: map<int, seq<M>>)

  function SendersOf<M>(b: IntBook<M>, key: int): set<int> {
    if key in b.senders then b.senders[key] else {}
  }

  function MsgsOf<M>(b: IntBook<M>, key: int): seq<M> {
    if key in b.msgs then b.msgs[key] else []
  }

  /** A message is kept only when its sender is new for the number. */
  function Collect<M>(b: IntBook<M>, key: int, id: int, msg: M): IntBook<M> {
    IntBook(b.senders[key := SendersOf(b, key) + {id}],
            if id in SendersOf(b, key) then b.msgs
            else b.msgs[key := MsgsOf(b, key) + [msg]])
  }

  function Replace<M>(b: IntBook<M>, key: int, list: seq<M>): IntBook<M> {
    b.(msgs := b.msgs[key := list])
  }

  datatype Arrival<M> = Arrival(key: int, id: int, msg: M)

  function CollectAll<M>(all: seq<Arrival<M>>): IntBook<M> {
    if all == [] then IntBook(map[], map[])
    else
      var last := all[|all| - 1];
      Collect(CollectAll(all[..|all| - 1]), last.key, last.id, last.msg)
  }

  /** The k-th arrival is the first of its sender for its number. */
  ghost predicate IsFirst<M>(all: seq<Arrival<M>>, k: int) {
    0 <= k < |all| && forall j :: 0 <= j < k ==> all[j].key != all[k].key || all[j].id != all[k].id
  }

  ghost function Firsts<M>(all: seq<Arrival<M>>, key: int): seq<M> {
    if all == [] then []
    else
      var k := |all| - 1;
      Firsts(all[..k], key) + (if all[k].key == key && IsFirst(all, k) then [all[k].msg] else [])
  }

  ghost function Arrived<M>(all: seq<Arrival<M>>, key: int): set<int> {
    set k | 0 <= k < |all| && all[k].key == key :: all[k].id
  }

  /** Collecting in closed form: for each number the senders are all that
      arrived, and the messages are each sender's first, in order, one per sender. */
  lemma {:induction false} CollectsFirsts<M>(all: seq<Arrival<M>>, key: int)
    ensures SendersOf(CollectAll(all), key) == Arrived(all, key)
    ensures MsgsOf(CollectAll(all), key) == Firsts(all, key)
    ensures |MsgsOf(CollectAll(all), key)| == |SendersOf(CollectAll(all), key)|
  {
    if all == [] {
    } else {
      var k := |all| - 1;
      var pre, last := all[..k], all[k];
      CollectsFirsts(pre, key);
      ArrivedMore(all, key);
      var b := CollectAll(pre);
      assert CollectAll(all) == Collect(b, last.key, last.id, last.msg);
      if last.key == key {
        FirstIffNew(all, key);
        assert last.id in SendersOf(b, key) ==> SendersOf(b, key) + {last.id} == SendersOf(b, key);
      } else {
        assert Firsts(all, key) == Firsts(pre, key) + [];
      }
    }
  }

  lemma ArrivedMore<M>(all: seq<Arrival<M>>, key: int)
    requires all != []
    ensures var k := |all| - 1;
      Arrived(all, key) == Arrived(all[..k], key) + if all[k].key == key then {all[k].id} else {}
  {
    var k := |all| - 1;
    forall id | id in Arrived(all[..k], key) ensures id in Arrived(all, key) {
      var j :| 0 <= j < k && all[..k][j].key == key && all[..k][j].id == id;
      assert all[j] == all[..k][j];
    }
    forall id | id in Arrived(all, key) ensures id in Arrived(all[..k], key) || (all[k].key == key && all[k].id == id) {
      var j :| 0 <= j < |all| && all[j].key == key && all[j].id == id;
      if j < k { assert all[..k][j] == all[j]; }
    }
  }

  lemma FirstIffNew<M>(all: seq<Arrival<M>>, key: int)
    requires all != [] && all[|all| - 1].key == key
    ensures var k := |all| - 1; IsFirst(all, k) <==> all[k].id !in Arrived(all[..k], key)
  {
    var k := |all| - 1;
    if all[k].id in Arrived(all[..k], key) {
      var j :| 0 <= j < k && all[..k][j].key == key && all[..k][j].id == all[k].id;
      assert all[j] == all[..k][j];
    } else {
      forall j | 0 <= j < k ensures all[j].key != all[k].key || all[j].id != all[k].id {
        assert all[..k][j] == all[j];
      }
    }
  }

  class IntBuffer<M> {
    var intBuffer: map<int, set<int>>
    var v: map<int, seq<M>>

    function Book(): IntBook<M> reads this {
      IntBook(intBuffer, v)
    }

    constructor ()
      ensures Book() == IntBook(map[], map[])
    {
      intBuffer, v := map[], map[];
    }

    method Init()
      modifies this
      ensures Book() == IntBook(map[], map[])
    {
      intBuffer, v := map[], map[];
    }

    method InsertValue(input: int, id: int, msg: M)
      modifies this
      ensures Book() == Collect(old(Book()), input, id, msg)
    {
      var prior := if input in v then v[input] else [];
      if input in intBuffer {
        var s := intBuffer[input];
        var grown := s + {id};
        intBuffer := intBuffer[input := grown];
        assert id in s ==> grown == s;
        assert id !in s ==> |grown| == |s| + 1;
        if |grown| > |s| {
          v := v[input := prior + [msg]];
        }
      } else {
        intBuffer := intBuffer[input := {id}];
        v := v[input := prior + [msg]];
      }
    }

    method InsertV(input: int, value: seq<M>)
      modifies this
      ensures Book() == Replace(old(Book()), input, value)
    {
      v := v[input := value];
    }

    method GetV(input: int) returns (r: seq<M>)
      ensures r == MsgsOf(Book(), input)
    {
      r := if input in v then v[input] else [];
    }

    method GetLen(input: int) returns (n: nat)
      ensures n == |SendersOf(Book(), input)|
    {
      if input in intBuffer {
        n := |intBuffer[input]|;
      } else {
        n := 0;
      }
    }
  }
}
