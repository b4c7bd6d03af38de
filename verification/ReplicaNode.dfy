/** The replica as the program keeps it: one object whose handlers update its
    fields step by step.  Each handler is proved to take the object's value from
    r to what ReplicaSpec says, and to send exactly the messages it says. */
module ReplicaNode {
  import opened Messages
  import opened Quorums
  import opened Buffers
  import opened DurableStore
  import opened RequestQueue
  import R = ReplicaSpec

  function ViewIn(cells: Cells): Option<int> {
    if ViewKey in cells && cells[ViewKey].ViewValue? then Some(cells[ViewKey].view) else None
  }

  function LockedIn(cells: Cells): Option<QCBlock> {
    if LockedKey in cells && cells[LockedKey].BlockValue? then Some(cells[LockedKey].block) else None
  }

  function LedgerIn(cells: Cells): Option<Ledger> {
    if CommittedKey in cells && cells[CommittedKey].LedgerValue? then Some(cells[CommittedKey].ledger) else None
  }

  predicate WellTyped(cells: Cells) {
    && (ViewKey in cells ==> cells[ViewKey].ViewValue?)
    && (LockedKey in cells ==> cells[LockedKey].BlockValue?)
    && (CommittedKey in cells ==> cells[CommittedKey].LedgerValue?)
  }

  lemma SomeKey(keys: set<int>)
    ensures keys == {} || exists k :: k in keys
  {
    if forall k :: k !in keys {
      assert keys == {};
    }
  }

  /** The ledger of an ECHO2, entry by entry; what is committed stays. */
  method Merged(mine: Ledger, other: Ledger) returns (merged: Ledger)
    ensures merged == R.MergeLedger(mine, other)
  {
    merged := mine;
    var keys := other.Keys;
    while keys != {}
      invariant keys <= other.Keys
      invariant merged == (other - keys) + mine
      decreases |keys|
    {
      SomeKey(keys);
      var key :| key in keys;
      if key !in merged {
        merged := merged[key := other[key]];
      }
      keys := keys - {key};
    }
    assert other - {} == other;
  }

  class Node {
    const c: Config
    const id: int
    const queue: Queue
    const votes: VoteBuffer
    const vcs: IntBuffer<Msg>
    const timeouts: IntBuffer<SignedMsg>
    const store: Store

    var curStatus: R.Status
    var view: int
    var leader: bool
    var sequence: int
    var curHash: Digest
    var curBlock: QCBlock
    var lockedBlock: QCBlock
    var committedBlocks: Ledger
    var awaitingDecisionCopy: set<int>
    var awaitingBlocks: map<int, Digest>
    var awaitingBlocksTXS: map<int, seq<Bytes>>
    var buffer: set<R.Marker>
    var hView: int
    var reqHash: Option<RecRequest>
    var recBuffer: map<RecRequest, nat>
    var monitors: set<int>
    var timers: set<int>

    ghost predicate Valid()
      reads this, store
    {
      && (vcs as object) != timeouts
      && store.configured == c.level
      && WellTyped(store.cells)
    }

    function ChainValue(): R.Chain
      reads this, store
    {
      R.Chain(sequence, curHash, curBlock, lockedBlock, committedBlocks, awaitingDecisionCopy,
              LockedIn(store.cells), LedgerIn(store.cells))
    }

    /** The replica this object stands for. */
    function Value(): R.Replica
      reads this, queue, votes, vcs, timeouts, store
    {
      R.Replica(id, curStatus, view, leader, ViewIn(store.cells), ChainValue(),
                R.Pending(queue.q, awaitingBlocks, awaitingBlocksTXS), buffer, votes.Book(), vcs.Book(),
                    timeouts.Book(),
                R.Recovery(hView, reqHash, recBuffer), R.Spawned(monitors, timers))
    }

    /** InitHotStuff and the first request monitor of a new replica. */
    constructor (c: Config, id: int)
      ensures Valid() && this.c == c && this.id == id
      ensures fresh(queue) && fresh(votes) && fresh(vcs) && fresh(timeouts) && fresh(store)
      ensures Value() == R.Fresh(c, id)
    {
      this.c, this.id := c, id;
      queue := new Queue();
      votes := new VoteBuffer();
      vcs := new IntBuffer<Msg>();
      timeouts := new IntBuffer<SignedMsg>();
      store := new Store(c.level);
      curStatus, view, leader := R.READY, 0, false;
      sequence, curHash, curBlock, lockedBlock := 0, NoHash, ZERO_BLOCK, ZERO_BLOCK;
      committedBlocks, awaitingDecisionCopy, awaitingBlocks, awaitingBlocksTXS := map[], {}, map[], map[];
      buffer, hView, reqHash, recBuffer := {}, 0, None, map[];
      monitors, timers := {0}, if c.viewChange then {0} else {};
      new;
      store.PersistValue(CommittedKey, LedgerValue(committedBlocks), PersistCritical);
      SetView(0);
    }

    // ----- views -----

    method SetView(v: int)
      requires Valid()
      modifies this`view, this`leader, store
      ensures Valid() && Value() == R.SetView(c, old(Value()), v)
    {
      view := v;
      store.PersistValue(ViewKey, ViewValue(v), PersistCritical);
      leader := LeaderID(c, v) == id;
    }

    method TimeoutHandler(v: int) returns (sent: set<Msg>)
      requires Valid()
      modifies this, store
      ensures Valid() && R.Out(Value(), sent) == R.OnTimer(c, old(Value()), v)
    {
      sent := {};
      if curStatus == R.SLEEPING || curStatus == R.RECOVERING {
        return;
      }
      if c.level != NoPersist {
        sent := StartViewChange(v);
        return;
      }
      if v < view {
        return;
      }
      curStatus := R.VIEWCHANGE;
      sent := {TimeoutBy(id, v)};
    }

    method HandleTimeoutMsg(m: Msg) returns (sent: set<Msg>)
      requires Valid() && m.Timeout?
      modifies this, timeouts
      ensures Valid() && R.Out(Value(), sent) == R.OnTimeout(c, old(Value()), m)
    {
      sent := {};
      if m.view < view || R.TimeoutCert(m.view) in buffer {
        return;
      }
      timeouts.InsertValue(m.view, m.src, SignedMsg(TimeoutKind, m.src, m.view, m.sig));
      var n := timeouts.GetLen(m.view);
      if n >= c.quorum {
        buffer := buffer + {R.TimeoutCert(m.view)};
        var list := timeouts.GetV(m.view);
        sent := {TQC(id, m.view, list)};
      }
    }

    method VerifyTQC(v: int, tqc: seq<SignedMsg>) returns (ok: bool)
      ensures ok <==> R.VerifyTQC(c, v, tqc)
    {
      if v < 0 {
        return true;
      }
      if |tqc| < c.quorum {
        return false;
      }
      var ids, i := {}, 0;
      while i < |tqc|
        invariant 0 <= i <= |tqc| && ids == R.SourcesOf(tqc[..i])
        invariant forall j :: 0 <= j < i ==> R.EntryOk(v, tqc[j], R.SourcesOf(tqc[..j]))
      {
        var content := tqc[i];
        if content.source in ids || content.view != v || content.kind != TimeoutKind {
          assert !R.EntryOk(v, tqc[i], R.SourcesOf(tqc[..i]));
          return false;
        }
        if !VerifySig(content.source, Wire(content.kind, content.source, content.view), content.sig) {
          assert !R.EntryOk(v, tqc[i], R.SourcesOf(tqc[..i]));
          return false;
        }
        assert tqc[..i + 1] == tqc[..i] + [content];
        ids := ids + {content.source};
        i := i + 1;
      }
      return true;
    }

    method HandleTQCMsg(m: Msg) returns (sent: set<Msg>)
      requires Valid() && m.TQC?
      modifies this, timeouts, store
      ensures Valid() && R.Out(Value(), sent) == R.OnTQC(c, old(Value()), m)
    {
      sent := {};
      var ok := VerifyTQC(m.view, m.v);
      if !ok || m.view < view {
        return;
      }
      if curStatus == R.RECOVERING {
        ViewChangeInRecovery(m.view);
      } else {
        sent := StartViewChange(m.view);
      }
      if R.TimeoutCert(m.view) in buffer {
        return;
      }
      timeouts.InsertV(m.view, m.v);
      buffer := buffer + {R.TimeoutCert(m.view)};
      sent := sent + {m};
    }

    method ViewChangeInRecovery(v: int)
      requires Valid()
      modifies this`view, this`leader, store
      ensures Valid() && Value() == if v < old(view) then old(Value()) else R.SetView(c, old(Value()), v + 1)
    {
      if v < view {
        return;
      }
      SetView(v + 1);
    }

    method StartViewChange(v: int) returns (sent: set<Msg>)
      requires Valid()
      modifies this, store
      ensures Valid() && R.Out(Value(), sent) == R.StartViewChange(c, old(Value()), v)
    {
      sent := {};
      if v < view {
        return;
      }
      curStatus := R.VIEWCHANGE;
      SetView(v + 1);
      sent := HotStuffStartVC();
      if LeaderID(c, v + 1) != id {
        AwaitLeader(v + 1);
      }
    }

    method HotStuffStartVC() returns (sent: set<Msg>)
      modifies this`curStatus, this`awaitingBlocks
      ensures Value() == old(Value()).(status := R.VIEWCHANGE, pending := old(Value()).pending.(awaiting := map[]))
      ensures sent == {ViewChange(id, LeaderID(c, view), view, curBlock)}
    {
      curStatus := R.VIEWCHANGE;
      awaitingBlocks := map[];
      sent := {ViewChange(id, LeaderID(c, view), view, curBlock)};
    }

    /** Someone else leads view v: be ready, and time the leader out. */
    method AwaitLeader(v: int)
      modifies this`curStatus, this`timers
      ensures Value() == old(Value()).(status := R.READY, spawned := old(Value()).spawned.(timers := old(timers) + {v}))
    {
      curStatus := R.READY;
      timers := timers + {v};
    }

    /** A signature that fails makes the check pass at once. */
    method VerifyQC(qc: QCBlock) returns (ok: bool)
      ensures ok <==> R.VerifyQC(c, qc)
    {
      if qc.hash == NoHash {
        return true;
      }
      if |qc.qc| != |qc.ids| || |qc.qc| < c.quorum {
        return false;
      }
      var i := 0;
      while i < |qc.qc| {
        if !VerifySig(qc.ids[i], VoteOn(qc.hash), qc.qc[i]) {
          return true;
        }
        i := i + 1;
      }
      return true;
    }

    method UpdateSeq(num: int)
      modifies this`sequence
      ensures sequence == if num > old(sequence) then num else old(sequence)
    {
      if num > sequence {
        sequence := num;
      }
    }

    method AdoptBlock(cb: QCBlock)
      modifies this`curBlock, this`sequence
      ensures Value() == old(Value()).(chain := R.AdoptBlock(old(Value()).chain, cb))
    {
      if cb.hash != NoHash && cb.height >= curBlock.height {
        curBlock := cb;
        UpdateSeq(cb.height);
      }
    }

    method HandleQCVCMessage(m: Msg) returns (sent: set<Msg>)
      requires Valid() && m.ViewChange?
      modifies this, vcs, store
      ensures Valid() && R.Out(Value(), sent) == R.OnViewChange(c, old(Value()), m)
    {
      sent := {};
      if m.view < view {
        return;
      }
      if m.view != view && m.view != view + 1 {
        return;
      }
      if LeaderID(c, m.view) != id {
        return;
      }
      var ok := VerifyQC(m.block);
      if !ok || R.ViewCert(m.view) in buffer {
        return;
      }
      vcs.InsertValue(m.view, m.src, m);
      AdoptBlock(m.block);
      var n := vcs.GetLen(m.view);
      if curStatus != R.READY && n >= c.quorum {
        LeadView(m.view);
      }
    }

    /** A quorum of VIEWCHANGEs makes this replica the leader of view v. */
    method LeadView(v: int)
      requires Valid()
      modifies this`view, this`leader, this`buffer, this`curStatus, this`monitors, this`timers, store
      ensures Valid()
      ensures Value() == R.SetView(c, old(Value()), v).(
                prepared := old(buffer) + {R.ViewCert(v)}, status := R.READY,
                spawned := R.Spawned(old(monitors) + {v}, if c.viewChange then old(timers) + {v} else old(timers)))
    {
      SetView(v);
      StartLeading(v);
    }

    method StartLeading(v: int)
      modifies this`buffer, this`curStatus, this`monitors, this`timers
      ensures buffer == old(buffer) + {R.ViewCert(v)} && curStatus == R.READY && monitors == old(monitors) + {v}
      ensures timers == if c.viewChange then old(timers) + {v} else old(timers)
    {
      buffer := buffer + {R.ViewCert(v)};
      curStatus := R.READY;
      StartMonitor(v);
    }

    /** A request monitor starts and arms the rotating timer. */
    method StartMonitor(v: int)
      modifies this`monitors, this`timers
      ensures monitors == old(monitors) + {v}
      ensures timers == if c.viewChange then old(timers) + {v} else old(timers)
    {
      monitors := monitors + {v};
      if c.viewChange {
        timers := timers + {v};
      }
    }

    // ----- proposals and votes -----

    /** One round of the request monitor of the current view. */
    method RequestMonitor() returns (sent: set<Msg>)
      requires Valid()
      modifies this, queue
      ensures Valid() && R.Out(Value(), sent) == R.Propose(c, old(Value()))
    {
      sent := {};
      if view !in monitors || curStatus == R.SLEEPING || LeaderID(c, view) != id {
        return;
      }
      var empty := queue.IsEmpty();
      if !(curStatus == R.READY && (awaitingDecisionCopy != {} || !empty)) {
        return;
      }
      ghost var r := Value();
      assert R.CanPropose(c, r);
      sent := ProposeBatch();
    }

    method ProposeBatch() returns (sent: set<Msg>)
      requires Valid() && R.CanPropose(c, Value())
      modifies this, queue
      ensures Valid() && R.Out(Value(), sent) == R.Propose(c, old(Value()))
    {
      curStatus := R.PROCESSING;
      var batch := queue.GrabWithMaxLenAndClear(c);
      sent := StartHotStuff(batch);
    }

    method StartHotStuff(batch: seq<Bytes>) returns (sent: set<Msg>)
      modifies this`sequence, this`curHash, this`awaitingBlocks, this`awaitingBlocksTXS, this`awaitingDecisionCopy
      ensures var r := old(Value()); var num := r.chain.sequence + 1;
          var hash := Chained(r.chain.curHash, num, Join(batch));
        && Value() == r.(chain := r.chain.(sequence := num, curHash := hash,
            awaitingCopy := r.chain.awaitingCopy + {num}),
                         pending := R.Pending(r.pending.queue, r.pending.awaiting[num := hash],
                             r.pending.awaitingTxs[num := batch]))
        && sent == {Proposal(id, view, num, hash, R.FetchBlockInfo(r.chain, num), batch)}
    {
      var num := sequence + 1;
      var qc := FetchBlockInfo(num);
      var hash := Chained(curHash, num, Join(batch));
      RecordProposal(num, hash, batch);
      sent := {Proposal(id, view, num, hash, qc, batch)};
    }

    method RecordProposal(num: int, hash: Digest, txs: seq<Bytes>)
      modifies this`sequence, this`curHash, this`awaitingBlocks, this`awaitingBlocksTXS, this`awaitingDecisionCopy
      ensures sequence == num && curHash == hash && awaitingBlocks == old(awaitingBlocks)[num := hash]
      ensures awaitingBlocksTXS == old(awaitingBlocksTXS)[num := txs]
      ensures awaitingDecisionCopy == old(awaitingDecisionCopy) + {num}
    {
      sequence := num;
      curHash := hash;
      awaitingBlocks := awaitingBlocks[num := hash];
      awaitingBlocksTXS := awaitingBlocksTXS[num := txs];
      awaitingDecisionCopy := awaitingDecisionCopy + {num};
    }

    method FetchBlockInfo(num: int) returns (b: QCBlock)
      ensures b == R.FetchBlockInfo(ChainValue(), num)
    {
      if num == 1 || curBlock.height == 0 {
        return ZERO_BLOCK;
      }
      return curBlock;
    }

    method VerifyBlock(num: int, source: int, b: QCBlock) returns (ok: bool)
      ensures ok <==> R.VerifyBlock(c, Value(), num, source, b)
    {
      if num == 1 && (sequence < num || source == id) {
        return true;
      }
      if b.height < lockedBlock.height {
        return false;
      }
      if |b.qc| < c.quorum {
        return false;
      }
      ok := VerifyQC(b);
    }

    /** Deliver the locked block when the certified block is two above it. */
    method Commit(b: QCBlock)
      requires Valid()
      modifies this`committedBlocks, store
      ensures Valid() && ChainValue() == R.Commit(c, old(ChainValue()), b)
      ensures ViewIn(store.cells) == old(ViewIn(store.cells))
    {
      if b.height >= lockedBlock.height + 2 {
        committedBlocks := committedBlocks[lockedBlock.height := lockedBlock];
      }
      store.PersistValue(CommittedKey, LedgerValue(committedBlocks), PersistCritical);
    }

    method Lock()
      requires Valid()
      modifies this`lockedBlock, store
      ensures Valid() && ChainValue() == R.Lock(c, old(ChainValue()))
      ensures ViewIn(store.cells) == old(ViewIn(store.cells))
    {
      lockedBlock := curBlock;
      store.PersistValue(LockedKey, BlockValue(lockedBlock), PersistCritical);
    }

    method ProcessQCInfo(b: QCBlock, num: int)
      requires Valid()
      modifies this`committedBlocks, this`lockedBlock, this`curBlock, this`curHash, this`awaitingDecisionCopy,
          this`sequence, store
      ensures Valid() && ChainValue() == R.ProcessQCInfo(c, leader, old(ChainValue()), b, num)
      ensures ViewIn(store.cells) == old(ViewIn(store.cells))
    {
      if b.height >= 2 {
        if b.height <= curBlock.height {
          return;
        }
        if b.height >= 3 {
          Commit(b);
        }
        Lock();
      }
      if !leader && b.height > curBlock.height {
        curBlock := b;
        curHash := curBlock.hash;
      }
      if num > 3 {
        awaitingDecisionCopy := awaitingDecisionCopy - {num - 3};
      }
      UpdateSeq(num);
    }

    method AcceptBlock(b: QCBlock, num: int)
      requires Valid()
      modifies this`committedBlocks, this`lockedBlock, this`curBlock, this`curHash, this`awaitingDecisionCopy,
          this`sequence, store
      ensures Valid() && Value() == old(Value()).(chain := R.ProcessQCInfo(c, leader, old(Value()).chain, b, num))
    {
      ProcessQCInfo(b, num);
    }

    method HandleNormalMsg(m: Msg) returns (sent: set<Msg>)
      requires Valid() && m.Proposal?
      modifies this, store
      ensures Valid() && R.Out(Value(), sent) == R.OnProposal(c, old(Value()), m)
    {
      sent := {};
      if m.view < view || curStatus == R.VIEWCHANGE {
        return;
      }
      if !leader {
        awaitingDecisionCopy := awaitingDecisionCopy + {m.num};
      }
      var ok := VerifyBlock(m.num, m.src, m.qc);
      if !ok {
        return;
      }
      AcceptBlock(m.qc, m.num);
      var sig := Signed(id, VoteOn(m.hash));
      if leader {
        sent := {Vote(id, id, view, m.num, m.hash, sig)};
      }
      if m.src != id {
        sent := sent + {Vote(id, m.src, view, m.num, m.hash, sig)};
      }
    }

    /** The entries of a block: the coinbase, then the proposal's requests. */
    method BlockEntries(num: int) returns (txs: seq<Tx>)
      ensures txs == R.BlockTxs(id, Value().pending, num)
    {
      if num !in awaitingBlocksTXS {
        return [];
      }
      var raw := awaitingBlocksTXS[num];
      txs := [Coinbase(id)];
      var i := 1;
      while i < |raw| + 1
        invariant 1 <= i <= |raw| + 1
        invariant txs == [Coinbase(id)] + ParseAll(raw[..i - 1])
      {
        txs := txs + [FromRequest(raw[i - 1])];
        i := i + 1;
      }
      assert raw[..|raw|] == raw;
    }

    /** The block a vote quorum certifies, one above the current one. */
    method CertifiedBlock(num: int, hash: Digest) returns (qcblock: QCBlock)
      ensures qcblock == R.Certificate(Value(), votes.Book(), num, hash)
    {
      var sigs, ids := FetchCer(hash);
      var txs := BlockEntries(num);
      qcblock := QCBlock(view, curBlock.height + 1, hash, NoHash, NoHash, sigs, ids, txs);
      if num - 1 in awaitingBlocks {
        qcblock := qcblock.(preHash := awaitingBlocks[num - 1]);
      }
      if num - 2 in awaitingBlocks {
        qcblock := qcblock.(prePreHash := awaitingBlocks[num - 2]);
      }
    }

    method HandleNormalRepMsg(m: Msg) returns (sent: set<Msg>)
      requires Valid() && m.Vote?
      modifies this, votes
      ensures Valid() && R.Out(Value(), sent) == R.OnVote(c, old(Value()), m)
    {
      sent := {};
      if m.view < view || curStatus == R.VIEWCHANGE {
        return;
      }
      if m.num in awaitingBlocks && awaitingBlocks[m.num] != m.hash {
        return;
      }
      if !VerifySig(m.src, VoteOn(m.hash), m.sig) || R.BlockCert(m.hash) in buffer {
        return;
      }
      votes.InsertValue(m.hash, m.src, Some(m.sig));
      var n := votes.GetLen(m.hash);
      if n >= c.quorum {
        Certify(m.num, m.hash);
      }
    }

    /** A quorum of votes turns the proposal into the current block. */
    method Certify(num: int, hash: Digest)
      modifies this`buffer, this`curBlock, this`curStatus
      ensures Value() == old(Value()).(
                prepared := old(buffer) + {R.BlockCert(hash)}, status := R.READY,
                chain := old(Value()).chain.(curBlock := R.Certificate(old(Value()), votes.Book(), num, hash)))
    {
      var qcblock := CertifiedBlock(num, hash);
      RecordCertificate(qcblock);
    }

    method RecordCertificate(qcblock: QCBlock)
      modifies this`buffer, this`curBlock, this`curStatus
      ensures buffer == old(buffer) + {R.BlockCert(qcblock.hash)} && curStatus == R.READY
      ensures curBlock == if qcblock.height > old(curBlock).height then qcblock else old(curBlock)
    {
      buffer := buffer + {R.BlockCert(qcblock.hash)};
      if qcblock.height > curBlock.height {
        curBlock := qcblock;
      }
      curStatus := R.READY;
    }

    method FetchCer(hash: Digest) returns (sigs: seq<Signature>, ids: seq<int>)
      ensures sigs == SigsOf(votes.Book(), hash) && ids == IdsOf(votes.Book(), hash)
    {
      sigs := if hash in votes.certificate then votes.certificate[hash] else [];
      ids := if hash in votes.identities then votes.identities[hash] else [];
    }

    method HandleRequest(request: Bytes)
      requires Valid()
      modifies queue
      ensures Valid()
      ensures Value() == old(Value()).(pending := old(Value()).pending.(queue := old(queue.q) + [request]))
    {
      queue.Append(request);
    }

    method HandleBatchRequest(requests: seq<Bytes>)
      requires Valid() && requests != []
      modifies queue
      ensures Valid()
      ensures Value() == old(Value()).(pending := old(Value()).pending.(queue := old(queue.q) + requests))
    {
      queue.AppendBatch(requests);
    }

    // ----- recovery -----

    method HandleRec1Msg(m: Msg) returns (sent: set<Msg>)
      requires Valid() && m.Rec1?
      ensures R.Out(Value(), sent) == R.OnRec1(c, Value(), m)
    {
      var list := timeouts.GetV(view - 1);
      sent := if m.src == id then {} else {Echo1(id, m.src, view - 1, FirstRequest(m.src, m.ts), list)};
    }

    /** Answers are counted per request, whoever sends them. */
    method CountAnswer(req: RecRequest) returns (num: nat)
      modifies this`recBuffer
      ensures num == (if req in old(recBuffer) then old(recBuffer)[req] else 0) + 1
      ensures Value() == old(Value()).(rec := old(Value()).rec.(recCount := old(recBuffer)[req := num]))
    {
      num := if req in recBuffer then recBuffer[req] else 0;
      num := num + 1;
      recBuffer := recBuffer[req := num];
    }

    /** Up to the busy wait. */
    method HandleEcho1Msg(m: Msg) returns (sent: set<Msg>)
      requires Valid() && m.Echo1?
      modifies this
      ensures Valid() && R.Out(Value(), sent) == R.OnEcho1(c, old(Value()), m)
    {
      sent := {};
      if curStatus != R.RECOVERING || reqHash != Some(m.req) || R.FirstEchoes(m.req) in buffer {
        return;
      }
      var ok := VerifyTQC(m.view, m.v);
      if !ok {
        return;
      }
      RaiseView(m.view);
      var num := CountAnswer(m.req);
      if num >= c.recQuorum {
        Mark(R.FirstEchoes(m.req));
      }
    }

    method RaiseView(v: int)
      modifies this`hView
      ensures Value() == old(Value()).(rec := old(Value()).rec.(hView := if v > old(hView) then v else old(hView)))
    {
      if v > hView {
        hView := v;
      }
    }

    method Mark(key: R.Marker)
      modifies this`buffer
      ensures Value() == old(Value()).(prepared := old(buffer) + {key})
    {
      buffer := buffer + {key};
    }

    /** What follows the busy wait of HandleEcho1Msg. */
    method AskForState(ts: int) returns (sent: set<Msg>)
      requires Valid()
      modifies this`reqHash
      ensures Valid() && R.Out(Value(), sent) == R.AskState(c, old(Value()), ts)
    {
      sent := {};
      if curStatus != R.RECOVERING || reqHash == None || R.FirstEchoes(reqHash.value) !in buffer || view <= hView + 2 {
        return;
      }
      reqHash := Some(SecondRequest(id, ts, view));
      sent := {Rec2(id, ts, view)};
    }

    method HandleRec2Msg(m: Msg) returns (sent: set<Msg>)
      requires Valid() && m.Rec2?
      ensures R.Out(Value(), sent) == R.OnRec2(c, Value(), m)
    {
      sent := if m.src == id then {}
              else {Echo2(id, m.src, SecondRequest(m.src, m.ts, m.view), curBlock, lockedBlock, committedBlocks)};
    }

    method TakeLedger(other: Ledger)
      modifies this`committedBlocks
      ensures Value() == old(Value()).(chain := old(Value()).chain.(
                           committed := R.MergeLedger(old(committedBlocks), other)))
    {
      committedBlocks := Merged(committedBlocks, other);
    }

    method TakeBlocks(qc: QCBlock, lqc: QCBlock)
      modifies this`curBlock, this`lockedBlock, this`sequence
      ensures ChainValue() == R.TakeState(old(ChainValue()), qc, lqc)
    {
      if qc.hash != NoHash && qc.height > curBlock.height {
        curBlock := qc;
        UpdateSeq(qc.height);
      }
      if lqc.hash != NoHash && lqc.height > lockedBlock.height {
        lockedBlock := lqc;
      }
    }

    method TakeState(qc: QCBlock, lqc: QCBlock)
      modifies this`curBlock, this`lockedBlock, this`sequence
      ensures Value() == old(Value()).(chain := R.TakeState(old(Value()).chain, qc, lqc))
    {
      TakeBlocks(qc, lqc);
    }

    method HandleEcho2Msg(m: Msg) returns (sent: set<Msg>)
      requires Valid() && m.Echo2?
      modifies this
      ensures Valid() && R.Out(Value(), sent) == R.OnEcho2(c, old(Value()), m)
    {
      sent := {};
      TakeLedger(m.ledger);
      if curStatus != R.RECOVERING || reqHash != Some(m.req) || R.SecondEchoes(m.req) in buffer {
        return;
      }
      var ok := VerifyQC(m.prepared);
      var okLocked := VerifyQC(m.locked);
      if !ok || !okLocked {
        return;
      }
      TakeState(m.prepared, m.locked);
      var num := CountAnswer(m.req);
      if num >= c.recQuorum {
        FinishRecovery(m.req);
      }
    }

    method FinishRecovery(req: RecRequest)
      modifies this`buffer, this`curStatus
      ensures Value() == old(Value()).(prepared := old(buffer) + {R.SecondEchoes(req)}, status := R.READY)
    {
      buffer := buffer + {R.SecondEchoes(req)};
      curStatus := R.READY;
    }

    // ----- sleeping and waking -----

    method InitCommitted()
      requires Valid()
      modifies this`committedBlocks, store
      ensures Valid()
      ensures var ch := old(Value()).chain;
        Value() == old(Value()).(chain := ch.(
          diskCommitted := R.EmptyChain(c, ch.committed, ch.diskLocked, ch.diskCommitted).diskCommitted))
    {
      if |committedBlocks| == 0 {
        committedBlocks := map[];
        store.PersistValue(CommittedKey, LedgerValue(committedBlocks), PersistCritical);
      }
    }

    method ResetBlocks()
      modifies this`sequence, this`awaitingDecisionCopy, this`curBlock, this`lockedBlock, this`curHash
      ensures sequence == 0 && awaitingDecisionCopy == {} && curHash == NoHash
      ensures curBlock == ZERO_BLOCK && lockedBlock == ZERO_BLOCK
    {
      sequence := 0;
      awaitingDecisionCopy := {};
      curBlock := ZERO_BLOCK;
      lockedBlock := ZERO_BLOCK;
      curHash := NoHash;
    }

    method ResetBuffers()
      requires (vcs as object) != timeouts
      modifies this`buffer, this`awaitingBlocks, this`awaitingBlocksTXS, this`recBuffer, votes, vcs, timeouts
      ensures buffer == {} && recBuffer == map[] && awaitingBlocks == map[] && awaitingBlocksTXS == map[]
      ensures votes.Book() == EMPTY_VOTES && vcs.Book() == IntBook(map[], map[]) &&
          timeouts.Book() == IntBook(map[], map[])
    {
      buffer, recBuffer, awaitingBlocks, awaitingBlocksTXS := {}, map[], map[], map[];
      votes.Init();
      vcs.Init();
      timeouts.Init();
    }

    method InitChain()
      requires Valid()
      modifies this`sequence, this`awaitingDecisionCopy, this`committedBlocks, this`curBlock, this`lockedBlock,
          this`curHash, store
      ensures Valid()
      ensures var ch := old(Value()).chain;
        Value() == old(Value()).(chain := R.EmptyChain(c, ch.committed, ch.diskLocked, ch.diskCommitted))
    {
      InitCommitted();
      ResetBlocks();
    }

    method InitBuffers()
      requires Valid()
      modifies this`buffer, this`awaitingBlocks, this`awaitingBlocksTXS, this`recBuffer, votes, vcs, timeouts
      ensures Valid()
      ensures var r := old(Value());
        Value() == r.(pending := R.Pending(r.pending.queue, map[], map[]), prepared := {}, votes := EMPTY_VOTES,
                      vcs := IntBook(map[], map[]), timeouts := IntBook(map[], map[]), rec := r.rec.(recCount := map[]))
    {
      ResetBuffers();
    }

    method InitHotStuff()
      requires Valid()
      modifies this, votes, vcs, timeouts, store
      ensures Valid() && Value() == R.Reinit(c, old(Value()))
    {
      InitBuffers();
      InitChain();
      SetView(0);
    }

    method FallAsleep()
      requires Valid()
      modifies this`curStatus
      ensures Valid() && Value() == R.Sleep(old(Value())).r
    {
      curStatus := R.SLEEPING;
    }

    /** The end of SleepProcess, then RecoveryProcess in memory mode. */
    method WakeInMemory(ts: int) returns (sent: set<Msg>)
      requires Valid()
      modifies this, votes, vcs, timeouts, store
      ensures Valid() && R.Out(Value(), sent) == R.Wake(c, old(Value()), ts)
    {
      sent := {};
      if curStatus != R.SLEEPING {
        return;
      }
      InitHotStuff();
      StartRecovering(Some(FirstRequest(id, ts)));
      sent := {Rec1(id, ts)};
    }

    method StartRecovering(req: Option<RecRequest>)
      modifies this`reqHash, this`hView, this`curStatus
      ensures Value() == old(Value()).(status := R.RECOVERING, rec := R.Recovery(-2, req, old(recBuffer)))
    {
      reqHash := None;
      hView := -2;
      curStatus := R.RECOVERING;
      reqHash := req;
    }

    /** The end of SleepProcess, then RecoveryProcess from disk; not ok is the
        fatal error on a value the store does not hold. */
    method WakeFromDisk() returns (ok: bool, sent: set<Msg>)
      requires Valid()
      modifies this, votes, vcs, timeouts, store
      ensures Valid() && (ok <==> R.WakeFromDisk(c, old(Value())).Some?)
      ensures ok ==> R.Out(Value(), sent) == R.WakeFromDisk(c, old(Value())).value
    {
      ok, sent := true, {};
      if curStatus != R.SLEEPING || c.level != PersistCritical {
        return;
      }
      InitHotStuff();
      StartRecovering(None);
      ok, sent := RecoverFromDisk();
    }

    method LoadBlocks(locked: QCBlock, committed: Ledger)
      modifies this`lockedBlock, this`curBlock, this`committedBlocks
      ensures Value() == old(Value()).(chain := old(Value()).chain.(
                           lockedBlock := locked, curBlock := locked, committed := committed))
    {
      lockedBlock := locked;
      curBlock := lockedBlock;
      committedBlocks := committed;
    }

    method RecoverFromDisk() returns (ok: bool, sent: set<Msg>)
      requires Valid() && c.level == PersistCritical
      modifies this, store
      ensures Valid()
      ensures ok <==>
        ViewIn(old(store.cells)).Some? && LockedIn(old(store.cells)).Some? && LedgerIn(old(store.cells)).Some?
      ensures ok ==>
        var r := old(Value()); var locked := r.chain.diskLocked.value;
        R.Out(Value(), sent) == R.StartViewChange(c, r.(chain := r.chain.(lockedBlock := locked, curBlock := locked,
                                                  committed := r.chain.diskCommitted.value)), r.diskView.value)
    {
      sent := {};
      var v := store.RecoverValue(ViewKey);
      if v == None {
        return false, {};
      }
      var locked := store.RecoverValue(LockedKey);
      if locked == None {
        return false, {};
      }
      var committed := store.RecoverValue(CommittedKey);
      if committed == None {
        return false, {};
      }
      LoadBlocks(locked.value.block, committed.value.ledger);
      sent := StartViewChange(v.value.view);
      ok := true;
    }

    // ----- dispatch -----

    /** A message arrives: what a sleeping or recovering replica drops. */
    method HandleQCByteMsg(m: Msg) returns (sent: set<Msg>)
      requires Valid()
      modifies this, votes, vcs, timeouts, store
      ensures Valid() && R.Out(Value(), sent) == R.Receive(c, old(Value()), m)
    {
      sent := {};
      if curStatus == R.SLEEPING {
        return;
      }
      if curStatus == R.RECOVERING {
        if !m.Echo1? && !m.Echo2? && !m.TQC? {
          return;
        }
      }
      sent := Dispatch(m);
    }

    method Dispatch(m: Msg) returns (sent: set<Msg>)
      requires Valid()
      modifies this, votes, vcs, timeouts, store
      ensures Valid() && R.Out(Value(), sent) == R.Dispatch(c, old(Value()), m)
    {
      match m {
        case Proposal(_, _, _, _, _, _) => sent := HandleNormalMsg(m);
        case Vote(_, _, _, _, _, _) => sent := HandleNormalRepMsg(m);
        case Timeout(_, _, _) => sent := HandleTimeoutMsg(m);
        case TQC(_, _, _) => sent := HandleTQCMsg(m);
        case ViewChange(_, _, _, _) => sent := HandleQCVCMessage(m);
        case Rec1(_, _) => sent := HandleRec1Msg(m);
        case Echo1(_, _, _, _, _) => sent := HandleEcho1Msg(m);
        case Rec2(_, _, _) => sent := HandleRec2Msg(m);
        case Echo2(_, _, _, _, _, _) => sent := HandleEcho2Msg(m);
      }
    }
  }
}
