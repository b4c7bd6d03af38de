/** Runs in one view: view changes off, nobody asleep, messages lost, delayed,
    reordered and duplicated at will.  Agreement of the ledgers, and conservation
    of the leader's client requests. */
module SingleView {
  import opened Messages
  import opened Quorums
  import opened Buffers
  import opened ReplicaSpec
  import opened System

  ghost predicate OneView(env: Env) {
    env.byz == {} && env.c.n >= 1 && env.c.quorum >= 1 && !env.c.viewChange
  }

  /** The hash and the batch of the leader's k-th proposal. */
  function HashAt(r: Replica, k: int): Digest {
    AwaitingHash(r.pending, k)
  }

  function BatchAt(r: Replica, k: int): seq<Bytes> {
    if k in r.pending.awaitingTxs then r.pending.awaitingTxs[k] else []
  }

  /** The k-th hash is over the one before it, the number and the batch. */
  predicate LinkedAt(r: Replica, k: int) {
    HashAt(r, k) == Chained(HashAt(r, k - 1), k, Join(BatchAt(r, k)))
  }

  ghost predicate Linked(r: Replica) {
    && r.chain.curHash == HashAt(r, r.chain.sequence) && HashAt(r, 0) == NoHash
    && forall k :: 1 <= k <= r.chain.sequence ==> LinkedAt(r, k)
  }

  /** b is the leader's certificate of its k-th proposal, and names the hashes of
      the blocks one and two below. */
  ghost predicate CertifiesAt(r: Replica, b: QCBlock, k: int) {
    && b.height == k && b.view == 0 && b.hash == HashAt(r, k) && b.hash != NoHash
    && b.preHash == (if k >= 2 then HashAt(r, k - 1) else NoHash)
    && b.prePreHash == (if k >= 3 then HashAt(r, k - 2) else NoHash)
    && b.txs == [Coinbase(0)] + ParseAll(BatchAt(r, k))
  }

  ghost predicate ChainOk(r: Replica, chain: seq<QCBlock>) {
    forall i :: 0 <= i < |chain| ==> CertifiesAt(r, chain[i], i + 1)
  }

  function Tip(chain: seq<QCBlock>): QCBlock {
    if chain == [] then ZERO_BLOCK else chain[|chain| - 1]
  }

  /** A block of the chain, at its place, or the initial block. */
  ghost predicate InChain(chain: seq<QCBlock>, b: QCBlock) {
    b == ZERO_BLOCK || (1 <= b.height <= |chain| && b == chain[b.height - 1])
  }

  ghost predicate LedgerInChain(chain: seq<QCBlock>, l: Ledger) {
    forall h :: h in l ==>
      h >= 0 && (h == 0 ==> l[h] == ZERO_BLOCK) && (h >= 1 ==> h + 2 <= |chain| && l[h] == chain[h - 1])
  }

  ghost predicate LeaderOk(c: Config, r: Replica, chain: seq<QCBlock>) {
    && r.id == 0 && r.view == 0 && r.leader && r.spawned.timers == {}
    && (r.status == READY || r.status == PROCESSING)
    && r.chain.sequence == |chain| + (if r.status == READY then 0 else 1)
    && (forall k :: k in r.pending.awaiting <==> 1 <= k <= r.chain.sequence)
    && (forall k :: k in r.pending.awaitingTxs <==> 1 <= k <= r.chain.sequence)
    && (forall k :: 1 <= k <= r.chain.sequence ==> HashAt(r, k).Chained? && HashAt(r, k).num == k)
    && (forall k :: 1 <= k <= r.chain.sequence ==> |BatchAt(r, k)| <= c.maxBatch)
    && (forall h :: BlockCert(h) in r.prepared <==> h.Chained? && 1 <= h.num <= |chain| && h == HashAt(r, h.num))
    && ChainOk(r, chain) && r.chain.curBlock == Tip(chain)
    && r.chain.lockedBlock == ZERO_BLOCK && r.chain.committed == map[]
  }

  ghost predicate FollowerOk(r: Replica, p: int, chain: seq<QCBlock>) {
    && r.id == p && r.view == 0 && !r.leader && r.status == READY && r.spawned.timers == {}
    && InChain(chain, r.chain.curBlock) && InChain(chain, r.chain.lockedBlock)
    && (r.chain.lockedBlock.height >= 1 ==> r.chain.lockedBlock.height < r.chain.curBlock.height)
    && LedgerInChain(chain, r.chain.committed) && r.chain.curHash == r.chain.curBlock.hash
  }

  ghost predicate MsgOk(leader: Replica, chain: seq<QCBlock>, m: Msg) {
    match m
    case Proposal(src, v, num, hash, qc, ops) =>
      && src == 0 && v == 0 && 1 <= num <= leader.chain.sequence && hash == HashAt(leader, num)
      && InChain(chain, qc) && qc.height == num - 1 && ops == BatchAt(leader, num)
    case Vote(src, dst, v, num, hash, sig) =>
      dst == 0 && 1 <= num <= leader.chain.sequence && hash == HashAt(leader, num)
    case _ => false
  }

  ghost predicate OneViewInv(env: Env, s: Sys, chain: seq<QCBlock>) {
    && |s.reps| == env.c.n >= 1
    && LeaderOk(env.c, s.reps[0], chain) && Linked(s.reps[0])
    && (forall p :: 1 <= p < env.c.n ==> FollowerOk(s.reps[p], p, chain))
    && (forall m :: m in s.net ==> MsgOk(s.reps[0], chain, m))
  }

  /** The chain after a step: a new certificate of the leader extends it. */
  ghost function Extend(s: Sys, s': Sys, chain: seq<QCBlock>): seq<QCBlock>
    requires |s.reps| >= 1 && |s'.reps| >= 1
  {
    var b, b' := s.reps[0].chain.curBlock, s'.reps[0].chain.curBlock;
    if b' == b then chain else chain + [b']
  }

  lemma ExtendMsg(r: Replica, r': Replica, chain: seq<QCBlock>, chain': seq<QCBlock>, m: Msg)
    requires MsgOk(r, chain, m) && chain <= chain' && r.chain.sequence <= r'.chain.sequence
    requires KeepsProposals(r, r')
    ensures MsgOk(r', chain', m)
  {
  }

  lemma ExtendFollower(r: Replica, p: int, chain: seq<QCBlock>, chain': seq<QCBlock>)
    requires FollowerOk(r, p, chain) && chain <= chain'
    ensures FollowerOk(r, p, chain')
  {
  }

  // ----- the leader's steps -----

  /** Proposals made so far keep their hash and batch. */
  ghost predicate KeepsProposals(r: Replica, r': Replica) {
    && r.chain.sequence <= r'.chain.sequence
    && forall k :: 1 <= k <= r.chain.sequence ==> HashAt(r', k) == HashAt(r, k) && BatchAt(r', k) == BatchAt(r, k)
  }

  lemma ChainKept(r: Replica, r': Replica, chain: seq<QCBlock>)
    requires ChainOk(r, chain) && KeepsProposals(r, r') && |chain| <= r.chain.sequence
    ensures ChainOk(r', chain)
  {
  }

  lemma LeaderProposes(c: Config, r: Replica, chain: seq<QCBlock>)
    requires LeaderOk(c, r, chain) && CanPropose(c, r)
    ensures var o := Propose(c, r);
      && LeaderOk(c, o.r, chain) && KeepsProposals(r, o.r) && o.r.chain.curBlock == r.chain.curBlock
      && forall m :: m in o.sent ==> MsgOk(o.r, chain, m)
  {
    var o := Propose(c, r);
    assert KeepsProposals(r, o.r);
    ChainKept(r, o.r, chain);
  }

  lemma LeaderHandlesProposal(c: Config, r: Replica, chain: seq<QCBlock>, m: Msg)
    requires LeaderOk(c, r, chain) && MsgOk(r, chain, m) && m.Proposal?
    ensures var o := OnProposal(c, r, m);
      && LeaderOk(c, o.r, chain) && KeepsProposals(r, o.r) && o.r.chain.curBlock == r.chain.curBlock
      && o.r.pending == r.pending && o.r.status == r.status
      && forall x :: x in o.sent ==> MsgOk(o.r, chain, x)
  {
    var o := OnProposal(c, r, m);
    assert KeepsProposals(r, o.r);
    ChainKept(r, o.r, chain);
  }

  lemma LeaderHandlesVote(c: Config, r: Replica, chain: seq<QCBlock>, m: Msg)
    requires LeaderOk(c, r, chain) && MsgOk(r, chain, m) && m.Vote?
    ensures var o := OnVote(c, r, m);
      && o.sent == {} && o.r.pending == r.pending && KeepsProposals(r, o.r)
      && LeaderOk(c, o.r, if o.r.chain.curBlock == r.chain.curBlock then chain else chain + [o.r.chain.curBlock])
  {
    var o := OnVote(c, r, m);
    ChainKept(r, o.r, chain);
    if o.r.chain != r.chain {
      LeaderCertifies(c, r, chain, m);
    }
  }

  lemma LeaderCertifies(c: Config, r: Replica, chain: seq<QCBlock>, m: Msg)
    requires LeaderOk(c, r, chain) && MsgOk(r, chain, m) && m.Vote? && OnVote(c, r, m).r.chain != r.chain
    ensures var o := OnVote(c, r, m); LeaderOk(c, o.r, chain + [o.r.chain.curBlock])
  {
    var o := OnVote(c, r, m);
    var book := AddVote(r.votes, m.hash, m.src, Some(m.sig));
    ChainKept(r, o.r, chain);
    var b := Certificate(r, book, m.num, m.hash);
    assert m.num == |chain| + 1 && b.height == m.num;
    assert ChainOk(o.r, chain + [b]);
  }

  lemma LeaderDelivers(c: Config, r: Replica, chain: seq<QCBlock>, m: Msg)
    requires LeaderOk(c, r, chain) && MsgOk(r, chain, m)
    ensures var o := Receive(c, r, m);
      var chain' := if o.r.chain.curBlock == r.chain.curBlock then chain else chain + [o.r.chain.curBlock];
      && LeaderOk(c, o.r, chain') && KeepsProposals(r, o.r) && forall x :: x in o.sent ==> MsgOk(o.r, chain', x)
  {
    if m.Proposal? { LeaderHandlesProposal(c, r, chain, m); } else { LeaderHandlesVote(c, r, chain, m); }
  }

  lemma LeaderStep(env: Env, s: Sys, chain: seq<QCBlock>, e: Event)
    requires OneView(env) && OneViewInv(env, s, chain) && Enabled(s, 0, e) && !e.FallAsleep?
    ensures var r, o := s.reps[0], Handle(env.c, s.reps[0], e);
      var chain' := if o.r.chain.curBlock == r.chain.curBlock then chain else chain + [o.r.chain.curBlock];
      && LeaderOk(env.c, o.r, chain') && KeepsProposals(r, o.r)
      && forall x :: x in o.sent ==> MsgOk(o.r, chain', x)
  {
    var r := s.reps[0];
    match e {
      case Deliver(m) =>
        assert MsgOk(r, chain, m);
        LeaderDelivers(env.c, r, chain, m);
      case ProposeBatch =>
        if CanPropose(env.c, r) { LeaderProposes(env.c, r, chain); }
      case ClientRequests(reqs) =>
        ChainKept(r, Handle(env.c, r, e).r, chain);
      case _ =>
    }
  }

  lemma LinkedKept(r: Replica, r': Replica)
    requires Linked(r) && r'.pending.awaiting == r.pending.awaiting && r'.pending.awaitingTxs == r.pending.awaitingTxs
    requires r'.chain.sequence == r.chain.sequence && r'.chain.curHash == r.chain.curHash
    ensures Linked(r')
  {
    forall k | 1 <= k <= r'.chain.sequence ensures LinkedAt(r', k) {
      assert LinkedAt(r, k);
    }
  }

  lemma ProposalLinks(c: Config, r: Replica, chain: seq<QCBlock>)
    requires LeaderOk(c, r, chain) && Linked(r) && CanPropose(c, r)
    ensures Linked(Propose(c, r).r)
  {
    var r' := Propose(c, r).r;
    forall k | 1 <= k <= r'.chain.sequence ensures LinkedAt(r', k) {
      if k <= r.chain.sequence {
        assert LinkedAt(r, k);
      }
    }
  }

  lemma LeaderStaysLinked(env: Env, s: Sys, chain: seq<QCBlock>, e: Event)
    requires OneView(env) && OneViewInv(env, s, chain) && Enabled(s, 0, e) && !e.FallAsleep?
    ensures Linked(Handle(env.c, s.reps[0], e).r)
  {
    var r := s.reps[0];
    if e.ProposeBatch? && CanPropose(env.c, r) {
      ProposalLinks(env.c, r, chain);
    } else {
      LeaderKeepsHashes(env, s, chain, e);
      LinkedKept(r, Handle(env.c, r, e).r);
    }
  }

  lemma LeaderKeepsHashes(env: Env, s: Sys, chain: seq<QCBlock>, e: Event)
    requires OneView(env) && OneViewInv(env, s, chain) && Enabled(s, 0, e) && !e.FallAsleep?
    requires !(e.ProposeBatch? && CanPropose(env.c, s.reps[0]))
    ensures var r, r' := s.reps[0], Handle(env.c, s.reps[0], e).r;
      && r'.pending.awaiting == r.pending.awaiting && r'.pending.awaitingTxs == r.pending.awaitingTxs
      && r'.chain.sequence == r.chain.sequence && r'.chain.curHash == r.chain.curHash
  {
    if e.Deliver? {
      assert MsgOk(s.reps[0], chain, e.m);
    }
  }

  // ----- the followers' steps -----

  lemma FollowerProcesses(c: Config, ch: Chain, b: QCBlock, num: int, chain: seq<QCBlock>)
    requires InChain(chain, ch.curBlock) && InChain(chain, ch.lockedBlock) && InChain(chain, b)
    requires ch.lockedBlock.height >= 1 ==> ch.lockedBlock.height < ch.curBlock.height
    requires forall i :: 0 <= i < |chain| ==> chain[i].height == i + 1
    requires LedgerInChain(chain, ch.committed) && ch.curHash == ch.curBlock.hash
    ensures var ch' := ProcessQCInfo(c, false, ch, b, num);
      && InChain(chain, ch'.curBlock) && InChain(chain, ch'.lockedBlock)
      && (ch'.lockedBlock.height >= 1 ==> ch'.lockedBlock.height < ch'.curBlock.height)
      && LedgerInChain(chain, ch'.committed) && ch'.curHash == ch'.curBlock.hash
  {
    FollowerCommits(c, ch, b, num, chain);
  }

  lemma FollowerCommits(c: Config, ch: Chain, b: QCBlock, num: int, chain: seq<QCBlock>)
    requires InChain(chain, ch.lockedBlock) && InChain(chain, b) && LedgerInChain(chain, ch.committed)
    requires forall i :: 0 <= i < |chain| ==> chain[i].height == i + 1
    ensures LedgerInChain(chain, ProcessQCInfo(c, false, ch, b, num).committed)
  {
    var lock, ledger := ch.lockedBlock, ProcessQCInfo(c, false, ch, b, num).committed;
    assert ledger == ch.committed || (ledger == ch.committed[lock.height := lock] && b.height >= lock.height + 2);
  }

  lemma FollowerHandles(c: Config, leader: Replica, r: Replica, p: int, chain: seq<QCBlock>, m: Msg)
    requires FollowerOk(r, p, chain) && p != 0 && MsgOk(leader, chain, m) && m.Proposal?
    requires forall i :: 0 <= i < |chain| ==> chain[i].height == i + 1
    ensures var o := OnProposal(c, r, m);
      && FollowerOk(o.r, p, chain) && forall x :: x in o.sent ==> MsgOk(leader, chain, x)
  {
    var ch := r.chain.(awaitingCopy := r.chain.awaitingCopy + {m.num});
    FollowerProcesses(c, ch, m.qc, m.num, chain);
  }

  lemma FollowerStep(env: Env, s: Sys, chain: seq<QCBlock>, p: int, e: Event)
    requires OneView(env) && OneViewInv(env, s, chain) && 1 <= p < env.c.n && Enabled(s, p, e) && !e.FallAsleep?
    ensures var o := Handle(env.c, s.reps[p], e);
      && FollowerOk(o.r, p, chain) && forall x :: x in o.sent ==> MsgOk(s.reps[0], chain, x)
  {
    var r := s.reps[p];
    assert FollowerOk(r, p, chain);
    match e {
      case Deliver(m) =>
        assert MsgOk(s.reps[0], chain, m);
        FollowerHandles(env.c, s.reps[0], r, p, chain, m);
        assert Handle(env.c, r, e) == OnProposal(env.c, r, m);
      case ProposeBatch =>
        assert LeaderID(env.c, 0) != p;
      case _ =>
    }
  }

  // ----- runs -----

  lemma StepKeepsOneView(env: Env, s: Sys, s': Sys, st: Step, chain: seq<QCBlock>)
    requires OneView(env) && OneViewInv(env, s, chain) && Next(env, s, s', st) && |s'.reps| == env.c.n
    requires st.Local? ==> !st.e.FallAsleep?
    ensures OneViewInv(env, s', Extend(s, s', chain))
    ensures KeepsProposals(s.reps[0], s'.reps[0])
  {
    var chain' := Extend(s, s', chain);
    if st.p == 0 {
      LeaderStep(env, s, chain, st.e);
      LeaderStaysLinked(env, s, chain, st.e);
    } else {
      FollowerStep(env, s, chain, st.p, st.e);
    }
    forall m | m in s'.net ensures MsgOk(s'.reps[0], chain', m) {
      if m in s.net { ExtendMsg(s.reps[0], s'.reps[0], chain, chain', m); }
    }
    forall p | 1 <= p < env.c.n ensures FollowerOk(s'.reps[p], p, chain') {
      ExtendFollower(s'.reps[p], p, chain, chain');
    }
  }

  /** The leader's certificates up to state i, oldest first. */
  ghost function ChainAt(env: Env, run: seq<Sys>, steps: seq<Step>, i: nat): seq<QCBlock>
    requires OneView(env) && IsRun(env, run, steps) && i < |run|
  {
    if i == 0 then [] else Extend(run[i - 1], run[i], ChainAt(env, run, steps, i - 1))
  }

  lemma {:induction false} RunOneView(env: Env, run: seq<Sys>, steps: seq<Step>, i: nat)
    requires OneView(env) && IsRun(env, run, steps) && NoSleeps(steps) && i < |run|
    ensures OneViewInv(env, run[i], ChainAt(env, run, steps, i))
  {
    if i > 0 {
      RunOneView(env, run, steps, i - 1);
      assert StepAt(env, run, steps, i - 1);
      StepKeepsOneView(env, run[i - 1], run[i], steps[i - 1], ChainAt(env, run, steps, i - 1));
    }
  }

  lemma {:induction false} ChainGrows(env: Env, run: seq<Sys>, steps: seq<Step>, i: nat, j: nat)
    requires OneView(env) && IsRun(env, run, steps) && i <= j < |run|
    ensures ChainAt(env, run, steps, i) <= ChainAt(env, run, steps, j)
  {
    if i < j {
      ChainGrows(env, run, steps, i, j - 1);
    }
  }

  /** The chain is the leader's: contiguous heights in lockstep with the sequence
      numbers, each block naming the hashes of the blocks one and two below. */
  lemma ChainIsTheLeaders(env: Env, run: seq<Sys>, steps: seq<Step>, i: nat, k: int)
    requires OneView(env) && IsRun(env, run, steps) && NoSleeps(steps) && i < |run|
    requires 1 <= k <= |ChainAt(env, run, steps, i)|
    ensures var b := ChainAt(env, run, steps, i)[k - 1];
      && b.height == k && b.hash == Chained(b.preHash, k, Join(BatchAt(run[i].reps[0], k)))
      && b.txs == [Coinbase(0)] + ParseAll(BatchAt(run[i].reps[0], k))
      && b.preHash == (if k >= 2 then ChainAt(env, run, steps, i)[k - 2].hash else NoHash)
      && b.prePreHash == (if k >= 3 then ChainAt(env, run, steps, i)[k - 3].hash else NoHash)
  {
    RunOneView(env, run, steps, i);
    var chain := ChainAt(env, run, steps, i);
    assert forall x :: 0 <= x < |chain| ==> CertifiesAt(run[i].reps[0], chain[x], x + 1);
    if k >= 2 { assert CertifiesAt(run[i].reps[0], chain[k - 2], k - 1); }
    if k >= 3 { assert CertifiesAt(run[i].reps[0], chain[k - 3], k - 2); }
    assert CertifiesAt(run[i].reps[0], chain[k - 1], k) && LinkedAt(run[i].reps[0], k);
  }

  /** A follower's block and lock are blocks of the chain, its lock below its
      block, and the hash it would chain a proposal to is its block's. */
  lemma FollowersAreOnChain(env: Env, run: seq<Sys>, steps: seq<Step>, i: nat, p: int)
    requires OneView(env) && IsRun(env, run, steps) && NoSleeps(steps) && i < |run| && 1 <= p < env.c.n
    ensures var ch, chain := run[i].reps[p].chain, ChainAt(env, run, steps, i);
      && InChain(chain, ch.curBlock) && InChain(chain, ch.lockedBlock) && ch.curHash == ch.curBlock.hash
      && (ch.lockedBlock.height < ch.curBlock.height || ch.lockedBlock == ch.curBlock == ZERO_BLOCK)
  {
    RunOneView(env, run, steps, i);
    assert FollowerOk(run[i].reps[p], p, ChainAt(env, run, steps, i));
  }

  /** Every committed block is the chain's block of that height, with two
      certified blocks above it. */
  lemma CommittedIsChain(env: Env, run: seq<Sys>, steps: seq<Step>, i: nat, p: int, h: int)
    requires OneView(env) && IsRun(env, run, steps) && NoSleeps(steps) && i < |run| && 0 <= p < env.c.n
    requires h >= 1 && h in run[i].reps[p].chain.committed
    ensures var chain := ChainAt(env, run, steps, i);
            h + 2 <= |chain| && run[i].reps[p].chain.committed[h] == chain[h - 1]
  {
    RunOneView(env, run, steps, i);
    if p >= 1 {
      assert FollowerOk(run[i].reps[p], p, ChainAt(env, run, steps, i));
    }
  }

  /** Agreement: at any two times, the ledgers of any two replicas agree at every
      height above 0 they both hold. */
  lemma LedgersAgree(env: Env, run: seq<Sys>, steps: seq<Step>, i: nat, j: nat, p: int, q: int, h: int)
    requires OneView(env) && IsRun(env, run, steps) && NoSleeps(steps) && i <= j < |run|
    requires 0 <= p < env.c.n && 0 <= q < env.c.n && h >= 1
    requires h in run[i].reps[p].chain.committed && h in run[j].reps[q].chain.committed
    ensures run[i].reps[p].chain.committed[h] == run[j].reps[q].chain.committed[h]
  {
    CommittedIsChain(env, run, steps, i, p, h);
    CommittedIsChain(env, run, steps, j, q, h);
    ChainGrows(env, run, steps, i, j);
  }

  // ----- conservation of client requests -----

  function Batches(r: Replica, k: nat): seq<Bytes> {
    if k == 0 then [] else Batches(r, k - 1) + BatchAt(r, k)
  }

  lemma {:induction false} BatchesKept(r: Replica, r': Replica, k: nat)
    requires KeepsProposals(r, r') && k <= r.chain.sequence
    ensures Batches(r', k) == Batches(r, k)
  {
    if k > 0 {
      BatchesKept(r, r', k - 1);
    }
  }

  function WithRequests(reqs: seq<Bytes>, st: Step): seq<Bytes> {
    reqs + (if st.Local? && st.p == 0 && st.e.ClientRequests? then st.e.reqs else [])
  }

  /** All client requests the leader was handed up to state i, in order. */
  function RequestsAt(steps: seq<Step>, i: nat): seq<Bytes>
    requires i <= |steps|
  {
    if i == 0 then [] else WithRequests(RequestsAt(steps, i - 1), steps[i - 1])
  }

  ghost predicate NothingLost(r: Replica, reqs: seq<Bytes>) {
    r.chain.sequence >= 0 && Batches(r, r.chain.sequence) + r.pending.queue == reqs
  }

  lemma StepLosesNothing(env: Env, s: Sys, s': Sys, st: Step, chain: seq<QCBlock>, reqs: seq<Bytes>)
    requires OneView(env) && OneViewInv(env, s, chain) && Next(env, s, s', st) && |s'.reps| == env.c.n
    requires st.Local? ==> !st.e.FallAsleep?
    requires NothingLost(s.reps[0], reqs)
    ensures NothingLost(s'.reps[0], WithRequests(reqs, st))
  {
    StepKeepsOneView(env, s, s', st, chain);
    if st.p == 0 {
      LeaderQueueStep(env, s, chain, st.e);
      QueueStepLosesNothing(env.c, s.reps[0], s'.reps[0], st.e, reqs);
    } else {
      assert reqs + [] == reqs;
    }
  }

  ghost predicate QueueMoves(c: Config, r: Replica, r': Replica, e: Event) {
    if e.ProposeBatch? && CanPropose(c, r) then
      && r'.pending.queue == Grab(c, r.pending.queue).1 && r'.chain.sequence == r.chain.sequence + 1
      && BatchAt(r', r'.chain.sequence) == Grab(c, r.pending.queue).0
    else
      && r'.chain.sequence == r.chain.sequence
      && r'.pending.queue == (if e.ClientRequests? then r.pending.queue + e.reqs else r.pending.queue)
  }

  lemma QueueStepLosesNothing(c: Config, r: Replica, r': Replica, e: Event, reqs: seq<Bytes>)
    requires NothingLost(r, reqs) && KeepsProposals(r, r') && QueueMoves(c, r, r', e)
    ensures NothingLost(r', reqs + (if e.ClientRequests? then e.reqs else []))
  {
    BatchesKept(r, r', r.chain.sequence);
    if e.ProposeBatch? && CanPropose(c, r) {
      var (batch, rest) := Grab(c, r.pending.queue);
      assert batch + rest == r.pending.queue;
      assert Batches(r', r'.chain.sequence) == Batches(r, r.chain.sequence) + batch;
      assert Batches(r, r.chain.sequence) + batch + rest == reqs + [];
    } else {
      var more := if e.ClientRequests? then e.reqs else [];
      assert Batches(r, r.chain.sequence) + (r.pending.queue + more) == reqs + more;
      assert r.pending.queue + [] == r.pending.queue;
    }
  }

  lemma LeaderQueueStep(env: Env, s: Sys, chain: seq<QCBlock>, e: Event)
    requires OneView(env) && OneViewInv(env, s, chain) && Enabled(s, 0, e) && !e.FallAsleep?
    ensures QueueMoves(env.c, s.reps[0], Handle(env.c, s.reps[0], e).r, e)
  {
    var r := s.reps[0];
    match e {
      case Deliver(m) =>
        assert MsgOk(r, chain, m);
        if m.Proposal? {
          LeaderHandlesProposal(env.c, r, chain, m);
        } else {
          assert OnVote(env.c, r, m).r.pending == r.pending;
        }
      case _ =>
    }
  }

  lemma {:induction false} RunLosesNothing(env: Env, run: seq<Sys>, steps: seq<Step>, i: nat)
    requires OneView(env) && IsRun(env, run, steps) && NoSleeps(steps) && i < |run|
    ensures NothingLost(run[i].reps[0], RequestsAt(steps, i))
  {
    if i > 0 {
      RunLosesNothing(env, run, steps, i - 1);
      var chain := SomeChain(env, run, steps, i - 1);
      assert StepAt(env, run, steps, i - 1);
      StepLosesNothing(env, run[i - 1], run[i], steps[i - 1], chain, RequestsAt(steps, i - 1));
    }
  }

  lemma SomeChain(env: Env, run: seq<Sys>, steps: seq<Step>, i: nat) returns (chain: seq<QCBlock>)
    requires OneView(env) && IsRun(env, run, steps) && NoSleeps(steps) && i < |run|
    ensures OneViewInv(env, run[i], chain)
  {
    RunOneView(env, run, steps, i);
    chain := ChainAt(env, run, steps, i);
  }

  /** The transactions of a chain without the coinbases. */
  function Transactions(chain: seq<QCBlock>): seq<Tx> {
    if chain == [] then []
    else
      var txs := chain[|chain| - 1].txs;
      Transactions(chain[..|chain| - 1]) + (if txs == [] then [] else txs[1..])
  }

  lemma {:induction false} ChainTransactions(r: Replica, chain: seq<QCBlock>)
    requires ChainOk(r, chain)
    ensures Transactions(chain) == ParseAll(Batches(r, |chain|))
  {
    if chain == [] {
    } else {
      var pre, k := chain[..|chain| - 1], |chain|;
      assert forall j :: 0 <= j < |pre| ==> pre[j] == chain[j];
      ChainTransactions(r, pre);
      assert CertifiesAt(r, chain[k - 1], k);
      WithoutCoinbase(chain[k - 1].txs, BatchAt(r, k));
      ParseSum(Batches(r, k - 1), BatchAt(r, k));
    }
  }

  lemma WithoutCoinbase(txs: seq<Tx>, batch: seq<Bytes>)
    requires txs == [Coinbase(0)] + ParseAll(batch)
    ensures txs != [] && txs[1..] == ParseAll(batch)
  {
  }

  lemma ParseSum(a: seq<Bytes>, b: seq<Bytes>)
    ensures ParseAll(a + b) == ParseAll(a) + ParseAll(b)
  {
  }

  /** Conservation: the transactions of the certified chain, then the batch still
      waiting for votes, then the queue are exactly the requests ever handed to
      the leader, each once and in order. */
  lemma RequestsAreConserved(env: Env, run: seq<Sys>, steps: seq<Step>, i: nat)
    requires OneView(env) && IsRun(env, run, steps) && NoSleeps(steps) && i < |run|
    ensures var r := run[i].reps[0];
      var waiting := if r.status == PROCESSING then BatchAt(r, r.chain.sequence) else [];
      && Transactions(ChainAt(env, run, steps, i)) + ParseAll(waiting) + ParseAll(r.pending.queue)
         == ParseAll(RequestsAt(steps, i))
      && |waiting| <= env.c.maxBatch
    ensures var chain := ChainAt(env, run, steps, i);
      forall k :: 0 <= k < |chain| ==> 1 <= |chain[k].txs| <= env.c.maxBatch + 1
  {
    var r, chain := run[i].reps[0], ChainAt(env, run, steps, i);
    RunOneView(env, run, steps, i);
    forall k | 0 <= k < |chain| ensures 1 <= |chain[k].txs| <= env.c.maxBatch + 1 {
      assert CertifiesAt(r, chain[k], k + 1);
    }
    RunLosesNothing(env, run, steps, i);
    WholeAndParts(env.c, r, chain, RequestsAt(steps, i));
  }

  lemma WholeAndParts(c: Config, r: Replica, chain: seq<QCBlock>, reqs: seq<Bytes>)
    requires LeaderOk(c, r, chain) && NothingLost(r, reqs)
    ensures var waiting := if r.status == PROCESSING then BatchAt(r, r.chain.sequence) else [];
      && Transactions(chain) + ParseAll(waiting) + ParseAll(r.pending.queue) == ParseAll(reqs)
      && |waiting| <= c.maxBatch
  {
    ChainTransactions(r, chain);
    var waiting := if r.status == PROCESSING then BatchAt(r, r.chain.sequence) else [];
    var done := Batches(r, |chain|);
    assert Batches(r, r.chain.sequence) == done + waiting;
    assert reqs == done + waiting + r.pending.queue;
    assert ParseAll(done + waiting + r.pending.queue) == ParseAll(done) + ParseAll(waiting) + ParseAll(r.pending.queue);
  }
}
