/** What certificates and votes stand for, in every run, with arbitrary replicas
    and sleeps: every signature in a certificate is its voter's, its
    transactions are those hashed, and nothing but a proposal numbered 1 is voted
    for or built on without a certificate. */
module Evidence {
  import opened Messages
  import opened Quorums
  import opened Buffers
  import opened ReplicaSpec
  import opened System

  // ----- the signatures of a certificate -----

  /** Every buffered signature is the one the voter beside it makes for the key. */
  ghost predicate SignedAt(b: VoteBook, key: Digest) {
    && MirrorsAt(b, key)
    && forall i :: 0 <= i < |IdsOf(b, key)| ==> VerifySig(IdsOf(b, key)[i], VoteOn(key), SigsOf(b, key)[i])
  }

  ghost predicate SignedBook(b: VoteBook) {
    forall key :: SignedAt(b, key)
  }

  /** A quorum of distinct voters, each with its own signature on the hash. */
  ghost predicate FullySigned(c: Config, b: QCBlock) {
    && |b.qc| == |b.ids| >= c.quorum && Distinct(b.ids)
    && forall i :: 0 <= i < |b.ids| ==> VerifySig(b.ids[i], VoteOn(b.hash), b.qc[i])
  }

  lemma AddKeepsSigned(b: VoteBook, key: Digest, q: int, sig: Signature)
    requires SignedBook(b) && VerifySig(q, VoteOn(key), sig)
    ensures SignedBook(AddVote(b, key, q, Some(sig)))
  {
    var b' := AddVote(b, key, q, Some(sig));
    forall k ensures MirrorsAt(b, k) {
      assert SignedAt(b, k);
    }
    AddVoteMirrors(b, key, q, Some(sig));
    forall k ensures SignedAt(b', k) {
      assert SignedAt(b, k) && MirrorsAt(b', k);
    }
  }

  /** A vote that changes anything was signed by its sender. */
  lemma BufferedVoteIsSigned(c: Config, r: Replica, m: Msg)
    requires m.Vote? && OnVote(c, r, m).r != r
    ensures VerifySig(m.src, VoteOn(m.hash), m.sig)
    ensures OnVote(c, r, m).r.votes == AddVote(r.votes, m.hash, m.src, Some(m.sig))
  {
  }

  lemma EventKeepsSigned(c: Config, r: Replica, e: Event)
    requires SignedBook(r.votes)
    ensures SignedBook(Handle(c, r, e).r.votes)
  {
    var votes := Handle(c, r, e).r.votes;
    if e.Deliver? && e.m.Vote? && votes != r.votes {
      BufferedVoteIsSigned(c, r, e.m);
      AddKeepsSigned(r.votes, e.m.hash, e.m.src, e.m.sig);
    } else if votes != r.votes {
      OtherwiseEmptied(c, r, e);
      forall key ensures SignedAt(EMPTY_VOTES, key) {}
    }
  }

  lemma OtherwiseEmptied(c: Config, r: Replica, e: Event)
    requires !(e.Deliver? && e.m.Vote?)
    ensures Handle(c, r, e).r.votes == r.votes || Handle(c, r, e).r.votes == EMPTY_VOTES
  {
  }

  ghost predicate BooksSigned(env: Env, s: Sys)
    requires |s.reps| == env.c.n
  {
    forall p :: Honest(env, p) ==> SignedBook(s.reps[p].votes)
  }

  lemma StepKeepsSigned(env: Env, s: Sys, s': Sys, st: Step)
    requires |s.reps| == |s'.reps| == env.c.n && Next(env, s, s', st) && BooksSigned(env, s)
    ensures BooksSigned(env, s')
  {
    if st.Local? {
      EventKeepsSigned(env.c, s.reps[st.p], st.e);
    }
  }

  lemma {:induction false} RunBooksSigned(env: Env, run: seq<Sys>, steps: seq<Step>, i: nat)
    requires IsRun(env, run, steps) && i < |run|
    ensures BooksSigned(env, run[i])
  {
    if i == 0 {
      forall key ensures SignedAt(EMPTY_VOTES, key) {}
    } else {
      RunBooksSigned(env, run, steps, i - 1);
      assert StepAt(env, run, steps, i - 1);
      StepKeepsSigned(env, run[i - 1], run[i], steps[i - 1]);
    }
  }

  /** A vote makes a new block current at a replica. */
  ghost predicate Collects(run: seq<Sys>, steps: seq<Step>, i: int, p: int) {
    && 0 <= i < |steps| && i + 1 < |run| && steps[i].Local? && steps[i].p == p
    && 0 <= p < |run[i].reps| && p < |run[i + 1].reps|
    && steps[i].e.Deliver? && steps[i].e.m.Vote?
    && run[i + 1].reps[p].chain.curBlock != run[i].reps[p].chain.curBlock
  }

  /** Whenever a vote makes a new block current at a replica that is not
      arbitrary, the block is a certificate of a full quorum of distinct voters,
      and every signature in it is the voter's beside it on the block's hash. */
  lemma CertificatesAreSigned(env: Env, run: seq<Sys>, steps: seq<Step>, i: nat, p: int)
    requires IsRun(env, run, steps) && Honest(env, p) && Collects(run, steps, i, p)
    ensures var b := run[i + 1].reps[p].chain.curBlock;
      FullySigned(env.c, b) && b.hash == steps[i].e.m.hash
  {
    RunBooksSigned(env, run, steps, i);
    assert StepAt(env, run, steps, i);
    VoteCertifies(env.c, run[i].reps[p], steps[i].e.m);
  }

  lemma VoteCertifies(c: Config, r: Replica, m: Msg)
    requires m.Vote? && SignedBook(r.votes) && Receive(c, r, m).r.chain.curBlock != r.chain.curBlock
    ensures var b := Receive(c, r, m).r.chain.curBlock; FullySigned(c, b) && b.hash == m.hash
  {
    var book := AddVote(r.votes, m.hash, m.src, Some(m.sig));
    BufferedVoteIsSigned(c, r, m);
    AddKeepsSigned(r.votes, m.hash, m.src, m.sig);
    assert SignedAt(book, m.hash);
    DistinctSize(IdsOf(book, m.hash));
  }

  // ----- the transactions of a certificate -----

  /** The hash recorded for a proposal is the hash of the batch recorded for it. */
  ghost predicate BatchesKept(p: Pending) {
    forall k :: k in p.awaiting ==>
      && p.awaiting[k].Chained? && p.awaiting[k].num == k
      && k in p.awaitingTxs && p.awaiting[k].payload == Join(p.awaitingTxs[k])
  }

  lemma EventKeepsBatches(c: Config, r: Replica, e: Event)
    requires BatchesKept(r.pending)
    ensures BatchesKept(Handle(c, r, e).r.pending)
  {
    var p := Handle(c, r, e).r.pending;
    if !e.ProposeBatch? {
      PendingElsewhere(c, r, e);
    }
  }

  lemma PendingElsewhere(c: Config, r: Replica, e: Event)
    requires !e.ProposeBatch?
    ensures var p := Handle(c, r, e).r.pending;
      p.awaiting == map[] || (p.awaiting == r.pending.awaiting && p.awaitingTxs == r.pending.awaitingTxs)
  {
  }

  lemma {:induction false} RunKeepsBatches(env: Env, run: seq<Sys>, steps: seq<Step>, i: nat, p: int)
    requires IsRun(env, run, steps) && i < |run| && Honest(env, p)
    ensures BatchesKept(run[i].reps[p].pending)
  {
    if i > 0 {
      RunKeepsBatches(env, run, steps, i - 1, p);
      assert StepAt(env, run, steps, i - 1);
      if steps[i - 1].Local? && steps[i - 1].p == p {
        EventKeepsBatches(env.c, run[i - 1].reps[p], steps[i - 1].e);
      }
    }
  }

  /** A certificate completed by a vote numbered as an outstanding proposal is
      for that proposal: its hash is over the batch whose requests, after the
      coinbase, are its transactions. */
  lemma CertificateHoldsItsBatch(env: Env, run: seq<Sys>, steps: seq<Step>, i: nat, p: int)
    requires IsRun(env, run, steps) && Honest(env, p) && Collects(run, steps, i, p)
    requires steps[i].e.m.num in run[i].reps[p].pending.awaiting
    ensures var b, num, mine := run[i + 1].reps[p].chain.curBlock, steps[i].e.m.num, run[i].reps[p].pending;
      && b.hash == mine.awaiting[num] && b.hash.Chained? && b.hash.num == num && num in mine.awaitingTxs
      && b.hash.payload == Join(mine.awaitingTxs[num])
      && b.txs == [Coinbase(p)] + ParseAll(mine.awaitingTxs[num])
  {
    RunKeepsBatches(env, run, steps, i, p);
    RunIds(env, run, steps, i);
    assert StepAt(env, run, steps, i);
    BatchIsCertified(env.c, run[i].reps[p], steps[i].e.m);
  }

  lemma BatchIsCertified(c: Config, r: Replica, m: Msg)
    requires m.Vote? && Receive(c, r, m).r.chain.curBlock != r.chain.curBlock && m.num in r.pending.awaiting
    ensures var b := Receive(c, r, m).r.chain.curBlock;
      b.hash == r.pending.awaiting[m.num] && b.txs == BlockTxs(r.id, r.pending, m.num)
  {
  }

  // ----- what a replica votes for and builds on -----

  /** The lists a certificate must have: a quorum of signatures, and as many ids unless the hash is nil. */
  predicate Certificated(c: Config, b: QCBlock) {
    |b.qc| >= c.quorum && (b.hash != NoHash ==> |b.qc| == |b.ids|)
  }

  /** The grounds for voting: a certificate at or above the lock, or a first
      proposal that is the replica's own or the first of any it has seen. */
  predicate Grounds(c: Config, r: Replica, m: Msg)
    requires m.Proposal?
  {
    || (Certificated(c, m.qc) && m.qc.height >= r.chain.lockedBlock.height)
    || (m.num == 1 && (m.src == r.id || r.chain.sequence < 1))
  }

  lemma EmittedVote(c: Config, r: Replica, e: Event, x: Msg)
    requires x.Vote? && x in Handle(c, r, e).sent
    ensures e.Deliver? && e.m.Proposal? && Grounds(c, r, e.m) && Active(r) && e.m.view >= r.view
    ensures x.src == r.id && x.view == r.view && x.num == e.m.num && x.hash == e.m.hash
    ensures x.sig == Signed(r.id, VoteOn(x.hash))
    ensures x.dst == e.m.src != r.id || (x.dst == r.id && r.leader)
  {
    if e.Deliver? {
      assert r.status != SLEEPING && r.status != RECOVERING;
    }
  }

  /** Any vote of a replica that is not arbitrary was cast on a proposal that
      carried a certificate not below its lock, or was numbered 1. */
  lemma {:induction false} VotesHaveGrounds(env: Env, run: seq<Sys>, steps: seq<Step>, i: nat, x: Msg) returns (k: nat)
    requires IsRun(env, run, steps) && i < |run| && x in run[i].net && x.Vote? && Honest(env, x.src)
    ensures k < i && steps[k].Local? && steps[k].p == x.src && steps[k].e.Deliver? && steps[k].e.m.Proposal?
    ensures var m := steps[k].e.m; m in run[k].net && m.hash == x.hash && m.num == x.num
    ensures Grounds(env.c, run[k].reps[x.src], steps[k].e.m) && x.view == run[k].reps[x.src].view
    decreases i
  {
    if x in run[i - 1].net {
      k := VotesHaveGrounds(env, run, steps, i - 1, x);
    } else {
      k := i - 1;
      assert StepAt(env, run, steps, k);
      RunIds(env, run, steps, k);
      EmittedVote(env.c, run[k].reps[steps[k].p], steps[k].e, x);
    }
  }

  lemma {:induction false} RunIds(env: Env, run: seq<Sys>, steps: seq<Step>, i: nat)
    requires IsRun(env, run, steps) && i < |run|
    ensures forall p :: 0 <= p < env.c.n ==> run[i].reps[p].id == p
  {
    if i > 0 {
      RunIds(env, run, steps, i - 1);
      assert StepAt(env, run, steps, i - 1);
      if steps[i - 1].Local? {
        KeepsId(env.c, run[i - 1].reps[steps[i - 1].p], steps[i - 1].e);
      }
    }
  }

  lemma KeepsId(c: Config, r: Replica, e: Event)
    ensures Handle(c, r, e).r.id == r.id
  {
  }

  /** The ledger changed at most at the lock's height, where the lock was written. */
  ghost predicate WroteLock(ch: Chain, ledger: Ledger) {
    && (forall h :: h in ch.committed && h != ch.lockedBlock.height ==> h in ledger && ledger[h] == ch.committed[h])
    && (forall h :: h in ledger && h != ch.lockedBlock.height ==> h in ch.committed)
    && (ledger == ch.committed || (ch.lockedBlock.height in ledger && ledger[ch.lockedBlock.height] == ch.lockedBlock))
  }

  ghost predicate MovedByProposal(c: Config, r: Replica, ch': Chain, m: Msg)
    requires m.Proposal?
  {
    && Grounds(c, r, m) && Active(r) && m.view >= r.view
    && ch'.curBlock in {r.chain.curBlock, m.qc} && ch'.lockedBlock in {r.chain.lockedBlock, r.chain.curBlock}
    && WroteLock(r.chain, ch'.committed)
  }

  ghost predicate MovedByViewChange(c: Config, ch: Chain, ch': Chain, b: QCBlock) {
    && ch'.curBlock == b && Certificated(c, b) && b.hash != NoHash && b.height >= ch.curBlock.height
    && ch'.lockedBlock == ch.lockedBlock && ch'.committed == ch.committed
  }

  ghost predicate Raised(c: Config, b: QCBlock, b': QCBlock, x: QCBlock) {
    b' == b || (b' == x && x.hash != NoHash && Certificated(c, x) && x.height > b.height)
  }

  ghost predicate MovedByEcho(c: Config, r: Replica, ch': Chain, m: Msg)
    requires m.Echo2?
  {
    && Raised(c, r.chain.curBlock, ch'.curBlock, m.prepared)
    && Raised(c, r.chain.lockedBlock, ch'.lockedBlock, m.locked)
    && (ch'.curBlock != r.chain.curBlock || ch'.lockedBlock != r.chain.lockedBlock ==>
          r.status == RECOVERING && r.rec.reqHash == Some(m.req))
  }

  /** Where a change of block, lock or ledger comes from: a proposal there were
      grounds to vote for, a vote, a VIEWCHANGE or an ECHO2 with certificate
      lists, or the reset on waking. */
  ghost predicate MovedBy(c: Config, r: Replica, ch': Chain, e: Event) {
    match e
    case WakeUp(_) => ch'.curBlock == ch'.lockedBlock == ZERO_BLOCK && ch'.committed == r.chain.committed
    case Deliver(m) =>
      if m.Proposal? then MovedByProposal(c, r, ch', m)
      else if m.ViewChange? then MovedByViewChange(c, r.chain, ch', m.block)
      else if m.Echo2? then MovedByEcho(c, r, ch', m)
      else m.Vote? && Active(r) && ch'.lockedBlock == r.chain.lockedBlock && ch'.committed == r.chain.committed
    case _ => false
  }

  predicate SameState(ch: Chain, ch': Chain) {
    ch'.curBlock == ch.curBlock && ch'.lockedBlock == ch.lockedBlock && ch'.committed == ch.committed
  }

  lemma ProposalMoves(c: Config, r: Replica, m: Msg)
    requires m.Proposal? && !SameState(r.chain, OnProposal(c, r, m).r.chain) && Active(r)
    ensures MovedByProposal(c, r, OnProposal(c, r, m).r.chain, m)
  {
    var ch := if r.leader then r.chain else r.chain.(awaitingCopy := r.chain.awaitingCopy + {m.num});
    ProcessWrites(c, r.leader, ch, m.qc, m.num);
  }

  lemma ProcessWrites(c: Config, leader: bool, ch: Chain, b: QCBlock, num: int)
    ensures WroteLock(ch, ProcessQCInfo(c, leader, ch, b, num).committed)
  {
  }

  lemma EchoMoves(c: Config, r: Replica, m: Msg)
    requires m.Echo2?
    ensures MovedByEcho(c, r, OnEcho2(c, r, m).r.chain, m)
  {
  }

  lemma EventMoves(c: Config, r: Replica, e: Event)
    requires !SameState(r.chain, Handle(c, r, e).r.chain)
    ensures MovedBy(c, r, Handle(c, r, e).r.chain, e)
  {
    if e.Deliver? {
      if e.m.Proposal? {
        ProposalMoves(c, r, e.m);
      } else if e.m.Echo2? {
        EchoMoves(c, r, e.m);
      }
    }
  }

  /** In every run: a step after which a replica that is not arbitrary holds
      another block, lock or ledger is its own, by a message on the network, and as MovedBy says. */
  lemma ChainMoves(env: Env, run: seq<Sys>, steps: seq<Step>, i: nat, p: int)
    requires IsRun(env, run, steps) && i < |steps| && Honest(env, p)
    requires !SameState(run[i].reps[p].chain, run[i + 1].reps[p].chain)
    ensures steps[i].Local? && steps[i].p == p && MovedBy(env.c, run[i].reps[p], run[i + 1].reps[p].chain, steps[i].e)
    ensures steps[i].e.Deliver? ==> steps[i].e.m in run[i].net && Addressed(p, steps[i].e.m)
  {
    assert StepAt(env, run, steps, i);
    EventMoves(env.c, run[i].reps[p], steps[i].e);
  }

  // ----- so held blocks are certificates, but for first proposals -----

  predicate Held(c: Config, b: QCBlock) {
    b == ZERO_BLOCK || Certificated(c, b)
  }

  /** Every proposal numbered 1 that a replica handles carries the initial block, as leaders make it. */
  ghost predicate FirstsCarryNothing(steps: seq<Step>) {
    forall k :: 0 <= k < |steps| && steps[k].Local? && steps[k].e.Deliver? && steps[k].e.m.Proposal? ==>
      (steps[k].e.m.num == 1 ==> steps[k].e.m.qc == ZERO_BLOCK)
  }

  /** Then blocks and locks of replicas that are not arbitrary always have their
      certificate lists, whatever arbitrary replicas send. */
  lemma {:induction false} HeldBlocksAreCertificates(env: Env, run: seq<Sys>, steps: seq<Step>, i: nat, p: int)
    requires IsRun(env, run, steps) && FirstsCarryNothing(steps) && i < |run| && Honest(env, p)
    ensures Held(env.c, run[i].reps[p].chain.curBlock) && Held(env.c, run[i].reps[p].chain.lockedBlock)
  {
    if i > 0 {
      HeldBlocksAreCertificates(env, run, steps, i - 1, p);
      if !SameState(run[i - 1].reps[p].chain, run[i].reps[p].chain) {
        ChainMoves(env, run, steps, i - 1, p);
        if Collects(run, steps, i - 1, p) {
          CertificatesAreSigned(env, run, steps, i - 1, p);
        }
      }
    }
  }

  /** Exactly: a proposal makes a block without certificate lists current if and
      only if it is numbered 1, not the replica's own, the first proposal the
      replica sees, and its block is higher than the replica's. */
  lemma BareBlockAdoptedIff(c: Config, r: Replica, m: Msg)
    requires m.Proposal? && Active(r) && Held(c, r.chain.curBlock) && m.src != r.id
    ensures !Held(c, Handle(c, r, Deliver(m)).r.chain.curBlock) <==>
            && !Held(c, m.qc) && m.num == 1 && r.chain.sequence < 1 && !r.leader
            && m.view >= r.view && r.status != VIEWCHANGE && m.qc.height > r.chain.curBlock.height
  {
  }
}
