/** A run in which two promises about view changes fail: five replicas that all
    follow the code and never sleep.  Replica 1 proposes the second block in
    view 1 and leads again in view 6.  Replica 2, leading view 7, proposes the
    same request on the same block, and replica 1 counts its own vote for that. */
module EchoedRuns {
  import opened Messages
  import opened Buffers
  import opened ReplicaSpec
  import opened System
  import opened Scripts
  import opened ViewScripts
  import opened Certs
  import opened Locks
  import opened VoteViews

  const REQUEST: Bytes := [7]
  const FIRST := Chained(NoHash, 1, Join([REQUEST]))
  const SECOND := Chained(NoHash, 2, Join([REQUEST]))
  const THIRD := Chained(SECOND, 3, Join([]))

  /** The first block, certified by replicas 0, 1 and 2. */
  predicate FirstBlock(b: QCBlock) {
    b.hash == FIRST && b.height == 1 && |b.qc| == |b.ids| == 3
  }

  /** The replica holds block b and has locked nothing. */
  predicate OnBlock(r: Replica, b: QCBlock) {
    r.chain.curBlock == b && r.chain.lockedBlock == ZERO_BLOCK
  }

  // ----- view 0: the first block -----

  const PROPOSAL1 := Proposal(0, 0, 1, FIRST, ZERO_BLOCK, [REQUEST])

  function Voted1(r: Replica): Replica {
    r.(chain := r.chain.(awaitingCopy := {1}, sequence := 1))
  }

  lemma ProposesFirst(r: Replica)
    requires r == Fresh(FIVE, 0).(pending := Pending([REQUEST], map[], map[]))
    ensures var o := Handle(FIVE, r, ProposeBatch);
      && o.sent == {PROPOSAL1}
      && o.r == r.(status := PROCESSING, pending := Pending([], map[1 := FIRST], map[1 := [REQUEST]]),
                   chain := r.chain.(sequence := 1, curHash := FIRST, awaitingCopy := {1}))
  {
  }

  lemma LeaderVotesFirst(r: Replica)
    requires r.id == 0 && r.view == 0 && r.leader && r.status == PROCESSING
    requires r.chain.sequence == 1 && r.chain.curBlock == ZERO_BLOCK
    ensures Handle(FIVE, r, Deliver(PROPOSAL1)) == Out(r, {SignedVote(0, 0, 0, 1, FIRST)})
  {
  }

  lemma VotesFirst(z: int)
    requires 0 < z < 5
    ensures Handle(FIVE, Fresh(FIVE, z), Deliver(PROPOSAL1)) ==
            Out(Voted1(Fresh(FIVE, z)), {SignedVote(z, 0, 0, 1, FIRST)})
  {
  }

  lemma Begin() returns (reps: seq<Replica>, net: set<Msg>)
    ensures At(reps, net) && forall z :: 0 <= z < 5 ==> reps[z] == Fresh(FIVE, z)
  {
    var run, s := Start(ENV);
    reps, net := s.reps, {};
    assert Reached(run, [], reps, net);
  }

  lemma FirstIsProposed() returns (reps: seq<Replica>, net: set<Msg>)
    ensures At(reps, net) && reps[1] == Voted1(Fresh(FIVE, 1)) && reps[2] == Voted1(Fresh(FIVE, 2))
    ensures reps[3] == Fresh(FIVE, 3) && reps[4] == Fresh(FIVE, 4)
    ensures {SignedVote(0, 0, 0, 1, FIRST), SignedVote(1, 0, 0, 1, FIRST), SignedVote(2, 0, 0, 1, FIRST)} <= net
    ensures reps[0] == Fresh(FIVE, 0).(
                         status := PROCESSING, pending := Pending([], map[1 := FIRST], map[1 := [REQUEST]]),
                         chain := Fresh(FIVE, 0).chain.(sequence := 1, curHash := FIRST, awaitingCopy := {1}))
  {
    reps, net := Begin();
    reps, net := Go(reps, net, 0, ClientRequests([REQUEST]));
    assert [] + [REQUEST] == [REQUEST];
    ProposesFirst(reps[0]);
    reps, net := Go(reps, net, 0, ProposeBatch);
    LeaderVotesFirst(reps[0]);
    reps, net := Go(reps, net, 0, Deliver(PROPOSAL1));
    VotesFirst(1);
    reps, net := Go(reps, net, 1, Deliver(PROPOSAL1));
    VotesFirst(2);
    reps, net := Go(reps, net, 2, Deliver(PROPOSAL1));
  }

  lemma ViewZero() returns (reps: seq<Replica>, net: set<Msg>, b: QCBlock)
    ensures At(reps, net) && FirstBlock(b) && OnBlock(reps[0], b)
    ensures reps[1] == Voted1(Fresh(FIVE, 1)) && reps[2] == Voted1(Fresh(FIVE, 2))
    ensures reps[3] == Fresh(FIVE, 3) && reps[4] == Fresh(FIVE, 4)
    ensures forall z :: z in OTHERS ==> Follows(reps[z], z, 0)
  {
    reps, net := FirstIsProposed();
    reps := CountThree(reps, net, 0, 0, 1, FIRST, 0, 1, 2);
    b := reps[0].chain.curBlock;
  }

  // ----- view 1: replica 1 proposes the second block -----

  function SecondProposal(p: int, v: int, b: QCBlock): Msg {
    Proposal(p, v, 2, SECOND, b, [REQUEST])
  }

  /** Leader p of view v, on the first block, before it proposed or saw any proposal on it. */
  predicate ReadyToPropose(r: Replica, p: int, v: int, b: QCBlock) {
    && r.id == p && r.view == v && r.leader && v % 5 == p && r.status == READY && v in r.spawned.monitors
    && FirstBlock(b) && r.chain.curBlock == b && r.chain.sequence == 1 && r.chain.curHash == NoHash
    && r.pending.queue == []
  }

  lemma ProposesSecond(r: Replica, p: int, v: int, b: QCBlock)
    requires ReadyToPropose(r.(pending := r.pending.(queue := [])), p, v, b) && r.pending.queue == [REQUEST]
    ensures var o := Handle(FIVE, r, ProposeBatch);
      && o.sent == {SecondProposal(p, v, b)}
      && o.r == r.(status := PROCESSING,
                   chain := r.chain.(sequence := 2, curHash := SECOND, awaitingCopy := r.chain.awaitingCopy + {2}),
                   pending := Pending([], r.pending.awaiting[2 := SECOND], r.pending.awaitingTxs[2 := [REQUEST]]))
  {
  }

  lemma ProposeSecond(reps: seq<Replica>, net: set<Msg>, p: int, v: int, b: QCBlock)
    returns (reps': seq<Replica>, net': set<Msg>)
    requires At(reps, net) && 0 <= p < 5 && ReadyToPropose(reps[p], p, v, b)
    ensures At(reps', net') && Unmoved(reps, reps', [p]) && net <= net' && SecondProposal(p, v, b) in net'
    ensures var r := reps[p];
      reps'[p] == r.(status := PROCESSING,
                     chain := r.chain.(sequence := 2, curHash := SECOND, awaitingCopy := r.chain.awaitingCopy + {2}),
                     pending := Pending([], r.pending.awaiting[2 := SECOND], r.pending.awaitingTxs[2 := [REQUEST]]))
  {
    assert [] + [REQUEST] == [REQUEST];
    reps', net' := Go(reps, net, p, ClientRequests([REQUEST]));
    ProposesSecond(reps'[p], p, v, b);
    reps', net' := Go(reps', net', p, ProposeBatch);
  }

  /** Replica 2 has seen no block, only voted for the first proposal. */
  ghost predicate Backward(r: Replica) {
    && r.chain == Voted1(Fresh(FIVE, 2)).chain && r.pending.queue == []
    && ViewCert(7) !in r.prepared && SendersOf(r.vcs, 7) == {}
  }

  lemma LedByOne(r0: Replica, r: Replica, r': Replica, b: QCBlock)
    requires r0 == Voted1(Fresh(FIVE, 1)) && Entered(r0, r, 1) && FirstBlock(b)
    requires Leads(r, r', 1, b, ZERO_BLOCK, ZERO_BLOCK)
    ensures ReadyToPropose(r', 1, 1, b) && r'.chain.lockedBlock == ZERO_BLOCK && r'.votes == EMPTY_VOTES
    ensures BlockCert(SECOND) !in r'.prepared && BlockCert(THIRD) !in r'.prepared
    ensures ViewCert(6) !in r'.prepared && SendersOf(r'.vcs, 6) == {} && r'.pending.awaiting == map[]
  {
  }

  lemma ViewOne() returns (reps: seq<Replica>, net: set<Msg>, b: QCBlock)
    ensures At(reps, net) && FirstBlock(b) && OnBlock(reps[0], b) && Backward(reps[2])
    ensures ReadyToPropose(reps[1], 1, 1, b) && reps[1].chain.lockedBlock == ZERO_BLOCK && reps[1].votes == EMPTY_VOTES
    ensures BlockCert(SECOND) !in reps[1].prepared && BlockCert(THIRD) !in reps[1].prepared
    ensures ViewCert(6) !in reps[1].prepared && SendersOf(reps[1].vcs, 6) == {} && reps[1].pending.awaiting == map[]
    ensures reps[3].chain == Fresh(FIVE, 3).chain && reps[4].chain == Fresh(FIVE, 4).chain
    ensures forall z :: z in OTHERS ==> Follows(reps[z], z, 1)
  {
    reps, net, b := ViewZero();
    var zero := reps;
    reps, net := AllTurn(reps, net, 0);
    var before := reps[1];
    assert Announced(net, zero[0], 1) && Announced(net, zero[2], 1) && Announced(net, zero[3], 1);
    reps := Lead(reps, net, 1, ViewChange(0, 1, 1, b), ViewChange(2, 1, 1, ZERO_BLOCK),
        ViewChange(3, 1, 1, ZERO_BLOCK), 1);
    LedByOne(zero[1], before, reps[1], b);
  }

  /** A follower with nothing locked votes for replica 1's proposal on the first block. */
  lemma FollowerVotes(r: Replica, z: int, v: int, num: int, h: Digest, b: QCBlock, ops: seq<Bytes>)
    requires Follows(r, z, v) && v % 5 == 1 && z != 1 && r.chain.lockedBlock == ZERO_BLOCK && FirstBlock(b)
    requires r.chain.curBlock == ZERO_BLOCK || r.chain.curBlock == b
    ensures var o := Handle(FIVE, r, Deliver(Proposal(1, v, num, h, b, ops)));
      o.sent == {SignedVote(z, 1, v, num, h)} && o.r == r.(chain := o.r.chain) && OnBlock(o.r, b) && Follows(o.r, z, v)
  {
  }

  lemma FollowerVotesAt(reps: seq<Replica>, net: set<Msg>, z: int, v: int, num: int, h: Digest, b: QCBlock,
          ops: seq<Bytes>)
    returns (reps': seq<Replica>, net': set<Msg>)
    requires At(reps, net) && 0 <= z < 5 && Proposal(1, v, num, h, b, ops) in net
    requires Follows(reps[z], z, v) && v % 5 == 1 && z != 1 && reps[z].chain.lockedBlock == ZERO_BLOCK && FirstBlock(b)
    requires reps[z].chain.curBlock == ZERO_BLOCK || reps[z].chain.curBlock == b
    ensures At(reps', net') && Unmoved(reps, reps', [z]) && net <= net' && SignedVote(z, 1, v, num, h) in net'
    ensures OnBlock(reps'[z], b) && Follows(reps'[z], z, v) && reps'[z] == reps[z].(chain := reps'[z].chain)
  {
    FollowerVotes(reps[z], z, v, num, h, b, ops);
    reps', net' := Go(reps, net, z, Deliver(Proposal(1, v, num, h, b, ops)));
  }

  /** Replica 1 holds two votes, of replicas 3 and 4, for its proposal of view 1. */
  ghost predicate Waits(r: Replica, b: QCBlock) {
    && r.id == 1 && OnBlock(r, b) && r.chain.sequence == 2 && r.chain.curHash == SECOND && r.chain.awaitingCopy != {}
    && Votes(r.votes, SECOND, [3, 4]) && Votes(r.votes, THIRD, []) && r.pending.queue == []
    && BlockCert(SECOND) !in r.prepared && BlockCert(THIRD) !in r.prepared
  }

  ghost predicate NotLedSix(r: Replica) {
    ViewCert(6) !in r.prepared && SendersOf(r.vcs, 6) == {}
  }

  /** The states of the others while replica 1 waits. */
  ghost predicate OthersAt(reps: seq<Replica>, v: int, b: QCBlock) {
    && |reps| == 5 && FirstBlock(b) && OnBlock(reps[0], b) && OnBlock(reps[3], b) && OnBlock(reps[4], b)
    && Backward(reps[2]) && forall z :: z in OTHERS ==> Follows(reps[z], z, v)
  }

  lemma SecondIsVotedFor(reps: seq<Replica>, net: set<Msg>, b: QCBlock) returns (reps': seq<Replica>, net': set<Msg>)
    requires At(reps, net) && SecondProposal(1, 1, b) in net && FirstBlock(b) && OnBlock(reps[0], b) &&
        Backward(reps[2])
    requires reps[3].chain == Fresh(FIVE, 3).chain && reps[4].chain == Fresh(FIVE, 4).chain
    requires forall z :: z in OTHERS ==> Follows(reps[z], z, 1)
    ensures At(reps', net') && Unmoved(reps, reps', [3, 4]) && net <= net' && OthersAt(reps', 1, b)
    ensures SignedVote(3, 1, 1, 2, SECOND) in net' && SignedVote(4, 1, 1, 2, SECOND) in net'
  {
    reps', net' := FollowerVotesAt(reps, net, 3, 1, 2, SECOND, b, [REQUEST]);
    reps', net' := FollowerVotesAt(reps', net', 4, 1, 2, SECOND, b, [REQUEST]);
  }

  lemma TwoVotesCount(reps: seq<Replica>, net: set<Msg>) returns (reps': seq<Replica>)
    requires At(reps, net) && CountsFor(reps[1], 1, 2, SECOND) && reps[1].votes == EMPTY_VOTES
    requires SignedVote(3, 1, 1, 2, SECOND) in net && SignedVote(4, 1, 1, 2, SECOND) in net
    ensures At(reps', net) && Unmoved(reps, reps', [1]) && reps'[1] == reps[1].(votes := reps'[1].votes)
    ensures Votes(reps'[1].votes, SECOND, [3, 4]) && Votes(reps'[1].votes, THIRD, [])
  {
    assert [] + [3] == [3] && [3] + [4] == [3, 4] && Votes(EMPTY_VOTES, THIRD, []);
    reps' := CountVote(reps, net, 1, 3, 1, 2, SECOND, []);
    reps' := CountVote(reps', net, 1, 4, 1, 2, SECOND, [3]);
  }

  lemma SecondIsProposed() returns (reps: seq<Replica>, net: set<Msg>, b: QCBlock)
    ensures At(reps, net) && OthersAt(reps, 1, b) && Waits(reps[1], b) && NotLedSix(reps[1])
    ensures reps[1].view == 1 && Active(reps[1])
    ensures SecondProposal(1, 1, b) in net && SignedVote(3, 1, 1, 2, SECOND) in net
  {
    reps, net, b := ViewOne();
    reps, net := ProposeSecond(reps, net, 1, 1, b);
    reps, net := SecondIsVotedFor(reps, net, b);
    reps := TwoVotesCount(reps, net);
  }

  // ----- view 6: replica 1 certifies a third block -----

  /** Replica 1 leads view 6. */
  ghost predicate LeadsSix(r: Replica) {
    r.id == 1 && r.view == 6 && r.leader && 6 in r.spawned.monitors
  }

  lemma StillWaits(r: Replica, r': Replica, r'': Replica, b: QCBlock)
    requires Waits(r, b) && Entered(r, r', 6) && FirstBlock(b) && Leads(r', r'', 6, b, b, b)
    ensures Waits(r'', b) && LeadsSix(r'') && r''.status == READY && r''.pending.awaiting == map[]
  {
  }

  lemma OthersDrift(reps: seq<Replica>, reps': seq<Replica>, v: int, v': int, b: QCBlock)
    requires |reps'| == 5 && OthersAt(reps, v, b)
    requires forall z :: z in OTHERS ==> Follows(reps'[z], z, v') && Drifted(reps[z], reps'[z])
    ensures OthersAt(reps', v', b)
  {
    assert 0 in OTHERS && 2 in OTHERS && 3 in OTHERS && 4 in OTHERS;
  }

  lemma ViewFive() returns (reps: seq<Replica>, net: set<Msg>, b: QCBlock)
    ensures At(reps, net) && OthersAt(reps, 5, b) && Waits(reps[1], b) && NotLedSix(reps[1])
    ensures reps[1].view == 1 && Active(reps[1])
    ensures SecondProposal(1, 1, b) in net && SignedVote(3, 1, 1, 2, SECOND) in net
  {
    reps, net, b := SecondIsProposed();
    var one := reps;
    reps, net := Turns(reps, net, 5);
    OthersDrift(one, reps, 1, 5, b);
  }

  lemma SixIsEntered() returns (reps: seq<Replica>, net: set<Msg>, b: QCBlock, r: Replica)
    ensures At(reps, net) && OthersAt(reps, 6, b) && Waits(r, b) && NotLedSix(r) && Entered(r, reps[1], 6)
    ensures ViewChange(0, 1, 6, b) in net && ViewChange(3, 1, 6, b) in net && ViewChange(4, 1, 6, b) in net
    ensures SecondProposal(1, 1, b) in net && SignedVote(3, 1, 1, 2, SECOND) in net
  {
    reps, net, b := ViewFive();
    r := reps[1];
    var five := reps;
    reps, net := AllTurn(reps, net, 5);
    OthersDrift(five, reps, 5, 6, b);
    assert Announced(net, five[0], 6) && Announced(net, five[3], 6) && Announced(net, five[4], 6);
  }

  lemma ViewSix() returns (reps: seq<Replica>, net: set<Msg>, b: QCBlock)
    ensures At(reps, net) && OthersAt(reps, 6, b) && Waits(reps[1], b) && LeadsSix(reps[1])
    ensures reps[1].status == READY && reps[1].pending.awaiting == map[]
    ensures SecondProposal(1, 1, b) in net && SignedVote(3, 1, 1, 2, SECOND) in net
  {
    var r;
    reps, net, b, r := SixIsEntered();
    var before := reps[1];
    reps := Lead(reps, net, 1, ViewChange(0, 1, 6, b), ViewChange(3, 1, 6, b), ViewChange(4, 1, 6, b), 6);
    StillWaits(r, before, reps[1], b);
  }

  /** A proposal of replica 1 in view 6, on its current block and without requests. */
  function SixthView(num: int, h: Digest, b: QCBlock): Msg {
    Proposal(1, 6, num, h, b, [])
  }

  function NextHash(r: Replica): Digest {
    Chained(r.chain.curHash, r.chain.sequence + 1, Join([]))
  }

  predicate CanProposeSix(r: Replica) {
    && r.status == READY && r.pending.queue == [] && r.chain.awaitingCopy != {}
    && r.chain.sequence >= 2 && r.chain.curBlock.height >= 1
  }

  function Proposed(r: Replica): Replica {
    var num, h := r.chain.sequence + 1, NextHash(r);
    r.(status := PROCESSING,
       chain := r.chain.(sequence := num, curHash := h, awaitingCopy := r.chain.awaitingCopy + {num}),
       pending := Pending([], r.pending.awaiting[num := h], r.pending.awaitingTxs[num := []]))
  }

  lemma ProposesSix(r: Replica)
    requires LeadsSix(r) && CanProposeSix(r)
    ensures Handle(FIVE, r, ProposeBatch) ==
            Out(Proposed(r), {SixthView(r.chain.sequence + 1, NextHash(r), r.chain.curBlock)})
  {
  }

  lemma VotesForOwn(r: Replica, num: int, h: Digest, b: QCBlock)
    requires LeadsSix(r) && r.status == PROCESSING && FirstBlock(b) && r.chain.lockedBlock == ZERO_BLOCK
    requires 2 <= num <= 3 && r.chain.sequence >= num
    ensures Handle(FIVE, r, Deliver(SixthView(num, h, b))) == Out(r, {SignedVote(1, 1, 6, num, h)})
  {
  }

  lemma ThirdIsProposed() returns (reps: seq<Replica>, net: set<Msg>, b: QCBlock, r: Replica)
    ensures At(reps, net) && OthersAt(reps, 6, b) && Waits(r, b) && LeadsSix(r) && r.status == READY
    ensures r.pending.awaiting == map[] && reps[1] == Proposed(r) && SixthView(3, THIRD, b) in net
    ensures SecondProposal(1, 1, b) in net && SignedVote(3, 1, 1, 2, SECOND) in net
  {
    reps, net, b := ViewSix();
    r := reps[1];
    ProposesSix(r);
    reps, net := Go(reps, net, 1, ProposeBatch);
  }

  lemma OthersVote(reps: seq<Replica>, net: set<Msg>, b: QCBlock) returns (reps': seq<Replica>, net': set<Msg>)
    requires At(reps, net) && OthersAt(reps, 6, b) && SixthView(3, THIRD, b) in net
    ensures At(reps', net') && OthersAt(reps', 6, b) && reps'[1] == reps[1] && net <= net'
    ensures SignedVote(0, 1, 6, 3, THIRD) in net' && SignedVote(3, 1, 6, 3, THIRD) in net'
  {
    assert 0 in OTHERS && 3 in OTHERS;
    reps', net' := FollowerVotesAt(reps, net, 0, 6, 3, THIRD, b, []);
    reps', net' := FollowerVotesAt(reps', net', 3, 6, 3, THIRD, b, []);
  }

  lemma ThirdIsVotedFor() returns (reps: seq<Replica>, net: set<Msg>, b: QCBlock, r: Replica)
    ensures At(reps, net) && OthersAt(reps, 6, b) && Waits(r, b) && LeadsSix(r) && r.status == READY
    ensures r.pending.awaiting == map[] && reps[1] == Proposed(r)
    ensures {SignedVote(1, 1, 6, 3, THIRD), SignedVote(0, 1, 6, 3, THIRD), SignedVote(3, 1, 6, 3, THIRD)} <= net
    ensures SecondProposal(1, 1, b) in net && SignedVote(3, 1, 1, 2, SECOND) in net
  {
    reps, net, b, r := ThirdIsProposed();
    VotesForOwn(reps[1], 3, THIRD, b);
    var before := reps;
    reps, net := Go(reps, net, 1, Deliver(SixthView(3, THIRD, b)));
    assert reps == before;
    reps, net := OthersVote(reps, net, b);
  }

  /** The third block, certified in view 6 on the first. */
  predicate ThirdBlock(b: QCBlock) {
    b.hash == THIRD && b.height == 2 && b.view == 6 && |b.qc| == |b.ids| == 3
  }

  /** Replica 1 holds the third block and still two votes for the second. */
  ghost predicate HoldsThird(r: Replica, b: QCBlock) {
    && LeadsSix(r) && ThirdBlock(b) && OnBlock(r, b) && r.pending.queue == [] && r.chain.awaitingCopy != {}
    && Votes(r.votes, SECOND, [3, 4]) && BlockCert(SECOND) !in r.prepared && 2 !in r.pending.awaiting
  }

  lemma CountsThird(r: Replica, b: QCBlock)
    requires Waits(r, b) && LeadsSix(r)
    ensures CountsFor(Proposed(r), 6, 3, THIRD) && Votes(Proposed(r).votes, THIRD, [])
  {
  }

  lemma ThirdIsHeld(r: Replica, r': Replica, b: QCBlock)
    requires Waits(r, b) && LeadsSix(r) && r.pending.awaiting == map[] && FirstBlock(b)
    requires Certificated(Proposed(r), r', THIRD)
    ensures HoldsThird(r', r'.chain.curBlock) && r'.status == READY && r'.chain.sequence == 3
  {
  }

  lemma ThirdIsCertified() returns (reps: seq<Replica>, net: set<Msg>, b: QCBlock, b': QCBlock)
    ensures At(reps, net) && OthersAt(reps, 6, b) && HoldsThird(reps[1], b')
    ensures reps[1].status == READY && reps[1].chain.sequence == 3
    ensures SecondProposal(1, 1, b) in net && SignedVote(3, 1, 1, 2, SECOND) in net
  {
    var r;
    reps, net, b, r := ThirdIsVotedFor();
    CountsThird(r, b);
    reps := CountThree(reps, net, 1, 6, 3, THIRD, 1, 0, 3);
    b' := reps[1].chain.curBlock;
    ThirdIsHeld(r, reps[1], b);
  }

  /** Replica 0 of view 6 holds block b and has locked one of height h. */
  predicate ZeroAt(r: Replica, b: QCBlock, h: int) {
    r.id == 0 && r.view == 6 && r.status == READY && !r.leader && r.chain.curBlock == b &&
        r.chain.lockedBlock.height == h
  }

  lemma ZeroLocks(r: Replica, b: QCBlock, h: int, num: int, g: Digest, b': QCBlock)
    requires ZeroAt(r, b, h) && |b'.qc| == |b'.ids| == 3 && b'.height == b.height + 1 >= 2 && h <= b.height
    ensures ZeroAt(Handle(FIVE, r, Deliver(SixthView(num, g, b'))).r, b', b.height)
    ensures Handle(FIVE, r, Deliver(SixthView(num, g, b'))).r.chain.lockedBlock == b
  {
  }

  lemma EachAtSix(reps: seq<Replica>, b: QCBlock)
    requires OthersAt(reps, 6, b)
    ensures ZeroAt(reps[0], b, 0) && Backward(reps[2]) && OnBlock(reps[3], b) && OnBlock(reps[4], b)
    ensures forall z :: z in [2, 3, 4] ==> Follows(reps[z], z, 6)
  {
    assert forall z :: z in [0, 2, 3, 4] ==> z in OTHERS;
    assert Follows(reps[0], 0, 6);
  }

  lemma FourthIsProposed() returns (reps: seq<Replica>, net: set<Msg>, b: QCBlock, b': QCBlock)
    ensures At(reps, net) && FirstBlock(b) && ZeroAt(reps[0], b', 1) && HoldsThird(reps[1], b')
    ensures reps[1].status == PROCESSING && reps[1].chain.sequence == 4 && Backward(reps[2])
    ensures OnBlock(reps[3], b) && OnBlock(reps[4], b) && forall z :: z in [2, 3, 4] ==> Follows(reps[z], z, 6)
    ensures SecondProposal(1, 1, b) in net && SignedVote(3, 1, 1, 2, SECOND) in net
  {
    reps, net, b, b' := ThirdIsCertified();
    EachAtSix(reps, b);
    reps, net := ProposesToZero(reps, net, b, b', 0);
  }

  /** Replica 1 proposes on its block, and replica 0, one below, locks what it held. */
  lemma ProposesToZero(reps: seq<Replica>, net: set<Msg>, b: QCBlock, b': QCBlock, h: int)
    returns (reps': seq<Replica>, net': set<Msg>)
    requires At(reps, net) && LeadsSix(reps[1]) && CanProposeSix(reps[1]) && reps[1].chain.curBlock == b'
    requires ZeroAt(reps[0], b, h) && |b'.qc| == |b'.ids| == 3 && b'.height == b.height + 1 >= 2 && h <= b.height
    ensures At(reps', net') && Unmoved(reps, reps', [0, 1]) && net <= net'
    ensures reps'[1] == Proposed(reps[1]) && ZeroAt(reps'[0], b', b.height)
  {
    var r := reps[1];
    ProposesSix(r);
    reps', net' := Go(reps, net, 1, ProposeBatch);
    var num, g := r.chain.sequence + 1, NextHash(r);
    ZeroLocks(reps[0], b, h, num, g, b');
    reps', net' := Go(reps', net', 0, Deliver(SixthView(num, g, b')));
  }

  // ----- view 7: replica 2 proposes the second block again -----

  lemma LedByTwo(r: Replica, r': Replica, r'': Replica, b: QCBlock)
    requires Backward(r) && Drifted(r, r') && Follows(r', 2, 7) && FirstBlock(b)
    requires Leads(r', r'', 7, ZERO_BLOCK, b, b)
    ensures r''.pending.queue == [] && ReadyToPropose(r'', 2, 7, b) && ViewCert(7) in r''.prepared
  {
  }

  lemma SevenIsEntered() returns (reps: seq<Replica>, net: set<Msg>, b: QCBlock, b': QCBlock, r: Replica)
    ensures At(reps, net) && FirstBlock(b) && ZeroAt(reps[0], b', 1) && HoldsThird(reps[1], b')
    ensures reps[1].status == PROCESSING && reps[1].chain.sequence == 4
    ensures Backward(r) && Drifted(r, reps[2]) && Follows(reps[2], 2, 7) && reps[2].status == VIEWCHANGE
    ensures ViewChange(2, 2, 7, ZERO_BLOCK) in net && ViewChange(3, 2, 7, b) in net && ViewChange(4, 2, 7, b) in net
    ensures SecondProposal(1, 1, b) in net && SignedVote(3, 1, 1, 2, SECOND) in net
  {
    var t;
    reps, net, b, b' := FourthIsProposed();
    var six := reps;
    r := reps[2];
    reps, net, t := Turn(reps, net, 2, 3, 4, [2, 3, 4], 6);
    assert Announced(net, six[2], 7) && Announced(net, six[3], 7) && Announced(net, six[4], 7);
  }

  /** Replica 2 leads view 7 on the first block and has proposed the second again. */
  lemma SecondIsRepeated() returns (reps: seq<Replica>, net: set<Msg>, b: QCBlock, b': QCBlock)
    ensures At(reps, net) && FirstBlock(b) && ZeroAt(reps[0], b', 1) && HoldsThird(reps[1], b')
    ensures reps[1].status == PROCESSING && reps[1].chain.sequence == 4
    ensures ViewCert(7) in reps[2].prepared && reps[2].chain.curBlock == b && SecondProposal(2, 7, b) in net
    ensures SecondProposal(1, 1, b) in net && SignedVote(3, 1, 1, 2, SECOND) in net
  {
    var r;
    reps, net, b, b', r := SevenIsEntered();
    var before := reps[2];
    reps := Lead(reps, net, 2, ViewChange(2, 2, 7, ZERO_BLOCK), ViewChange(3, 2, 7, b), ViewChange(4, 2, 7, b), 7);
    LedByTwo(r, before, reps[2], b);
    reps, net := ProposeSecond(reps, net, 2, 7, b);
  }

  // ----- replica 1 counts its own vote for the repeated proposal -----

  lemma VotesForRepeated(r: Replica, b: QCBlock, b': QCBlock)
    requires HoldsThird(r, b') && r.status == PROCESSING && r.chain.sequence == 4 && FirstBlock(b)
    ensures var o := Handle(FIVE, r, Deliver(SecondProposal(2, 7, b)));
      o.r == r && SignedVote(1, 1, 6, 2, SECOND) in o.sent
  {
  }

  lemma BeforeLastVote() returns (reps: seq<Replica>, net: set<Msg>, b: QCBlock, b': QCBlock)
    ensures At(reps, net) && FirstBlock(b) && ZeroAt(reps[0], b', 1) && HoldsThird(reps[1], b')
    ensures reps[1].status == PROCESSING && reps[1].chain.sequence == 4 && SignedVote(1, 1, 6, 2, SECOND) in net
    ensures ViewCert(7) in reps[2].prepared && reps[2].chain.curBlock == b
    ensures SecondProposal(1, 1, b) in net && SignedVote(3, 1, 1, 2, SECOND) in net
  {
    reps, net, b, b' := SecondIsRepeated();
    VotesForRepeated(reps[1], b, b');
    reps, net := Go(reps, net, 1, Deliver(SecondProposal(2, 7, b)));
  }

  /** The run behind a state, and one step more. */
  lemma LastStep(reps: seq<Replica>, net: set<Msg>, p: int, e: Event)
    returns (run: seq<Sys>, steps: seq<Step>, i: nat)
    requires At(reps, net) && 0 <= p < 5 && Enabled(Sys(reps, net, {}), p, e)
    requires !e.FallAsleep? && (e.Deliver? ==> !IsEcho(e.m))
    ensures CrashOnly(ENV) && IsRun(ENV, run, steps) && NoSleeps(steps) && |steps| == i + 1
    ensures run[i] == Sys(reps, net, {}) && steps[i] == Local(p, e)
    ensures run[i + 1] == After(ENV, run[i], p, e)
  {
    var run0, steps0 :| Reached(run0, steps0, reps, net);
    var s';
    i := |run0| - 1;
    run, steps, s' := ExtendBy(ENV, run0, steps0, Sys(reps, net, {}), p, e);
    assert run[i] == run0[i] && run[i + 1] == s' && steps[i] == Local(p, e);
  }

  /** In a run without sleeps in which every replica follows the code, the View of
      a certificate is not the view of its votes: the certificate of view 6
      counts the vote replica 3 cast for x in view 1. */
  lemma CertificateOutlivesItsView()
    returns (run: seq<Sys>, steps: seq<Step>, i: nat, c: QCBlock, x: Msg)
    ensures CrashOnly(ENV) && IsRun(ENV, run, steps) && NoSleeps(steps) && Certifies(ENV, run, steps, i, 1, c)
    ensures x in run[i].net && x.Proposal? && x.src == 1 && x.hash == c.hash && x.view == 1 && c.view == 6
    ensures 3 in c.ids && Voted(run[i].net, 3, x)
  {
    var reps, net, b, b' := BeforeLastVote();
    var own := SignedVote(1, 1, 6, 2, SECOND);
    CountsVote(reps[1], 1, 1, 6, 2, SECOND, [3, 4]);
    run, steps, i := LastStep(reps, net, 1, Deliver(own));
    c, x := run[i + 1].reps[1].chain.curBlock, SecondProposal(1, 1, b);
    assert SignedVote(3, 1, 1, 2, SECOND) in run[i].net;
    assert 3 in [3, 4] + [1];
  }

  /** Replica 1 proposes on the certificate of its old proposal. */
  lemma FifthIsProposed() returns (reps: seq<Replica>, net: set<Msg>, b: QCBlock, b': QCBlock, c: QCBlock, h: Digest)
    ensures At(reps, net) && FirstBlock(b) && ThirdBlock(b') && ZeroAt(reps[0], b', 1)
    ensures c.view == 6 && c.height == 3 && |c.qc| == |c.ids| == 3 && SixthView(5, h, c) in net
    ensures ViewCert(7) in reps[2].prepared && reps[2].chain.curBlock == b
  {
    reps, net, b, b' := BeforeLastVote();
    reps := CountVote(reps, net, 1, 1, 6, 2, SECOND, [3, 4]);
    c, h := reps[1].chain.curBlock, NextHash(reps[1]);
    assert |[3, 4] + [1]| == 3;
    ProposesSix(reps[1]);
    reps, net := Go(reps, net, 1, ProposeBatch);
  }

  /** The replica rejects every proposal but the first that carries b. */
  ghost predicate Rejects(r: Replica, b: QCBlock) {
    forall num, src :: num != 1 ==> !VerifyBlock(FIVE, r, num, src, b)
  }

  /** So a lock can block a new leader: by a certificate of view 6 replica 0 locks
      a block of height 2, while the leader that has its quorum for view 7 holds
      one of height 1, and replica 0 rejects every proposal on that. */
  lemma LockBlocksNewLeader() returns (run: seq<Sys>, steps: seq<Step>, a: nat)
    ensures CrashOnly(ENV) && IsRun(ENV, run, steps) && NoSleeps(steps)
    ensures LocksAt(ENV, run, steps, a, 0) && steps[a].e.m.qc.view < 7 && ViewCert(7) in run[a].reps[2].prepared
    ensures run[a].reps[2].chain.curBlock.height < run[a + 1].reps[0].chain.lockedBlock.height
    ensures Rejects(run[a + 1].reps[0], run[a].reps[2].chain.curBlock)
  {
    var reps, net, b, b', c, h := FifthIsProposed();
    ZeroLocks(reps[0], b', 1, 5, h, c);
    run, steps, a := LastStep(reps, net, 0, Deliver(SixthView(5, h, c)));
  }
}
