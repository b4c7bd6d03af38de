/** Runs without state loss in which every replica follows the code, though it
    may be slow or silent: where certificates come from, and what their voters
    hold afterwards. */
module Certs {
  import opened Messages
  import opened Quorums
  import opened Buffers
  import opened ReplicaSpec
  import opened System

  ghost predicate CrashOnly(env: Env) {
    env.byz == {} && VotesIntersect(env.c) && env.c.n >= 2
  }

  predicate Normal(m: Msg) {
    m.Proposal? || m.Vote? || m.Timeout? || m.TQC? || m.ViewChange?
  }

  /** A vote that completes a certificate. */
  ghost predicate Completes(c: Config, r: Replica, m: Msg) {
    && m.Vote? && Active(r) && OnVote(c, r, m).r.chain != r.chain
  }

  /** The vote completes a certificate at p for a proposal p made in an earlier view. */
  ghost predicate LateCertificate(c: Config, s: Sys, p: int, m: Msg)
    requires 0 <= p < |s.reps|
  {
    && Completes(c, s.reps[p], m)
    && exists own :: own in s.net && own.Proposal? && own.src == p && own.hash == m.hash && own.view < s.reps[p].view
  }

  /** Steps of the runs considered: nobody falls asleep, and no certificate is
      completed for a proposal of an earlier view. */
  ghost predicate Awake(c: Config, s: Sys, st: Step) {
    st.Local? && 0 <= st.p < |s.reps| ==>
      !st.e.FallAsleep? && (st.e.Deliver? ==> !LateCertificate(c, s, st.p, st.e.m))
  }

  // ----- what one event does -----

  ghost predicate ReplicaGrows(r: Replica, r': Replica) {
    && r'.id == r.id && Active(r') && r.view <= r'.view
    && r.chain.curBlock.height <= r'.chain.curBlock.height
    && r.chain.sequence <= r'.chain.sequence && r.prepared <= r'.prepared
  }

  ghost predicate Steady(c: Config, r: Replica) {
    && Active(r) && r.view >= 0 && r.leader == (LeaderID(c, r.view) == r.id)
    && r.chain.sequence >= r.chain.curBlock.height >= 0
  }

  ghost predicate NormalEvent(e: Event) {
    !e.FallAsleep? && (e.Deliver? ==> Normal(e.m))
  }

  /** A proposal's certified block lies below its sequence number. */
  ghost predicate OrderedEvent(e: Event) {
    e.Deliver? && e.m.Proposal? ==> 0 <= e.m.qc.height < e.m.num
  }

  lemma EventGrows(c: Config, r: Replica, e: Event)
    requires Steady(c, r) && NormalEvent(e)
    ensures ReplicaGrows(r, Handle(c, r, e).r)
    ensures Handle(c, r, e).r.leader == (LeaderID(c, Handle(c, r, e).r.view) == r.id)
  {
    match e {
      case Deliver(m) => ReceiveGrows(c, r, m);
      case _ =>
    }
  }

  ghost predicate GrowsTo(c: Config, r: Replica, r': Replica) {
    ReplicaGrows(r, r') && r'.leader == (LeaderID(c, r'.view) == r'.id)
  }

  lemma ProposalGrows(c: Config, r: Replica, m: Msg)
    requires Steady(c, r) && m.Proposal?
    ensures GrowsTo(c, r, OnProposal(c, r, m).r)
  {
  }

  lemma VoteGrows(c: Config, r: Replica, m: Msg)
    requires Steady(c, r) && m.Vote?
    ensures GrowsTo(c, r, OnVote(c, r, m).r)
  {
  }

  lemma TQCGrows(c: Config, r: Replica, m: Msg)
    requires Steady(c, r) && m.TQC?
    ensures GrowsTo(c, r, OnTQC(c, r, m).r)
  {
  }

  lemma ViewChangeGrows(c: Config, r: Replica, m: Msg)
    requires Steady(c, r) && m.ViewChange?
    ensures GrowsTo(c, r, OnViewChange(c, r, m).r)
  {
  }

  lemma ReceiveGrows(c: Config, r: Replica, m: Msg)
    requires Steady(c, r) && Normal(m)
    ensures GrowsTo(c, r, Dispatch(c, r, m).r)
  {
    if m.Proposal? {
      ProposalGrows(c, r, m);
    } else if m.Vote? {
      VoteGrows(c, r, m);
    } else if m.TQC? {
      TQCGrows(c, r, m);
    } else if m.ViewChange? {
      ViewChangeGrows(c, r, m);
    } else {
      assert Dispatch(c, r, m) == OnTimeout(c, r, m);
    }
  }

  ghost predicate ProposedBy(c: Config, r: Replica, e: Event, x: Msg) {
    && x.Proposal? && e.ProposeBatch? && CanPropose(c, r) && x.src == r.id && x.view == r.view
    && x.num == r.chain.sequence + 1 && x.hash.Chained? && x.hash.num == x.num
    && x.qc == FetchBlockInfo(r.chain, x.num)
  }

  ghost predicate VotedBy(r: Replica, e: Event, x: Msg) {
    && e.Deliver? && e.m.Proposal? && r.view <= e.m.view && r.status != VIEWCHANGE
    && x.Vote? && x == Vote(r.id, x.dst, r.view, e.m.num, e.m.hash, Signed(r.id, VoteOn(e.m.hash)))
    && ((x.dst == e.m.src && x.dst != r.id) || (x.dst == r.id && r.leader))
  }

  ghost predicate AnnouncedBy(c: Config, r: Replica, r': Replica, x: Msg) {
    r'.view >= 1 && x == ViewChange(r.id, LeaderID(c, r'.view), r'.view, r.chain.curBlock)
  }

  lemma SentKinds(c: Config, r: Replica, e: Event, x: Msg)
    requires Steady(c, r) && NormalEvent(e) && x in Handle(c, r, e).sent
    ensures Normal(x) && (x.src == r.id || (e.Deliver? && x == e.m))
    ensures x.Proposal? ==> ProposedBy(c, r, e, x)
    ensures x.Vote? ==> VotedBy(r, e, x)
    ensures x.ViewChange? ==> AnnouncedBy(c, r, Handle(c, r, e).r, x)
  {
  }

  /** Only these events touch the chain. */
  lemma QuietChain(c: Config, r: Replica, e: Event)
    requires Steady(c, r) && NormalEvent(e)
    requires !(e.Deliver? && (e.m.Proposal? || e.m.Vote? || e.m.ViewChange?)) && !e.ProposeBatch?
    ensures Handle(c, r, e).r.chain == r.chain
  {
  }

  lemma QuietVotes(c: Config, r: Replica, e: Event)
    requires Steady(c, r) && NormalEvent(e) && !(e.Deliver? && e.m.Vote?)
    ensures Handle(c, r, e).r.votes == r.votes
    ensures forall h :: BlockCert(h) in Handle(c, r, e).r.prepared <==> BlockCert(h) in r.prepared
  {
  }

  lemma QuietViewChanges(c: Config, r: Replica, e: Event)
    requires Steady(c, r) && NormalEvent(e) && !(e.Deliver? && e.m.ViewChange?)
    ensures Handle(c, r, e).r.vcs == r.vcs
    ensures forall v :: ViewCert(v) in Handle(c, r, e).r.prepared <==> ViewCert(v) in r.prepared
  {
  }

  /** Only these events touch the chain, the votes or the collected VIEWCHANGEs. */
  lemma QuietEvent(c: Config, r: Replica, e: Event)
    requires Steady(c, r) && NormalEvent(e)
    ensures var r' := Handle(c, r, e).r;
      && (!(e.Deliver? && (e.m.Proposal? || e.m.Vote? || e.m.ViewChange?)) && !e.ProposeBatch? ==> r'.chain == r.chain)
      && (!(e.Deliver? && e.m.Vote?) ==> r'.votes == r.votes)
      && (!(e.Deliver? && e.m.ViewChange?) ==> r'.vcs == r.vcs)
      && (!(e.Deliver? && e.m.Vote?) ==> forall h :: BlockCert(h) in r'.prepared <==> BlockCert(h) in r.prepared)
      && (!(e.Deliver? && e.m.ViewChange?) ==> forall v :: ViewCert(v) in r'.prepared <==> ViewCert(v) in r.prepared)
  {
    if !(e.Deliver? && (e.m.Proposal? || e.m.Vote? || e.m.ViewChange?)) && !e.ProposeBatch? {
      QuietChain(c, r, e);
    }
    if !(e.Deliver? && e.m.Vote?) {
      QuietVotes(c, r, e);
    }
    if !(e.Deliver? && e.m.ViewChange?) {
      QuietViewChanges(c, r, e);
    }
  }

  // ----- the invariant -----

  ghost predicate Roster(c: Config, s: Sys) {
    && |s.reps| == c.n
    && (forall p :: 0 <= p < c.n ==> s.reps[p].id == p && Steady(c, s.reps[p]))
    && (forall m :: m in s.net ==> Normal(m) && 0 <= m.src < c.n)
  }

  ghost predicate Grows(c: Config, s: Sys, s': Sys) {
    && |s.reps| == |s'.reps| == c.n && s.net <= s'.net
    && (forall p :: 0 <= p < c.n ==> ReplicaGrows(s.reps[p], s'.reps[p]))
    && (forall m :: m in s'.net && m !in s.net && m.ViewChange? ==>
          0 <= m.src < c.n && m.block == s.reps[m.src].chain.curBlock)
  }

  ghost predicate ProposalOk(c: Config, s: Sys, m: Msg)
    requires |s.reps| == c.n && m.Proposal? && 0 <= m.src < c.n
  {
    var r := s.reps[m.src];
    && 0 <= m.view <= r.view && LeaderID(c, m.view) == m.src
    && m.num <= r.chain.sequence && m.hash.Chained? && m.hash.num == m.num
    && (m.view >= 1 ==> ViewCert(m.view) in r.prepared)
    && 0 <= m.qc.height < m.num && m.qc.height <= r.chain.curBlock.height
  }

  ghost predicate ProposalsOk(c: Config, s: Sys)
    requires Roster(c, s)
  {
    && (forall m :: m in s.net && m.Proposal? ==> ProposalOk(c, s, m))
    && (forall m, x :: m in s.net && x in s.net && m.Proposal? && x.Proposal? && m.src == x.src && m.num == x.num ==>
        m == x)
  }

  ghost predicate ViewsReady(c: Config, r: Replica) {
    && (forall v :: ViewCert(v) in r.prepared ==> v <= r.view && |SendersOf(r.vcs, v)| >= c.quorum)
    && (r.leader && r.view >= 1 && r.status != VIEWCHANGE ==> ViewCert(r.view) in r.prepared)
  }

  /** A proposal of its sender's current view without a certificate. */
  ghost predicate Outstanding(c: Config, s: Sys, m: Msg)
    requires Roster(c, s)
  {
    m in s.net && m.Proposal? && m.view == s.reps[m.src].view && BlockCert(m.hash) !in s.reps[m.src].prepared
  }

  ghost predicate OneOutstanding(c: Config, s: Sys)
    requires Roster(c, s)
  {
    && (forall m :: Outstanding(c, s, m) ==>
          s.reps[m.src].status != READY && m.qc.height == s.reps[m.src].chain.curBlock.height)
    && (forall m, x :: Outstanding(c, s, m) && Outstanding(c, s, x) && m.src == x.src ==> m == x)
  }

  /** Replica q holds height h, and said so in every VIEWCHANGE above view u. */
  ghost predicate Holds(s: Sys, q: int, u: int, h: int) {
    && 0 <= q < |s.reps| && s.reps[q].chain.curBlock.height >= h
    && (forall m :: m in s.net && m.ViewChange? && m.src == q && m.view > u ==> m.block.height >= h)
  }

  ghost predicate ProposedFor(net: set<Msg>, x: Msg, vote: Msg) {
    && x in net && x.Proposal? && vote.Vote?
    && x.src == vote.dst && x.hash == vote.hash && x.num == vote.num && x.view >= vote.view
  }

  ghost predicate VoteOk(c: Config, s: Sys, m: Msg)
    requires Roster(c, s) && m.Vote? && 0 <= m.src < c.n
  {
    && 0 <= m.dst < c.n && m.view <= s.reps[m.src].view
    && (m.dst != m.src ==> exists x :: ProposedFor(s.net, x, m))
    && (m.dst != m.src ==>
          forall x :: x in s.net && x.Proposal? && x.src == m.dst && x.hash == m.hash && x.view == m.view ==>
            Holds(s, m.src, m.view, x.qc.height))
  }

  ghost predicate VotesOk(c: Config, s: Sys)
    requires Roster(c, s)
  {
    forall m :: m in s.net && m.Vote? ==> VoteOk(c, s, m)
  }

  /** Replica q voted for proposal x while in the view of x. */
  ghost predicate Voted(net: set<Msg>, q: int, x: Msg) {
    && x.Proposal?
    && exists m :: m in net && m.Vote? && m.src == q && m.dst == x.src && m.hash == x.hash && m.view == x.view
  }

  ghost predicate CertFor(s: Sys, b: QCBlock, x: Msg) {
    && x in s.net && x.Proposal? && x.hash == b.hash && x.view == b.view && b.height == x.qc.height + 1
    && (forall q :: q in b.ids && q != x.src ==> Voted(s.net, q, x))
    && Holds(s, x.src, b.view, b.height)
  }

  /** A block certified by a full quorum of distinct voters for one proposal. */
  ghost predicate CertOk(c: Config, s: Sys, b: QCBlock) {
    && b.hash != NoHash && b.height >= 1
    && |b.qc| == |b.ids| == c.quorum && Distinct(b.ids) && Elements(b.ids) <= Ids(c.n)
    && exists x :: CertFor(s, b, x)
  }

  ghost predicate BlockOk(c: Config, s: Sys, b: QCBlock) {
    b == ZERO_BLOCK || CertOk(c, s, b)
  }

  ghost predicate BlocksOk(c: Config, s: Sys)
    requires Roster(c, s)
  {
    && (forall p :: 0 <= p < c.n ==> BlockOk(c, s, s.reps[p].chain.curBlock))
    && (forall m :: m in s.net && m.Proposal? ==> BlockOk(c, s, m.qc))
    && (forall m :: m in s.net && m.ViewChange? ==> BlockOk(c, s, m.block))
  }

  ghost predicate ViewChangesOk(c: Config, s: Sys)
    requires Roster(c, s)
  {
    forall m :: m in s.net && m.ViewChange? ==>
      1 <= m.view <= s.reps[m.src].view && m.block.height <= s.reps[m.src].chain.curBlock.height
  }

  /** q's VIEWCHANGE for view v was adopted by a replica now at height h or more. */
  ghost predicate Reported(net: set<Msg>, q: int, v: int, h: int) {
    exists m :: m in net && m.ViewChange? && m.src == q && m.view == v && m.block.height <= h
  }

  ghost predicate CollectedOk(c: Config, s: Sys)
    requires Roster(c, s)
  {
    forall p, v, q :: 0 <= p < c.n && q in SendersOf(s.reps[p].vcs, v) ==>
      0 <= q < c.n && Reported(s.net, q, v, s.reps[p].chain.curBlock.height)
  }

  ghost predicate VotedOwn(net: set<Msg>, p: int, h: Digest, q: int, x: Msg) {
    x in net && x.Proposal? && x.src == p && x.hash == h && Voted(net, q, x)
  }

  ghost predicate BookOk(c: Config, s: Sys, p: int)
    requires Roster(c, s) && 0 <= p < c.n
  {
    var r := s.reps[p];
    && Mirrors(r.votes)
    && (forall h, q :: q in VotersOf(r.votes, h) ==>
          0 <= q < c.n && (q != p ==> exists x :: VotedOwn(s.net, p, h, q, x)))
    && (forall h :: BlockCert(h) !in r.prepared ==> |VotersOf(r.votes, h)| < c.quorum)
  }

  ghost predicate CertInv(c: Config, s: Sys) {
    && Roster(c, s) && ProposalsOk(c, s)
    && (forall p :: 0 <= p < c.n ==> ViewsReady(c, s.reps[p]))
    && OneOutstanding(c, s) && VotesOk(c, s) && BlocksOk(c, s) && ViewChangesOk(c, s) && CollectedOk(c, s)
    && (forall p :: 0 <= p < c.n ==> BookOk(c, s, p))
  }

  // ----- facts that only grow -----

  lemma HoldsMono(c: Config, s: Sys, s': Sys, q: int, u: int, h: int)
    requires Grows(c, s, s') && Holds(s, q, u, h)
    ensures Holds(s', q, u, h)
  {
  }

  lemma VotedMono(net: set<Msg>, net': set<Msg>, q: int, x: Msg)
    requires net <= net' && Voted(net, q, x)
    ensures Voted(net', q, x)
  {
    var m :| m in net && m.Vote? && m.src == q && m.dst == x.src && m.hash == x.hash && m.view == x.view;
    assert m in net';
  }

  lemma CertMono(c: Config, s: Sys, s': Sys, b: QCBlock)
    requires Grows(c, s, s') && BlockOk(c, s, b)
    ensures BlockOk(c, s', b)
  {
    if b != ZERO_BLOCK {
      var x :| CertFor(s, b, x);
      forall q | q in b.ids && q != x.src ensures Voted(s'.net, q, x) {
        VotedMono(s.net, s'.net, q, x);
      }
      HoldsMono(c, s, s', x.src, b.view, b.height);
      assert CertFor(s', b, x);
    }
  }

  lemma Remainder(x: int, q: int, r: int, n: nat)
    requires n > 0 && x == q * n + r && 0 <= r < n
    ensures x % n == r
  {
    var d := x / n - q;
    MultipleBounds(d, n);
    assert d * n == r - x % n;
  }

  lemma MultipleBounds(d: int, n: nat)
    ensures d >= 1 ==> d * n >= n
    ensures d <= -1 ==> d * n <= -(n as int)
  {
    assert d >= 1 ==> (d - 1) * n >= 0;
    assert d <= -1 ==> (d + 1) * n <= 0;
  }

  lemma NextLeaderDiffers(c: Config, v: int)
    requires c.n >= 2 && v >= 0
    ensures LeaderID(c, v + 1) != LeaderID(c, v)
  {
    var q, r := v / c.n, v % c.n;
    if r + 1 < c.n {
      Remainder(v + 1, q, r + 1, c.n);
    } else {
      assert v + 1 == (q + 1) * c.n + 0;
      Remainder(v + 1, q + 1, 0, c.n);
    }
  }

  // ----- preservation -----

  lemma StepGrows(env: Env, s: Sys, s': Sys, st: Step)
    requires CrashOnly(env) && CertInv(env.c, s) && Next(env, s, s', st) && Awake(env.c, s, st) && |s'.reps| == env.c.n
    ensures st.Local? && 0 <= st.p < env.c.n && NormalEvent(st.e) && OrderedEvent(st.e)
    ensures Grows(env.c, s, s')
  {
    var r := s.reps[st.p];
    EventGrows(env.c, r, st.e);
    forall m | m in s'.net && m !in s.net && m.ViewChange?
      ensures 0 <= m.src < env.c.n && m.block == s.reps[m.src].chain.curBlock
    {
      SentKinds(env.c, r, st.e, m);
    }
  }

  /** The replica that acts, before and after, in a step of such a run. */
  ghost predicate Acts(env: Env, s: Sys, s': Sys, p: int, e: Event) {
    && CrashOnly(env) && Roster(env.c, s) && 0 <= p < env.c.n
    && Next(env, s, s', Local(p, e)) && Awake(env.c, s, Local(p, e))
    && NormalEvent(e) && Grows(env.c, s, s')
  }

  lemma OnlyActorChanges(env: Env, s: Sys, s': Sys, p: int, e: Event, q: int)
    requires Acts(env, s, s', p, e) && 0 <= q < env.c.n && q != p
    ensures s'.reps[q] == s.reps[q]
  {
  }

  lemma CompletesMeans(c: Config, r: Replica, m: Msg)
    requires m.Vote? && Active(r)
    ensures var o := OnVote(c, r, m).r;
      && o.view == r.view && o.vcs == r.vcs && o.pending == r.pending && o.leader == r.leader
      && (if Completes(c, r, m) then
            var book := AddVote(r.votes, m.hash, m.src, Some(m.sig));
            && m.view >= r.view && r.status != VIEWCHANGE && BlockCert(m.hash) !in r.prepared
            && o.votes == book && |VotersOf(book, m.hash)| >= c.quorum
            && o.prepared == r.prepared + {BlockCert(m.hash)}
            && o.chain == r.chain.(curBlock := Certificate(r, book, m.num, m.hash))
          else
            && o.chain == r.chain && o.prepared == r.prepared && o.status == r.status
            && (o.votes == r.votes
                || (m.view >= r.view && BlockCert(m.hash) !in r.prepared
                    && o.votes == AddVote(r.votes, m.hash, m.src, Some(m.sig))
                    && |VotersOf(o.votes, m.hash)| < c.quorum)))
  {
    var book := AddVote(r.votes, m.hash, m.src, Some(m.sig));
    assert Certificate(r, book, m.num, m.hash).height == r.chain.curBlock.height + 1;
  }

  /** The certificate is for the collector's one outstanding proposal, and every
      other voter voted in its view. */
  lemma CompletedProposal(env: Env, s: Sys, p: int, m: Msg) returns (x: Msg)
    requires CrashOnly(env) && CertInv(env.c, s) && 0 <= p < env.c.n && m in s.net && Addressed(p, m)
    requires Completes(env.c, s.reps[p], m) && !LateCertificate(env.c, s, p, m)
    ensures Outstanding(env.c, s, x) && x.src == p && x.hash == m.hash
    ensures forall q :: q in VotersOf(OnVote(env.c, s.reps[p], m).r.votes, m.hash) && q != p ==> Voted(s.net, q, x)
  {
    var c, r := env.c, s.reps[p];
    CompletesMeans(c, r, m);
    assert VoteOk(c, s, m);
    assert BookOk(c, s, p);
    if m.src != p {
      x :| ProposedFor(s.net, x, m);
    } else {
      var others := VotersOf(OnVote(c, r, m).r.votes, m.hash);
      var q := HonestMember(others, {p});
      x :| VotedOwn(s.net, p, m.hash, q, x);
    }
    assert ProposalOk(c, s, x);
    forall q | q in VotersOf(OnVote(c, r, m).r.votes, m.hash) && q != p ensures Voted(s.net, q, x) {
      if q in VotersOf(r.votes, m.hash) {
        OldVoterVoted(c, s, p, m.hash, q, x);
      } else {
        assert q == m.src && m.view == x.view;
      }
    }
  }

  lemma OldVoterVoted(c: Config, s: Sys, p: int, h: Digest, q: int, x: Msg)
    requires Roster(c, s) && ProposalsOk(c, s) && 0 <= p < c.n && BookOk(c, s, p)
    requires q in VotersOf(s.reps[p].votes, h) && q != p && x in s.net && x.Proposal? && x.src == p && x.hash == h
    ensures Voted(s.net, q, x)
  {
    var y :| VotedOwn(s.net, p, h, q, y);
    assert ProposalOk(c, s, y) && ProposalOk(c, s, x);
  }

  // ----- preservation, family by family -----

  lemma KeepsRoster(env: Env, s: Sys, s': Sys, p: int, e: Event)
    requires Acts(env, s, s', p, e) && CertInv(env.c, s) && OrderedEvent(e)
    ensures Roster(env.c, s')
  {
    var c, r := env.c, s.reps[p];
    EventGrows(c, r, e);
    if e.Deliver? && e.m.Vote? {
      CompletesMeans(c, r, e.m);
      if Completes(c, r, e.m) {
        var x := CompletedProposal(env, s, p, e.m);
        assert ProposalOk(c, s, x);
      }
    } else {
      SequenceLeads(c, r, e);
    }
    forall m | m in s'.net ensures Normal(m) && 0 <= m.src < c.n {
      if m !in s.net { SentKinds(c, r, e, m); }
    }
    forall q | 0 <= q < c.n ensures s'.reps[q].id == q && Steady(c, s'.reps[q]) {
      if q != p { OnlyActorChanges(env, s, s', p, e, q); }
    }
  }

  lemma SequenceLeads(c: Config, r: Replica, e: Event)
    requires Steady(c, r) && NormalEvent(e) && OrderedEvent(e) && !(e.Deliver? && e.m.Vote?)
    ensures Handle(c, r, e).r.chain.sequence >= Handle(c, r, e).r.chain.curBlock.height
  {
    QuietEvent(c, r, e);
  }

  lemma KeepsProposals(env: Env, s: Sys, s': Sys, p: int, e: Event)
    requires Acts(env, s, s', p, e) && ProposalsOk(env.c, s) && ViewsReady(env.c, s.reps[p]) && Roster(env.c, s')
    ensures ProposalsOk(env.c, s')
  {
    var c, r := env.c, s.reps[p];
    forall m | m in s'.net && m.Proposal? ensures ProposalOk(c, s', m) {
      if m in s.net {
        assert ProposalOk(c, s, m);
        assert ReplicaGrows(s.reps[m.src], s'.reps[m.src]);
      } else {
        SentKinds(c, r, e, m);
        assert s'.reps[p] == Propose(c, r).r;
      }
    }
    forall m, x | m in s'.net && x in s'.net && m.Proposal? && x.Proposal? && m.src == x.src && m.num == x.num
      ensures m == x
    {
      if m in s.net { assert ProposalOk(c, s, m); } else { SentKinds(c, r, e, m); }
      if x in s.net { assert ProposalOk(c, s, x); } else { SentKinds(c, r, e, x); }
      if m !in s.net && x !in s.net {
        assert Handle(c, r, e).sent == Propose(c, r).sent;
      }
    }
  }

  lemma KeepsViewsReady(c: Config, r: Replica, e: Event)
    requires Steady(c, r) && NormalEvent(e) && ViewsReady(c, r)
    ensures ViewsReady(c, Handle(c, r, e).r)
  {
    var r' := Handle(c, r, e).r;
    EventGrows(c, r, e);
    QuietEvent(c, r, e);
    if e.Deliver? {
      match e.m {
        case Proposal(_, _, _, _, _, _) =>
        case Vote(_, _, _, _, _, _) => CompletesMeans(c, r, e.m);
        case Timeout(_, _, _) =>
        case TQC(_, _, _) =>
        case ViewChange(_, _, _, _) => ViewChangeKeepsReady(c, r, e.m);
      }
    }
  }

  lemma ViewChangeKeepsReady(c: Config, r: Replica, m: Msg)
    requires Steady(c, r) && m.ViewChange? && ViewsReady(c, r)
    ensures ViewsReady(c, OnViewChange(c, r, m).r)
  {
    var r' := OnViewChange(c, r, m).r;
    forall v ensures SendersOf(r.vcs, v) <= SendersOf(r'.vcs, v) {}
    forall v | ViewCert(v) in r'.prepared ensures v <= r'.view && |SendersOf(r'.vcs, v)| >= c.quorum {
      if ViewCert(v) in r.prepared {
        SubsetSize(SendersOf(r.vcs, v), SendersOf(r'.vcs, v));
      }
    }
  }

  lemma KeepsOutstanding(env: Env, s: Sys, s': Sys, p: int, e: Event)
    requires Acts(env, s, s', p, e) && CertInv(env.c, s) && Roster(env.c, s')
    ensures OneOutstanding(env.c, s')
  {
    var c := env.c;
    forall m | Outstanding(c, s', m)
      ensures s'.reps[m.src].status != READY && m.qc.height == s'.reps[m.src].chain.curBlock.height
    {
      OutstandingWas(env, s, s', p, e, m);
    }
    forall m, x | Outstanding(c, s', m) && Outstanding(c, s', x) && m.src == x.src ensures m == x {
      OutstandingWas(env, s, s', p, e, m);
      OutstandingWas(env, s, s', p, e, x);
    }
  }

  /** An outstanding proposal was outstanding before, or is the one just made
      by a leader that had none. */
  lemma OutstandingWas(env: Env, s: Sys, s': Sys, p: int, e: Event, m: Msg)
    requires Acts(env, s, s', p, e) && CertInv(env.c, s) && Roster(env.c, s') && Outstanding(env.c, s', m)
    ensures s'.reps[m.src].status != READY && m.qc.height == s'.reps[m.src].chain.curBlock.height
    ensures if Outstanding(env.c, s, m) then (m.src == p ==> !e.ProposeBatch? || !CanPropose(env.c, s.reps[p]))
            else m.src == p && e.ProposeBatch? && CanPropose(env.c, s.reps[p]) && m in Propose(env.c, s.reps[p]).sent
  {
    var c, r := env.c, s.reps[p];
    if m in s.net {
      assert ProposalOk(c, s, m);
      assert ReplicaGrows(s.reps[m.src], s'.reps[m.src]);
      assert Outstanding(c, s, m);
      if m.src == p {
        if e.Deliver? && e.m.Vote? {
          CompletesMeans(c, r, e.m);
          if Completes(c, r, e.m) {
            var x := CompletedProposal(env, s, p, e.m);
            assert x == m;
          }
        } else if e.Deliver? && e.m.ViewChange? {
          LeaderIgnoresViewChange(env, s, p, e.m, m);
        } else {
          OutstandingKept(c, r, e);
        }
      } else {
        OnlyActorChanges(env, s, s', p, e, m.src);
      }
    } else {
      SentKinds(c, r, e, m);
      assert m in Propose(c, r).sent;
    }
  }

  /** A leader with a proposal in its view ignores VIEWCHANGEs. */
  lemma LeaderIgnoresViewChange(env: Env, s: Sys, p: int, m: Msg, x: Msg)
    requires CrashOnly(env) && CertInv(env.c, s) && 0 <= p < env.c.n && m in s.net && m.ViewChange?
    requires Outstanding(env.c, s, x) && x.src == p
    ensures OnViewChange(env.c, s.reps[p], m) == Out(s.reps[p], {})
  {
    assert ProposalOk(env.c, s, x);
    assert m.view >= 1;
    IgnoresViewChange(env.c, s.reps[p], m);
  }

  lemma IgnoresViewChange(c: Config, r: Replica, m: Msg)
    requires m.ViewChange? && m.view >= 1 && c.n >= 2 && r.view >= 0 && LeaderID(c, r.view) == r.id
    requires r.view >= 1 ==> ViewCert(r.view) in r.prepared
    ensures OnViewChange(c, r, m) == Out(r, {})
  {
    NextLeaderDiffers(c, r.view);
  }

  lemma OutstandingKept(c: Config, r: Replica, e: Event)
    requires Steady(c, r) && NormalEvent(e) && r.leader && r.status != READY
    requires !(e.Deliver? && (e.m.Vote? || e.m.ViewChange?))
    requires Handle(c, r, e).r.view == r.view
    ensures Handle(c, r, e).r.status != READY && Handle(c, r, e).r.chain.curBlock == r.chain.curBlock
    ensures e.ProposeBatch? ==> !CanPropose(c, r)
  {
  }

  lemma KeepsVotes(env: Env, s: Sys, s': Sys, p: int, e: Event)
    requires Acts(env, s, s', p, e) && CertInv(env.c, s) && Roster(env.c, s') && ProposalsOk(env.c, s')
    ensures VotesOk(env.c, s')
  {
    var c, r := env.c, s.reps[p];
    forall m | m in s'.net && m.Vote? ensures VoteOk(c, s', m) {
      if m in s.net {
        OldVoteOk(env, s, s', p, e, m);
      } else {
        NewVoteOk(env, s, s', p, e, m);
      }
    }
  }

  lemma OldVoteOk(env: Env, s: Sys, s': Sys, p: int, e: Event, m: Msg)
    requires Acts(env, s, s', p, e) && CertInv(env.c, s) && Roster(env.c, s') && m in s.net && m.Vote?
    ensures VoteOk(env.c, s', m)
  {
    var c := env.c;
    assert VoteOk(c, s, m);
    assert ReplicaGrows(s.reps[m.src], s'.reps[m.src]);
    if m.dst != m.src {
      var x :| ProposedFor(s.net, x, m);
      assert ProposedFor(s'.net, x, m);
      assert ProposalOk(c, s, x);
      forall y | y in s'.net && y.Proposal? && y.src == m.dst && y.hash == m.hash && y.view == m.view
        ensures Holds(s', m.src, m.view, y.qc.height)
      {
        if y !in s.net {
          SentKinds(c, s.reps[p], e, y);
        }
        HoldsMono(c, s, s', m.src, m.view, y.qc.height);
      }
    }
  }

  lemma NewVoteOk(env: Env, s: Sys, s': Sys, p: int, e: Event, m: Msg)
    requires Acts(env, s, s', p, e) && CertInv(env.c, s) && Roster(env.c, s') && ProposalsOk(env.c, s')
    requires m in s'.net && m !in s.net && m.Vote?
    ensures VoteOk(env.c, s', m)
  {
    var c, r := env.c, s.reps[p];
    SentKinds(c, r, e, m);
    var x := e.m;
    assert ProposalOk(c, s, x);
    assert forall y :: y in s'.net && y.Proposal? ==> y in s.net by {
      forall y | y in s'.net && y.Proposal? ensures y in s.net {
        if y !in s.net { SentKinds(c, r, e, y); }
      }
    }
    if m.dst != p {
      assert ProposedFor(s'.net, x, m);
      forall y | y in s'.net && y.Proposal? && y.src == m.dst && y.hash == m.hash && y.view == m.view
        ensures Holds(s', p, m.view, y.qc.height)
      {
        assert ProposalOk(c, s, y);
        assert y == x;
        VoterHolds(c, r, x);
        NoLaterViewChange(env, s, s', p, e);
      }
    }
  }

  /** Handling a proposal or a vote announces nothing: p's VIEWCHANGEs stay at or below its view. */
  lemma NoLaterViewChange(env: Env, s: Sys, s': Sys, p: int, e: Event)
    requires Acts(env, s, s', p, e) && ViewChangesOk(env.c, s) && e.Deliver? && (e.m.Proposal? || e.m.Vote?)
    ensures forall z :: z in s'.net && z.ViewChange? && z.src == p ==> z.view <= s.reps[p].view
  {
    forall z | z in s'.net && z.ViewChange? && z.src == p ensures z.view <= s.reps[p].view {
      if z !in s.net { SentKinds(env.c, s.reps[p], e, z); }
    }
  }

  /** After voting for another's proposal of its own view, a replica holds a
      block at least as high as the proposal's certified block. */
  lemma VoterHolds(c: Config, r: Replica, m: Msg)
    requires Steady(c, r) && m.Proposal? && m.view == r.view && LeaderID(c, m.view) == m.src && m.src != r.id
    requires exists x :: x in OnProposal(c, r, m).sent
    ensures OnProposal(c, r, m).r.chain.curBlock.height >= m.qc.height
  {
  }

  lemma KeepsBlocks(env: Env, s: Sys, s': Sys, p: int, e: Event)
    requires Acts(env, s, s', p, e) && CertInv(env.c, s) && Roster(env.c, s')
    ensures BlocksOk(env.c, s')
  {
    var c, r := env.c, s.reps[p];
    forall q | 0 <= q < c.n ensures BlockOk(c, s', s'.reps[q].chain.curBlock) {
      if q != p {
        OnlyActorChanges(env, s, s', p, e, q);
        CertMono(c, s, s', s.reps[q].chain.curBlock);
      } else {
        ActorBlockOk(env, s, s', p, e);
      }
    }
    CertMono(c, s, s', r.chain.curBlock);
    forall m | m in s'.net && m.Proposal? ensures BlockOk(c, s', m.qc) {
      if m in s.net { CertMono(c, s, s', m.qc); } else { SentKinds(c, r, e, m); }
    }
    forall m | m in s'.net && m.ViewChange? ensures BlockOk(c, s', m.block) {
      if m in s.net { CertMono(c, s, s', m.block); } else { SentKinds(c, r, e, m); }
    }
  }

  lemma ActorBlockOk(env: Env, s: Sys, s': Sys, p: int, e: Event)
    requires Acts(env, s, s', p, e) && CertInv(env.c, s) && Roster(env.c, s')
    ensures BlockOk(env.c, s', s'.reps[p].chain.curBlock)
  {
    var c, r := env.c, s.reps[p];
    CertMono(c, s, s', r.chain.curBlock);
    CurBlockComesFrom(c, r, e);
    if e.Deliver? && e.m.Vote? {
      CompletesMeans(c, r, e.m);
      if Completes(c, r, e.m) {
        NewCertOk(env, s, s', p, e);
      }
    } else if e.Deliver? && e.m.Proposal? {
      CertMono(c, s, s', e.m.qc);
    } else if e.Deliver? && e.m.ViewChange? {
      CertMono(c, s, s', e.m.block);
    }
  }

  lemma CurBlockComesFrom(c: Config, r: Replica, e: Event)
    requires Steady(c, r) && NormalEvent(e)
    ensures var b, b' := r.chain.curBlock, Handle(c, r, e).r.chain.curBlock;
      b' == b || (e.Deliver? && (e.m.Vote? || (e.m.Proposal? && b' == e.m.qc) || (e.m.ViewChange? && b' == e.m.block)))
  {
    QuietEvent(c, r, e);
  }

  /** The certificate's lists after one more signed vote. */
  lemma CertificateHasQuorum(votes: VoteBook, m: Msg)
    requires m.Vote? && Mirrors(votes)
    ensures var book := AddVote(votes, m.hash, m.src, Some(m.sig));
      MirrorsAt(book, m.hash) && |VotersOf(book, m.hash)| <= |VotersOf(votes, m.hash)| + 1
  {
    AddVoteMirrors(votes, m.hash, m.src, Some(m.sig));
  }

  lemma NewCertLists(env: Env, s: Sys, p: int, m: Msg)
    requires CrashOnly(env) && CertInv(env.c, s) && 0 <= p < env.c.n && m in s.net && Addressed(p, m)
    requires Completes(env.c, s.reps[p], m)
    ensures var b := OnVote(env.c, s.reps[p], m).r.chain.curBlock;
      |b.qc| == |b.ids| == env.c.quorum && Distinct(b.ids) && Elements(b.ids) <= Ids(env.c.n)
  {
    var c, r := env.c, s.reps[p];
    var b := OnVote(c, r, m).r.chain.curBlock;
    CompletesMeans(c, r, m);
    assert BookOk(c, s, p);
    CertificateHasQuorum(r.votes, m);
    DistinctSize(b.ids);
    assert b.ids == IdsOf(AddVote(r.votes, m.hash, m.src, Some(m.sig)), m.hash);
    forall q | q in Elements(b.ids) ensures q in Ids(c.n) {
      assert q in VotersOf(r.votes, m.hash) || q == m.src;
    }
  }

  lemma NewCertFor(env: Env, s: Sys, s': Sys, p: int, e: Event) returns (x: Msg)
    requires Acts(env, s, s', p, e) && CertInv(env.c, s) && Roster(env.c, s')
    requires e.Deliver? && Completes(env.c, s.reps[p], e.m)
    ensures var b := s'.reps[p].chain.curBlock; b.hash != NoHash && b.height >= 1 && CertFor(s', b, x)
  {
    var c, r, b := env.c, s.reps[p], s'.reps[p].chain.curBlock;
    x := CompletedProposal(env, s, p, e.m);
    CompletesMeans(c, r, e.m);
    assert ProposalOk(c, s, x);
    CertificateHasQuorum(r.votes, e.m) by {
      assert BookOk(c, s, p);
    }
    forall q | q in b.ids && q != p ensures Voted(s'.net, q, x) {
      assert q in Elements(b.ids);
      VotedMono(s.net, s'.net, q, x);
    }
    NoLaterViewChange(env, s, s', p, e);
  }

  lemma NewCertOk(env: Env, s: Sys, s': Sys, p: int, e: Event)
    requires Acts(env, s, s', p, e) && CertInv(env.c, s) && Roster(env.c, s')
    requires e.Deliver? && Completes(env.c, s.reps[p], e.m)
    ensures CertOk(env.c, s', s'.reps[p].chain.curBlock)
  {
    NewCertLists(env, s, p, e.m);
    var x := NewCertFor(env, s, s', p, e);
  }

  lemma KeepsViewChanges(env: Env, s: Sys, s': Sys, p: int, e: Event)
    requires Acts(env, s, s', p, e) && CertInv(env.c, s) && Roster(env.c, s')
    ensures ViewChangesOk(env.c, s')
  {
    forall m | m in s'.net && m.ViewChange?
      ensures 1 <= m.view <= s'.reps[m.src].view && m.block.height <= s'.reps[m.src].chain.curBlock.height
    {
      assert ReplicaGrows(s.reps[m.src], s'.reps[m.src]);
      if m !in s.net { SentKinds(env.c, s.reps[p], e, m); }
    }
  }

  lemma KeepsCollected(env: Env, s: Sys, s': Sys, p: int, e: Event)
    requires Acts(env, s, s', p, e) && CertInv(env.c, s) && Roster(env.c, s')
    ensures CollectedOk(env.c, s')
  {
    var c, r := env.c, s.reps[p];
    forall t, v, q | 0 <= t < c.n && q in SendersOf(s'.reps[t].vcs, v)
      ensures 0 <= q < c.n && Reported(s'.net, q, v, s'.reps[t].chain.curBlock.height)
    {
      assert ReplicaGrows(s.reps[t], s'.reps[t]);
      if q in SendersOf(s.reps[t].vcs, v) {
        ReportedMono(s.net, s'.net, q, v, s.reps[t].chain.curBlock.height, s'.reps[t].chain.curBlock.height);
      } else if t == p {
        QuietEvent(c, r, e);
        assert BlockOk(c, s, e.m.block);
        AdoptsReported(c, r, e.m, v, q);
        assert e.m in s'.net;
      } else {
        OnlyActorChanges(env, s, s', p, e, t);
      }
    }
  }

  lemma ReportedMono(net: set<Msg>, net': set<Msg>, q: int, v: int, h: int, h': int)
    requires net <= net' && h <= h' && Reported(net, q, v, h)
    ensures Reported(net', q, v, h')
  {
    var m :| m in net && m.ViewChange? && m.src == q && m.view == v && m.block.height <= h;
    assert m in net';
  }

  lemma AdoptsReported(c: Config, r: Replica, m: Msg, v: int, q: int)
    requires Steady(c, r) && m.ViewChange? && (m.block.hash == NoHash ==> m.block.height == 0)
    requires q in SendersOf(OnViewChange(c, r, m).r.vcs, v) && q !in SendersOf(r.vcs, v)
    ensures q == m.src && v == m.view && m.block.height <= OnViewChange(c, r, m).r.chain.curBlock.height
  {
  }

  lemma KeepsBook(env: Env, s: Sys, s': Sys, p: int, e: Event, t: int)
    requires Acts(env, s, s', p, e) && CertInv(env.c, s) && Roster(env.c, s') && 0 <= t < env.c.n
    ensures BookOk(env.c, s', t)
  {
    var c, r := env.c, s.reps[p];
    assert BookOk(c, s, t);
    if t != p {
      OnlyActorChanges(env, s, s', p, e, t);
      OldVotersOk(env, s, s', t, s'.reps[t].votes);
    } else if e.Deliver? && e.m.Vote? {
      ActorBookOk(env, s, s', p, e);
    } else {
      QuietEvent(c, r, e);
      OldVotersOk(env, s, s', t, s'.reps[t].votes);
    }
  }

  lemma OldVotersOk(env: Env, s: Sys, s': Sys, t: int, book: VoteBook)
    requires Roster(env.c, s) && Grows(env.c, s, s') && 0 <= t < env.c.n && BookOk(env.c, s, t)
    ensures forall h, q :: q in VotersOf(s.reps[t].votes, h) ==>
              0 <= q < env.c.n && (q != t ==> exists x :: VotedOwn(s'.net, t, h, q, x))
  {
    forall h, q | q in VotersOf(s.reps[t].votes, h) && q != t ensures exists x :: VotedOwn(s'.net, t, h, q, x) {
      var x :| VotedOwn(s.net, t, h, q, x);
      VotedMono(s.net, s'.net, q, x);
      assert VotedOwn(s'.net, t, h, q, x);
    }
  }

  lemma VoteKeepsCounts(c: Config, r: Replica, m: Msg)
    requires m.Vote? && Active(r) && Mirrors(r.votes)
    requires forall h :: BlockCert(h) !in r.prepared ==> |VotersOf(r.votes, h)| < c.quorum
    ensures var r' := OnVote(c, r, m).r;
      && Mirrors(r'.votes)
      && (forall h :: BlockCert(h) !in r'.prepared ==> |VotersOf(r'.votes, h)| < c.quorum)
      && (forall h, q :: q in VotersOf(r'.votes, h) && q !in VotersOf(r.votes, h) ==>
            q == m.src && h == m.hash && m.view >= r.view)
  {
    var r' := OnVote(c, r, m).r;
    CompletesMeans(c, r, m);
    AddVoteMirrors(r.votes, m.hash, m.src, Some(m.sig));
    forall h | BlockCert(h) !in r'.prepared ensures |VotersOf(r'.votes, h)| < c.quorum {
      assert BlockCert(h) !in r.prepared;
    }
  }

  lemma ActorBookOk(env: Env, s: Sys, s': Sys, p: int, e: Event)
    requires Acts(env, s, s', p, e) && CertInv(env.c, s) && Roster(env.c, s') && e.Deliver? && e.m.Vote?
    ensures BookOk(env.c, s', p)
  {
    assert BookOk(env.c, s, p);
    VoteKeepsCounts(env.c, s.reps[p], e.m);
    var book, book' := s.reps[p].votes, s'.reps[p].votes;
    OldVotersOk(env, s, s', p, book');
    forall h, q | q in VotersOf(book', h) && q !in VotersOf(book, h)
      ensures 0 <= q < env.c.n && (q != p ==> exists x :: VotedOwn(s'.net, p, h, q, x))
    {
      NewVoterOk(env, s, s', p, e);
    }
  }

  lemma NewVoterOk(env: Env, s: Sys, s': Sys, p: int, e: Event)
    requires Acts(env, s, s', p, e) && CertInv(env.c, s) && e.Deliver? && e.m.Vote? && e.m.view >= s.reps[p].view
    ensures 0 <= e.m.src < env.c.n
    ensures e.m.src != p ==> exists x :: VotedOwn(s'.net, p, e.m.hash, e.m.src, x)
  {
    var m := e.m;
    assert VoteOk(env.c, s, m);
    if m.src != p {
      var x :| ProposedFor(s.net, x, m);
      assert ProposalOk(env.c, s, x);
      assert Voted(s.net, m.src, x);
      VotedMono(s.net, s'.net, m.src, x);
      assert VotedOwn(s'.net, p, m.hash, m.src, x);
    }
  }

  lemma StepKeepsCerts(env: Env, s: Sys, s': Sys, st: Step)
    requires CrashOnly(env) && CertInv(env.c, s) && Next(env, s, s', st) && Awake(env.c, s, st) && |s'.reps| == env.c.n
    ensures CertInv(env.c, s') && Grows(env.c, s, s')
  {
    StepGrows(env, s, s', st);
    var p, e := st.p, st.e;
    KeepsRoster(env, s, s', p, e);
    KeepsProposals(env, s, s', p, e);
    forall q | 0 <= q < env.c.n ensures ViewsReady(env.c, s'.reps[q]) {
      if q == p { KeepsViewsReady(env.c, s.reps[p], e); } else { OnlyActorChanges(env, s, s', p, e, q); }
    }
    KeepsOutstanding(env, s, s', p, e);
    KeepsVotes(env, s, s', p, e);
    KeepsBlocks(env, s, s', p, e);
    KeepsViewChanges(env, s, s', p, e);
    KeepsCollected(env, s, s', p, e);
    forall q | 0 <= q < env.c.n ensures BookOk(env.c, s', q) {
      KeepsBook(env, s, s', p, e, q);
    }
  }

  lemma InitCerts(env: Env, s: Sys)
    requires CrashOnly(env) && Init(env, s)
    ensures CertInv(env.c, s)
  {
    forall p | 0 <= p < env.c.n ensures BookOk(env.c, s, p) {
      CertificatesMirrorVotes([]);
    }
  }

  ghost predicate AwakeRun(env: Env, run: seq<Sys>, steps: seq<Step>) {
    && IsRun(env, run, steps)
    && forall i {:trigger steps[i]} :: 0 <= i < |steps| ==> Awake(env.c, run[i], steps[i])
  }

  lemma {:induction false} RunCerts(env: Env, run: seq<Sys>, steps: seq<Step>, i: nat)
    requires CrashOnly(env) && AwakeRun(env, run, steps) && i < |run|
    ensures CertInv(env.c, run[i])
  {
    if i == 0 {
      InitCerts(env, run[0]);
    } else {
      RunCerts(env, run, steps, i - 1);
      assert StepAt(env, run, steps, i - 1);
      StepKeepsCerts(env, run[i - 1], run[i], steps[i - 1]);
    }
  }
}
