/** Votes belong to the view of the proposal they are cast for: in every run
    without sleeps, with arbitrary replicas and repeated hashes. */
module VoteViews {
  import opened Messages
  import opened Quorums
  import opened Buffers
  import opened ReplicaSpec
  import opened System
  import opened Certs

  // ----- what one event does -----

  /** An active replica stays active, and its view and sequence do not fall. */
  lemma StaysActive(c: Config, r: Replica, e: Event)
    requires Active(r) && !e.FallAsleep?
    ensures Advances(r, Handle(c, r, e).r)
  {
    if e.Deliver? {
      ReceiveStaysActive(c, r, e.m);
    }
  }

  ghost predicate Advances(r: Replica, r': Replica) {
    Active(r') && r'.id == r.id && r'.view >= r.view && r'.chain.sequence >= r.chain.sequence
  }

  lemma ReceiveStaysActive(c: Config, r: Replica, m: Msg)
    requires Active(r)
    ensures Advances(r, Dispatch(c, r, m).r)
  {
    if m.Proposal? {
      ProposalAdvances(c, r, m);
    } else if m.Vote? {
      CompletesMeans(c, r, m);
    } else if m.TQC? {
      TQCAdvances(c, r, m);
    } else if m.ViewChange? {
      ViewChangeAdvances(c, r, m);
    } else {
      assert Dispatch(c, r, m).r.chain.sequence == r.chain.sequence;
    }
  }

  lemma ProposalAdvances(c: Config, r: Replica, m: Msg)
    requires Active(r) && m.Proposal?
    ensures Advances(r, OnProposal(c, r, m).r)
  {
  }

  lemma TQCAdvances(c: Config, r: Replica, m: Msg)
    requires Active(r) && m.TQC?
    ensures Advances(r, OnTQC(c, r, m).r)
  {
  }

  lemma ViewChangeAdvances(c: Config, r: Replica, m: Msg)
    requires Active(r) && m.ViewChange?
    ensures Advances(r, OnViewChange(c, r, m).r)
  {
  }

  /** Proposals and votes are the sender's own; a vote names the view its sender
      is in, no higher than the proposal's. */
  lemma SentProposalsAndVotes(c: Config, r: Replica, e: Event, x: Msg)
    requires Active(r) && x in Handle(c, r, e).sent && (x.Proposal? || x.Vote?)
    ensures x.src == r.id
    ensures x.Proposal? ==>
      ProposedBy(c, r, e, x) && Handle(c, r, e).sent == {x} && Handle(c, r, e).r.chain.sequence == x.num
    ensures x.Vote? ==> VotedBy(r, e, x)
  {
  }

  lemma VotersChange(c: Config, r: Replica, e: Event, h: Digest, q: int)
    requires Active(r) && !e.FallAsleep?
    requires q in VotersOf(Handle(c, r, e).r.votes, h) && q !in VotersOf(r.votes, h)
    ensures e.Deliver? && e.m.Vote? && q == e.m.src && h == e.m.hash && e.m.view >= r.view
  {
    if e.Deliver? && e.m.Vote? {
      CompletesMeans(c, r, e.m);
    } else {
      VotesStay(c, r, e);
    }
  }

  lemma VotesStay(c: Config, r: Replica, e: Event)
    requires Active(r) && !(e.Deliver? && e.m.Vote?)
    ensures Handle(c, r, e).r.votes == r.votes
  {
  }

  lemma KeepsMirror(c: Config, r: Replica, e: Event)
    requires Active(r) && Mirrors(r.votes)
    ensures Mirrors(Handle(c, r, e).r.votes)
  {
    if e.Deliver? && e.m.Vote? {
      CompletesMeans(c, r, e.m);
      AddVoteMirrors(r.votes, e.m.hash, e.m.src, Some(e.m.sig));
    } else {
      VotesStay(c, r, e);
    }
  }

  // ----- the invariant -----

  ghost predicate Awakened(env: Env, s: Sys) {
    && |s.reps| == env.c.n
    && forall p :: Honest(env, p) ==> s.reps[p].id == p && Active(s.reps[p]) && Mirrors(s.reps[p].votes)
  }

  /** A proposal is of its proposer's view or an earlier one, and known to its sequence. */
  ghost predicate OwnProposal(r: Replica, m: Msg) {
    m.Proposal? && m.view <= r.view && m.num <= r.chain.sequence && m.hash.Chained? && m.hash.num == m.num
  }

  ghost predicate SameNumber(env: Env, m: Msg, x: Msg) {
    m.Proposal? && x.Proposal? && m.src == x.src && m.num == x.num && Honest(env, m.src)
  }

  ghost predicate OwnProposals(env: Env, s: Sys)
    requires |s.reps| == env.c.n
  {
    && (forall m :: m in s.net && m.Proposal? && Honest(env, m.src) ==> OwnProposal(s.reps[m.src], m))
    && (forall m, x :: m in s.net && x in s.net && SameNumber(env, m, x) ==> m == x)
  }

  ghost predicate Answered(net: set<Msg>, m: Msg) {
    exists x :: ProposedFor(net, x, m)
  }

  ghost predicate VotesAnswer(env: Env, s: Sys) {
    forall m :: m in s.net && m.Vote? && Honest(env, m.src) && Honest(env, m.dst) && m.dst != m.src ==>
        Answered(s.net, m)
  }

  /** Replica q voted for a proposal of p with hash h while in the proposal's view. */
  ghost predicate VotedInView(net: set<Msg>, p: int, h: Digest, q: int) {
    exists x :: VotedOwn(net, p, h, q, x)
  }

  ghost predicate VotersOk(env: Env, net: set<Msg>, p: int, book: VoteBook) {
    forall h, q :: q in VotersOf(book, h) && Honest(env, q) && q != p ==> VotedInView(net, p, h, q)
  }

  ghost predicate VotesInv(env: Env, s: Sys) {
    && Awakened(env, s) && OwnProposals(env, s) && VotesAnswer(env, s)
    && forall p :: Honest(env, p) ==> VotersOk(env, s.net, p, s.reps[p].votes)
  }

  ghost predicate Wakeful(st: Step) {
    st.Local? ==> !st.e.FallAsleep?
  }

  // ----- preservation -----

  lemma StepKeepsAwakened(env: Env, s: Sys, s': Sys, st: Step)
    requires Awakened(env, s) && Next(env, s, s', st) && Wakeful(st)
    ensures Awakened(env, s') && s.net <= s'.net
    ensures forall p :: Honest(env, p) ==>
              s'.reps[p].view >= s.reps[p].view && s'.reps[p].chain.sequence >= s.reps[p].chain.sequence
  {
    if st.Local? {
      StaysActive(env.c, s.reps[st.p], st.e);
      KeepsMirror(env.c, s.reps[st.p], st.e);
    }
  }

  lemma StepKeepsOwn(env: Env, s: Sys, s': Sys, st: Step)
    requires Awakened(env, s) && OwnProposals(env, s) && Next(env, s, s', st) && Wakeful(st)
    ensures |s'.reps| == env.c.n && OwnProposals(env, s')
  {
    StepKeepsAwakened(env, s, s', st);
    forall m | m in s'.net && m.Proposal? && Honest(env, m.src)
      ensures OwnProposal(s'.reps[m.src], m)
      ensures m !in s.net ==> m.num > s.reps[m.src].chain.sequence && s'.net == s.net + {m}
    {
      if m !in s.net {
        SentProposalsAndVotes(env.c, s.reps[st.p], st.e, m);
        StaysActive(env.c, s.reps[st.p], st.e);
      }
    }
  }

  lemma StepKeepsAnswers(env: Env, s: Sys, s': Sys, st: Step)
    requires Awakened(env, s) && VotesAnswer(env, s) && Next(env, s, s', st) && Wakeful(st)
    ensures VotesAnswer(env, s')
  {
    forall m | m in s'.net && m.Vote? && Honest(env, m.src) && Honest(env, m.dst) && m.dst != m.src
      ensures Answered(s'.net, m)
    {
      if m in s.net {
        assert Answered(s.net, m);
        var x :| ProposedFor(s.net, x, m);
        assert ProposedFor(s'.net, x, m);
      } else {
        SentProposalsAndVotes(env.c, s.reps[st.p], st.e, m);
        assert ProposedFor(s'.net, st.e.m, m);
      }
    }
  }

  lemma VotedInViewMono(net: set<Msg>, net': set<Msg>, p: int, h: Digest, q: int)
    requires net <= net' && VotedInView(net, p, h, q)
    ensures VotedInView(net', p, h, q)
  {
    var x :| VotedOwn(net, p, h, q, x);
    VotedMono(net, net', q, x);
    assert VotedOwn(net', p, h, q, x);
  }

  /** A vote counts only while the proposer's view has not passed the voter's:
      voter and proposal are then of one view. */
  lemma CountedInView(env: Env, s: Sys, p: int, m: Msg)
    requires VotesInv(env, s) && Honest(env, p) && m in s.net && m.Vote? && m.dst == p && m.view >= s.reps[p].view
    requires Honest(env, m.src) && m.src != p
    ensures exists x :: VotedOwn(s.net, p, m.hash, m.src, x) && x.view == m.view == s.reps[p].view
  {
    assert Answered(s.net, m);
    var x :| ProposedFor(s.net, x, m);
    assert OwnProposal(s.reps[p], x);
    assert Voted(s.net, m.src, x);
    assert VotedOwn(s.net, p, m.hash, m.src, x);
  }

  lemma StepKeepsVoters(env: Env, s: Sys, s': Sys, st: Step, p: int)
    requires VotesInv(env, s) && Next(env, s, s', st) && Wakeful(st) && Honest(env, p) && |s'.reps| == env.c.n
    ensures VotersOk(env, s'.net, p, s'.reps[p].votes)
  {
    forall h, q | q in VotersOf(s'.reps[p].votes, h) && Honest(env, q) && q != p ensures VotedInView(s'.net, p, h, q) {
      if q !in VotersOf(s.reps[p].votes, h) {
        VotersChange(env.c, s.reps[p], st.e, h, q);
        CountedInView(env, s, p, st.e.m);
        assert VotedInView(s.net, p, h, q);
      }
      assert VotersOk(env, s.net, p, s.reps[p].votes);
      VotedInViewMono(s.net, s'.net, p, h, q);
    }
  }

  lemma StepKeepsVotes(env: Env, s: Sys, s': Sys, st: Step)
    requires VotesInv(env, s) && Next(env, s, s', st) && Wakeful(st)
    ensures VotesInv(env, s')
  {
    StepKeepsAwakened(env, s, s', st);
    StepKeepsOwn(env, s, s', st);
    StepKeepsAnswers(env, s, s', st);
    forall p | Honest(env, p) ensures VotersOk(env, s'.net, p, s'.reps[p].votes) {
      StepKeepsVoters(env, s, s', st, p);
    }
  }

  lemma InitVotes(env: Env, s: Sys)
    requires Init(env, s)
    ensures VotesInv(env, s)
  {
    forall p | Honest(env, p) ensures Mirrors(s.reps[p].votes) {
      forall h ensures MirrorsAt(s.reps[p].votes, h) {}
    }
  }

  lemma {:induction false} RunVotes(env: Env, run: seq<Sys>, steps: seq<Step>, i: nat)
    requires IsRun(env, run, steps) && NoSleeps(steps) && i < |run|
    ensures VotesInv(env, run[i])
  {
    if i == 0 {
      InitVotes(env, run[0]);
    } else {
      RunVotes(env, run, steps, i - 1);
      assert StepAt(env, run, steps, i - 1);
      StepKeepsVotes(env, run[i - 1], run[i], steps[i - 1]);
    }
  }

  // ----- when votes were cast -----

  /** Step k is q handling proposal x in a view no higher than x's, and voting for it. */
  ghost predicate CastAt(run: seq<Sys>, steps: seq<Step>, k: int, q: int, vote: Msg)
  {
    && 0 <= k < |steps| && k < |run| && steps[k].Local? && steps[k].p == q
    && 0 <= q < |run[k].reps| && VotedBy(run[k].reps[q], steps[k].e, vote) && steps[k].e.m in run[k].net
  }

  /** Every vote on the network of a replica that is not arbitrary was cast by it
      when handling a proposal with that hash, and names the view it was in. */
  lemma {:induction false} VoteWasCast(env: Env, run: seq<Sys>, steps: seq<Step>, i: nat, m: Msg) returns (k: nat)
    requires IsRun(env, run, steps) && NoSleeps(steps) && i < |run|
    requires m in run[i].net && m.Vote? && Honest(env, m.src)
    ensures k < i && CastAt(run, steps, k, m.src, m)
    decreases i
  {
    if m in run[i - 1].net {
      k := VoteWasCast(env, run, steps, i - 1, m);
    } else {
      k := i - 1;
      RunVotes(env, run, steps, k);
      assert StepAt(env, run, steps, k);
      StepCasts(env, run[k], run[i], steps[k], m);
    }
  }

  /** When no replica is arbitrary, every vote is one of theirs. */
  lemma {:induction false} VoterIsHonest(env: Env, run: seq<Sys>, steps: seq<Step>, i: nat, m: Msg)
    requires env.byz == {} && IsRun(env, run, steps) && NoSleeps(steps) && i < |run| && m in run[i].net && m.Vote?
    ensures Honest(env, m.src)
    decreases i
  {
    if i > 0 && m in run[i - 1].net {
      VoterIsHonest(env, run, steps, i - 1, m);
    } else if i > 0 {
      RunVotes(env, run, steps, i - 1);
      assert StepAt(env, run, steps, i - 1);
      SentProposalsAndVotes(env.c, run[i - 1].reps[steps[i - 1].p], steps[i - 1].e, m);
    }
  }

  lemma StepCasts(env: Env, s: Sys, s': Sys, st: Step, m: Msg)
    requires Awakened(env, s) && Next(env, s, s', st) && m in s'.net && m !in s.net && m.Vote? && Honest(env, m.src)
    ensures st.Local? && st.p == m.src && VotedBy(s.reps[m.src], st.e, m) && st.e.m in s.net
  {
    SentProposalsAndVotes(env.c, s.reps[st.p], st.e, m);
  }

  lemma {:induction false} NetRises(env: Env, run: seq<Sys>, steps: seq<Step>, i: nat, j: nat)
    requires IsRun(env, run, steps) && i <= j < |run|
    ensures run[i].net <= run[j].net
  {
    if i < j {
      NetRises(env, run, steps, i, j - 1);
      assert StepAt(env, run, steps, j - 1);
    }
  }

  /** Step i is a vote completing certificate b at replica p. */
  ghost predicate Certifies(env: Env, run: seq<Sys>, steps: seq<Step>, i: int, p: int, b: QCBlock)
    requires IsRun(env, run, steps)
  {
    && 0 <= i < |steps| && Honest(env, p) && steps[i].Local? && steps[i].p == p && steps[i].e.Deliver?
    && Completes(env.c, run[i].reps[p], steps[i].e.m) && b == run[i + 1].reps[p].chain.curBlock
  }

  /** The certificate carries p's present view, and its ids are the voters. */
  lemma CertificateMeans(env: Env, run: seq<Sys>, steps: seq<Step>, i: nat, p: int, b: QCBlock)
    requires IsRun(env, run, steps) && NoSleeps(steps) && Certifies(env, run, steps, i, p, b)
    ensures var r, m := run[i].reps[p], steps[i].e.m;
      && b.view == r.view && b.hash == m.hash && m.view >= r.view && m in run[i].net && m.dst == p
      && Elements(b.ids) == VotersOf(r.votes, m.hash) + {m.src}
  {
    RunVotes(env, run, steps, i);
    assert StepAt(env, run, steps, i);
    CompletesMeans(env.c, run[i].reps[p], steps[i].e.m);
    AddVoteMirrors(run[i].reps[p].votes, steps[i].e.m.hash, steps[i].e.m.src, Some(steps[i].e.m.sig));
    assert MirrorsAt(run[i + 1].reps[p].votes, steps[i].e.m.hash);
  }

  /** x is the one proposal of p with this hash. */
  ghost predicate OnlyProposal(net: set<Msg>, p: int, h: Digest, x: Msg) {
    && x in net && x.Proposal? && x.src == p && x.hash == h
    && forall y :: y in net && y.Proposal? && y.src == p && y.hash == h ==> y == x
  }

  /** Votes belong to the proposal's view.  Whenever a vote completes a
      certificate b at a replica p that is not arbitrary, there is one proposal x
      of p with that hash, and every counted vote of another such replica q was
      cast for x while q was in exactly the view of x.  The certificate's View
      is the votes' view exactly when x is not of a view before p's present one,
      and it is unless the completing vote is p's own or an arbitrary replica's. */
  lemma CertifiedVotesWereCastInView(env: Env, run: seq<Sys>, steps: seq<Step>, i: nat, p: int, b: QCBlock, q: int)
    returns (k: nat, x: Msg)
    requires IsRun(env, run, steps) && NoSleeps(steps) && Certifies(env, run, steps, i, p, b)
    requires q in b.ids && Honest(env, q) && q != p
    ensures OnlyProposal(run[i].net, p, b.hash, x)
    ensures k < i && steps[k] == Local(q, Deliver(x)) && run[k].reps[q].view == x.view
    ensures Vote(q, p, x.view, x.num, x.hash, Signed(q, VoteOn(x.hash))) in run[i].net
    ensures x.view <= b.view && (b.view == x.view <==> !LateCertificate(env.c, run[i], p, steps[i].e.m))
    ensures Honest(env, steps[i].e.m.src) && steps[i].e.m.src != p ==> b.view == x.view
  {
    var s, m := run[i], steps[i].e.m;
    RunVotes(env, run, steps, i);
    CertificateMeans(env, run, steps, i, p, b);
    assert q in Elements(b.ids);
    if q in VotersOf(s.reps[p].votes, m.hash) {
      assert VotersOk(env, s.net, p, s.reps[p].votes);
    } else {
      CountedInView(env, s, p, m);
    }
    assert VotedInView(s.net, p, m.hash, q);
    x :| VotedOwn(s.net, p, m.hash, q, x);
    assert OwnProposal(s.reps[p], x);
    OneProposalPerHash(env, s, x);
    if Honest(env, m.src) && m.src != p {
      CountedInView(env, s, p, m);
    }
    var vote := VoteFor(s.net, q, x);
    k := VoteWasCast(env, run, steps, i, vote);
    NetRises(env, run, steps, k, i);
    CastForOwn(env, run, steps, i, k, q, vote, x);
  }

  lemma OneProposalPerHash(env: Env, s: Sys, x: Msg)
    requires |s.reps| == env.c.n && OwnProposals(env, s) && x in s.net && x.Proposal? && Honest(env, x.src)
    ensures OnlyProposal(s.net, x.src, x.hash, x)
  {
    forall y | y in s.net && y.Proposal? && y.src == x.src && y.hash == x.hash ensures y == x {
      assert OwnProposal(s.reps[x.src], y) && OwnProposal(s.reps[x.src], x);
    }
  }

  lemma VoteFor(net: set<Msg>, q: int, x: Msg) returns (vote: Msg)
    requires x.Proposal? && Voted(net, q, x)
    ensures vote in net && vote.Vote? && vote.src == q && vote.dst == x.src && vote.hash == x.hash &&
        vote.view == x.view
  {
    vote :| vote in net && vote.Vote? && vote.src == q && vote.dst == x.src && vote.hash == x.hash &&
        vote.view == x.view;
  }

  /** A vote sent to another replica answers that replica's proposal. */
  lemma CastForOwn(env: Env, run: seq<Sys>, steps: seq<Step>, i: nat, k: nat, q: int, vote: Msg, x: Msg)
    requires IsRun(env, run, steps) && i < |run| && CastAt(run, steps, k, q, vote) && run[k].net <= run[i].net
    requires x.Proposal? && vote.Vote? && vote.dst == x.src && vote.src == q && q != x.src && vote.view == x.view
    requires OnlyProposal(run[i].net, x.src, x.hash, x) && vote.hash == x.hash
    ensures steps[k] == Local(q, Deliver(x)) && run[k].reps[q].view == x.view
    ensures vote == Vote(q, x.src, x.view, x.num, x.hash, Signed(q, VoteOn(x.hash)))
  {
  }

  // ----- where blocks come from -----

  /** A certificate some vote completed before state i, or the initial block. */
  ghost predicate Formed(env: Env, run: seq<Sys>, steps: seq<Step>, i: int, b: QCBlock)
    requires IsRun(env, run, steps)
  {
    b == ZERO_BLOCK || exists k, p :: k < i && Certifies(env, run, steps, k, p, b)
  }

  ghost predicate AllFormed(env: Env, run: seq<Sys>, steps: seq<Step>, i: nat)
    requires IsRun(env, run, steps) && i < |run|
  {
    && (forall p :: 0 <= p < env.c.n ==> Formed(env, run, steps, i, run[i].reps[p].chain.curBlock))
    && (forall m :: m in run[i].net && m.Proposal? ==> Formed(env, run, steps, i, m.qc))
    && (forall m :: m in run[i].net && m.ViewChange? ==> Formed(env, run, steps, i, m.block))
  }

  /** Blocks enter the chain by a vote, a VIEWCHANGE or a proposal. */
  lemma BlockComesFrom(c: Config, r: Replica, e: Event)
    requires Active(r)
    ensures var b := Handle(c, r, e).r.chain.curBlock;
      || b == r.chain.curBlock
      || (e.Deliver? && e.m.Vote? && Completes(c, r, e.m))
      || (e.Deliver? && e.m.ViewChange? && b == e.m.block)
      || (e.Deliver? && e.m.Proposal? && b == e.m.qc)
  {
    if e.Deliver? {
      MessageBrings(c, r, e.m);
    }
  }

  lemma MessageBrings(c: Config, r: Replica, m: Msg)
    requires Active(r)
    ensures var b := Dispatch(c, r, m).r.chain.curBlock;
      || b == r.chain.curBlock
      || (m.Vote? && Completes(c, r, m))
      || (m.ViewChange? && b == m.block)
      || (m.Proposal? && b == m.qc)
  {
  }

  lemma SentBlocks(c: Config, r: Replica, e: Event, x: Msg)
    requires Active(r) && x in Handle(c, r, e).sent
    ensures x.Proposal? ==> x.qc == r.chain.curBlock || x.qc == ZERO_BLOCK
    ensures x.ViewChange? ==> x.block == r.chain.curBlock
  {
  }

  lemma StepKeepsFormed(env: Env, run: seq<Sys>, steps: seq<Step>, i: nat)
    requires env.byz == {} && IsRun(env, run, steps) && i + 1 < |run| && Awakened(env, run[i])
    requires AllFormed(env, run, steps, i)
    ensures AllFormed(env, run, steps, i + 1)
  {
    var s, s', st := run[i], run[i + 1], steps[i];
    assert StepAt(env, run, steps, i);
    forall b | Formed(env, run, steps, i, b) ensures Formed(env, run, steps, i + 1, b) {}
    forall p | 0 <= p < env.c.n ensures Formed(env, run, steps, i + 1, s'.reps[p].chain.curBlock) {
      assert Formed(env, run, steps, i, s.reps[p].chain.curBlock);
      if p == st.p {
        BlockComesFrom(env.c, s.reps[p], st.e);
        if st.e.Deliver? && st.e.m.Vote? && Completes(env.c, s.reps[p], st.e.m) {
          assert Certifies(env, run, steps, i, p, s'.reps[p].chain.curBlock);
        }
      }
    }
    forall m | m in s'.net && (m.Proposal? || m.ViewChange?)
      ensures Formed(env, run, steps, i + 1, if m.Proposal? then m.qc else m.block)
    {
      if m !in s.net {
        SentBlocks(env.c, s.reps[st.p], st.e, m);
        assert Formed(env, run, steps, i, s.reps[st.p].chain.curBlock);
      }
    }
  }

  /** When every replica follows the code, every block any of them holds was
      certified by some vote, so what is said of certificates holds of it. */
  lemma {:induction false} HeldBlocksWereCertified(env: Env, run: seq<Sys>, steps: seq<Step>, i: nat)
    requires env.byz == {} && IsRun(env, run, steps) && NoSleeps(steps) && i < |run|
    ensures AllFormed(env, run, steps, i)
  {
    if i > 0 {
      HeldBlocksWereCertified(env, run, steps, i - 1);
      RunVotes(env, run, steps, i - 1);
      StepKeepsFormed(env, run, steps, i - 1);
    }
  }

  // ----- when the certificate's view is not the votes' view -----

  /** A leader that votes for another's proposal repeating the hash of its own
      proposal x of an earlier view sends the vote to itself too.  If it is the
      one missing, the certificate names the present view, while every other
      vote counted, of replicas that are not arbitrary, was cast for x in the
      earlier view of x. */
  lemma EchoedHashMixesViews(env: Env, run: seq<Sys>, steps: seq<Step>, i: nat, p: int, x: Msg, y: Msg)
    requires IsRun(env, run, steps) && NoSleeps(steps) && i < |run| && Honest(env, p)
    requires x in run[i].net && x.Proposal? && x.src == p && x.view < run[i].reps[p].view
    requires y in run[i].net && y.Proposal? && y.src != p && y.hash == x.hash
    requires var r := run[i].reps[p];
      && r.leader && r.status != VIEWCHANGE && y.view >= r.view && VerifyBlock(env.c, r, y.num, y.src, y.qc)
      && BlockCert(x.hash) !in r.prepared && y.num !in r.pending.awaiting
      && p !in VotersOf(r.votes, x.hash) && |VotersOf(r.votes, x.hash)| + 1 >= env.c.quorum
    ensures var r := run[i].reps[p];
      var own := Vote(p, p, r.view, y.num, x.hash, Signed(p, VoteOn(x.hash)));
      var b := OnVote(env.c, OnProposal(env.c, r, y).r, own).r.chain.curBlock;
      && own in OnProposal(env.c, r, y).sent
      && b.hash == x.hash && b.view == r.view > x.view
      && Elements(b.ids) == VotersOf(r.votes, x.hash) + {p}
      && forall q :: q in b.ids && q != p && Honest(env, q) ==> Voted(run[i].net, q, x)
  {
    var r := run[i].reps[p];
    RunVotes(env, run, steps, i);
    OneProposalPerHash(env, run[i], x);
    var own := Vote(p, p, r.view, y.num, x.hash, Signed(p, VoteOn(x.hash)));
    OwnVoteCompletes(env.c, r, y, own);
    var b := OnVote(env.c, OnProposal(env.c, r, y).r, own).r.chain.curBlock;
    assert VotersOk(env, run[i].net, p, r.votes);
    forall q | q in b.ids && q != p && Honest(env, q) ensures Voted(run[i].net, q, x) {
      assert q in Elements(b.ids);
      assert VotedInView(run[i].net, p, x.hash, q);
    }
  }

  lemma OwnVoteCompletes(c: Config, r: Replica, y: Msg, own: Msg)
    requires r.leader && Active(r) && r.status != VIEWCHANGE && y.Proposal? && y.src != r.id && y.view >= r.view
    requires VerifyBlock(c, r, y.num, y.src, y.qc) && BlockCert(y.hash) !in r.prepared && y.num !in r.pending.awaiting
    requires r.id !in VotersOf(r.votes, y.hash) && |VotersOf(r.votes, y.hash)| + 1 >= c.quorum && Mirrors(r.votes)
    requires own == Vote(r.id, r.id, r.view, y.num, y.hash, Signed(r.id, VoteOn(y.hash)))
    ensures own in OnProposal(c, r, y).sent
    ensures var b := OnVote(c, OnProposal(c, r, y).r, own).r.chain.curBlock;
      b.hash == y.hash && b.view == r.view && Elements(b.ids) == VotersOf(r.votes, y.hash) + {r.id}
  {
    var r1 := OnProposal(c, r, y).r;
    var book := AddVote(r.votes, y.hash, r.id, Some(own.sig));
    AddVoteMirrors(r.votes, y.hash, r.id, Some(own.sig));
    assert MirrorsAt(book, y.hash);
    assert r1.votes == r.votes && r1.prepared == r.prepared && r1.view == r.view && r1.pending == r.pending;
    assert |VotersOf(book, y.hash)| == |VotersOf(r.votes, y.hash)| + 1;
  }
}
