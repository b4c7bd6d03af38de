/** The ledger over whole runs without state loss: write-once and ordered,
    through proposals, vote certificates and VIEWCHANGE adoption. */
module Ledgers {
  import opened Messages
  import opened Quorums
  import opened ReplicaSpec
  import opened System
  import opened Certs
  import opened VoteViews
  import opened Pipeline

  /** A leader handles only its own proposals. */
  ghost predicate OwnProposalsOnly(env: Env, run: seq<Sys>, steps: seq<Step>)
    requires IsRun(env, run, steps)
  {
    forall i {:trigger steps[i]} ::
      0 <= i < |steps| && steps[i].Local? && Honest(env, steps[i].p) && steps[i].e.Deliver? ==>
        (steps[i].e.m.Proposal? && run[i].reps[steps[i].p].leader ==> steps[i].e.m.src == steps[i].p)
  }

  ghost predicate OwnOnly(r: Replica, e: Event) {
    e.Deliver? && e.m.Proposal? && r.leader ==> e.m.src == r.id && e.m.qc.height <= r.chain.curBlock.height
  }

  /** One event at an ordered replica: still ordered, nothing rewritten, and a
      leader's own proposals leave its lock and ledger alone. */
  lemma EventKeepsOrder(c: Config, r: Replica, e: Event)
    requires Steady(c, r) && NormalEvent(e) && Ordered(r.chain) && OwnOnly(r, e)
    requires e.Deliver? && e.m.Proposal? ==> Certified(e.m.qc)
    requires e.Deliver? && e.m.ViewChange? ==> (e.m.block.hash == NoHash || e.m.block.height >= 1)
    ensures var r' := Handle(c, r, e).r;
      && Ordered(r'.chain) && Extends(r.chain.committed, r'.chain.committed)
      && (e.Deliver? && e.m.Proposal? && r.leader ==>
            r'.chain.lockedBlock == r.chain.lockedBlock && r'.chain.committed == r.chain.committed)
  {
    if e.Deliver? && e.m.Proposal? {
      ProposalKeepsOrder(c, r, e.m);
    } else {
      QuietEvent(c, r, e);
    }
  }

  lemma ProposalKeepsOrder(c: Config, r: Replica, m: Msg)
    requires m.Proposal? && Active(r) && Ordered(r.chain) && OwnOnly(r, Deliver(m)) && Certified(m.qc)
    ensures var r' := OnProposal(c, r, m).r;
      && Ordered(r'.chain) && Extends(r.chain.committed, r'.chain.committed)
      && (r.leader ==> r'.chain.lockedBlock == r.chain.lockedBlock && r'.chain.committed == r.chain.committed)
  {
    var ch := if r.leader then r.chain else r.chain.(awaitingCopy := r.chain.awaitingCopy + {m.num});
    assert Ordered(ch);
    ProcessKeepsOrder(c, r.leader, ch, m.qc, m.num);
    ProcessWritesOnce(c, r.leader, ch, m.qc, m.num);
  }

  /** A vote p sent itself, if leaders handle only their own proposals, was for one of its own view. */
  lemma OwnVoteIsCurrent(env: Env, run: seq<Sys>, steps: seq<Step>, i: nat, p: int, m: Msg, own: Msg)
    requires CrashOnly(env) && IsRun(env, run, steps) && NoSleeps(steps) && OwnProposalsOnly(env, run, steps)
    requires i < |run| && Honest(env, p) && m in run[i].net && m.Vote? && m.src == m.dst == p
    requires OnlyProposal(run[i].net, p, m.hash, own)
    ensures own.view >= m.view
  {
    var k := VoteWasCast(env, run, steps, i, m);
    RunVotes(env, run, steps, k);
    NetRises(env, run, steps, k, i);
    assert steps[k].e.m == own;
  }

  lemma OthersVoteIsCurrent(env: Env, s: Sys, p: int, m: Msg, own: Msg)
    requires VotesInv(env, s) && Honest(env, p) && m in s.net && m.Vote? && Honest(env, m.src) && m.dst == p != m.src
    requires OnlyProposal(s.net, p, m.hash, own)
    ensures own.view >= m.view
  {
    var x :| ProposedFor(s.net, x, m);
  }

  /** So such runs complete no late certificate. */
  lemma OwnOnlyIsAwake(env: Env, run: seq<Sys>, steps: seq<Step>, i: nat)
    requires CrashOnly(env) && IsRun(env, run, steps) && NoSleeps(steps) && OwnProposalsOnly(env, run, steps)
    requires i < |steps|
    ensures Awake(env.c, run[i], steps[i])
  {
    var s, st := run[i], steps[i];
    if st.Local? && 0 <= st.p < |s.reps| && st.e.Deliver? && LateCertificate(env.c, s, st.p, st.e.m) {
      var p, m := st.p, st.e.m;
      var own :| own in s.net && own.Proposal? && own.src == p && own.hash == m.hash && own.view < s.reps[p].view;
      RunVotes(env, run, steps, i);
      OneProposalPerHash(env, s, own);
      CertificateMeans(env, run, steps, i, p, run[i + 1].reps[p].chain.curBlock);
      VoterIsHonest(env, run, steps, i, m);
      if m.src == p {
        OwnVoteIsCurrent(env, run, steps, i, p, m, own);
      } else {
        OthersVoteIsCurrent(env, s, p, m, own);
      }
      assert false;
    }
  }

  lemma OwnOnlyRunIsAwake(env: Env, run: seq<Sys>, steps: seq<Step>)
    requires CrashOnly(env) && IsRun(env, run, steps) && NoSleeps(steps) && OwnProposalsOnly(env, run, steps)
    ensures AwakeRun(env, run, steps)
  {
    forall i | 0 <= i < |steps| ensures Awake(env.c, run[i], steps[i]) {
      OwnOnlyIsAwake(env, run, steps, i);
    }
  }

  lemma RunStepKeepsOrder(env: Env, run: seq<Sys>, steps: seq<Step>, i: nat, p: int)
    requires CrashOnly(env) && AwakeRun(env, run, steps) && OwnProposalsOnly(env, run, steps)
    requires i < |steps| && 0 <= p < env.c.n && Ordered(run[i].reps[p].chain)
    ensures Ordered(run[i + 1].reps[p].chain)
    ensures Extends(run[i].reps[p].chain.committed, run[i + 1].reps[p].chain.committed)
  {
    RunCerts(env, run, steps, i);
    assert StepAt(env, run, steps, i);
    if steps[i].Local? && steps[i].p == p {
      ActorKeepsOrder(env, run[i], run[i + 1], p, steps[i].e);
    } else {
      OthersKeepChain(env, run[i], run[i + 1], steps[i], p);
    }
  }

  lemma OthersKeepChain(env: Env, s: Sys, s': Sys, st: Step, p: int)
    requires Next(env, s, s', st) && 0 <= p < env.c.n == |s.reps| && (st.Local? ==> st.p != p)
    ensures p < |s'.reps| && s'.reps[p] == s.reps[p]
  {
  }

  lemma ActorKeepsOrder(env: Env, s: Sys, s': Sys, p: int, e: Event)
    requires CrashOnly(env) && CertInv(env.c, s) && 0 <= p < env.c.n && |s'.reps| == env.c.n
    requires Next(env, s, s', Local(p, e)) && Awake(env.c, s, Local(p, e)) && Ordered(s.reps[p].chain)
    requires e.Deliver? && e.m.Proposal? && s.reps[p].leader ==> e.m.src == p
    ensures Ordered(s'.reps[p].chain) && Extends(s.reps[p].chain.committed, s'.reps[p].chain.committed)
  {
    StepAllowed(env, s, s', p, e);
    EventKeepsOrder(env.c, s.reps[p], e);
  }

  /** What the certificate invariant grants to the event of a step. */
  lemma StepAllowed(env: Env, s: Sys, s': Sys, p: int, e: Event)
    requires CrashOnly(env) && CertInv(env.c, s) && 0 <= p < env.c.n && |s'.reps| == env.c.n
    requires Next(env, s, s', Local(p, e)) && Awake(env.c, s, Local(p, e))
    requires e.Deliver? && e.m.Proposal? && s.reps[p].leader ==> e.m.src == p
    ensures Steady(env.c, s.reps[p]) && NormalEvent(e) && OwnOnly(s.reps[p], e)
    ensures e.Deliver? && e.m.Proposal? ==> Certified(e.m.qc)
    ensures e.Deliver? && e.m.ViewChange? ==> (e.m.block.hash == NoHash || e.m.block.height >= 1)
  {
    assert Steady(env.c, s.reps[p]) && s.reps[p].id == p;
    if e.Deliver? && e.m.Proposal? {
      assert ProposalOk(env.c, s, e.m);
      assert BlockOk(env.c, s, e.m.qc);
    }
    if e.Deliver? && e.m.ViewChange? {
      assert BlockOk(env.c, s, e.m.block);
    }
  }

  /** In every run without sleeps where a leader handles only its own proposals,
      committed height < lock height < block height holds outside height 0. */
  lemma {:induction false} LedgerIsOrdered(env: Env, run: seq<Sys>, steps: seq<Step>, i: nat, p: int)
    requires CrashOnly(env) && IsRun(env, run, steps) && NoSleeps(steps) && OwnProposalsOnly(env, run, steps)
    requires i < |run| && 0 <= p < env.c.n
    ensures Ordered(run[i].reps[p].chain)
  {
    if i > 0 {
      OwnOnlyRunIsAwake(env, run, steps);
      LedgerIsOrdered(env, run, steps, i - 1, p);
      RunStepKeepsOrder(env, run, steps, i - 1, p);
    }
  }

  /** ... and no ledger entry ever changes value. */
  lemma {:induction false} LedgerIsWriteOnce(env: Env, run: seq<Sys>, steps: seq<Step>, i: nat, j: nat, p: int)
    requires CrashOnly(env) && IsRun(env, run, steps) && NoSleeps(steps) && OwnProposalsOnly(env, run, steps)
    requires i <= j < |run| && 0 <= p < env.c.n
    ensures Extends(run[i].reps[p].chain.committed, run[j].reps[p].chain.committed)
  {
    if i < j {
      OwnOnlyRunIsAwake(env, run, steps);
      LedgerIsWriteOnce(env, run, steps, i, j - 1, p);
      LedgerIsOrdered(env, run, steps, j - 1, p);
      RunStepKeepsOrder(env, run, steps, j - 1, p);
    }
  }
}
