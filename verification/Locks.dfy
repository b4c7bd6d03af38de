/** What the certificate invariant buys: locks never block a new leader. */
module Locks {
  import opened Messages
  import opened Quorums
  import opened Buffers
  import opened ReplicaSpec
  import opened System
  import opened Certs

  lemma {:induction false} NetGrows(env: Env, run: seq<Sys>, steps: seq<Step>, i: nat, j: nat)
    requires IsRun(env, run, steps) && i <= j < |run|
    ensures run[i].net <= run[j].net
  {
    if i < j {
      NetGrows(env, run, steps, i, j - 1);
      assert StepAt(env, run, steps, j - 1);
    }
  }

  lemma RunStepGrows(env: Env, run: seq<Sys>, steps: seq<Step>, i: nat)
    requires CrashOnly(env) && AwakeRun(env, run, steps) && i < |steps|
    ensures Grows(env.c, run[i], run[i + 1])
  {
    RunCerts(env, run, steps, i);
    assert StepAt(env, run, steps, i);
    StepGrows(env, run[i], run[i + 1], steps[i]);
  }

  lemma {:induction false} CertStays(env: Env, run: seq<Sys>, steps: seq<Step>, i: nat, j: nat, b: QCBlock)
    requires CrashOnly(env) && AwakeRun(env, run, steps) && i <= j < |run|
    requires BlockOk(env.c, run[i], b)
    ensures BlockOk(env.c, run[j], b)
  {
    if i < j {
      CertStays(env, run, steps, i, j - 1, b);
      RunStepGrows(env, run, steps, j - 1);
      CertMono(env.c, run[j - 1], run[j], b);
    }
  }

  /** A quorum of VIEWCHANGEs above a certificate's view reports at least the
      height the certificate was built on. */
  lemma ReportsReachCert(c: Config, s: Sys, net: set<Msg>, q: set<int>, h: int, b: QCBlock, v: int)
    requires VotesIntersect(c) && Roster(c, s) && VotesOk(c, s) && CertOk(c, s, b) && b.view < v && net <= s.net
    requires q <= Ids(c.n) && |q| >= c.quorum && forall x :: x in q ==> Reported(net, x, v, h)
    ensures h >= b.height - 1
  {
    DistinctSize(b.ids);
    var t := HonestOverlap(Elements(b.ids), q, {}, c.n, c.f);
    var p :| CertFor(s, b, p);
    assert Reported(net, t, v, h);
    var m :| m in net && m.ViewChange? && m.src == t && m.view == v && m.block.height <= h;
    if t != p.src {
      assert Voted(s.net, t, p);
      var vote :| vote in s.net && vote.Vote? && vote.src == t && vote.dst == p.src && vote.hash == p.hash &&
          vote.view == p.view;
      assert VoteOk(c, s, vote);
      assert Holds(s, t, vote.view, p.qc.height);
    }
  }

  /** Handling the proposal in step a made replica r lock a block. */
  ghost predicate LocksAt(env: Env, run: seq<Sys>, steps: seq<Step>, a: nat, r: int)
    requires IsRun(env, run, steps)
  {
    && a < |steps| && 0 <= r < env.c.n
    && steps[a].Local? && steps[a].p == r && steps[a].e.Deliver? && steps[a].e.m.Proposal?
    && run[a + 1].reps[r].chain.lockedBlock != run[a].reps[r].chain.lockedBlock
  }

  lemma LockedBelowCertificate(c: Config, r: Replica, m: Msg)
    requires m.Proposal? && OnProposal(c, r, m).r.chain.lockedBlock != r.chain.lockedBlock
    ensures 2 <= m.qc.height && OnProposal(c, r, m).r.chain.lockedBlock.height < m.qc.height
  {
  }

  lemma LockingCertificate(env: Env, run: seq<Sys>, steps: seq<Step>, a: nat, r: int, k: nat)
    requires CrashOnly(env) && AwakeRun(env, run, steps)
    requires LocksAt(env, run, steps, a, r) && a <= k < |run|
    ensures CertOk(env.c, run[k], steps[a].e.m.qc)
    ensures run[a + 1].reps[r].chain.lockedBlock.height < steps[a].e.m.qc.height
  {
    RunCerts(env, run, steps, a);
    assert StepAt(env, run, steps, a);
    assert Roster(env.c, run[a]) && BlocksOk(env.c, run[a]);
    LockedBelowCertificate(env.c, run[a].reps[r], steps[a].e.m);
    CertStays(env, run, steps, a, k, steps[a].e.m.qc);
  }

  lemma ViewQuorumReports(env: Env, run: seq<Sys>, steps: seq<Step>, j: nat, leader: int, v: int)
    requires CrashOnly(env) && AwakeRun(env, run, steps)
    requires j < |run| && 0 <= leader < env.c.n && ViewCert(v) in run[j].reps[leader].prepared
    ensures var r := run[j].reps[leader]; var q := SendersOf(r.vcs, v);
      && q <= Ids(env.c.n) && |q| >= env.c.quorum
      && forall x :: x in q ==> Reported(run[j].net, x, v, r.chain.curBlock.height)
  {
    RunCerts(env, run, steps, j);
    assert ViewsReady(env.c, run[j].reps[leader]) && CollectedOk(env.c, run[j]);
  }

  /** Locks never block a new leader.  Once a leader has its VIEWCHANGE quorum
      for view v, its block is at least as high as every lock that was set by a
      certificate formed below v, whenever that lock is or was set. */
  lemma LocksNeverBlock(env: Env, run: seq<Sys>, steps: seq<Step>, a: nat, r: int, j: nat, leader: int, v: int)
    requires CrashOnly(env) && AwakeRun(env, run, steps)
    requires LocksAt(env, run, steps, a, r) && steps[a].e.m.qc.view < v
    requires j < |run| && 0 <= leader < env.c.n && ViewCert(v) in run[j].reps[leader].prepared
    ensures run[j].reps[leader].chain.curBlock.height >= run[a + 1].reps[r].chain.lockedBlock.height
  {
    var k := if a < j then j else a;
    RunCerts(env, run, steps, k);
    NetGrows(env, run, steps, j, k);
    LockingCertificate(env, run, steps, a, r, k);
    ViewQuorumReports(env, run, steps, j, leader, v);
    ReportsReachCert(env.c, run[k], run[j].net, SendersOf(run[j].reps[leader].vcs, v),
                     run[j].reps[leader].chain.curBlock.height, steps[a].e.m.qc, v);
  }

  /** So the new leader's proposal, once it has a certified block to build on,
      passes the checks of VerifyBlock at every replica still holding that lock. */
  lemma NewLeadersProposalPasses(env: Env, run: seq<Sys>, steps: seq<Step>, a: nat, r: int, j: nat, x: Msg, t: nat)
    requires CrashOnly(env) && AwakeRun(env, run, steps)
    requires j < |steps| && t < |run| && steps[j].Local? && 0 <= steps[j].p < env.c.n
    requires x in Propose(env.c, run[j].reps[steps[j].p]).sent && x.Proposal? && x.view >= 1
    requires run[j].reps[steps[j].p].chain.curBlock.height >= 1
    requires LocksAt(env, run, steps, a, r) && steps[a].e.m.qc.view < x.view
    requires run[t].reps[r].chain.lockedBlock == run[a + 1].reps[r].chain.lockedBlock
    ensures VerifyBlock(env.c, run[t].reps[r], x.num, x.src, x.qc)
  {
    var p := steps[j].p;
    RunCerts(env, run, steps, j);
    assert Roster(env.c, run[j]) && ViewsReady(env.c, run[j].reps[p]);
    LocksNeverBlock(env, run, steps, a, r, j, p, x.view);
    assert x.qc == run[j].reps[p].chain.curBlock;
    assert BlockOk(env.c, run[j], x.qc);
  }
}
