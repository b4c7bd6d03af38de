/** What a sleep costs a replica: all it was collecting, and none of the requests
    it was handed; and what it waits for when it returns. */
module Sleeping {
  import opened Messages
  import opened Quorums
  import opened Buffers
  import opened ReplicaSpec
  import opened System
  import opened Views
  import opened StoredCerts
  import opened Evidence

  // ----- what is forgotten -----

  /** An empty ledger is stored when a replica starts, where ledgers are stored. */
  function LedgerOnDisk(c: Config, r: Replica): Option<Ledger> {
    if c.level == NoPersist || r.chain.committed != map[] then r.chain.diskCommitted else Some(map[])
  }

  /** A replica wakes up as a new one would start, but for its ledger, its
      requests, its goroutines, its disk and the request it sends. */
  lemma WakesAsNew(c: Config, r: Replica, ts: int)
    requires r.status == SLEEPING
    ensures var r', blank := Handle(c, r, WakeUp(ts)).r, Fresh(c, r.id);
      r' == blank.(status := RECOVERING, rec := Recovery(-2, Some(FirstRequest(r.id, ts)), map[]),
                   pending := blank.pending.(queue := r.pending.queue), spawned := r.spawned,
                   diskView := if c.level == NoPersist then r.diskView else Some(0),
                   chain := blank.chain.(committed := r.chain.committed, diskLocked := r.chain.diskLocked,
                                         diskCommitted := LedgerOnDisk(c, r)))
  {
  }

  predicate VotesBy(e: Event, h: Digest, q: int) {
    e.Deliver? && e.m.Vote? && e.m.hash == h && e.m.src == q
  }

  lemma VotersGrow(c: Config, r: Replica, e: Event, h: Digest, q: int)
    requires q in VotersOf(Handle(c, r, e).r.votes, h)
    ensures q in VotersOf(r.votes, h) || VotesBy(e, h, q)
  {
    if Handle(c, r, e).r.votes != r.votes {
      if e.Deliver? && e.m.Vote? {
        BufferedVoteIsSigned(c, r, e.m);
      } else {
        OtherwiseEmptied(c, r, e);
      }
    }
  }

  /** Every vote a replica counts was delivered after it last woke up. */
  lemma {:induction false} CountedVotesAreRecent(c: Config, r: Replica, ts: int, es: seq<Event>, h: Digest, q: int)
    requires r.status == SLEEPING && q in VotersOf(HandleAll(c, Handle(c, r, WakeUp(ts)).r, es).votes, h)
    ensures exists i :: 0 <= i < |es| && VotesBy(es[i], h, q)
  {
    if es == [] {
      WakesAsNew(c, r, ts);
      assert false;
    } else {
      var n := |es| - 1;
      var r1 := HandleAll(c, Handle(c, r, WakeUp(ts)).r, es[..n]);
      VotersGrow(c, r1, es[n], h, q);
      if !VotesBy(es[n], h, q) {
        CountedVotesAreRecent(c, r, ts, es[..n], h, q);
        var i :| 0 <= i < n && VotesBy(es[..n][i], h, q);
        assert VotesBy(es[i], h, q);
      }
    }
  }

  // ----- what is not -----

  function HandedBy(e: Event): seq<Bytes> {
    if e.ClientRequests? then e.reqs else []
  }

  function Handed(es: seq<Event>): seq<Bytes> {
    if es == [] then [] else Handed(es[..|es| - 1]) + HandedBy(es[|es| - 1])
  }

  /** The requests of the proposal an event makes the replica send. */
  ghost function Taken(c: Config, r: Replica, e: Event): seq<Bytes> {
    if exists m :: m in Handle(c, r, e).sent && m.Proposal?
    then var m :| m in Handle(c, r, e).sent && m.Proposal?; m.ops else []
  }

  ghost function TakenBy(c: Config, r: Replica, es: seq<Event>): seq<Bytes> {
    if es == [] then []
    else TakenBy(c, r, es[..|es| - 1]) + Taken(c, HandleAll(c, r, es[..|es| - 1]), es[|es| - 1])
  }

  lemma EventConserves(c: Config, r: Replica, e: Event)
    ensures r.pending.queue + HandedBy(e) == Taken(c, r, e) + Handle(c, r, e).r.pending.queue
  {
    if e.ProposeBatch? && CanPropose(c, r) {
      var num, batch := r.chain.sequence + 1, Grab(c, r.pending.queue).0;
      var hash := Chained(r.chain.curHash, num, Join(batch));
      var m := Proposal(r.id, r.view, num, hash, FetchBlockInfo(r.chain, num), batch);
      assert Handle(c, r, e).sent == {m};
      assert m in Handle(c, r, e).sent;
    } else {
      SendsNoProposal(c, r, e);
    }
  }

  lemma SendsNoProposal(c: Config, r: Replica, e: Event)
    requires !(e.ProposeBatch? && CanPropose(c, r))
    ensures Taken(c, r, e) == [] && Handle(c, r, e).r.pending.queue == r.pending.queue + HandedBy(e)
  {
  }

  lemma Regroups(q0: seq<Bytes>, handed: seq<Bytes>, h: seq<Bytes>, taken: seq<Bytes>, t: seq<Bytes>,
                 q: seq<Bytes>, q': seq<Bytes>)
    requires q0 + handed == taken + q && q + h == t + q'
    ensures q0 + (handed + h) == (taken + t) + q'
  {
    assert q0 + (handed + h) == (q0 + handed) + h;
    assert (taken + q) + h == taken + (q + h);
    assert taken + (t + q') == (taken + t) + q';
  }

  /** No request is lost or repeated, through any events, sleeps and returns
      included: the requests proposed, in order, and then those still queued are
      exactly those the replica had and was handed. */
  lemma {:induction false} RequestsSurvive(c: Config, r: Replica, es: seq<Event>)
    ensures r.pending.queue + Handed(es) == TakenBy(c, r, es) + HandleAll(c, r, es).pending.queue
  {
    if es == [] {
    } else {
      var n := |es| - 1;
      var r1 := HandleAll(c, r, es[..n]);
      RequestsSurvive(c, r, es[..n]);
      EventConserves(c, r1, es[n]);
      Regroups(r.pending.queue, Handed(es[..n]), HandedBy(es[n]), TakenBy(c, r, es[..n]), Taken(c, r1, es[n]),
               r1.pending.queue, Handle(c, r1, es[n]).r.pending.queue);
    }
  }

  lemma OneAsleep(c: Config, r: Replica, e: Event)
    requires r.status == SLEEPING && !e.WakeUp?
    ensures Handle(c, r, e) == Out(r.(pending := r.pending.(queue := r.pending.queue + HandedBy(e))), {})
  {
    assert r.pending.queue + [] == r.pending.queue;
  }

  /** While asleep a replica sends nothing, and through any events nothing of it
      changes but the queue, which takes what it is handed. */
  lemma {:induction false} AsleepOnlyQueues(c: Config, r: Replica, es: seq<Event>)
    requires r.status == SLEEPING && forall i :: 0 <= i < |es| ==> !es[i].WakeUp?
    ensures HandleAll(c, r, es) == r.(pending := r.pending.(queue := r.pending.queue + Handed(es)))
    ensures es != [] ==> Handle(c, HandleAll(c, r, es[..|es| - 1]), es[|es| - 1]).sent == {}
  {
    if es == [] {
      assert r.pending.queue + [] == r.pending.queue;
    } else {
      var n := |es| - 1;
      AsleepOnlyQueues(c, r, es[..n]);
      OneAsleep(c, HandleAll(c, r, es[..n]), es[n]);
      Regroups(r.pending.queue, Handed(es[..n]), HandedBy(es[n]), [], [], r.pending.queue + Handed(es[..n]),
               r.pending.queue + Handed(es[..n]) + HandedBy(es[n]));
    }
  }

  /** A returning replica takes no part: until it is READY it sends nothing but
      its REC2 and certificates it received, and counts no vote, no VIEWCHANGE
      and no TIMEOUT; block and lock change by ECHO2s alone. */
  lemma ReturningTakesNoPart(c: Config, r: Replica, e: Event)
    requires r.status == RECOVERING
    ensures var o := Handle(c, r, e);
      && (forall x :: x in o.sent ==> x.Rec2? || (x.TQC? && e.Deliver? && x == e.m))
      && o.r.votes == r.votes && o.r.vcs == r.vcs && o.r.spawned == r.spawned
      && o.r.timeouts.senders == r.timeouts.senders
      && (o.r.timeouts != r.timeouts || o.r.view != r.view ==>
            e.Deliver? && e.m.TQC? && VerifyTQC(c, e.m.view, e.m.v) && e.m.view >= r.view)
      && (o.r.chain != r.chain ==> e.Deliver? && e.m.Echo2?)
  {
  }

  // ----- what a returning replica waits for -----

  /** A quorum gave up view w: of these, the replicas that are not arbitrary sent TIMEOUT for it. */
  ghost predicate GivenUpBy(env: Env, net: set<Msg>, w: int, q: set<int>) {
    q <= Ids(env.c.n) && |q| >= env.c.quorum && forall x :: x in q && x !in env.byz ==> TimeoutBy(x, w) in net
  }

  ghost predicate GivenUp(env: Env, net: set<Msg>, w: int) {
    exists q: set<int> :: GivenUpBy(env, net, w, q)
  }

  ghost predicate WaitsForReal(env: Env, net: set<Msg>, r: Replica) {
    r.status == RECOVERING && r.rec.hView >= 0 ==> Passed(env, net, r.rec.hView) && GivenUp(env, net, r.rec.hView)
  }

  lemma AcceptedAnswerIsReal(env: Env, s: Sys, m: Msg)
    requires EnvOk(env) && ViewInv(env, s) && m in s.net && m.Echo1? && m.view >= 0 && VerifyTQC(env.c, m.view, m.v)
    ensures Passed(env, s.net, m.view) && GivenUp(env, s.net, m.view)
  {
    SourcesDistinct(m.view, m.v);
    var q := SourcesOf(m.v);
    assert SignedInNet(env, s.net, m.v);
    forall x | x in q ensures 0 <= x < env.c.n && (x !in env.byz ==> TimeoutBy(x, m.view) in s.net) {
      EntryGenuine(m.view, m.v, x);
      assert x !in env.byz ==> TimeoutBy(x, m.view).src == x;
    }
    assert GivenUpBy(env, s.net, m.view, q);
    var x := HonestMember(q, env.byz);
    assert MsgPassed(env, s.net, TimeoutBy(x, m.view));
  }

  lemma AwaitedViewMoves(c: Config, r: Replica, e: Event)
    ensures var r' := Handle(c, r, e).r;
      r'.status == RECOVERING ==>
        || (r.status == RECOVERING && r'.rec.hView == r.rec.hView) || r'.rec.hView < 0
        || (e.Deliver? && e.m.Echo1? && VerifyTQC(c, e.m.view, e.m.v) && r'.rec.hView == e.m.view)
  {
  }

  lemma StepWaitsForReal(env: Env, s: Sys, s': Sys, st: Step, p: int)
    requires EnvOk(env) && env.c.level == NoPersist && ViewInv(env, s) && Next(env, s, s', st) && Honest(env, p)
    requires |s'.reps| == env.c.n && WaitsForReal(env, s.net, s.reps[p])
    ensures WaitsForReal(env, s'.net, s'.reps[p])
  {
    var r := s'.reps[p];
    if r.status == RECOVERING && r.rec.hView >= 0 {
      if st.Local? && st.p == p {
        AwaitedViewMoves(env.c, s.reps[p], st.e);
        if r.rec.hView != s.reps[p].rec.hView || s.reps[p].status != RECOVERING {
          AcceptedAnswerIsReal(env, s, st.e.m);
        }
      }
      PassedMono(env, s.net, s'.net, r.rec.hView);
      var q :| GivenUpBy(env, s.net, r.rec.hView, q);
      assert GivenUpBy(env, s'.net, r.rec.hView, q);
    }
  }

  lemma {:induction false} RunWaitsForReal(env: Env, run: seq<Sys>, steps: seq<Step>, i: nat, p: int)
    requires EnvOk(env) && env.c.level == NoPersist && IsRun(env, run, steps) && i < |run| && Honest(env, p)
    ensures WaitsForReal(env, run[i].net, run[i].reps[p])
  {
    if i > 0 {
      RunWaitsForReal(env, run, steps, i - 1, p);
      RunViewInv(env, run, steps, i - 1);
      assert StepAt(env, run, steps, i - 1);
      StepWaitsForReal(env, run[i - 1], run[i], steps[i - 1], p);
    }
  }

  /** Arbitrary replicas cannot make a returning replica wait for a view nobody
      reached: in every run, each view up to the highest it was told was given up
      by a quorum of distinct replicas. */
  lemma AwaitedViewsAreReal(env: Env, run: seq<Sys>, steps: seq<Step>, i: nat, p: int, w: int)
    requires EnvOk(env) && env.c.level == NoPersist && IsRun(env, run, steps) && i < |run| && Honest(env, p)
    requires run[i].reps[p].status == RECOVERING && 0 <= w <= run[i].reps[p].rec.hView
    ensures exists q: set<int> :: q <= Ids(env.c.n) && |q| >= env.c.quorum
              && forall x :: x in q && x !in env.byz ==> TimeoutBy(x, w) in run[i].net
  {
    RunWaitsForReal(env, run, steps, i, p);
    if w < run[i].reps[p].rec.hView {
      assert TimedOut(env, run[i].net, w);
      var q :| TimedOutBy(env, run[i].net, w, q);
    } else {
      var q :| GivenUpBy(env, run[i].net, w, q);
    }
  }
}
