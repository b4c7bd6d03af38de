/** In-memory recovery: a replica that lost its state and returns is in a view
    above every view it was active in before. */
module Freshness {
  import opened Messages
  import opened Quorums
  import opened ReplicaSpec
  import opened System
  import opened Views

  /** What the proof remembers of a run, per replica: the highest view it was
      active in, a quorum that gave up the view below that one when it woke up,
      and the replicas whose answers to its current request were counted. */
  datatype Memory = Memory(peak: int, quitters: set<int>, counted: set<int>)

  ghost function PickQuitters(env: Env, net: set<Msg>, w: int): (q: set<int>)
    ensures TimedOut(env, net, w) ==> TimedOutBy(env, net, w, q)
  {
    if TimedOut(env, net, w) then var q :| TimedOutBy(env, net, w, q); q else {}
  }

  ghost function Remember(env: Env, s: Sys, s': Sys, st: Step, h: seq<Memory>): (h': seq<Memory>)
    requires |h| == |s.reps| == |s'.reps| == env.c.n
    requires Next(env, s, s', st)
    ensures |h'| == |h|
  {
    if st.Arbitrary? then h
    else
      var p := st.p;
      var r, r', k := s.reps[p], s'.reps[p], h[p].peak;
      if st.e.WakeUp? && r.status == SLEEPING then
        h[p := Memory(k, PickQuitters(env, s.net, k - 1), {})]
      else if st.e.FinishWait? && WaitIsOver(r) then h[p := h[p].(counted := {})]
      else
        h[p := Memory(if Active(r') && r'.view > k then r'.view else k, h[p].quitters,
                      if Counted(r, r', st.e) then h[p].counted + {st.e.m.src} else h[p].counted)]
  }

  // ----- what one event does to status and recovery state -----

  /** An active replica's view never falls; it becomes active again only by an
      ECHO2 for its current request. */
  lemma StatusMoves(c: Config, r: Replica, e: Event)
    requires c.level == NoPersist
    ensures var r' := Handle(c, r, e).r;
      && (Active(r) && Active(r') ==> r'.view >= r.view)
      && (!Active(r) && Active(r') ==>
            r.status == RECOVERING && e.Deliver? && e.m.Echo2? && r.rec.reqHash == Some(e.m.req) && r'.view == r.view)
      && (!e.WakeUp? ==> r'.view >= r.view)
  {
    if e.Deliver? {
      if e.m.TQC? || e.m.ViewChange? || e.m.Timeout? {
        assert Handle(c, r, e).r.view >= r.view;
      } else {
        KeepsViewState(c, r, e.m);
      }
    } else if e.ProposeBatch? {
      ProposeKeepsViewState(c, r);
    }
  }

  ghost predicate Woke(r: Replica, r': Replica, e: Event, req: RecRequest) {
    && e.WakeUp? && r.status == SLEEPING && req == FirstRequest(r.id, e.ts)
    && r'.view == 0 && r'.rec.hView == -2
    && CountOf(r'.rec, req) == 0 && FirstEchoes(req) !in r'.prepared
  }

  ghost predicate KeptCount(r: Replica, r': Replica, req: RecRequest) {
    && CountOf(r'.rec, req) == CountOf(r.rec, req) && r'.rec.hView == r.rec.hView
    && (FirstEchoes(req) in r'.prepared <==> FirstEchoes(req) in r.prepared)
  }

  ghost predicate CountedEcho1(c: Config, r: Replica, r': Replica, e: Event, req: RecRequest) {
    && e.Deliver? && e.m.Echo1? && e.m.req == req
    && CountOf(r'.rec, req) == CountOf(r.rec, req) + 1
    && r'.rec.hView >= r.rec.hView && r'.rec.hView >= e.m.view
    && (FirstEchoes(req) in r'.prepared ==> CountOf(r'.rec, req) >= c.recQuorum)
  }

  ghost predicate CountedEcho2(r: Replica, r': Replica, e: Event, req: RecRequest) {
    && e.Deliver? && e.m.Echo2? && e.m.req == req
    && CountOf(r'.rec, req) == CountOf(r.rec, req) + 1 && r'.rec.hView == r.rec.hView
    && (FirstEchoes(req) in r'.prepared <==> FirstEchoes(req) in r.prepared)
  }

  /** A replica collecting answers to REC1 just woke up, or was collecting them before. */
  lemma FirstPhase(c: Config, r: Replica, e: Event, req: RecRequest)
    requires var r' := Handle(c, r, e).r; r'.status == RECOVERING && r'.rec.reqHash == Some(req) && req.FirstRequest?
    ensures var r' := Handle(c, r, e).r;
      || Woke(r, r', e, req)
      || (r.status == RECOVERING && r.rec.reqHash == Some(req) && r'.id == r.id
          && (KeptCount(r, r', req) || CountedEcho1(c, r, r', e, req) || CountedEcho2(r, r', e, req)))
  {
    var r' := Handle(c, r, e).r;
    if e.Deliver? && !e.m.Echo1? && !e.m.Echo2? {
      assert r'.rec == r.rec && r'.status == RECOVERING ==> r.status == RECOVERING;
    }
  }

  /** An ECHO2 that names the REC1 the replica still waits on, with acceptable
      blocks, completes the count that both kinds of reply share. */
  predicate ReturnsEarly(c: Config, r: Replica, e: Event) {
    && r.status == RECOVERING && r.rec.reqHash.Some? && r.rec.reqHash.value.FirstRequest?
    && e.Deliver? && e.m.Echo2? && e.m.req == r.rec.reqHash.value
    && SecondEchoes(e.m.req) !in r.prepared
    && VerifyQC(c, e.m.prepared) && VerifyQC(c, e.m.locked)
    && CountOf(r.rec, e.m.req) + 1 >= c.recQuorum
  }

  /** While a replica waits for answers to its REC1, an event makes it active
      exactly when it is such an ECHO2. */
  lemma LeavesFirstPhaseIff(c: Config, r: Replica, e: Event)
    requires r.status == RECOVERING && r.rec.reqHash.Some? && r.rec.reqHash.value.FirstRequest?
    ensures Active(Handle(c, r, e).r) <==> ReturnsEarly(c, r, e)
  {
    if e.Deliver? && !e.m.Echo2? {
      assert Receive(c, r, e.m).r.status == RECOVERING;
    }
  }

  /** A replica waiting for answers to REC2 finished the wait now, or was waiting for them before. */
  lemma SecondPhase(c: Config, r: Replica, e: Event)
    requires c.level == NoPersist
    requires var r' := Handle(c, r, e).r;
      r'.status == RECOVERING && r'.rec.reqHash.Some? && r'.rec.reqHash.value.SecondRequest?
    ensures r.status == RECOVERING && r.rec.reqHash.Some? && Handle(c, r, e).r.view >= r.view
    ensures r.rec.reqHash.value.SecondRequest? || (e.FinishWait? && WaitIsOver(r))
  {
    StatusMoves(c, r, e);
  }

  /** While recovering there is a current request. */
  lemma RecoveringAsks(c: Config, r: Replica, e: Event)
    requires r.status == RECOVERING ==> r.rec.reqHash.Some?
    ensures Handle(c, r, e).r.status == RECOVERING ==> Handle(c, r, e).r.rec.reqHash.Some?
  {
  }

  // ----- the invariant -----

  ghost predicate TimeoutsBelowPeak(env: Env, s: Sys, h: seq<Memory>)
    requires |h| == env.c.n
  {
    forall m :: m in s.net && m.Timeout? && Honest(env, m.src) ==> m.view <= h[m.src].peak
  }

  ghost predicate EchoesAnswer(env: Env, s: Sys) {
    && (forall m :: m in s.net && m.Echo1? && Honest(env, m.src) ==>
          m.req.FirstRequest? && Rec1(m.req.asker, m.req.ts) in s.net)
    && (forall m :: m in s.net && m.Echo2? && Honest(env, m.src) ==> m.req.SecondRequest?)
  }

  ghost predicate PeakOk(env: Env, net: set<Msg>, r: Replica, k: int) {
    && 0 <= k && Passed(env, net, k)
    && (Active(r) ==> r.view == k)
    && (forall v :: v in r.spawned.timers ==> v <= k)
    && (r.status == RECOVERING ==> r.rec.reqHash.Some?)
    && (r.status == RECOVERING && r.rec.reqHash.value.SecondRequest? ==> r.view > k)
  }

  /** An answer of q to the request, no higher than the recorded hView. */
  ghost predicate HeardBelow(net: set<Msg>, q: int, req: RecRequest, hView: int) {
    exists m :: m in net && m.Echo1? && m.src == q && m.req == req && m.view <= hView
  }

  ghost predicate AllHeardBelow(env: Env, net: set<Msg>, counted: set<int>, req: RecRequest, hView: int) {
    forall q :: q in counted && q !in env.byz ==> HeardBelow(net, q, req, hView)
  }

  ghost predicate EchoesAbove(env: Env, net: set<Msg>, quitters: set<int>, req: RecRequest, low: int) {
    forall m :: m in net && m.Echo1? && m.src in quitters && m.src !in env.byz && m.req == req ==> m.view >= low
  }

  /** The quitters gave up the view below the peak, and no ECHO1 of theirs for req
      names a view lower than the one before that. */
  ghost predicate QuitOk(env: Env, net: set<Msg>, mem: Memory, req: RecRequest) {
    mem.peak >= 1 ==>
      TimedOutBy(env, net, mem.peak - 1, mem.quitters) && EchoesAbove(env, net, mem.quitters, req, mem.peak - 2)
  }

  ghost predicate CollectingOk(env: Env, s: Sys, p: int, mem: Memory)
    requires 0 <= p < |s.reps|
  {
    var r := s.reps[p];
    r.status == RECOVERING && r.rec.reqHash.Some? && r.rec.reqHash.value.FirstRequest? ==>
      var req := r.rec.reqHash.value;
      && req.asker == p && Rec1(p, req.ts) in s.net
      && r.rec.hView >= -2
      && QuitOk(env, s.net, mem, req)
      && mem.counted <= Ids(env.c.n) && |mem.counted| == CountOf(r.rec, req)
      && (forall q :: q in mem.counted ==> (p, q, req) in s.heard)
      && AllHeardBelow(env, s.net, mem.counted, req, r.rec.hView)
      && (FirstEchoes(req) in r.prepared ==> |mem.counted| >= env.c.recQuorum)
  }

  ghost predicate FreshInv(env: Env, s: Sys, h: seq<Memory>) {
    && ViewInv(env, s) && |h| == env.c.n
    && TimeoutsBelowPeak(env, s, h) && EchoesAnswer(env, s)
    && (forall p :: Honest(env, p) ==> PeakOk(env, s.net, s.reps[p], h[p].peak))
    && (forall p :: Honest(env, p) ==> CollectingOk(env, s, p, h[p]))
  }

  ghost predicate EnvRecovers(env: Env) {
    EnvOk(env) && env.c.level == NoPersist && RecoveryIntersects(env.c)
  }

  /** The heart of the argument: when the wait is over, one counted answer came
      from a replica that had given up the view below the asker's highest, so the
      asker's view exceeds it. */
  lemma WaitEndsAbovePeak(env: Env, s: Sys, h: seq<Memory>, p: int)
    requires EnvRecovers(env) && FreshInv(env, s, h) && Honest(env, p)
    requires WaitIsOver(s.reps[p])
    ensures s.reps[p].view > h[p].peak
  {
    var r, mem := s.reps[p], h[p];
    var req := r.rec.reqHash.value;
    assert PeakOk(env, s.net, r, mem.peak);
    if req.FirstRequest? {
      assert CollectingOk(env, s, p, mem);
      if mem.peak >= 1 {
        var q := HonestOverlap(mem.quitters, mem.counted, env.byz, env.c.n, env.c.f);
        assert HeardBelow(s.net, q, req, r.rec.hView);
        var m :| m in s.net && m.Echo1? && m.src == q && m.req == req && m.view <= r.rec.hView;
        assert m.view >= mem.peak - 2;
      }
    }
  }

  // ----- preservation -----

  lemma StepKeepsTimeouts(env: Env, s: Sys, s': Sys, st: Step, h: seq<Memory>)
    requires EnvRecovers(env) && FreshInv(env, s, h) && Next(env, s, s', st) && |s'.reps| == env.c.n
    ensures TimeoutsBelowPeak(env, s', Remember(env, s, s', st, h))
  {
    var h' := Remember(env, s, s', st, h);
    assert forall q :: 0 <= q < env.c.n ==> h'[q].peak >= h[q].peak;
    forall m | m in s'.net && m.Timeout? && Honest(env, m.src) ensures m.view <= h'[m.src].peak {
      if m !in s.net {
        SentByHandle(env.c, s.reps[st.p], st.e, m);
        assert PeakOk(env, s.net, s.reps[st.p], h[st.p].peak);
      }
    }
  }

  lemma StepKeepsEchoes(env: Env, s: Sys, s': Sys, st: Step)
    requires env.c.level == NoPersist && Shape(env, s) && EchoesAnswer(env, s) && Next(env, s, s', st)
    ensures EchoesAnswer(env, s')
  {
    forall m | m in s'.net && (m.Echo1? || m.Echo2?) && Honest(env, m.src)
      ensures m.Echo1? ==> m.req.FirstRequest? && Rec1(m.req.asker, m.req.ts) in s'.net
      ensures m.Echo2? ==> m.req.SecondRequest?
    {
      if m !in s.net {
        SentByHandle(env.c, s.reps[st.p], st.e, m);
      }
    }
  }

  /** Answers of replicas that are not arbitrary name the kind of request they answer. */
  lemma {:induction false} RunEchoesAnswer(env: Env, run: seq<Sys>, steps: seq<Step>, i: nat)
    requires EnvOk(env) && env.c.level == NoPersist && IsRun(env, run, steps) && i < |run|
    ensures EchoesAnswer(env, run[i])
  {
    if i > 0 {
      RunEchoesAnswer(env, run, steps, i - 1);
      RunViewInv(env, run, steps, i - 1);
      assert StepAt(env, run, steps, i - 1);
      StepKeepsEchoes(env, run[i - 1], run[i], steps[i - 1]);
    }
  }

  /** A return out of the first phase, should this step be one, is to a view
      above every view the replica was active in. */
  ghost predicate SoundReturn(env: Env, s: Sys, st: Step, h: seq<Memory>)
    requires |s.reps| == |h| == env.c.n && (st.Local? ==> 0 <= st.p < env.c.n)
  {
    st.Local? && ReturnsEarly(env.c, s.reps[st.p], st.e) ==> s.reps[st.p].view > h[st.p].peak
  }

  lemma StepKeepsPeak(env: Env, s: Sys, s': Sys, st: Step, h: seq<Memory>, p: int)
    requires EnvRecovers(env) && FreshInv(env, s, h) && Next(env, s, s', st) && |s'.reps| == env.c.n
    requires ViewInv(env, s') && Honest(env, p) && SoundReturn(env, s, st, h)
    ensures PeakOk(env, s'.net, s'.reps[p], Remember(env, s, s', st, h)[p].peak)
  {
    var r, r', k := s.reps[p], s'.reps[p], h[p].peak;
    assert PeakOk(env, s.net, r, k);
    StepKeepsShape(env, s, s', st);
    PassedMono(env, s.net, s'.net, k);
    if st.Local? && st.p == p {
      var e := st.e;
      ReturnsAbovePeak(env, s, st, h);
      StatusMoves(env.c, r, e);
      ViewMoves(env.c, r, e);
      RecoveringAsks(env.c, r, e);
      assert ReplicaPassed(env, s'.net, r');
      if r'.status == RECOVERING && r'.rec.reqHash.value.SecondRequest? {
        SecondPhase(env.c, r, e);
        if e.FinishWait? && WaitIsOver(r) {
          WaitEndsAbovePeak(env, s, h, p);
        }
      }
    }
  }

  /** A replica becomes active again only above its peak. */
  lemma ReturnsAbovePeak(env: Env, s: Sys, st: Step, h: seq<Memory>)
    requires EnvRecovers(env) && FreshInv(env, s, h) && st.Local? && Honest(env, st.p) && SoundReturn(env, s, st, h)
    ensures var r' := Handle(env.c, s.reps[st.p], st.e).r;
      Active(r') && !Active(s.reps[st.p]) ==> r'.view > h[st.p].peak
  {
    var r := s.reps[st.p];
    assert PeakOk(env, s.net, r, h[st.p].peak);
    StatusMoves(env.c, r, st.e);
    if r.status == RECOVERING && r.rec.reqHash.value.FirstRequest? {
      LeavesFirstPhaseIff(env.c, r, st.e);
    }
  }

  lemma StepKeepsCollecting(env: Env, s: Sys, s': Sys, st: Step, h: seq<Memory>, p: int)
    requires EnvRecovers(env) && FreshInv(env, s, h) && Next(env, s, s', st) && |s'.reps| == env.c.n
    requires Honest(env, p)
    ensures CollectingOk(env, s', p, Remember(env, s, s', st, h)[p])
  {
    StepKeepsShape(env, s, s', st);
    assert CollectingOk(env, s, p, h[p]);
    if st.Local? && st.p == p {
      OwnStepKeepsCollecting(env, s, s', st, h);
    } else {
      OtherStepKeepsCollecting(env, s, s', st, h, p);
    }
  }

  /** Someone else's step: a new answer by a replica that quit that view comes from
      at or above the view it had given up. */
  lemma OtherStepKeepsCollecting(env: Env, s: Sys, s': Sys, st: Step, h: seq<Memory>, p: int)
    requires EnvRecovers(env) && FreshInv(env, s, h) && Next(env, s, s', st) && |s'.reps| == env.c.n
    requires Honest(env, p) && (st.Local? ==> st.p != p) && s.net <= s'.net
    ensures CollectingOk(env, s', p, h[p])
  {
    var r, mem := s.reps[p], h[p];
    assert CollectingOk(env, s, p, mem);
    if r.status == RECOVERING && r.rec.reqHash.Some? && r.rec.reqHash.value.FirstRequest? {
      var req := r.rec.reqHash.value;
      OthersKeepQuitters(env, s, s', st, h, mem, req);
      KeptCollecting(env, s, s', p, mem, mem, req);
    }
  }

  lemma OthersKeepQuitters(env: Env, s: Sys, s': Sys, st: Step, h: seq<Memory>, mem: Memory, req: RecRequest)
    requires EnvRecovers(env) && FreshInv(env, s, h) && Next(env, s, s', st) && s.net <= s'.net
    requires QuitOk(env, s.net, mem, req)
    ensures QuitOk(env, s'.net, mem, req)
  {
    if mem.peak >= 1 {
      EchoesStayAbove(env, s, s', st, h, mem, req);
      TimedOutByMono(env, s.net, s'.net, mem.peak - 1, mem.quitters);
    }
  }

  lemma EchoesStayAbove(env: Env, s: Sys, s': Sys, st: Step, h: seq<Memory>, mem: Memory, req: RecRequest)
    requires EnvRecovers(env) && FreshInv(env, s, h) && Next(env, s, s', st)
    requires TimedOutBy(env, s.net, mem.peak - 1, mem.quitters)
    requires EchoesAbove(env, s.net, mem.quitters, req, mem.peak - 2)
    ensures EchoesAbove(env, s'.net, mem.quitters, req, mem.peak - 2)
  {
    forall m | m in s'.net && m.Echo1? && m.src in mem.quitters && m.src !in env.byz && m.req == req
      ensures m.view >= mem.peak - 2
    {
      if m !in s.net {
        NewEchoAboveQuitters(env, s, st, h, mem, m);
      }
    }
  }

  lemma HeardStays(env: Env, s: Sys, s': Sys, counted: set<int>, req: RecRequest, hView: int)
    requires s.net <= s'.net && AllHeardBelow(env, s.net, counted, req, hView)
    ensures AllHeardBelow(env, s'.net, counted, req, hView)
  {
    forall q | q in counted && q !in env.byz ensures HeardBelow(s'.net, q, req, hView) {
      assert HeardBelow(s.net, q, req, hView);
      var m :| m in s.net && m.Echo1? && m.src == q && m.req == req && m.view <= hView;
      assert m in s'.net;
    }
  }

  lemma NewEchoAboveQuitters(env: Env, s: Sys, st: Step, h: seq<Memory>, mem: Memory, m: Msg)
    requires EnvRecovers(env) && FreshInv(env, s, h) && st.Local? && Honest(env, st.p)
    requires m in Handle(env.c, s.reps[st.p], st.e).sent && m !in s.net
    requires st.e.Deliver? ==> st.e.m in s.net
    requires m.Echo1? && m.src in mem.quitters && m.src !in env.byz
    requires TimedOutBy(env, s.net, mem.peak - 1, mem.quitters)
    ensures m.view >= mem.peak - 2
  {
    SentByHandle(env.c, s.reps[st.p], st.e, m);
    var q := m.src;
    assert q == st.p && Active(s.reps[q]);
    assert PeakOk(env, s.net, s.reps[q], h[q].peak);
    assert TimeoutBy(q, mem.peak - 1) in s.net;
    assert TimeoutBy(q, mem.peak - 1).view <= h[q].peak;
  }

  lemma OwnStepKeepsCollecting(env: Env, s: Sys, s': Sys, st: Step, h: seq<Memory>)
    requires EnvRecovers(env) && FreshInv(env, s, h) && Next(env, s, s', st) && |s'.reps| == env.c.n
    requires st.Local? && s.net <= s'.net
    ensures CollectingOk(env, s', st.p, Remember(env, s, s', st, h)[st.p])
  {
    var p, e := st.p, st.e;
    var r, r' := s.reps[p], s'.reps[p];
    if r'.status == RECOVERING && r'.rec.reqHash.Some? && r'.rec.reqHash.value.FirstRequest? {
      var req := r'.rec.reqHash.value;
      FirstPhase(env.c, r, e, req);
      if Woke(r, r', e, req) {
        WakingKeepsCollecting(env, s, s', st, h);
      } else {
        assert CountedEcho2(r, r', e, req) ==> e.m in s.net && !Honest(env, e.m.src);
        StillCollecting(env, s, s', st, h, req);
      }
    }
  }

  /** An ECHO1, or an ECHO2 of an arbitrary replica, is counted for the REC1. */
  ghost predicate CountedEcho(env: Env, r: Replica, r': Replica, e: Event, req: RecRequest) {
    CountedEcho1(env.c, r, r', e, req) || (CountedEcho2(r, r', e, req) && e.m.src in env.byz)
  }

  lemma StillCollecting(env: Env, s: Sys, s': Sys, st: Step, h: seq<Memory>, req: RecRequest)
    requires env.c.level == NoPersist && Next(env, s, s', st) && |h| == |s.reps| == |s'.reps| == env.c.n
    requires st.Local? && CollectingOk(env, s, st.p, h[st.p]) && forall m :: m in s.net ==> 0 <= m.src < env.c.n
    requires st.Local? && s.net <= s'.net && req.FirstRequest?
    requires var r, r' := s.reps[st.p], s'.reps[st.p];
      && r.status == RECOVERING && r.rec.reqHash == Some(req)
      && r'.status == RECOVERING && r'.rec.reqHash == Some(req) && r'.id == r.id
      && (KeptCount(r, r', req) || CountedEcho(env, r, r', st.e, req))
    ensures CollectingOk(env, s', st.p, Remember(env, s, s', st, h)[st.p])
  {
    QuittersStay(env, s, s', st, h[st.p], req);
    RememberWhileCollecting(env, s, s', st, h, req);
    if KeptCount(s.reps[st.p], s'.reps[st.p], req) {
      KeptCollecting(env, s, s', st.p, h[st.p], Remember(env, s, s', st, h)[st.p], req);
    } else {
      CountingKeepsCollecting(env, s, s', st, h, req);
    }
  }

  lemma QuittersStay(env: Env, s: Sys, s': Sys, st: Step, mem: Memory, req: RecRequest)
    requires env.c.level == NoPersist && Next(env, s, s', st) && st.Local? && |s.reps| == env.c.n
    requires CollectingOk(env, s, st.p, mem) && req.FirstRequest?
    requires s.reps[st.p].status == RECOVERING && s.reps[st.p].rec.reqHash == Some(req)
    ensures QuitOk(env, s'.net, mem, req)
  {
    OwnStepSendsNoEcho(env, s, s', st, mem, req);
  }

  lemma KeptCollecting(env: Env, s: Sys, s': Sys, p: int, mem: Memory, mem': Memory, req: RecRequest)
    requires 0 <= p < |s.reps| == |s'.reps| && CollectingOk(env, s, p, mem)
    requires s.net <= s'.net && s.heard <= s'.heard && mem' == mem && req.FirstRequest?
    requires s.reps[p].status == RECOVERING && s.reps[p].rec.reqHash == Some(req)
    requires s'.reps[p].rec.reqHash == Some(req) && KeptCount(s.reps[p], s'.reps[p], req)
    requires QuitOk(env, s'.net, mem, req)
    ensures CollectingOk(env, s', p, mem')
  {
    HeardStays(env, s, s', mem.counted, req, s.reps[p].rec.hView);
  }

  lemma RememberWhileCollecting(env: Env, s: Sys, s': Sys, st: Step, h: seq<Memory>, req: RecRequest)
    requires Next(env, s, s', st) && |h| == |s.reps| == |s'.reps| == env.c.n && st.Local? && req.FirstRequest?
    requires var r, r' := s.reps[st.p], s'.reps[st.p];
      && r.status == RECOVERING && r.rec.reqHash == Some(req)
      && r'.status == RECOVERING && r'.rec.reqHash == Some(req)
    ensures var mem, mem' := h[st.p], Remember(env, s, s', st, h)[st.p];
      && mem'.peak == mem.peak && mem'.quitters == mem.quitters
      && (KeptCount(s.reps[st.p], s'.reps[st.p], req) ==> mem'.counted == mem.counted)
  {
    var r, r' := s.reps[st.p], s'.reps[st.p];
    assert Counted(r, r', st.e) ==> st.e.m.req == req;
  }

  /** A recovering replica sends no ECHO1. */
  lemma OwnStepSendsNoEcho(env: Env, s: Sys, s': Sys, st: Step, mem: Memory, req: RecRequest)
    requires env.c.level == NoPersist && Next(env, s, s', st) && st.Local? && s.reps[st.p].status == RECOVERING
    requires QuitOk(env, s.net, mem, req)
    ensures QuitOk(env, s'.net, mem, req)
  {
    forall m | m in s'.net && m.Echo1? ensures m in s.net {
      if m !in s.net {
        SentByHandle(env.c, s.reps[st.p], st.e, m);
      }
    }
  }

  lemma WakingKeepsCollecting(env: Env, s: Sys, s': Sys, st: Step, h: seq<Memory>)
    requires Next(env, s, s', st) && |h| == |s.reps| == |s'.reps| == env.c.n && EchoesAnswer(env, s)
    requires forall m :: m in s.net ==> 0 <= m.src < env.c.n
    requires st.Local? && s.reps[st.p].id == st.p && PeakOk(env, s.net, s.reps[st.p], h[st.p].peak)
    requires st.Local? && st.e.WakeUp? && s.reps[st.p].status == SLEEPING && s.net <= s'.net
    ensures CollectingOk(env, s', st.p, Remember(env, s, s', st, h)[st.p])
  {
    var p, ts := st.p, st.e.ts;
    assert Woke(s.reps[p], s'.reps[p], st.e, FirstRequest(p, ts));
    assert Rec1(p, ts) in s'.net && s'.net == s.net + {Rec1(p, ts)};
    if h[p].peak >= 1 {
      WakingFindsQuitters(env, s, s', h[p].peak);
      NoEchoYet(env, s, s', FirstRequest(p, ts));
    }
    NewlyWoken(env, s', p, Remember(env, s, s', st, h)[p], FirstRequest(p, ts));
  }

  lemma NewlyWoken(env: Env, s: Sys, p: int, mem: Memory, req: RecRequest)
    requires 0 <= p < |s.reps| && req.FirstRequest? && req.asker == p && Rec1(p, req.ts) in s.net
    requires s.reps[p].rec.reqHash == Some(req) && s.reps[p].rec.hView == -2 && mem.counted == {}
    requires CountOf(s.reps[p].rec, req) == 0 && FirstEchoes(req) !in s.reps[p].prepared
    requires mem.peak >= 1 ==>
               && TimedOutBy(env, s.net, mem.peak - 1, mem.quitters)
               && (forall m :: m in s.net && m.Echo1? && m.src !in env.byz ==> m.req != req)
    ensures CollectingOk(env, s, p, mem)
  {
  }

  lemma WakingFindsQuitters(env: Env, s: Sys, s': Sys, k: int)
    requires k >= 1 && Passed(env, s.net, k) && s.net <= s'.net
    ensures TimedOutBy(env, s'.net, k - 1, PickQuitters(env, s.net, k - 1))
  {
    assert TimedOut(env, s.net, k - 1);
    assert TimedOutBy(env, s.net, k - 1, PickQuitters(env, s.net, k - 1));
  }

  lemma NoEchoYet(env: Env, s: Sys, s': Sys, req: RecRequest)
    requires EchoesAnswer(env, s) && req.FirstRequest? && Rec1(req.asker, req.ts) !in s.net
    requires s'.net == s.net + {Rec1(req.asker, req.ts)} && forall m :: m in s.net ==> 0 <= m.src < env.c.n
    ensures forall m :: m in s'.net && m.Echo1? && m.src !in env.byz ==> m.req != req
  {
    forall m | m in s'.net && m.Echo1? && m.src !in env.byz ensures m.req != req {
      assert m in s.net && Honest(env, m.src);
    }
  }

  lemma CountingKeepsCollecting(env: Env, s: Sys, s': Sys, st: Step, h: seq<Memory>, req: RecRequest)
    requires Next(env, s, s', st) && |h| == |s.reps| == |s'.reps| == env.c.n && s.net <= s'.net
    requires st.Local? && CountedEcho(env, s.reps[st.p], s'.reps[st.p], st.e, req)
    requires CollectingOk(env, s, st.p, h[st.p]) && forall m :: m in s.net ==> 0 <= m.src < env.c.n
    requires s.reps[st.p].status == RECOVERING && s.reps[st.p].rec.reqHash == Some(req) && req.FirstRequest?
    requires s'.reps[st.p].rec.reqHash == Some(req)
    requires QuitOk(env, s'.net, h[st.p], req)
    requires Remember(env, s, s', st, h)[st.p].peak == h[st.p].peak
    requires Remember(env, s, s', st, h)[st.p].quitters == h[st.p].quitters
    ensures CollectingOk(env, s', st.p, Remember(env, s, s', st, h)[st.p])
  {
    CountingStep(env, s, s', st, h, req);
    CountedCollecting(env, s, s', st.p, h[st.p], Remember(env, s, s', st, h)[st.p], st.e, req);
  }

  lemma CountedCollecting(env: Env, s: Sys, s': Sys, p: int, mem: Memory, mem': Memory, e: Event, req: RecRequest)
    requires 0 <= p < |s.reps| == |s'.reps| && CollectingOk(env, s, p, mem)
    requires CountedEcho(env, s.reps[p], s'.reps[p], e, req) && req.FirstRequest?
    requires s.reps[p].status == RECOVERING && s.reps[p].rec.reqHash == Some(req) && s'.reps[p].rec.reqHash == Some(req)
    requires s.net <= s'.net && s.heard <= s'.heard && e.m in s'.net && 0 <= e.m.src < env.c.n
    requires e.m.src !in mem.counted && (p, e.m.src, req) in s'.heard
    requires mem'.counted == mem.counted + {e.m.src} && mem'.peak == mem.peak && mem'.quitters == mem.quitters
    requires QuitOk(env, s'.net, mem, req)
    ensures CollectingOk(env, s', p, mem')
  {
    HeardOneMore(env, s, s', mem.counted, e.m, s.reps[p].rec.hView, s'.reps[p].rec.hView);
  }

  /** The answer counted is new, and is remembered. */
  lemma CountingStep(env: Env, s: Sys, s': Sys, st: Step, h: seq<Memory>, req: RecRequest)
    requires Next(env, s, s', st) && |h| == |s.reps| == |s'.reps| == env.c.n
    requires st.Local? && CountedEcho(env, s.reps[st.p], s'.reps[st.p], st.e, req)
    requires s.reps[st.p].status == RECOVERING && s.reps[st.p].rec.reqHash == Some(req)
    requires forall q :: q in h[st.p].counted ==> (st.p, q, req) in s.heard
    ensures st.e.m in s.net && st.e.m.src !in h[st.p].counted
    ensures (st.p, st.e.m.src, req) in s'.heard && s.heard <= s'.heard
    ensures Remember(env, s, s', st, h)[st.p].counted == h[st.p].counted + {st.e.m.src}
  {
    assert Counted(s.reps[st.p], s'.reps[st.p], st.e);
  }

  lemma HeardOneMore(env: Env, s: Sys, s': Sys, counted: set<int>, m: Msg, hView: int, hView': int)
    requires s.net <= s'.net && m in s'.net && hView <= hView'
    requires (m.Echo1? && m.view <= hView') || (m.Echo2? && m.src in env.byz)
    requires AllHeardBelow(env, s.net, counted, m.req, hView)
    ensures AllHeardBelow(env, s'.net, counted + {m.src}, m.req, hView')
  {
    HeardStays(env, s, s', counted, m.req, hView);
    forall q | q in counted + {m.src} && q !in env.byz ensures HeardBelow(s'.net, q, m.req, hView') {
      if q in counted {
        assert HeardBelow(s'.net, q, m.req, hView);
      }
    }
  }

  lemma StepKeepsFresh(env: Env, s: Sys, s': Sys, st: Step, h: seq<Memory>)
    requires EnvRecovers(env) && FreshInv(env, s, h) && Next(env, s, s', st) && |s'.reps| == env.c.n
    requires SoundReturn(env, s, st, h)
    ensures FreshInv(env, s', Remember(env, s, s', st, h))
  {
    StepKeepsShape(env, s, s', st);
    StepKeepsLists(env, s, s', st);
    StepKeepsPassed(env, s, s', st);
    StepKeepsTimeouts(env, s, s', st, h);
    StepKeepsEchoes(env, s, s', st);
    forall p | Honest(env, p)
      ensures PeakOk(env, s'.net, s'.reps[p], Remember(env, s, s', st, h)[p].peak)
      ensures CollectingOk(env, s', p, Remember(env, s, s', st, h)[p])
    {
      StepKeepsPeak(env, s, s', st, h, p);
      StepKeepsCollecting(env, s, s', st, h, p);
    }
  }

  // ----- runs -----

  /** Peaks rise, only to the view of an active replica, and a replica that
      returns does so above its peak. */
  ghost predicate PeakStep(r: Replica, r': Replica, k: int, k': int) {
    && (k' == k || (k' > k && Active(r') && r'.view == k'))
    && (Active(r') && !Active(r) ==> r'.view > k)
  }

  ghost predicate PeakSteps(env: Env, s: Sys, s': Sys, h: seq<Memory>, h': seq<Memory>)
    requires |s.reps| == |s'.reps| == |h| == |h'| == env.c.n
  {
    forall p :: Honest(env, p) ==> PeakStep(s.reps[p], s'.reps[p], h[p].peak, h'[p].peak)
  }

  lemma NextMemory(env: Env, s: Sys, s': Sys, st: Step, h: seq<Memory>) returns (h': seq<Memory>)
    requires EnvRecovers(env) && FreshInv(env, s, h) && Next(env, s, s', st) && |s'.reps| == env.c.n
    requires SoundReturn(env, s, st, h)
    ensures FreshInv(env, s', h') && PeakSteps(env, s, s', h, h')
  {
    StepKeepsFresh(env, s, s', st, h);
    h' := Remember(env, s, s', st, h);
    forall p | Honest(env, p) ensures PeakStep(s.reps[p], s'.reps[p], h[p].peak, h'[p].peak) {
      if st.Local? && st.p == p {
        ReturnsAbovePeak(env, s, st, h);
      }
    }
  }

  /** Replica p was active in view k in some state up to the n-th. */
  ghost predicate WasIn(run: seq<Sys>, p: int, n: int, k: int) {
    exists i :: 0 <= i <= n && i < |run| && 0 <= p < |run[i].reps| && Active(run[i].reps[p]) && run[i].reps[p].view == k
  }

  ghost predicate MemoryOk(env: Env, run: seq<Sys>, hs: seq<seq<Memory>>, i: nat)
    requires i < |hs| <= |run|
  {
    && FreshInv(env, run[i], hs[i])
    && (forall p :: Honest(env, p) ==> WasIn(run, p, i, hs[i][p].peak))
  }

  ghost predicate LinkOk(env: Env, run: seq<Sys>, hs: seq<seq<Memory>>, i: nat)
    requires i + 1 < |hs| <= |run|
  {
    && |run[i].reps| == |run[i + 1].reps| == |hs[i]| == |hs[i + 1]| == env.c.n
    && PeakSteps(env, run[i], run[i + 1], hs[i], hs[i + 1])
  }

  ghost predicate MemoriesOk(env: Env, run: seq<Sys>, hs: seq<seq<Memory>>) {
    && |hs| <= |run|
    && (forall i :: 0 <= i < |hs| ==> MemoryOk(env, run, hs, i))
    && (forall i :: 0 <= i < |hs| - 1 ==> LinkOk(env, run, hs, i))
  }

  /** Step t ends a replica's first phase. */
  ghost predicate EarlyReturn(env: Env, run: seq<Sys>, steps: seq<Step>, t: int)
    requires IsRun(env, run, steps)
  {
    && 0 <= t < |steps| && steps[t].Local? && Honest(env, steps[t].p)
    && ReturnsEarly(env.c, run[t].reps[steps[t].p], steps[t].e)
  }

  /** Step t, if it ends a first phase, does so in a view above every view the
      replica was active in. */
  ghost predicate FreshIfEarly(env: Env, run: seq<Sys>, steps: seq<Step>, t: int)
    requires IsRun(env, run, steps)
  {
    EarlyReturn(env, run, steps, t) ==>
      forall k :: WasIn(run, steps[t].p, t, k) ==> k < run[t].reps[steps[t].p].view
  }

  /** The memories of the states of a run, up to the n-th. */
  lemma {:induction false} Memories(env: Env, run: seq<Sys>, steps: seq<Step>, n: nat) returns (hs: seq<seq<Memory>>)
    requires EnvRecovers(env) && IsRun(env, run, steps) && n < |run|
    requires forall t :: 0 <= t < n ==> FreshIfEarly(env, run, steps, t)
    ensures |hs| == n + 1 && MemoriesOk(env, run, hs)
  {
    if n == 0 {
      hs := FirstMemory(env, run);
    } else {
      var pre := Memories(env, run, steps, n - 1);
      assert MemoryOk(env, run, pre, n - 1) && FreshIfEarly(env, run, steps, n - 1);
      assert StepAt(env, run, steps, n - 1);
      EarlyIsSound(env, run, steps, n - 1, pre[n - 1]);
      var h := NextMemory(env, run[n - 1], run[n], steps[n - 1], pre[n - 1]);
      OneMoreMemory(env, run, pre, h);
      hs := pre + [h];
    }
  }

  lemma FirstMemory(env: Env, run: seq<Sys>) returns (hs: seq<seq<Memory>>)
    requires EnvOk(env) && |run| >= 1 && Init(env, run[0])
    ensures |hs| == 1 && MemoriesOk(env, run, hs)
  {
    InitViewInv(env, run[0]);
    hs := [seq(env.c.n, _ => Memory(0, {}, {}))];
    forall p | Honest(env, p) ensures WasIn(run, p, 0, 0) {
      assert Active(run[0].reps[p]) && run[0].reps[p].view == 0;
    }
  }

  lemma EarlyIsSound(env: Env, run: seq<Sys>, steps: seq<Step>, t: nat, h: seq<Memory>)
    requires IsRun(env, run, steps) && t < |steps| && |h| == env.c.n && FreshIfEarly(env, run, steps, t)
    requires forall p :: Honest(env, p) ==> WasIn(run, p, t, h[p].peak)
    requires steps[t].Local? ==> Honest(env, steps[t].p)
    ensures SoundReturn(env, run[t], steps[t], h)
  {
  }

  lemma OneMoreMemory(env: Env, run: seq<Sys>, pre: seq<seq<Memory>>, h: seq<Memory>)
    requires MemoriesOk(env, run, pre) && 1 <= |pre| < |run| && FreshInv(env, run[|pre|], h)
    requires |run[|pre| - 1].reps| == |run[|pre|].reps| == |pre[|pre| - 1]| == |h| == env.c.n
    requires PeakSteps(env, run[|pre| - 1], run[|pre|], pre[|pre| - 1], h)
    ensures MemoriesOk(env, run, pre + [h])
  {
    var hs, n := pre + [h], |pre|;
    forall i | 0 <= i < |hs| ensures MemoryOk(env, run, hs, i) {
      if i < n {
        assert MemoryOk(env, run, pre, i) && hs[i] == pre[i];
      } else {
        assert MemoryOk(env, run, pre, n - 1);
        PeaksWereViews(env, run, pre[n - 1], h, n);
      }
    }
    forall i | 0 <= i < |hs| - 1 ensures LinkOk(env, run, hs, i) {
      if i < n - 1 {
        assert LinkOk(env, run, pre, i) && hs[i] == pre[i] && hs[i + 1] == pre[i + 1];
      }
    }
  }

  lemma PeaksWereViews(env: Env, run: seq<Sys>, h: seq<Memory>, h': seq<Memory>, n: nat)
    requires 1 <= n < |run| && |run[n - 1].reps| == |run[n].reps| == |h| == |h'| == env.c.n
    requires PeakSteps(env, run[n - 1], run[n], h, h') && forall p :: Honest(env, p) ==> WasIn(run, p, n - 1, h[p].peak)
    ensures forall p :: Honest(env, p) ==> WasIn(run, p, n, h'[p].peak)
  {
    forall p | Honest(env, p) ensures WasIn(run, p, n, h'[p].peak) {
      assert PeakStep(run[n - 1].reps[p], run[n].reps[p], h[p].peak, h'[p].peak);
      assert WasIn(run, p, n - 1, h[p].peak);
    }
  }

  lemma {:induction false} PeakGrows(env: Env, run: seq<Sys>, hs: seq<seq<Memory>>, i: nat, j: nat, p: int)
    requires MemoriesOk(env, run, hs) && i <= j < |hs| && Honest(env, p) && |hs[i]| == |hs[j]| == env.c.n
    ensures hs[i][p].peak <= hs[j][p].peak
  {
    if i < j {
      assert LinkOk(env, run, hs, j - 1);
      PeakGrows(env, run, hs, i, j - 1, p);
      assert PeakStep(run[j - 1].reps[p], run[j].reps[p], hs[j - 1][p].peak, hs[j][p].peak);
    }
  }

  ghost predicate Sized(run: seq<Sys>, p: int) {
    0 <= p && forall i :: 0 <= i < |run| ==> p < |run[i].reps|
  }

  /** One peak per state of a prefix: never falling, the view while active, and
      exceeded on every return. */
  ghost predicate PeaksOk(run: seq<Sys>, p: int, peaks: seq<int>)
    requires Sized(run, p)
  {
    && |peaks| <= |run|
    && (forall i, j :: 0 <= i <= j < |peaks| ==> peaks[i] <= peaks[j])
    && (forall i :: 0 <= i < |peaks| && Active(run[i].reps[p]) ==> run[i].reps[p].view == peaks[i])
    && (forall i {:trigger peaks[i]} :: 0 <= i < |peaks| - 1 ==>
          !Active(run[i].reps[p]) && Active(run[i + 1].reps[p]) ==> run[i + 1].reps[p].view > peaks[i])
  }

  lemma PeaksOf(env: Env, run: seq<Sys>, hs: seq<seq<Memory>>, p: int) returns (peaks: seq<int>)
    requires MemoriesOk(env, run, hs) && Honest(env, p) && Sized(run, p)
    ensures |peaks| == |hs| && PeaksOk(run, p, peaks)
  {
    forall i | 0 <= i < |hs| ensures |hs[i]| == env.c.n {
      assert MemoryOk(env, run, hs, i);
    }
    peaks := seq(|hs|, i requires 0 <= i < |hs| => hs[i][p].peak);
    forall i, j | 0 <= i <= j < |peaks| ensures peaks[i] <= peaks[j] {
      PeakGrows(env, run, hs, i, j, p);
    }
    forall i | 0 <= i < |peaks| && Active(run[i].reps[p]) ensures run[i].reps[p].view == peaks[i] {
      assert MemoryOk(env, run, hs, i);
      assert PeakOk(env, run[i].net, run[i].reps[p], hs[i][p].peak);
    }
    forall i | 0 <= i < |peaks| - 1 && !Active(run[i].reps[p]) && Active(run[i + 1].reps[p])
      ensures run[i + 1].reps[p].view > peaks[i]
    {
      assert LinkOk(env, run, hs, i);
      assert PeakStep(run[i].reps[p], run[i + 1].reps[p], hs[i][p].peak, hs[i + 1][p].peak);
    }
  }

  lemma {:induction false} ReturnsAbove(run: seq<Sys>, p: int, peaks: seq<int>, k: nat, j: nat)
    requires Sized(run, p)
    requires PeaksOk(run, p, peaks) && k < j < |peaks|
    requires run[k].reps[p].status == SLEEPING && Active(run[j].reps[p])
    ensures run[j].reps[p].view > peaks[k]
    decreases j
  {
    if Active(run[j - 1].reps[p]) {
      ReturnsAbove(run, p, peaks, k, j - 1);
      assert peaks[j - 1] <= peaks[j];
    } else {
      assert peaks[k] <= peaks[j - 1];
    }
  }

  /** Replica p was active in state i, asleep in state k and is active again in state j. */
  ghost predicate Slept(env: Env, run: seq<Sys>, i: int, k: int, j: int, p: int) {
    && 0 <= i < k < j < |run| && Honest(env, p) && Sized(run, p)
    && Active(run[i].reps[p]) && run[k].reps[p].status == SLEEPING && Active(run[j].reps[p])
  }

  /** Up to state j: if every end of a first phase was fresh, so was every return. */
  lemma ReturnIsFresh(env: Env, run: seq<Sys>, steps: seq<Step>, i: nat, k: nat, j: nat, p: int)
    requires EnvRecovers(env) && IsRun(env, run, steps) && Slept(env, run, i, k, j, p)
    requires forall t :: 0 <= t < j ==> FreshIfEarly(env, run, steps, t)
    ensures run[j].reps[p].view > run[i].reps[p].view
  {
    var hs := Memories(env, run, steps, j);
    var peaks := PeaksOf(env, run, hs, p);
    ReturnsAbove(run, p, peaks, k, j);
    assert peaks[i] <= peaks[k];
  }

  /** Recovery freshness.  In every run in which no ECHO2 naming a REC1 completes
      the shared count, a replica that is active again after a sleep is in a
      view above every view it was active in before. */
  lemma RecoveredViewsAreFresh(env: Env, run: seq<Sys>, steps: seq<Step>, i: nat, k: nat, j: nat, p: int)
    requires EnvRecovers(env) && IsRun(env, run, steps) && Slept(env, run, i, k, j, p)
    requires forall t :: 0 <= t < j ==> !EarlyReturn(env, run, steps, t)
    ensures run[j].reps[p].view > run[i].reps[p].view
  {
    ReturnIsFresh(env, run, steps, i, k, j, p);
  }

  /** Such a step is the only way: before a return at or below an earlier view
      there is one that itself returns some replica at or below an earlier view. */
  lemma StaleReturnsStartEarly(env: Env, run: seq<Sys>, steps: seq<Step>, i: nat, k: nat, j: nat, p: int)
    returns (t: nat)
    requires EnvRecovers(env) && IsRun(env, run, steps) && Slept(env, run, i, k, j, p)
    requires run[j].reps[p].view <= run[i].reps[p].view
    ensures t < j && EarlyReturn(env, run, steps, t)
    ensures exists v :: WasIn(run, steps[t].p, t, v) && run[t].reps[steps[t].p].view <= v
  {
    if forall x :: 0 <= x < j ==> FreshIfEarly(env, run, steps, x) {
      ReturnIsFresh(env, run, steps, i, k, j, p);
    }
    t :| 0 <= t < j && !FreshIfEarly(env, run, steps, t);
  }

  /** A replica active in state i and recovering in state t slept in between. */
  lemma {:induction false} SleptBetween(env: Env, run: seq<Sys>, steps: seq<Step>, i: nat, t: nat, p: int)
    returns (k: nat)
    requires env.c.level == NoPersist && IsRun(env, run, steps) && i <= t < |run| && 0 <= p < env.c.n
    requires Active(run[i].reps[p]) && run[t].reps[p].status == RECOVERING
    ensures i < k < t && run[k].reps[p].status == SLEEPING
    decreases t
  {
    assert StepAt(env, run, steps, t - 1);
    if run[t - 1].reps[p].status == RECOVERING {
      k := SleptBetween(env, run, steps, i, t - 1, p);
    } else {
      WakesFromSleep(env, run[t - 1], run[t], steps[t - 1], p);
      k := t - 1;
    }
  }

  lemma WakesFromSleep(env: Env, s: Sys, s': Sys, st: Step, p: int)
    requires Next(env, s, s', st) && 0 <= p < |s.reps| == |s'.reps|
    requires s.reps[p].status != RECOVERING && s'.reps[p].status == RECOVERING
    ensures s.reps[p].status == SLEEPING
  {
  }

  /** Exactly: in every run, all returns are fresh if and only if every ECHO2
      that ends a first phase finds its replica in a fresh view. */
  lemma ReturnsAreFreshIff(env: Env, run: seq<Sys>, steps: seq<Step>)
    requires EnvRecovers(env) && IsRun(env, run, steps)
    ensures (forall i, k, j, p :: Slept(env, run, i, k, j, p) ==> run[j].reps[p].view > run[i].reps[p].view)
            <==> (forall t :: 0 <= t < |steps| ==> FreshIfEarly(env, run, steps, t))
  {
    if forall t :: 0 <= t < |steps| ==> FreshIfEarly(env, run, steps, t) {
      forall i, k, j, p | Slept(env, run, i, k, j, p) ensures run[j].reps[p].view > run[i].reps[p].view {
        ReturnIsFresh(env, run, steps, i, k, j, p);
      }
    }
    if forall i, k, j, p :: Slept(env, run, i, k, j, p) ==> run[j].reps[p].view > run[i].reps[p].view {
      forall t | 0 <= t < |steps| && EarlyReturn(env, run, steps, t) ensures FreshIfEarly(env, run, steps, t) {
        EarlyReturnIsReturn(env, run, steps, t);
      }
    }
  }

  lemma EarlyReturnIsReturn(env: Env, run: seq<Sys>, steps: seq<Step>, t: nat)
    requires EnvRecovers(env) && IsRun(env, run, steps) && EarlyReturn(env, run, steps, t)
    requires forall i, k, j, p :: Slept(env, run, i, k, j, p) ==> run[j].reps[p].view > run[i].reps[p].view
    ensures FreshIfEarly(env, run, steps, t)
  {
    var p := steps[t].p;
    EarlyReturnStep(env, run, steps, t);
    forall v | WasIn(run, p, t, v) ensures v < run[t].reps[p].view {
      var i :| 0 <= i <= t && Active(run[i].reps[p]) && run[i].reps[p].view == v;
      var k := SleptBetween(env, run, steps, i, t, p);
      assert Slept(env, run, i, k, t + 1, p);
    }
  }

  lemma EarlyReturnStep(env: Env, run: seq<Sys>, steps: seq<Step>, t: nat)
    requires env.c.level == NoPersist && IsRun(env, run, steps) && EarlyReturn(env, run, steps, t)
    ensures Active(run[t + 1].reps[steps[t].p]) && run[t + 1].reps[steps[t].p].view == run[t].reps[steps[t].p].view
  {
    assert StepAt(env, run, steps, t);
    LeavesFirstPhaseIff(env.c, run[t].reps[steps[t].p], steps[t].e);
    StatusMoves(env.c, run[t].reps[steps[t].p], steps[t].e);
  }

  /** Between two states without a wake-up of p in between, its view does not fall. */
  lemma {:induction false} ViewsNeverFall(env: Env, run: seq<Sys>, steps: seq<Step>, i: nat, j: nat, p: int)
    requires env.c.level == NoPersist && IsRun(env, run, steps) && i <= j < |run| && 0 <= p < env.c.n
    requires forall x :: i <= x < j && steps[x].Local? && steps[x].p == p ==> !steps[x].e.WakeUp?
    ensures run[i].reps[p].view <= run[j].reps[p].view
  {
    if i < j {
      ViewsNeverFall(env, run, steps, i, j - 1, p);
      var st := steps[j - 1];
      assert StepAt(env, run, steps, j - 1);
      if st.Local? && st.p == p {
        StatusMoves(env.c, run[j - 1].reps[p], st.e);
      }
    }
  }

  /** A vote leaves only an active replica and names the view it is in. */
  lemma VotesNameTheView(c: Config, r: Replica, e: Event, m: Msg)
    requires m.Vote? && m in Handle(c, r, e).sent
    ensures Active(r) && m.view == r.view && m.src == r.id
  {
    if e.Deliver? {
      assert r.status != SLEEPING && r.status != RECOVERING;
    }
  }

  lemma VoteAppears(env: Env, run: seq<Sys>, steps: seq<Step>, i: nat, m: Msg)
    requires EnvRecovers(env) && IsRun(env, run, steps) && i < |steps|
    requires m.Vote? && Honest(env, m.src) && m in run[i + 1].net && m !in run[i].net
    ensures Active(run[i].reps[m.src]) && m.view == run[i].reps[m.src].view
  {
    RunViewInv(env, run, steps, i);
    assert StepAt(env, run, steps, i);
    VotesNameTheView(env.c, run[i].reps[steps[i].p], steps[i].e, m);
  }

  /** What a replica votes for before and after a sleep lies in disjoint views. */
  lemma VotesAreInDisjointViews(env: Env, run: seq<Sys>, steps: seq<Step>, i: nat, k: nat, j: nat, before: Msg,
          after: Msg)
    requires EnvRecovers(env) && IsRun(env, run, steps) && i < k <= j < |steps|
    requires before.Vote? && after.Vote? && before.src == after.src && Honest(env, before.src)
    requires before in run[i + 1].net && before !in run[i].net && after in run[j + 1].net && after !in run[j].net
    requires run[k].reps[before.src].status == SLEEPING
    requires forall t :: 0 <= t < j ==> !EarlyReturn(env, run, steps, t)
    ensures before.view < after.view
  {
    VoteAppears(env, run, steps, i, before);
    VoteAppears(env, run, steps, j, after);
    RecoveredViewsAreFresh(env, run, steps, i, k, j, before.src);
  }
}
