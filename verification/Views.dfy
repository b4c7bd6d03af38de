/** How views move.  No view is skipped: a replica that is not arbitrary stands
    in view u only when, for every w < u, a quorum signed TIMEOUT for w. */
module Views {
  import opened Messages
  import opened Quorums
  import opened Buffers
  import opened ReplicaSpec
  import opened System

  predicate Carries(list: seq<SignedMsg>, p: int, w: int) {
    exists i :: 0 <= i < |list| && list[i].source == p && list[i].view == w && Genuine(list[i])
  }

  /** The network holds a timeout certificate with p's genuine TIMEOUT for view w. */
  ghost predicate Shown(net: set<Msg>, p: int, w: int) {
    exists m :: m in net && m.TQC? && Carries(m.v, p, w)
  }

  /** A quorum of distinct replicas signed TIMEOUT for view w: all their
      signatures are in a timeout certificate, and those that are not arbitrary
      sent the message themselves. */
  ghost predicate TimedOutBy(env: Env, net: set<Msg>, w: int, q: set<int>) {
    && q <= Ids(env.c.n) && |q| >= env.c.quorum
    && (forall p :: p in q ==> Shown(net, p, w))
    && (forall p :: p in q && p !in env.byz ==> TimeoutBy(p, w) in net)
  }

  lemma ShownMono(net: set<Msg>, net': set<Msg>, q: set<int>, w: int)
    requires net <= net' && forall p :: p in q ==> Shown(net, p, w)
    ensures forall p :: p in q ==> Shown(net', p, w)
  {
    forall p | p in q ensures Shown(net', p, w) {
      var m :| m in net && m.TQC? && Carries(m.v, p, w);
      assert m in net';
    }
  }

  ghost predicate TimedOut(env: Env, net: set<Msg>, w: int) {
    exists q: set<int> :: TimedOutBy(env, net, w, q)
  }

  ghost predicate Passed(env: Env, net: set<Msg>, u: int) {
    forall w :: 0 <= w < u ==> TimedOut(env, net, w)
  }

  lemma TimedOutMono(env: Env, net: set<Msg>, net': set<Msg>, w: int)
    requires net <= net' && TimedOut(env, net, w)
    ensures TimedOut(env, net', w)
  {
    var q :| TimedOutBy(env, net, w, q);
    TimedOutByMono(env, net, net', w, q);
  }

  lemma TimedOutByMono(env: Env, net: set<Msg>, net': set<Msg>, w: int, q: set<int>)
    requires net <= net' && TimedOutBy(env, net, w, q)
    ensures TimedOutBy(env, net', w, q)
  {
    ShownMono(net, net', q, w);
  }

  lemma PassedMono(env: Env, net: set<Msg>, net': set<Msg>, u: int)
    requires net <= net' && Passed(env, net, u)
    ensures Passed(env, net', u)
  {
    forall w | 0 <= w < u ensures TimedOut(env, net', w) {
      TimedOutMono(env, net, net', w);
    }
  }

  lemma {:induction false} SourcesDistinct(v: int, tqc: seq<SignedMsg>)
    requires EntriesOk(v, tqc)
    ensures |SourcesOf(tqc)| == |tqc|
  {
    if tqc == [] {
    } else {
      var pre, last := tqc[..|tqc| - 1], tqc[|tqc| - 1];
      forall i | 0 <= i < |pre| ensures EntryOk(v, pre[i], SourcesOf(pre[..i])) {
        assert pre[..i] == tqc[..i];
        assert EntryOk(v, tqc[i], SourcesOf(tqc[..i]));
      }
      SourcesDistinct(v, pre);
      assert EntryOk(v, last, SourcesOf(pre));
      assert tqc == pre + [last];
      assert SourcesOf(tqc) == SourcesOf(pre) + {last.source};
    }
  }

  // ----- what one event does to a replica's view -----

  ghost predicate ViaTimeoutCert(c: Config, r: Replica, r': Replica, e: Event) {
    && e.Deliver? && e.m.TQC? && VerifyTQC(c, e.m.view, e.m.v)
    && r.view <= e.m.view && r'.view == e.m.view + 1
  }

  ghost predicate ViaViewQuorum(c: Config, r: Replica, r': Replica, e: Event) {
    && e.Deliver? && e.m.ViewChange? && r.view <= e.m.view == r'.view
    && |SendersOf(r'.vcs, e.m.view)| >= c.quorum
  }

  /** Handlers that leave the view, the timers and the collected messages alone. */
  lemma KeepsViewState(c: Config, r: Replica, m: Msg)
    requires !m.Timeout? && !m.TQC? && !m.ViewChange?
    ensures var r' := Receive(c, r, m).r;
      && r'.id == r.id && r'.view == r.view && r'.leader == r.leader
      && r'.vcs == r.vcs && r'.timeouts == r.timeouts && r'.spawned == r.spawned
  {
  }

  lemma ProposeKeepsViewState(c: Config, r: Replica)
    ensures var r' := Propose(c, r).r;
      && r'.id == r.id && r'.view == r.view && r'.leader == r.leader
      && r'.vcs == r.vcs && r'.timeouts == r.timeouts && r'.spawned == r.spawned
  {
  }

  ghost predicate MovesView(c: Config, r: Replica, r': Replica, e: Event) {
    && r'.id == r.id
    && (r'.view == r.view || ViaTimeoutCert(c, r, r', e) || ViaViewQuorum(c, r, r', e)
        || (e.WakeUp? && r.status == SLEEPING && r'.view == 0))
    && (forall v :: v in r'.spawned.timers ==> v in r.spawned.timers || (v == r'.view && Active(r) && Active(r')))
    && (forall v, q :: q in SendersOf(r'.vcs, v) ==>
          q in SendersOf(r.vcs, v) || (e.Deliver? && e.m.ViewChange? && q == e.m.src && v == e.m.view))
  }

  /** In memory mode, an event moves the view only by a verified timeout
      certificate, by a quorum of VIEWCHANGEs, or back to 0 on waking. */
  lemma ViewMoves(c: Config, r: Replica, e: Event)
    requires c.level == NoPersist
    ensures MovesView(c, r, Handle(c, r, e).r, e)
  {
    match e {
      case Deliver(m) =>
        if m.TQC? {
          TQCMovesView(c, r, m);
        } else if m.ViewChange? {
          ViewChangeMovesView(c, r, m);
        } else if m.Timeout? {
          assert Handle(c, r, e).r.vcs == r.vcs;
        } else {
          KeepsViewState(c, r, m);
        }
      case ProposeBatch => ProposeKeepsViewState(c, r);
      case WakeUp(ts) =>
        assert Handle(c, r, e).r.spawned.timers == r.spawned.timers;
      case _ =>
        assert Handle(c, r, e).r.vcs == r.vcs;
    }
  }

  lemma TQCMovesView(c: Config, r: Replica, m: Msg)
    requires c.level == NoPersist && m.TQC?
    ensures MovesView(c, r, Receive(c, r, m).r, Deliver(m))
  {
    assert Receive(c, r, m).r.vcs == r.vcs;
  }

  lemma ViewChangeMovesView(c: Config, r: Replica, m: Msg)
    requires m.ViewChange?
    ensures MovesView(c, r, Receive(c, r, m).r, Deliver(m))
  {
    var r' := Receive(c, r, m).r;
    assert r'.vcs == r.vcs || r'.vcs == Collect(r.vcs, m.view, m.src, m);
    forall v, q | q in SendersOf(r'.vcs, v) && q !in SendersOf(r.vcs, v)
      ensures q == m.src && v == m.view
    {}
  }

  /** A replica comes to lead view v only out of READY's reach: waiting for votes
      or for the view change, as the view's leader, with VIEWCHANGEs for v of a
      quorum of senders.  A READY replica moves by timeout certificates alone. */
  lemma LeadsByQuorum(c: Config, r: Replica, e: Event)
    requires c.level == NoPersist
    ensures var r' := Handle(c, r, e).r;
      && (forall v :: ViewCert(v) in r'.prepared && ViewCert(v) !in r.prepared ==>
            && Active(r) && r.status != READY && LeaderID(c, v) == r.id && (v == r.view || v == r.view + 1)
            && e.Deliver? && e.m.ViewChange? && e.m.view == v && |SendersOf(r'.vcs, v)| >= c.quorum
            && r'.view == v && r'.leader && r'.status == READY && v in r'.spawned.monitors)
      && (r.status == READY && r'.view != r.view ==> ViaTimeoutCert(c, r, r', e))
  {
    if e.Deliver? && !e.m.ViewChange? && !e.m.TQC? && !e.m.Timeout? {
      KeepsViewState(c, r, e.m);
    }
  }

  /** Who signs what: TIMEOUT only by the timer, at or above the current view;
      VIEWCHANGE for the view just entered; certificates pass on stored lists. */
  lemma SentByHandle(c: Config, r: Replica, e: Event, x: Msg)
    requires c.level == NoPersist
    requires x in Handle(c, r, e).sent
    ensures x.src == r.id || (e.Deliver? && x == e.m)
    ensures x.Timeout? ==> e.TimerFires? && Active(r) && r.view <= e.v && x == TimeoutBy(r.id, e.v)
    ensures x.ViewChange? ==> Active(r) && x.view == Handle(c, r, e).r.view
    ensures x.TQC? ==> e.Deliver? && (x == e.m || x.v == MsgsOf(Handle(c, r, e).r.timeouts, x.view))
    ensures x.Echo1? ==> e.Deliver? && Active(r) && e.m == Rec1(e.m.src, x.req.ts)
                         && x.req == FirstRequest(e.m.src, x.req.ts) && x.view == r.view - 1
                         && x.v == MsgsOf(r.timeouts, r.view - 1)
    ensures x.Echo2? ==> x.req.SecondRequest?
  {
  }

  /** A stored timeout list grows by the delivered TIMEOUT or is a delivered list. */
  lemma ListsGrow(c: Config, r: Replica, e: Event, v: int)
    ensures var l, l' := MsgsOf(r.timeouts, v), MsgsOf(Handle(c, r, e).r.timeouts, v);
      || l' == l || l' == []
      || (e.Deliver? && e.m.Timeout? && l' == l + [SignedMsg(TimeoutKind, e.m.src, e.m.view, e.m.sig)])
      || (e.Deliver? && e.m.TQC? && l' == e.m.v)
  {
    var r' := Handle(c, r, e).r;
    match e {
      case Deliver(m) =>
        if m.TQC? {
          assert r'.timeouts == r.timeouts || r'.timeouts == Replace(r.timeouts, m.view, m.v);
        } else if m.Timeout? {
          assert r'.timeouts == r.timeouts
              || r'.timeouts == Collect(r.timeouts, m.view, m.src, SignedMsg(TimeoutKind, m.src, m.view, m.sig));
        } else if m.ViewChange? {
          assert r'.timeouts == r.timeouts;
        } else {
          KeepsViewState(c, r, m);
        }
      case ProposeBatch => ProposeKeepsViewState(c, r);
      case WakeUp(ts) => assert r'.timeouts == r.timeouts || r'.timeouts.msgs == map[];
      case _ => assert r'.timeouts == r.timeouts;
    }
  }

  // ----- the invariant -----

  ghost predicate ListsSigned(env: Env, s: Sys) {
    && |s.reps| == env.c.n
    && (forall m :: m in s.net && (m.TQC? || m.Echo1?) ==> SignedInNet(env, s.net, m.v))
    && (forall p, v :: Honest(env, p) ==> SignedInNet(env, s.net, MsgsOf(s.reps[p].timeouts, v)))
  }

  ghost predicate Shape(env: Env, s: Sys) {
    && |s.reps| == env.c.n
    && (forall p :: 0 <= p < env.c.n ==> s.reps[p].id == p)
    && (forall m :: m in s.net ==> 0 <= m.src < env.c.n)
  }

  /** A message of a replica that is not arbitrary for view u: all below passed. */
  ghost predicate MsgPassed(env: Env, net: set<Msg>, m: Msg) {
    (m.Timeout? || m.ViewChange?) && Honest(env, m.src) ==> Passed(env, net, m.view)
  }

  ghost predicate ReplicaPassed(env: Env, net: set<Msg>, r: Replica) {
    && Passed(env, net, r.view)
    && (forall v :: v in r.spawned.timers ==> Passed(env, net, v))
    && (forall v, q :: q in SendersOf(r.vcs, v) && Honest(env, q) ==> Passed(env, net, v))
  }

  ghost predicate NothingSkipped(env: Env, s: Sys) {
    && |s.reps| == env.c.n
    && (forall m :: m in s.net ==> MsgPassed(env, s.net, m))
    && (forall p :: Honest(env, p) ==> ReplicaPassed(env, s.net, s.reps[p]))
    && (forall p, v, q :: Honest(env, p) && q in SendersOf(s.reps[p].vcs, v) ==> 0 <= q < env.c.n)
  }

  ghost predicate ViewInv(env: Env, s: Sys) {
    Shape(env, s) && ListsSigned(env, s) && NothingSkipped(env, s)
  }

  lemma EntryGenuine(v: int, list: seq<SignedMsg>, p: int)
    requires EntriesOk(v, list) && p in SourcesOf(list)
    ensures Carries(list, p, v)
  {
    var i :| 0 <= i < |list| && list[i].source == p;
    assert EntryOk(v, list[i], SourcesOf(list[..i]));
    assert Genuine(list[i]);
  }

  /** A verified timeout certificate carries a quorum of TIMEOUTs for its view,
      and its signers had passed every view below. */
  lemma CertificatePasses(env: Env, s: Sys, m: Msg)
    requires EnvOk(env) && ViewInv(env, s) && m in s.net && m.TQC?
    requires 0 <= m.view && VerifyTQC(env.c, m.view, m.v)
    ensures TimedOut(env, s.net, m.view) && Passed(env, s.net, m.view + 1)
  {
    SourcesDistinct(m.view, m.v);
    var q := SourcesOf(m.v);
    assert SignedInNet(env, s.net, m.v);
    forall p | p in q
      ensures 0 <= p < env.c.n && Shown(s.net, p, m.view) && (p !in env.byz ==> TimeoutBy(p, m.view) in s.net)
    {
      EntryGenuine(m.view, m.v, p);
      if p !in env.byz {
        assert TimeoutBy(p, m.view) in s.net;
        assert TimeoutBy(p, m.view).src == p;
      }
    }
    assert TimedOutBy(env, s.net, m.view, q);
    var p := HonestMember(q, env.byz);
    assert MsgPassed(env, s.net, TimeoutBy(p, m.view));
  }

  /** A quorum of VIEWCHANGEs for a view: one sender had passed all below it. */
  lemma ViewQuorumPasses(env: Env, s: Sys, p: int, r': Replica, v: int)
    requires EnvOk(env) && Honest(env, p)
    requires forall q :: q in SendersOf(r'.vcs, v) ==> 0 <= q < env.c.n
    requires forall q :: q in SendersOf(r'.vcs, v) && Honest(env, q) ==> Passed(env, s.net, v)
    requires |SendersOf(r'.vcs, v)| >= env.c.quorum
    ensures Passed(env, s.net, v)
  {
    var q := HonestMember(SendersOf(r'.vcs, v), env.byz);
  }

  lemma StepKeepsShape(env: Env, s: Sys, s': Sys, st: Step)
    requires EnvOk(env) && env.c.level == NoPersist && Shape(env, s) && Next(env, s, s', st)
    ensures Shape(env, s') && s.net <= s'.net
  {
    if st.Local? {
      ViewMoves(env.c, s.reps[st.p], st.e);
      forall x | x in s'.net ensures 0 <= x.src < env.c.n {
        if x !in s.net { SentByHandle(env.c, s.reps[st.p], st.e, x); }
      }
    }
  }

  lemma StepKeepsLists(env: Env, s: Sys, s': Sys, st: Step)
    requires EnvOk(env) && env.c.level == NoPersist && ViewInv(env, s) && Next(env, s, s', st)
    ensures ListsSigned(env, s')
  {
    StepKeepsShape(env, s, s', st);
    forall p, v | Honest(env, p) ensures SignedInNet(env, s'.net, MsgsOf(s'.reps[p].timeouts, v)) {
      assert SignedInNet(env, s.net, MsgsOf(s.reps[p].timeouts, v));
      if st.Local? && st.p == p {
        LocalListSigned(env, s, p, st.e, v);
      }
    }
    forall m | m in s'.net && (m.TQC? || m.Echo1?) ensures SignedInNet(env, s'.net, m.v) {
      if m !in s.net && st.Local? {
        SentListSigned(env, s, st.p, st.e, m);
      }
    }
  }

  lemma LocalListSigned(env: Env, s: Sys, p: int, e: Event, v: int)
    requires EnvOk(env) && env.c.level == NoPersist && ViewInv(env, s)
    requires Honest(env, p) && Enabled(s, p, e)
    ensures SignedInNet(env, s.net, MsgsOf(Handle(env.c, s.reps[p], e).r.timeouts, v))
  {
    var l, l' := MsgsOf(s.reps[p].timeouts, v), MsgsOf(Handle(env.c, s.reps[p], e).r.timeouts, v);
    assert SignedInNet(env, s.net, l);
    ListsGrow(env.c, s.reps[p], e, v);
    if e.Deliver? && e.m.Timeout? && l' != l && l' != [] {
      NewEntrySigned(env, s.net, l, e.m);
    }
  }

  lemma SentListSigned(env: Env, s: Sys, p: int, e: Event, m: Msg)
    requires EnvOk(env) && env.c.level == NoPersist && ViewInv(env, s)
    requires Honest(env, p) && Enabled(s, p, e)
    requires m in Handle(env.c, s.reps[p], e).sent && (m.TQC? || m.Echo1?)
    ensures SignedInNet(env, s.net, m.v)
  {
    SentByHandle(env.c, s.reps[p], e, m);
    if m.TQC? && m != e.m {
      LocalListSigned(env, s, p, e, m.view);
    }
  }

  lemma NewEntrySigned(env: Env, net: set<Msg>, l: seq<SignedMsg>, m: Msg)
    requires m in net && m.Timeout? && SignedInNet(env, net, l)
    ensures SignedInNet(env, net, l + [SignedMsg(TimeoutKind, m.src, m.view, m.sig)])
  {
  }

  lemma StepKeepsPassed(env: Env, s: Sys, s': Sys, st: Step)
    requires EnvOk(env) && env.c.level == NoPersist && ViewInv(env, s) && Next(env, s, s', st)
    ensures NothingSkipped(env, s')
  {
    StepKeepsShape(env, s, s', st);
    if st.Local? {
      var p, e := st.p, st.e;
      var r, r' := s.reps[p], s'.reps[p];
      ViewMoves(env.c, r, e);
      forall q, v | q in SendersOf(r'.vcs, v) ensures 0 <= q < env.c.n {}
      LocalStepPasses(env, s, p, e);
      forall m | m in s'.net ensures MsgPassed(env, s.net, m) {
        if m !in s.net { SentByHandle(env.c, r, e, m); }
      }
    }
    forall m | m in s'.net ensures MsgPassed(env, s'.net, m) {
      if (m.Timeout? || m.ViewChange?) && Passed(env, s.net, m.view) { PassedMono(env, s.net, s'.net, m.view); }
    }
    forall p | Honest(env, p) ensures ReplicaPassed(env, s'.net, s'.reps[p]) {
      assert ReplicaPassed(env, s.net, s'.reps[p]);
      ReplicaPassedMono(env, s.net, s'.net, s'.reps[p]);
    }
  }

  lemma ReplicaPassedMono(env: Env, net: set<Msg>, net': set<Msg>, r: Replica)
    requires net <= net' && ReplicaPassed(env, net, r)
    ensures ReplicaPassed(env, net', r)
  {
    forall v | Passed(env, net, v) ensures Passed(env, net', v) {
      PassedMono(env, net, net', v);
    }
  }

  /** After its own event, the replica has passed every view below its own. */
  lemma LocalStepPasses(env: Env, s: Sys, p: int, e: Event)
    requires EnvOk(env) && env.c.level == NoPersist && ViewInv(env, s)
    requires Honest(env, p) && Enabled(s, p, e)
    ensures ReplicaPassed(env, s.net, Handle(env.c, s.reps[p], e).r)
  {
    var r := s.reps[p];
    var r' := Handle(env.c, r, e).r;
    ViewMoves(env.c, r, e);
    forall q, v | q in SendersOf(r'.vcs, v) && Honest(env, q) ensures Passed(env, s.net, v) {
      if q !in SendersOf(r.vcs, v) {
        assert MsgPassed(env, s.net, e.m);
      }
    }
    if ViaTimeoutCert(env.c, r, r', e) && e.m.view >= 0 {
      CertificatePasses(env, s, e.m);
    } else if ViaViewQuorum(env.c, r, r', e) {
      ViewQuorumPasses(env, s, p, r', e.m.view);
    }
  }

  lemma InitViewInv(env: Env, s: Sys)
    requires EnvOk(env) && Init(env, s)
    ensures ViewInv(env, s)
  {
  }

  lemma {:induction false} RunViewInv(env: Env, run: seq<Sys>, steps: seq<Step>, i: nat)
    requires EnvOk(env) && env.c.level == NoPersist && IsRun(env, run, steps) && i < |run|
    ensures ViewInv(env, run[i])
  {
    if i == 0 {
      InitViewInv(env, run[0]);
    } else {
      RunViewInv(env, run, steps, i - 1);
      assert StepAt(env, run, steps, i - 1);
      StepKeepsShape(env, run[i - 1], run[i], steps[i - 1]);
      StepKeepsLists(env, run[i - 1], run[i], steps[i - 1]);
      StepKeepsPassed(env, run[i - 1], run[i], steps[i - 1]);
    }
  }

  /** No view is skipped: whatever way a replica reached its view, every lower
      view was given up by a quorum of distinct replicas. */
  lemma NoViewIsSkipped(env: Env, run: seq<Sys>, steps: seq<Step>, i: nat, p: int, w: int)
    requires EnvOk(env) && env.c.level == NoPersist && IsRun(env, run, steps) && i < |run|
    requires Honest(env, p) && 0 <= w < run[i].reps[p].view
    ensures exists q: set<int> :: q <= Ids(env.c.n) && |q| >= env.c.quorum
              && (forall x :: x in q ==> Shown(run[i].net, x, w))
              && (forall x :: x in q && x !in env.byz ==> TimeoutBy(x, w) in run[i].net)
  {
    RunViewInv(env, run, steps, i);
    assert TimedOut(env, run[i].net, w);
    var q :| TimedOutBy(env, run[i].net, w, q);
  }
}
