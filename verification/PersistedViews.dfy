/** Views when they are persisted: a timer alone moves a replica on, so nobody
    signs TIMEOUTs.  Still no view is skipped, in runs with arbitrary replicas,
    sleeps and restarts from disk. */
module PersistedViews {
  import opened Messages
  import opened Quorums
  import opened Buffers
  import opened ReplicaSpec
  import opened System
  import opened Views

  datatype Move = Usual(st: Step) | Restart(p: int)

  /** A step of the system, or a replica's sleep followed by recovery from disk. */
  ghost predicate Moves(env: Env, s: Sys, s': Sys, mv: Move) {
    match mv
    case Usual(st) => Next(env, s, s', st)
    case Restart(p) =>
      && |s.reps| == env.c.n && Honest(env, p)
      && var o := WakeFromDisk(env.c, Sleep(s.reps[p]).r);
         o.Some? && s' == s.(reps := s.reps[p := o.value.r], net := s.net + o.value.sent)
  }

  ghost predicate MoveAt(env: Env, run: seq<Sys>, moves: seq<Move>, i: nat)
    requires i < |moves| == |run| - 1
  {
    Moves(env, run[i], run[i + 1], moves[i])
  }

  ghost predicate IsDiskRun(env: Env, run: seq<Sys>, moves: seq<Move>) {
    && |run| == |moves| + 1
    && (forall i :: 0 <= i < |run| ==> |run[i].reps| == env.c.n)
    && Init(env, run[0])
    && forall i :: 0 <= i < |moves| ==> MoveAt(env, run, moves, i)
  }

  ghost predicate Persisting(env: Env) {
    EnvOk(env) && env.c.level != NoPersist
  }

  // ----- what one event does -----

  /** A timer moves the replica to exactly the view above the timer's, and says
      so; a timer of a view it has left does nothing. */
  lemma TimerMovesByOne(c: Config, r: Replica, v: int)
    requires c.level != NoPersist && Active(r)
    ensures var o := Handle(c, r, TimerFires(v));
      if v < r.view then o == Out(r, {})
      else
        && o.r.view == v + 1 && o.r.diskView == Some(v + 1) && o.r.chain == r.chain && o.r.votes == r.votes
        && o.sent == {ViewChange(r.id, LeaderID(c, v + 1), v + 1, r.chain.curBlock)}
        && (if LeaderID(c, v + 1) == r.id then o.r.leader && o.r.status == VIEWCHANGE
            else !o.r.leader && o.r.status == READY && v + 1 in o.r.spawned.timers)
  {
  }

  ghost predicate ViaTimer(c: Config, r: Replica, o: Out, e: Event) {
    && e.TimerFires? && Active(r) && r.view <= e.v && o.r.view == e.v + 1
    && ViewChange(r.id, LeaderID(c, e.v + 1), e.v + 1, r.chain.curBlock) in o.sent
  }

  ghost predicate PersistedMove(c: Config, r: Replica, o: Out, e: Event) {
    && o.r.id == r.id
    && (o.r.view == r.view || ViaTimer(c, r, o, e) || ViaTimeoutCert(c, r, o.r, e) || ViaViewQuorum(c, r, o.r, e)
        || (e.WakeUp? && r.status == SLEEPING && o.r.view == 0))
    && (forall v :: v in o.r.spawned.timers ==> v in r.spawned.timers || v == o.r.view)
    && (forall v, q :: q in SendersOf(o.r.vcs, v) ==>
          q in SendersOf(r.vcs, v) || (e.Deliver? && e.m.ViewChange? && q == e.m.src && v == e.m.view))
  }

  lemma EventMovesView(c: Config, r: Replica, e: Event)
    requires c.level != NoPersist
    ensures PersistedMove(c, r, Handle(c, r, e), e)
  {
    match e {
      case Deliver(m) =>
        if m.ViewChange? {
          ViewChangeMovesView(c, r, m);
        } else if m.TQC? || m.Timeout? {
          assert Handle(c, r, e).r.vcs == r.vcs;
        } else {
          KeepsViewState(c, r, m);
        }
      case ProposeBatch => ProposeKeepsViewState(c, r);
      case TimerFires(v) =>
        assert Handle(c, r, e).r.vcs == r.vcs;
        if Active(r) { TimerMovesByOne(c, r, v); }
      case WakeUp(ts) =>
        assert Handle(c, r, e).r.spawned.timers == r.spawned.timers;
      case _ =>
        assert Handle(c, r, e).r.vcs == r.vcs;
    }
  }

  lemma SentWhenPersisted(c: Config, r: Replica, e: Event, x: Msg)
    requires c.level != NoPersist && x in Handle(c, r, e).sent
    ensures x.src == r.id || (e.Deliver? && x == e.m)
    ensures x.Timeout? ==> e.Deliver? && x == e.m
    ensures x.ViewChange? ==> x.view == Handle(c, r, e).r.view
    ensures x.TQC? ==> e.Deliver? && (x == e.m || x.v == MsgsOf(Handle(c, r, e).r.timeouts, x.view))
    ensures x.Echo1? ==> x.v == MsgsOf(r.timeouts, r.view - 1)
  {
  }

  // ----- the invariant -----

  /** Replica q, not arbitrary, announced view w. */
  ghost predicate AnnouncedBy(env: Env, net: set<Msg>, q: int, w: int) {
    Honest(env, q) && exists m :: m in net && m.ViewChange? && m.src == q && m.view == w
  }

  ghost predicate Announced(env: Env, net: set<Msg>, w: int) {
    exists q :: AnnouncedBy(env, net, q, w)
  }

  ghost predicate AllAnnounced(env: Env, net: set<Msg>, u: int) {
    forall w :: 1 <= w <= u ==> Announced(env, net, w)
  }

  /** No genuine TIMEOUT in the list but of arbitrary replicas. */
  ghost predicate Hollow(env: Env, l: seq<SignedMsg>) {
    forall i :: 0 <= i < |l| && Genuine(l[i]) ==> l[i].source in env.byz
  }

  ghost predicate NobodyTimesOut(env: Env, s: Sys)
    requires |s.reps| == env.c.n
  {
    && (forall p :: 0 <= p < env.c.n ==> s.reps[p].id == p)
    && (forall m :: m in s.net ==> 0 <= m.src < env.c.n && (m.Timeout? ==> m.src in env.byz))
    && (forall m :: m in s.net && (m.TQC? || m.Echo1?) ==> Hollow(env, m.v))
    && (forall p, v :: Honest(env, p) ==> Hollow(env, MsgsOf(s.reps[p].timeouts, v)))
  }

  /** A sender collected for view v is a replica, and if it is not arbitrary all views up to v were announced. */
  ghost predicate SenderAnnounced(env: Env, net: set<Msg>, vcs: IntBook<Msg>, v: int, q: int) {
    q in SendersOf(vcs, v) ==> 0 <= q < env.c.n && (Honest(env, q) ==> AllAnnounced(env, net, v))
  }

  ghost predicate ReplicaAnnounced(env: Env, net: set<Msg>, r: Replica) {
    && r.view >= 0 && AllAnnounced(env, net, r.view)
    && (r.diskView.Some? ==> r.diskView.value >= 0)
    && (forall v :: v in r.spawned.timers ==> v >= 0 && AllAnnounced(env, net, v))
    && (forall v, q :: SenderAnnounced(env, net, r.vcs, v, q))
  }

  ghost predicate PersistedInv(env: Env, s: Sys) {
    && |s.reps| == env.c.n && NobodyTimesOut(env, s)
    && (forall m :: m in s.net && m.ViewChange? && Honest(env, m.src) ==> AllAnnounced(env, s.net, m.view))
    && (forall p :: Honest(env, p) ==> ReplicaAnnounced(env, s.net, s.reps[p]))
  }

  lemma AnnouncedMono(env: Env, net: set<Msg>, net': set<Msg>, u: int)
    requires net <= net' && AllAnnounced(env, net, u)
    ensures AllAnnounced(env, net', u)
  {
    forall w | 1 <= w <= u ensures Announced(env, net', w) {
      assert Announced(env, net, w);
      var q :| AnnouncedBy(env, net, q, w);
      assert AnnouncedBy(env, net', q, w);
    }
  }

  /** No timeout certificate for a view from 0 on verifies. */
  lemma NoCertificate(env: Env, l: seq<SignedMsg>, v: int)
    requires EnvOk(env) && Hollow(env, l) && v >= 0
    ensures !VerifyTQC(env.c, v, l)
  {
    if VerifyTQC(env.c, v, l) {
      SourcesDistinct(v, l);
      forall p | p in SourcesOf(l) ensures p in env.byz {
        EntryGenuine(v, l, p);
      }
      SubsetSize(SourcesOf(l), env.byz);
    }
  }

  lemma StepKeepsHollow(env: Env, s: Sys, s': Sys, st: Step)
    requires Persisting(env) && |s.reps| == |s'.reps| == env.c.n && NobodyTimesOut(env, s) && Next(env, s, s', st)
    ensures NobodyTimesOut(env, s')
  {
    match st {
      case Arbitrary(m) =>
        if m.TQC? || m.Echo1? { MadeUpIsHollow(env, s, m); }
      case Local(p, e) =>
        forall v ensures Hollow(env, MsgsOf(s'.reps[p].timeouts, v)) {
          ListStaysHollow(env, s, p, e, v);
        }
        forall m | m in s'.net && m !in s.net
          ensures m.src == p && !m.Timeout? && (m.TQC? || m.Echo1? ==> Hollow(env, m.v))
        {
          SentIsHollow(env, s, p, e, m);
        }
        EventMovesView(env.c, s.reps[p], e);
    }
  }

  lemma MadeUpIsHollow(env: Env, s: Sys, m: Msg)
    requires |s.reps| == env.c.n && NobodyTimesOut(env, s) && (m.TQC? || m.Echo1?) && SignedInNet(env, s.net, m.v)
    ensures Hollow(env, m.v)
  {
    forall i | 0 <= i < |m.v| && Genuine(m.v[i]) ensures m.v[i].source in env.byz {
      assert m.v[i].source !in env.byz ==> TimeoutBy(m.v[i].source, m.v[i].view) in s.net;
    }
  }

  lemma SentIsHollow(env: Env, s: Sys, p: int, e: Event, m: Msg)
    requires Persisting(env) && |s.reps| == env.c.n && NobodyTimesOut(env, s) && Honest(env, p) && Enabled(s, p, e)
    requires m in Handle(env.c, s.reps[p], e).sent && m !in s.net
    ensures m.src == p && !m.Timeout? && (m.TQC? || m.Echo1? ==> Hollow(env, m.v))
  {
    SentWhenPersisted(env.c, s.reps[p], e, m);
    if m.TQC? { ListStaysHollow(env, s, p, e, m.view); }
  }

  lemma ListStaysHollow(env: Env, s: Sys, p: int, e: Event, v: int)
    requires Persisting(env) && |s.reps| == env.c.n && NobodyTimesOut(env, s) && Honest(env, p) && Enabled(s, p, e)
    ensures Hollow(env, MsgsOf(Handle(env.c, s.reps[p], e).r.timeouts, v))
  {
    var l, l' := MsgsOf(s.reps[p].timeouts, v), MsgsOf(Handle(env.c, s.reps[p], e).r.timeouts, v);
    assert Hollow(env, l);
    ListsGrow(env.c, s.reps[p], e, v);
  }

  /** After its own event a replica's view, timers and collected senders were all announced. */
  lemma LocalStepAnnounced(env: Env, s: Sys, s': Sys, p: int, e: Event)
    requires Persisting(env) && PersistedInv(env, s) && |s'.reps| == env.c.n && Next(env, s, s', Local(p, e))
    ensures AllAnnounced(env, s'.net, s'.reps[p].view) && s'.reps[p].view >= 0
  {
    var r, o := s.reps[p], Handle(env.c, s.reps[p], e);
    EventMovesView(env.c, r, e);
    assert ReplicaAnnounced(env, s.net, r);
    AnnouncedMono(env, s.net, s'.net, r.view);
    if o.r.view == r.view || o.r.view == 0 {
    } else if ViaTimer(env.c, r, o, e) {
      AnnouncedMono(env, s.net, s'.net, e.v);
      assert AnnouncedBy(env, s'.net, p, e.v + 1);
    } else if ViaTimeoutCert(env.c, r, o.r, e) {
      NoCertificate(env, e.m.v, e.m.view);
    } else {
      QuorumAnnounced(env, s, p, e);
      AnnouncedMono(env, s.net, s'.net, e.m.view);
    }
  }

  lemma SenderInRange(env: Env, s: Sys, m: Msg)
    requires PersistedInv(env, s) && m in s.net
    ensures 0 <= m.src < env.c.n
  {
  }

  lemma QuorumAnnounced(env: Env, s: Sys, p: int, e: Event)
    requires Persisting(env) && PersistedInv(env, s) && Honest(env, p) && Enabled(s, p, e)
    requires ViaViewQuorum(env.c, s.reps[p], Handle(env.c, s.reps[p], e).r, e)
    ensures AllAnnounced(env, s.net, e.m.view)
  {
    var q := HonestMember(SendersOf(Handle(env.c, s.reps[p], e).r.vcs, e.m.view), env.byz);
    CollectedAnnounced(env, s, p, e, e.m.view, q);
  }

  lemma StepKeepsAnnounced(env: Env, s: Sys, s': Sys, st: Step)
    requires Persisting(env) && PersistedInv(env, s) && |s'.reps| == env.c.n && Next(env, s, s', st)
    ensures PersistedInv(env, s')
  {
    StepKeepsHollow(env, s, s', st);
    if st.Local? {
      LocalStepAnnounced(env, s, s', st.p, st.e);
      ActorAnnounced(env, s, s', st.p, st.e);
    }
    forall p | Honest(env, p) ensures ReplicaAnnounced(env, s'.net, s'.reps[p]) {
      if !(st.Local? && st.p == p) {
        AnnouncedStays(env, s.net, s'.net, s.reps[p]);
      }
    }
    forall m | m in s'.net && m.ViewChange? && Honest(env, m.src) ensures AllAnnounced(env, s'.net, m.view) {
      if m in s.net {
        AnnouncedMono(env, s.net, s'.net, m.view);
      } else {
        SentWhenPersisted(env.c, s.reps[st.p], st.e, m);
      }
    }
  }

  lemma AnnouncedStays(env: Env, net: set<Msg>, net': set<Msg>, r: Replica)
    requires net <= net' && ReplicaAnnounced(env, net, r)
    ensures ReplicaAnnounced(env, net', r)
  {
    forall v | AllAnnounced(env, net, v) ensures AllAnnounced(env, net', v) {
      AnnouncedMono(env, net, net', v);
    }
    forall v, q ensures SenderAnnounced(env, net', r.vcs, v, q) {
      assert SenderAnnounced(env, net, r.vcs, v, q);
    }
  }

  lemma ActorAnnounced(env: Env, s: Sys, s': Sys, p: int, e: Event)
    requires Persisting(env) && PersistedInv(env, s) && |s'.reps| == env.c.n && Next(env, s, s', Local(p, e))
    requires AllAnnounced(env, s'.net, s'.reps[p].view) && s'.reps[p].view >= 0
    ensures ReplicaAnnounced(env, s'.net, s'.reps[p])
  {
    EventMovesView(env.c, s.reps[p], e);
    AnnouncedStays(env, s.net, s'.net, s.reps[p]);
    forall v, q ensures SenderAnnounced(env, s'.net, s'.reps[p].vcs, v, q) {
      if q in SendersOf(s'.reps[p].vcs, v) {
        CollectedAnnounced(env, s, p, e, v, q);
        if Honest(env, q) { AnnouncedMono(env, s.net, s'.net, v); }
      }
    }
    DiskViewIsView(env.c, s.reps[p], e);
  }

  lemma CollectedAnnounced(env: Env, s: Sys, p: int, e: Event, v: int, q: int)
    requires Persisting(env) && PersistedInv(env, s) && Honest(env, p) && Enabled(s, p, e)
    requires q in SendersOf(Handle(env.c, s.reps[p], e).r.vcs, v)
    ensures 0 <= q < env.c.n && (Honest(env, q) ==> AllAnnounced(env, s.net, v))
  {
    EventMovesView(env.c, s.reps[p], e);
    assert ReplicaAnnounced(env, s.net, s.reps[p]);
    assert SenderAnnounced(env, s.net, s.reps[p].vcs, v, q);
    if q !in SendersOf(s.reps[p].vcs, v) {
      SenderInRange(env, s, e.m);
    }
  }

  lemma DiskViewIsView(c: Config, r: Replica, e: Event)
    requires r.diskView.Some? ==> r.diskView.value >= 0
    requires Handle(c, r, e).r.view >= 0
    ensures Handle(c, r, e).r.diskView.Some? ==> Handle(c, r, e).r.diskView.value >= 0
  {
  }

  // ----- runs -----

  lemma RestartKeepsAnnounced(env: Env, s: Sys, s': Sys, p: int)
    requires Persisting(env) && PersistedInv(env, s) && Moves(env, s, s', Restart(p))
    ensures PersistedInv(env, s')
  {
    var r, o := s.reps[p], WakeFromDisk(env.c, Sleep(s.reps[p]).r).value;
    WokenState(env.c, r);
    assert forall v :: MsgsOf(o.r.timeouts, v) == MsgsOf(r.timeouts, v) || MsgsOf(o.r.timeouts, v) == [];
    RestartedAnnounced(env, s, s', p);
    forall q | Honest(env, q) && q != p ensures ReplicaAnnounced(env, s'.net, s'.reps[q]) {
      AnnouncedStays(env, s.net, s'.net, s.reps[q]);
    }
    forall m | m in s'.net && m.ViewChange? && Honest(env, m.src) ensures AllAnnounced(env, s'.net, m.view) {
      if m in s.net {
        AnnouncedMono(env, s.net, s'.net, m.view);
      } else {
        assert AnnouncedBy(env, s'.net, p, 1);
      }
    }
  }

  lemma RestartedAnnounced(env: Env, s: Sys, s': Sys, p: int)
    requires Persisting(env) && PersistedInv(env, s) && Moves(env, s, s', Restart(p))
    ensures ReplicaAnnounced(env, s'.net, s'.reps[p])
  {
    var r, o := s.reps[p], WakeFromDisk(env.c, Sleep(s.reps[p]).r).value;
    WokenState(env.c, r);
    assert ReplicaAnnounced(env, s.net, r);
    AnnouncedStays(env, s.net, s'.net, r);
    if o == Sleep(r) {
      forall v, q ensures SenderAnnounced(env, s'.net, o.r.vcs, v, q) {
        assert SenderAnnounced(env, s'.net, r.vcs, v, q);
      }
    } else {
      assert AnnouncedBy(env, s'.net, p, 1);
    }
  }

  /** A replica that restarts is asleep still, when its level is not PersistCritical, or enters view 1 and says so. */
  lemma WokenState(c: Config, r: Replica)
    requires WakeFromDisk(c, Sleep(r).r).Some?
    ensures var o := WakeFromDisk(c, Sleep(r).r).value;
      && o.r.id == r.id && (forall v :: v in o.r.spawned.timers ==> v in r.spawned.timers || v == 1)
      && (o == Sleep(r) || (o.r.view == 1 && o.r.diskView == Some(1) && o.r.vcs == IntBook(map[], map[])
                            && o.r.timeouts == IntBook(map[], map[])
                            && o.sent == {ViewChange(r.id, LeaderID(c, 1), 1, o.r.chain.curBlock)}))
  {
  }

  lemma {:induction false} RunPersisted(env: Env, run: seq<Sys>, moves: seq<Move>, i: nat)
    requires Persisting(env) && IsDiskRun(env, run, moves) && i < |run|
    ensures PersistedInv(env, run[i])
  {
    if i > 0 {
      RunPersisted(env, run, moves, i - 1);
      assert MoveAt(env, run, moves, i - 1);
      match moves[i - 1] {
        case Usual(st) => StepKeepsAnnounced(env, run[i - 1], run[i], st);
        case Restart(p) => RestartKeepsAnnounced(env, run[i - 1], run[i], p);
      }
    }
  }

  /** No view is skipped when views are persisted either: every view from 1 up to
      that of a replica that is not arbitrary was entered, and announced by a
      VIEWCHANGE, by a replica that is not. */
  lemma EveryViewIsAnnounced(env: Env, run: seq<Sys>, moves: seq<Move>, i: nat, p: int, w: int)
    requires Persisting(env) && IsDiskRun(env, run, moves) && i < |run|
    requires Honest(env, p) && 1 <= w <= run[i].reps[p].view
    ensures exists q :: AnnouncedBy(env, run[i].net, q, w)
  {
    RunPersisted(env, run, moves, i);
    assert ReplicaAnnounced(env, run[i].net, run[i].reps[p]);
    assert Announced(env, run[i].net, w);
  }
}
