/** Recovery from disk at level PersistCritical: the lock comes back as it was
    and the ledger as it was stored, the view does not. */
module DiskRecovery {
  import opened Messages
  import opened Quorums
  import opened Pipeline
  import opened ReplicaSpec

  datatype DiskEvent = React(e: Event) | Restart

  /** Sleep, re-initialise and recover from disk; None is the fatal error. */
  function RestartFromDisk(c: Config, r: Replica): Option<Replica> {
    match WakeFromDisk(c, Sleep(r).r)
    case None => None
    case Some(o) => Some(o.r)
  }

  function DiskStep(c: Config, r: Replica, e: DiskEvent): Option<Replica> {
    match e
    case React(e') => Some(Handle(c, r, e').r)
    case Restart => RestartFromDisk(c, r)
  }

  function DiskRun(c: Config, r: Replica, es: seq<DiskEvent>): Option<Replica> {
    if es == [] then Some(r)
    else
      match DiskRun(c, r, es[..|es| - 1])
      case None => None
      case Some(r') => DiskStep(c, r', es[|es| - 1])
  }

  /** Reactions of the disk mode: a replica sleeps and wakes by restarting from
      disk only.  Any message may arrive, also an ECHO2 nobody asked for. */
  predicate DiskMode(e: DiskEvent) {
    e.React? ==> !e.e.WakeUp? && !e.e.FallAsleep?
  }

  predicate BringsLedger(e: DiskEvent) {
    e.React? && e.e.Deliver? && e.e.m.Echo2?
  }

  /** The entry came in the ledger of an ECHO2. */
  ghost predicate CameIn(es: seq<DiskEvent>, k: int, b: QCBlock) {
    exists i :: 0 <= i < |es| && BringsLedger(es[i]) && k in es[i].e.m.ledger && es[i].e.m.ledger[k] == b
  }

  /** What is stored is in memory; what is in memory is stored or came in an ECHO2. */
  ghost predicate Kept(stored: Ledger, ledger: Ledger, es: seq<DiskEvent>) {
    && Extends(stored, ledger)
    && forall k :: k in ledger && k !in stored ==> CameIn(es, k, ledger[k])
  }

  ghost predicate DurableChain(ch: Chain, es: seq<DiskEvent>) {
    && ch.diskCommitted.Some? && Kept(ch.diskCommitted.value, ch.committed, es)
    && ch.lockedBlock == (if ch.diskLocked.Some? then ch.diskLocked.value else ZERO_BLOCK)
  }

  /** After the events es. */
  ghost predicate Durable(r: Replica, es: seq<DiskEvent>) {
    DurableChain(r.chain, es) && r.diskView.Some? && r.status != RECOVERING
  }

  lemma ProcessKeepsDurable(c: Config, leader: bool, ch: Chain, b: QCBlock, num: int, es: seq<DiskEvent>)
    requires c.level == PersistCritical && DurableChain(ch, es)
    ensures DurableChain(ProcessQCInfo(c, leader, ch, b, num), es)
  {
  }

  lemma KeptLonger(stored: Ledger, ledger: Ledger, es: seq<DiskEvent>, e: DiskEvent)
    requires Kept(stored, ledger, es)
    ensures Kept(stored, ledger, es + [e])
  {
    forall k | k in ledger && k !in stored ensures CameIn(es + [e], k, ledger[k]) {
      var i :| 0 <= i < |es| && BringsLedger(es[i]) && k in es[i].e.m.ledger && es[i].e.m.ledger[k] == ledger[k];
      assert (es + [e])[i] == es[i];
    }
  }

  /** An ECHO2 merges its ledger in memory and stores nothing. */
  lemma EchoKeepsDurable(c: Config, r: Replica, m: Msg, es: seq<DiskEvent>)
    requires m.Echo2? && Durable(r, es)
    ensures Durable(OnEcho2(c, r, m).r, es + [React(Deliver(m))])
  {
    var e := React(Deliver(m));
    var stored, mine := r.chain.diskCommitted.value, r.chain.committed;
    KeptLonger(stored, mine, es, e);
    var ledger := MergeLedger(mine, m.ledger);
    forall k | k in ledger && k !in stored ensures CameIn(es + [e], k, ledger[k]) {
      if k !in mine {
        assert (es + [e])[|es|] == e && BringsLedger(e);
      }
    }
  }

  lemma ReceiveKeepsDurable(c: Config, r: Replica, m: Msg, es: seq<DiskEvent>)
    requires c.level == PersistCritical && Durable(r, es) && !m.Echo2?
    ensures Durable(Receive(c, r, m).r, es)
  {
    if m.Proposal? {
      var ch := if r.leader then r.chain else r.chain.(awaitingCopy := r.chain.awaitingCopy + {m.num});
      ProcessKeepsDurable(c, r.leader, ch, m.qc, m.num, es);
      assert Receive(c, r, m).r.diskView == r.diskView;
    } else if m.ViewChange? {
      assert DurableChain(AdoptBlock(r.chain, m.block), es);
    } else if m.Vote? {
      assert Receive(c, r, m).r.diskView == r.diskView;
    } else {
      assert Receive(c, r, m).r.chain == r.chain;
    }
  }

  lemma ReactKeepsDurable(c: Config, r: Replica, e: Event, es: seq<DiskEvent>)
    requires c.level == PersistCritical && Durable(r, es) && DiskMode(React(e))
    ensures Durable(Handle(c, r, e).r, es + [React(e)])
  {
    KeptLonger(r.chain.diskCommitted.value, r.chain.committed, es, React(e));
    if e.Deliver? {
      if e.m.Echo2? && r.status != SLEEPING {
        EchoKeepsDurable(c, r, e.m, es);
      } else if !e.m.Echo2? {
        ReceiveKeepsDurable(c, r, e.m, es + [React(e)]);
      }
    }
  }

  /** Restarting fails exactly when no lock was ever written; otherwise the lock
      comes back unchanged, the ledger as it was last stored, and the block is
      reset to the lock.  The view restarts at 1 whatever it was: initialisation
      stores 0 before it is read. */
  lemma RestartReturnsState(c: Config, r: Replica, es: seq<DiskEvent>)
    requires c.level == PersistCritical && Durable(r, es)
    ensures RestartFromDisk(c, r).None? <==> r.chain.diskLocked.None?
    ensures RestartFromDisk(c, r).Some? ==>
      var r' := RestartFromDisk(c, r).value;
      && r'.chain.lockedBlock == r.chain.lockedBlock && Kept(r'.chain.committed, r.chain.committed, es)
      && r'.chain.curBlock == r.chain.lockedBlock
      && r'.view == 1 && Durable(r', es + [Restart])
  {
    KeptLonger(r.chain.diskCommitted.value, r.chain.committed, es, Restart);
  }

  /** So the restarted view is above the old one exactly when that was 0. */
  lemma RestartedViewIsFreshIff(c: Config, r: Replica, es: seq<DiskEvent>)
    requires c.level == PersistCritical && Durable(r, es) && r.view >= 0 && r.chain.diskLocked.Some?
    ensures RestartFromDisk(c, r).Some?
    ensures RestartFromDisk(c, r).value.view > r.view <==> r.view == 0
  {
    RestartReturnsState(c, r, es);
  }

  lemma {:induction false} RunKeepsDurable(c: Config, id: int, es: seq<DiskEvent>)
    requires c.level == PersistCritical && forall i :: 0 <= i < |es| ==> DiskMode(es[i])
    ensures DiskRun(c, Fresh(c, id), es).Some? ==> Durable(DiskRun(c, Fresh(c, id), es).value, es)
  {
    if es == [] {
    } else {
      var pre, last := es[..|es| - 1], es[|es| - 1];
      assert es == pre + [last];
      RunKeepsDurable(c, id, pre);
      match DiskRun(c, Fresh(c, id), pre) {
        case None =>
        case Some(r) =>
          match last {
            case React(e) => ReactKeepsDurable(c, r, e, pre);
            case Restart => RestartReturnsState(c, r, pre);
          }
      }
    }
  }

  lemma KeptAll(stored: Ledger, ledger: Ledger, es: seq<DiskEvent>)
    requires Kept(stored, ledger, es) && forall i :: 0 <= i < |es| ==> !BringsLedger(es[i])
    ensures stored == ledger
  {
    assert forall k :: k in ledger ==> k in stored;
    assert forall k :: k in stored ==> k in ledger && ledger[k] == stored[k];
    assert stored.Keys == ledger.Keys;
  }

  /** After any run of handlers and restarts, a restart from disk is either
      impossible because nothing was ever locked, or returns the lock exactly as
      it was in memory, and of the ledger all but entries that came in ECHO2s:
      the whole ledger if none arrived. */
  lemma DiskKeepsLockAndLedger(c: Config, id: int, es: seq<DiskEvent>)
    requires c.level == PersistCritical && forall i :: 0 <= i < |es| ==> DiskMode(es[i])
    requires DiskRun(c, Fresh(c, id), es).Some?
    ensures var r := DiskRun(c, Fresh(c, id), es).value;
      match RestartFromDisk(c, r)
      case None => r.chain.lockedBlock == ZERO_BLOCK && r.chain.diskLocked == None
      case Some(r') =>
        && r'.chain.lockedBlock == r.chain.lockedBlock && r'.chain.curBlock == r.chain.lockedBlock
        && Kept(r'.chain.committed, r.chain.committed, es)
        && ((forall i :: 0 <= i < |es| ==> !BringsLedger(es[i])) ==> r'.chain.committed == r.chain.committed)
  {
    RunKeepsDurable(c, id, es);
    var r := DiskRun(c, Fresh(c, id), es).value;
    RestartReturnsState(c, r, es);
    var woken := RestartFromDisk(c, r);
    if woken.Some? && forall i :: 0 <= i < |es| ==> !BringsLedger(es[i]) {
      KeptAll(woken.value.chain.committed, r.chain.committed, es);
    }
  }
}
