/** Stored timeout certificates: once marked, the stored list is a verified
    certificate and stays as it is; and exactly which ECHO1s are accepted. */
module StoredCerts {
  import opened Messages
  import opened Quorums
  import opened Buffers
  import opened ReplicaSpec

  /** The unfinished list for a view holds one valid TIMEOUT per collected sender. */
  ghost predicate Collecting(c: Config, r: Replica, v: int) {
    var l := MsgsOf(r.timeouts, v);
    && EntriesOk(v, l) && SourcesOf(l) == SendersOf(r.timeouts, v)
    && |l| == |SendersOf(r.timeouts, v)| < c.quorum
  }

  ghost predicate StoredOk(c: Config, r: Replica) {
    && r.view >= 0
    && (forall v :: v >= 0 ==> StoredAt(c, r, v))
  }

  ghost predicate StoredAt(c: Config, r: Replica, v: int) {
    if TimeoutCert(v) in r.prepared then VerifyTQC(c, v, MsgsOf(r.timeouts, v)) else Collecting(c, r, v)
  }

  /** TIMEOUTs reach the replica validly signed. */
  predicate SignedTimeouts(e: Event) {
    e.Deliver? && e.m.Timeout? ==> VerifySig(e.m.src, Wire(TimeoutKind, e.m.src, e.m.view), e.m.sig)
  }

  lemma EntriesAppend(v: int, l: seq<SignedMsg>, sm: SignedMsg)
    requires EntriesOk(v, l) && EntryOk(v, sm, SourcesOf(l))
    ensures EntriesOk(v, l + [sm]) && SourcesOf(l + [sm]) == SourcesOf(l) + {sm.source}
  {
    var l' := l + [sm];
    forall i | 0 <= i < |l'| ensures EntryOk(v, l'[i], SourcesOf(l'[..i])) {
      if i < |l| {
        assert l'[..i] == l[..i];
      } else {
        assert l'[..i] == l;
      }
    }
  }

  /** One more TIMEOUT for v: the list and its senders grow together, or stay. */
  lemma CollectsOne(b: IntBook<SignedMsg>, v: int, m: Msg)
    requires m.Timeout? && m.view == v && VerifySig(m.src, Wire(TimeoutKind, m.src, v), m.sig)
    requires EntriesOk(v, MsgsOf(b, v)) && SourcesOf(MsgsOf(b, v)) == SendersOf(b, v)
    requires |MsgsOf(b, v)| == |SendersOf(b, v)|
    ensures var b' := Collect(b, v, m.src, SignedMsg(TimeoutKind, m.src, v, m.sig));
      && EntriesOk(v, MsgsOf(b', v)) && SourcesOf(MsgsOf(b', v)) == SendersOf(b', v)
      && |MsgsOf(b', v)| == |SendersOf(b', v)|
  {
    if m.src !in SendersOf(b, v) {
      EntriesAppend(v, MsgsOf(b, v), SignedMsg(TimeoutKind, m.src, v, m.sig));
    } else {
      assert SendersOf(b, v) + {m.src} == SendersOf(b, v);
    }
  }

  lemma CollectKeepsOwn(c: Config, r: Replica, m: Msg)
    requires m.Timeout? && m.view >= 0 && StoredAt(c, r, m.view) && SignedTimeouts(Deliver(m)) && c.quorum >= 1
    ensures StoredAt(c, OnTimeout(c, r, m).r, m.view)
  {
    if m.view >= r.view && TimeoutCert(m.view) !in r.prepared {
      CollectsOne(r.timeouts, m.view, m);
    }
  }

  lemma CollectKeeps(c: Config, r: Replica, m: Msg)
    requires StoredOk(c, r) && m.Timeout? && SignedTimeouts(Deliver(m)) && c.quorum >= 1
    ensures StoredOk(c, OnTimeout(c, r, m).r)
  {
    var r' := OnTimeout(c, r, m).r;
    forall u | u >= 0 ensures StoredAt(c, r', u) {
      assert StoredAt(c, r, u);
      if u == m.view {
        CollectKeepsOwn(c, r, m);
      } else {
        assert MsgsOf(r'.timeouts, u) == MsgsOf(r.timeouts, u);
        assert SendersOf(r'.timeouts, u) == SendersOf(r.timeouts, u);
      }
    }
  }

  lemma AdoptKeeps(c: Config, r: Replica, m: Msg)
    requires StoredOk(c, r) && m.TQC?
    ensures StoredOk(c, OnTQC(c, r, m).r)
  {
    var r' := OnTQC(c, r, m).r;
    forall u | u >= 0 ensures StoredAt(c, r', u) {
      assert StoredAt(c, r, u);
      if u != m.view {
        assert MsgsOf(r'.timeouts, u) == MsgsOf(r.timeouts, u);
        assert SendersOf(r'.timeouts, u) == SendersOf(r.timeouts, u);
      }
    }
  }

  predicate TouchesTimeouts(e: Event) {
    (e.Deliver? && (e.m.Timeout? || e.m.TQC?)) || e.WakeUp?
  }

  lemma OthersLeaveTimeouts(c: Config, r: Replica, e: Event)
    requires !TouchesTimeouts(e)
    ensures var r' := Handle(c, r, e).r;
      && r'.timeouts == r.timeouts && (r.view >= 0 ==> r'.view >= 0)
      && forall v :: TimeoutCert(v) in r'.prepared <==> TimeoutCert(v) in r.prepared
  {
  }

  lemma EventKeepsStored(c: Config, r: Replica, e: Event)
    requires StoredOk(c, r) && SignedTimeouts(e) && c.quorum >= 1
    ensures StoredOk(c, Handle(c, r, e).r)
  {
    var r' := Handle(c, r, e).r;
    if !TouchesTimeouts(e) {
      OthersLeaveTimeouts(c, r, e);
      forall v | v >= 0 ensures StoredAt(c, r', v) {
        assert StoredAt(c, r, v);
      }
    } else if e.Deliver? {
      if e.m.Timeout? { CollectKeeps(c, r, e.m); } else { AdoptKeeps(c, r, e.m); }
    }
  }

  function HandleAll(c: Config, r: Replica, es: seq<Event>): Replica {
    if es == [] then r else Handle(c, HandleAll(c, r, es[..|es| - 1]), es[|es| - 1]).r
  }

  lemma {:induction false} StoredThroughout(c: Config, r: Replica, es: seq<Event>)
    requires StoredOk(c, r) && c.quorum >= 1 && forall i :: 0 <= i < |es| ==> SignedTimeouts(es[i])
    ensures StoredOk(c, HandleAll(c, r, es))
  {
    if es != [] {
      StoredThroughout(c, r, es[..|es| - 1]);
      EventKeepsStored(c, HandleAll(c, r, es[..|es| - 1]), es[|es| - 1]);
    }
  }

  /** After any events at all, sleeps included, every marked timeout
      certificate is stored as a list that VerifyTQC accepts. */
  lemma MarkedCertificatesVerify(c: Config, id: int, es: seq<Event>)
    requires c.quorum >= 1 && forall i :: 0 <= i < |es| ==> SignedTimeouts(es[i])
    ensures StoredOk(c, HandleAll(c, Fresh(c, id), es))
  {
    StoredThroughout(c, Fresh(c, id), es);
  }

  /** What was collected for a view already left never changes. */
  lemma PastStays(c: Config, r: Replica, e: Event, v: int)
    requires v < r.view && !e.WakeUp?
    ensures var r' := Handle(c, r, e).r;
      v < r'.view && MsgsOf(r'.timeouts, v) == MsgsOf(r.timeouts, v)
      && (TimeoutCert(v) in r'.prepared <==> TimeoutCert(v) in r.prepared)
  {
    if !TouchesTimeouts(e) {
      OthersLeaveTimeouts(c, r, e);
      ViewRises(c, r, e);
    }
  }

  lemma ViewRises(c: Config, r: Replica, e: Event)
    requires !e.WakeUp?
    ensures Handle(c, r, e).r.view >= r.view
  {
  }

  lemma {:induction false} PastIsFrozen(c: Config, r: Replica, es: seq<Event>, v: int)
    requires v < r.view && forall i :: 0 <= i < |es| ==> !es[i].WakeUp?
    ensures MsgsOf(HandleAll(c, r, es).timeouts, v) == MsgsOf(r.timeouts, v) && v < HandleAll(c, r, es).view
    ensures TimeoutCert(v) in HandleAll(c, r, es).prepared <==> TimeoutCert(v) in r.prepared
  {
    if es != [] {
      PastIsFrozen(c, r, es[..|es| - 1], v);
      PastStays(c, HandleAll(c, r, es[..|es| - 1]), es[|es| - 1], v);
    }
  }

  lemma MarkStays(c: Config, r: Replica, e: Event, v: int)
    requires TimeoutCert(v) in r.prepared && !e.WakeUp?
    ensures TimeoutCert(v) in Handle(c, r, e).r.prepared
    ensures MsgsOf(Handle(c, r, e).r.timeouts, v) == MsgsOf(r.timeouts, v)
  {
    if !TouchesTimeouts(e) {
      OthersLeaveTimeouts(c, r, e);
    }
  }

  /** A marked certificate never changes again while the replica keeps its memory. */
  lemma {:induction false} MarkedCertificateStays(c: Config, r: Replica, es: seq<Event>, v: int)
    requires TimeoutCert(v) in r.prepared && forall i :: 0 <= i < |es| ==> !es[i].WakeUp?
    ensures TimeoutCert(v) in HandleAll(c, r, es).prepared
    ensures MsgsOf(HandleAll(c, r, es).timeouts, v) == MsgsOf(r.timeouts, v)
  {
    if es != [] {
      MarkedCertificateStays(c, r, es[..|es| - 1], v);
      MarkStays(c, HandleAll(c, r, es[..|es| - 1]), es[|es| - 1], v);
    }
  }

  /** Entering a view by a timeout certificate marks that certificate. */
  lemma EnteringStores(c: Config, r: Replica, m: Msg)
    requires m.TQC? && OnTQC(c, r, m).r.view != r.view
    ensures TimeoutCert(OnTQC(c, r, m).r.view - 1) in OnTQC(c, r, m).r.prepared
  {
  }

  /** Exactly which ECHO1s carry a certificate the asker accepts: those of
      replicas still in view 0, and of replicas holding the marked certificate of
      the view below.  A leader that entered by a VIEWCHANGE quorum alone fails. */
  lemma Echo1AcceptedIff(c: Config, r: Replica, m: Msg, x: Msg)
    requires StoredOk(c, r) && m.Rec1? && x in OnRec1(c, r, m).sent
    ensures VerifyTQC(c, x.view, x.v) <==> (r.view == 0 || TimeoutCert(r.view - 1) in r.prepared)
  {
    if r.view >= 1 && TimeoutCert(r.view - 1) !in r.prepared {
      assert StoredAt(c, r, r.view - 1);
    }
  }

  /** A replica that moved to its view by a timeout certificate answers every
      REC1 in that view with an ECHO1 whose certificate is accepted. */
  lemma EnteredByCertificateEchoIsAccepted(c: Config, r: Replica, m: Msg, es: seq<Event>, rec: Msg, x: Msg)
    requires StoredOk(c, r) && m.TQC? && OnTQC(c, r, m).r.view != r.view && c.quorum >= 1
    requires forall i :: 0 <= i < |es| ==> SignedTimeouts(es[i]) && !es[i].WakeUp?
    requires var r' := HandleAll(c, OnTQC(c, r, m).r, es);
             r'.view == m.view + 1 && rec.Rec1? && x in OnRec1(c, r', rec).sent
    ensures x.view == m.view && VerifyTQC(c, x.view, x.v)
  {
    AdoptKeeps(c, r, m);
    EnteringStores(c, r, m);
    MarkedCertificateStays(c, OnTQC(c, r, m).r, es, m.view);
    StoredThroughout(c, OnTQC(c, r, m).r, es);
    Echo1AcceptedIff(c, HandleAll(c, OnTQC(c, r, m).r, es), rec, x);
  }
}
