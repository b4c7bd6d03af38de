/** What a quorum of messages achieves: votes form a certificate, TIMEOUTs a
    timeout certificate, VIEWCHANGEs a leader, and answers to a recovery request
    end its first phase; one message fewer only collects. */
module Progress {
  import opened Messages
  import opened Quorums
  import opened Buffers
  import opened ReplicaSpec
  import opened StoredCerts

  function Deliveries(ms: seq<Msg>): seq<Event> {
    seq(|ms|, i requires 0 <= i < |ms| => Deliver(ms[i]))
  }

  /** The replica after the messages, in order. */
  function AfterAll(c: Config, r: Replica, ms: seq<Msg>): Replica {
    HandleAll(c, r, Deliveries(ms))
  }

  function Sources(ms: seq<Msg>): seq<int> {
    seq(|ms|, i requires 0 <= i < |ms| => ms[i].src)
  }

  lemma OneMore(c: Config, r: Replica, ms: seq<Msg>)
    requires ms != []
    ensures var k := |ms| - 1;
      && AfterAll(c, r, ms) == Handle(c, AfterAll(c, r, ms[..k]), Deliver(ms[k])).r
      && Sources(ms) == Sources(ms[..k]) + [ms[k].src]
  {
    var k := |ms| - 1;
    assert Deliveries(ms)[..k] == Deliveries(ms[..k]);
  }

  lemma LastIsNew(l: seq<int>, q: int)
    requires Distinct(l + [q])
    ensures Distinct(l) && q !in l && q !in Elements(l) && Elements(l + [q]) == Elements(l) + {q}
    ensures |Elements(l)| == |l|
  {
    forall i, j | 0 <= i < j < |l| ensures l[i] != l[j] {
      assert (l + [q])[i] != (l + [q])[j];
    }
    forall i | 0 <= i < |l| ensures l[i] != q {
      assert (l + [q])[i] != (l + [q])[|l|];
    }
    DistinctSize(l);
  }

  lemma SenderCounts(senders: set<int>, ms: seq<Msg>)
    requires ms != [] && Distinct(Sources(ms)) && senders == Elements(Sources(ms[..|ms| - 1]))
    ensures senders + {ms[|ms| - 1].src} == Elements(Sources(ms)) && |Elements(Sources(ms))| == |ms|
    ensures ms[|ms| - 1].src !in senders
  {
    assert Sources(ms) == Sources(ms[..|ms| - 1]) + [ms[|ms| - 1].src];
    LastIsNew(Sources(ms[..|ms| - 1]), ms[|ms| - 1].src);
    DistinctSize(Sources(ms));
  }

  // ----- votes -----

  /** Valid votes of distinct replicas for one hash, that the leader may count. */
  ghost predicate VotesFor(r: Replica, ms: seq<Msg>, num: int, h: Digest) {
    && Distinct(Sources(ms))
    && forall i :: 0 <= i < |ms| ==>
         && ms[i].Vote? && ms[i].num == num && ms[i].hash == h && ms[i].view >= r.view
         && VerifySig(ms[i].src, VoteOn(h), ms[i].sig)
  }

  /** The replica collects votes for its proposal num, and holds none yet. */
  ghost predicate OpenFor(r: Replica, num: int, h: Digest) {
    && (r.status == READY || r.status == PROCESSING) && BlockCert(h) !in r.prepared
    && (num in r.pending.awaiting ==> r.pending.awaiting[num] == h)
    && VotersOf(r.votes, h) == {} && SigsOf(r.votes, h) == [] && IdsOf(r.votes, h) == []
  }

  /** Only votes were added, those of l for h. */
  ghost predicate Counting(r: Replica, r': Replica, h: Digest, l: seq<int>) {
    r' == r.(votes := r'.votes) && VotersOf(r'.votes, h) == Elements(l) && IdsOf(r'.votes, h) == l
  }

  ghost predicate Completed(c: Config, r: Replica, r': Replica, num: int, h: Digest, l: seq<int>) {
    var b := r'.chain.curBlock;
    && r' == r.(votes := r'.votes, prepared := r.prepared + {BlockCert(h)}, chain := r.chain.(curBlock := b),
                status := READY)
    && b.hash == h && b.view == r.view && b.height == r.chain.curBlock.height + 1 && b.ids == l
    && b.preHash == AwaitingHash(r.pending, num - 1) && b.prePreHash == AwaitingHash(r.pending, num - 2)
    && b.txs == BlockTxs(r.id, r.pending, num)
  }

  lemma OneVoteCounts(c: Config, r: Replica, r1: Replica, m: Msg, num: int, h: Digest, l: seq<int>)
    requires OpenFor(r, num, h) && Counting(r, r1, h, l) && VotesFor(r, [m], num, h)
    requires m.src !in l && |Elements(l)| == |l| && Elements(l + [m.src]) == Elements(l) + {m.src}
    ensures var r' := Handle(c, r1, Deliver(m)).r;
      if |l| + 1 < c.quorum then Counting(r, r', h, l + [m.src])
      else Completed(c, r, r', num, h, l + [m.src])
  {
    assert [m][0] == m;
    var book := AddVote(r1.votes, h, m.src, Some(m.sig));
    assert VotersOf(book, h) == Elements(l + [m.src]) && |VotersOf(book, h)| == |l| + 1;
    assert IdsOf(book, h) == l + [m.src];
  }

  lemma AnotherVote(c: Config, r: Replica, ms: seq<Msg>, num: int, h: Digest)
    requires OpenFor(r, num, h) && VotesFor(r, ms, num, h) && ms != []
    requires var pre := ms[..|ms| - 1]; Counting(r, AfterAll(c, r, pre), h, Sources(pre))
    ensures if |ms| < c.quorum then Counting(r, AfterAll(c, r, ms), h, Sources(ms))
            else Completed(c, r, AfterAll(c, r, ms), num, h, Sources(ms))
  {
    var pre, m := ms[..|ms| - 1], ms[|ms| - 1];
    OneMore(c, r, ms);
    LastIsNew(Sources(pre), m.src);
    OneVoteCounts(c, r, AfterAll(c, r, pre), m, num, h, Sources(pre));
  }

  /** A quorum of valid votes of distinct replicas completes the certificate, of
      exactly these voters in the order they came; fewer change nothing but the
      votes collected. */
  lemma {:induction false} VotesCertify(c: Config, r: Replica, ms: seq<Msg>, num: int, h: Digest)
    requires OpenFor(r, num, h) && VotesFor(r, ms, num, h) && |ms| <= c.quorum && c.quorum >= 1
    ensures if |ms| < c.quorum then Counting(r, AfterAll(c, r, ms), h, Sources(ms))
            else Completed(c, r, AfterAll(c, r, ms), num, h, Sources(ms))
  {
    if ms == [] {
    } else {
      var pre := ms[..|ms| - 1];
      OneMore(c, r, ms);
      LastIsNew(Sources(pre), ms[|ms| - 1].src);
      VotesCertify(c, r, pre, num, h);
      AnotherVote(c, r, ms, num, h);
    }
  }

  // ----- TIMEOUTs -----

  ghost predicate TimeoutsFor(ms: seq<Msg>, v: int) {
    Distinct(Sources(ms)) && forall i :: 0 <= i < |ms| ==> ms[i].Timeout? && ms[i].view == v
  }

  function Entry(m: Msg): SignedMsg
    requires m.Timeout?
  {
    SignedMsg(TimeoutKind, m.src, m.view, m.sig)
  }

  ghost predicate AreEntries(l: seq<SignedMsg>, ms: seq<Msg>) {
    |l| == |ms| && forall i :: 0 <= i < |ms| ==> ms[i].Timeout? && l[i] == Entry(ms[i])
  }

  ghost predicate Gathering(r: Replica, r': Replica, v: int, ms: seq<Msg>) {
    && r' == r.(timeouts := r'.timeouts) && SendersOf(r'.timeouts, v) == Elements(Sources(ms))
    && AreEntries(MsgsOf(r'.timeouts, v), ms)
  }

  /** The replica has not given up v, and holds no TIMEOUT for it yet. */
  ghost predicate Ungiven(c: Config, r: Replica, v: int) {
    && Active(r) && v >= r.view && TimeoutCert(v) !in r.prepared
    && SendersOf(r.timeouts, v) == {} && MsgsOf(r.timeouts, v) == []
  }

  /** What the last of ms does at r1, after the others: with a quorum the replica
      sends their certificate and marks it, before that it sends nothing. */
  ghost predicate Certifies(c: Config, r: Replica, r1: Replica, v: int, ms: seq<Msg>)
    requires ms != []
  {
    var o := Handle(c, r1, Deliver(ms[|ms| - 1]));
    if |ms| < c.quorum then o.sent == {} && Gathering(r, o.r, v, ms)
    else o.sent == {TQC(r.id, v, MsgsOf(o.r.timeouts, v))} && AreEntries(MsgsOf(o.r.timeouts, v), ms)
         && TimeoutCert(v) in o.r.prepared
  }

  lemma CollectsLast(b: IntBook<SignedMsg>, ms: seq<Msg>, v: int)
    requires TimeoutsFor(ms, v) && ms != []
    requires SendersOf(b, v) == Elements(Sources(ms[..|ms| - 1])) && AreEntries(MsgsOf(b, v), ms[..|ms| - 1])
    ensures var m := ms[|ms| - 1]; var b' := Collect(b, v, m.src, SignedMsg(TimeoutKind, m.src, v, m.sig));
      SendersOf(b', v) == Elements(Sources(ms)) && |SendersOf(b', v)| == |ms| && AreEntries(MsgsOf(b', v), ms)
  {
    SenderCounts(SendersOf(b, v), ms);
  }

  lemma OneTimeoutCounts(c: Config, r: Replica, r1: Replica, ms: seq<Msg>, v: int)
    requires Ungiven(c, r, v) && TimeoutsFor(ms, v) && ms != [] && Gathering(r, r1, v, ms[..|ms| - 1])
    ensures Certifies(c, r, r1, v, ms)
  {
    CollectsLast(r1.timeouts, ms, v);
    assert ms[|ms| - 1].Timeout? && ms[|ms| - 1].view == v;
  }

  lemma {:induction false} FewerTimeoutsCount(c: Config, r: Replica, ms: seq<Msg>, v: int)
    requires Ungiven(c, r, v) && TimeoutsFor(ms, v) && |ms| < c.quorum
    ensures Gathering(r, AfterAll(c, r, ms), v, ms)
  {
    if ms == [] {
    } else {
      OneMore(c, r, ms);
      LastIsNew(Sources(ms[..|ms| - 1]), ms[|ms| - 1].src);
      FewerTimeoutsCount(c, r, ms[..|ms| - 1], v);
      OneTimeoutCounts(c, r, AfterAll(c, r, ms[..|ms| - 1]), ms, v);
    }
  }

  /** The TIMEOUTs of a quorum for a view not yet left make the replica send the
      timeout certificate of exactly these TIMEOUTs, in the order they came; with
      fewer it sends nothing. */
  lemma TimeoutsCertify(c: Config, r: Replica, ms: seq<Msg>, v: int)
    requires Ungiven(c, r, v) && TimeoutsFor(ms, v) && 1 <= |ms| <= c.quorum
    ensures Certifies(c, r, AfterAll(c, r, ms[..|ms| - 1]), v, ms)
  {
    OneMore(c, r, ms);
    LastIsNew(Sources(ms[..|ms| - 1]), ms[|ms| - 1].src);
    FewerTimeoutsCount(c, r, ms[..|ms| - 1], v);
    OneTimeoutCounts(c, r, AfterAll(c, r, ms[..|ms| - 1]), ms, v);
  }

  // ----- VIEWCHANGEs -----

  ghost predicate OffersFor(c: Config, ms: seq<Msg>, v: int) {
    && Distinct(Sources(ms))
    && forall i :: 0 <= i < |ms| ==> ms[i].ViewChange? && ms[i].view == v && VerifyQC(c, ms[i].block)
  }

  /** The replica may come to lead v, and holds no VIEWCHANGE for it yet. */
  ghost predicate Candidate(c: Config, r: Replica, v: int) {
    && Active(r) && r.status != READY && LeaderID(c, v) == r.id && (v == r.view || v == r.view + 1)
    && ViewCert(v) !in r.prepared && SendersOf(r.vcs, v) == {}
  }

  predicate Offers(m: Msg, b: QCBlock) {
    m.ViewChange? && m.block == b && b.hash != NoHash
  }

  ghost predicate Offered(ms: seq<Msg>, b: QCBlock) {
    exists i :: 0 <= i < |ms| && Offers(ms[i], b)
  }

  /** The current block is a highest one among the old and the offered blocks,
      and the sequence number is not below an adopted block. */
  ghost predicate TakesHighest(ch: Chain, ch': Chain, ms: seq<Msg>) {
    var b := ch'.curBlock;
    && ch' == ch.(curBlock := b, sequence := ch'.sequence)
    && (b == ch.curBlock || Offered(ms, b)) && b.height >= ch.curBlock.height
    && (forall x :: Offered(ms, x) ==> x.height <= b.height)
    && (ch'.sequence == ch.sequence || ch.sequence < ch'.sequence == b.height)
    && (b != ch.curBlock ==> ch'.sequence >= b.height)
  }

  lemma AdoptsHighest(ch: Chain, ch1: Chain, ms: seq<Msg>)
    requires ms != [] && ms[|ms| - 1].ViewChange? && TakesHighest(ch, ch1, ms[..|ms| - 1])
    ensures TakesHighest(ch, AdoptBlock(ch1, ms[|ms| - 1].block), ms)
  {
    var pre, m := ms[..|ms| - 1], ms[|ms| - 1];
    forall x | Offered(ms, x) ensures Offered(pre, x) || Offers(m, x) {
      var i :| 0 <= i < |ms| && Offers(ms[i], x);
      if i < |pre| { assert Offers(pre[i], x); }
    }
    forall x | Offered(pre, x) ensures Offered(ms, x) {
      var i :| 0 <= i < |pre| && Offers(pre[i], x);
      assert Offers(ms[i], x);
    }
    if m.block.hash != NoHash { assert Offers(ms[|pre|], m.block); }
  }

  ghost predicate Offering(r: Replica, r': Replica, v: int, ms: seq<Msg>) {
    && r' == r.(vcs := r'.vcs, chain := r'.chain) && SendersOf(r'.vcs, v) == Elements(Sources(ms))
    && TakesHighest(r.chain, r'.chain, ms)
  }

  ghost predicate Leads(c: Config, r: Replica, r': Replica, v: int, ms: seq<Msg>) {
    && r'.view == v && r'.leader && r'.status == READY
    && ViewCert(v) in r'.prepared && v in r'.spawned.monitors && (c.viewChange ==> v in r'.spawned.timers)
    && r'.pending == r.pending && r'.votes == r.votes && TakesHighest(r.chain, r'.chain, ms)
  }

  lemma NothingOffered(c: Config, r: Replica, v: int)
    requires SendersOf(r.vcs, v) == {}
    ensures Offering(r, AfterAll(c, r, []), v, [])
  {
    assert Sources([]) == [];
    assert r == r.(vcs := r.vcs, chain := r.chain);
    assert r.chain == r.chain.(curBlock := r.chain.curBlock, sequence := r.chain.sequence);
  }

  lemma OneOfferCounts(c: Config, r: Replica, r1: Replica, ms: seq<Msg>, v: int)
    requires Candidate(c, r, v) && OffersFor(c, ms, v) && ms != [] && Offering(r, r1, v, ms[..|ms| - 1])
    ensures var r' := Handle(c, r1, Deliver(ms[|ms| - 1])).r;
      if |ms| < c.quorum then Offering(r, r', v, ms) else Leads(c, r, r', v, ms)
  {
    var m := ms[|ms| - 1];
    SenderCounts(SendersOf(r1.vcs, v), ms);
    AdoptsHighest(r.chain, r1.chain, ms);
    assert SendersOf(Collect(r1.vcs, v, m.src, m), v) == Elements(Sources(ms));
  }

  /** The VIEWCHANGEs of a quorum make the candidate leader of the view, with a
      highest block among its own and the offered; with fewer it does not lead. */
  lemma {:induction false} ViewChangesLead(c: Config, r: Replica, ms: seq<Msg>, v: int)
    requires Candidate(c, r, v) && OffersFor(c, ms, v) && |ms| <= c.quorum && c.quorum >= 1
    ensures if |ms| < c.quorum then Offering(r, AfterAll(c, r, ms), v, ms)
            else Leads(c, r, AfterAll(c, r, ms), v, ms)
  {
    if ms == [] {
      NothingOffered(c, r, v);
    } else {
      OneMore(c, r, ms);
      LastIsNew(Sources(ms[..|ms| - 1]), ms[|ms| - 1].src);
      ViewChangesLead(c, r, ms[..|ms| - 1], v);
      OneOfferCounts(c, r, AfterAll(c, r, ms[..|ms| - 1]), ms, v);
    }
  }

  // ----- answers to a recovery request -----

  ghost predicate AnswersFor(c: Config, ms: seq<Msg>, req: RecRequest) {
    forall i :: 0 <= i < |ms| ==> ms[i].Echo1? && ms[i].req == req && VerifyTQC(c, ms[i].view, ms[i].v)
  }

  /** The replica has asked and counted nothing yet. */
  ghost predicate Asking(r: Replica, req: RecRequest) {
    && r.status == RECOVERING && r.rec.reqHash == Some(req)
    && FirstEchoes(req) !in r.prepared && CountOf(r.rec, req) == 0
  }

  predicate Names(m: Msg, v: int) {
    m.Echo1? && m.view == v
  }

  /** h is the highest of h0 and the views the answers name. */
  ghost predicate IsTop(h: int, h0: int, ms: seq<Msg>) {
    && (h == h0 || exists i :: 0 <= i < |ms| && Names(ms[i], h))
    && h >= h0 && forall i :: 0 <= i < |ms| && ms[i].Echo1? ==> ms[i].view <= h
  }

  ghost predicate Heard(c: Config, r: Replica, r': Replica, ms: seq<Msg>, req: RecRequest) {
    && r' == r.(rec := r.rec.(hView := r'.rec.hView, recCount := r'.rec.recCount), prepared := r'.prepared)
    && CountOf(r'.rec, req) == |ms| && IsTop(r'.rec.hView, r.rec.hView, ms)
    && (FirstEchoes(req) in r'.prepared <==> |ms| >= c.recQuorum)
  }

  lemma OneAnswerCounts(c: Config, r: Replica, r1: Replica, ms: seq<Msg>, req: RecRequest)
    requires Asking(r, req) && AnswersFor(c, ms, req) && 1 <= |ms| <= c.recQuorum
    requires Heard(c, r, r1, ms[..|ms| - 1], req)
    ensures Heard(c, r, Handle(c, r1, Deliver(ms[|ms| - 1])).r, ms, req)
  {
    var pre, m, r' := ms[..|ms| - 1], ms[|ms| - 1], Handle(c, r1, Deliver(ms[|ms| - 1])).r;
    if r'.rec.hView == m.view {
      assert Names(ms[|ms| - 1], r'.rec.hView);
    } else if r'.rec.hView != r.rec.hView {
      var i :| 0 <= i < |pre| && Names(pre[i], r'.rec.hView);
      assert Names(ms[i], r'.rec.hView);
    }
    forall i | 0 <= i < |ms| && ms[i].Echo1? ensures ms[i].view <= r'.rec.hView {
      if i < |pre| { assert pre[i] == ms[i]; }
    }
  }

  lemma {:induction false} AnswersCount(c: Config, r: Replica, ms: seq<Msg>, req: RecRequest)
    requires Asking(r, req) && AnswersFor(c, ms, req) && |ms| <= c.recQuorum && c.recQuorum >= 1
    ensures Heard(c, r, AfterAll(c, r, ms), ms, req)
  {
    if ms == [] {
      assert r == r.(rec := r.rec.(hView := r.rec.hView, recCount := r.rec.recCount), prepared := r.prepared);
    } else {
      OneMore(c, r, ms);
      AnswersCount(c, r, ms[..|ms| - 1], req);
      OneAnswerCounts(c, r, AfterAll(c, r, ms[..|ms| - 1]), ms, req);
    }
  }

  /** A recovery quorum of acceptable answers, and then a timeout certificate:
      the replica asks for state, naming the view it entered, exactly when that
      view is above h + 2, where h is the highest view of the answers and of what
      it knew.  With fewer answers it never asks. */
  lemma AnswersThenAsk(c: Config, r: Replica, ms: seq<Msg>, req: RecRequest, tqc: Msg, ts: int)
    requires Asking(r, req) && AnswersFor(c, ms, req) && |ms| <= c.recQuorum && c.recQuorum >= 1
    requires tqc.TQC? && VerifyTQC(c, tqc.view, tqc.v) && tqc.view >= r.view
    ensures var r1 := AfterAll(c, r, ms);
      var r2 := Handle(c, r1, Deliver(tqc)).r; var o := Handle(c, r2, FinishWait(ts));
      && IsTop(r1.rec.hView, r.rec.hView, ms) && r2.view == tqc.view + 1
      && (if |ms| == c.recQuorum && r2.view > r1.rec.hView + 2
          then o.sent == {Rec2(r.id, ts, r2.view)} && o.r.rec.reqHash == Some(SecondRequest(r.id, ts, r2.view))
          else o == Out(r2, {}))
  {
    AnswersCount(c, r, ms, req);
    ThenAsks(c, r, AfterAll(c, r, ms), ms, req, tqc, ts);
  }

  lemma ThenAsks(c: Config, r: Replica, r1: Replica, ms: seq<Msg>, req: RecRequest, tqc: Msg, ts: int)
    requires Asking(r, req) && Heard(c, r, r1, ms, req) && |ms| <= c.recQuorum
    requires tqc.TQC? && VerifyTQC(c, tqc.view, tqc.v) && tqc.view >= r.view
    ensures var r2 := Handle(c, r1, Deliver(tqc)).r; var o := Handle(c, r2, FinishWait(ts));
      && r2.view == tqc.view + 1
      && (if |ms| == c.recQuorum && r2.view > r1.rec.hView + 2
          then o.sent == {Rec2(r.id, ts, r2.view)} && o.r.rec.reqHash == Some(SecondRequest(r.id, ts, r2.view))
          else o == Out(r2, {}))
  {
  }
}
