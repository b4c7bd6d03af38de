/** Pieces of runs of five replicas that follow the code and never sleep: the
    turns of a view change, and the votes a leader counts. */
module ViewScripts {
  import opened Messages
  import opened Quorums
  import opened Buffers
  import opened ReplicaSpec
  import opened System
  import opened Scripts

  const FIVE := Config(5, 0, 3, 3, NoPersist, true, 10)
  const ENV := Env(FIVE, {})

  ghost predicate Reached(run: seq<Sys>, steps: seq<Step>, reps: seq<Replica>, net: set<Msg>) {
    EndsIn(ENV, run, steps, Sys(reps, net, {})) && |reps| == 5 && NoSleeps(steps)
  }

  /** The state so far, with the run that led there kept in the background. */
  ghost predicate At(reps: seq<Replica>, net: set<Msg>) {
    |reps| == 5 && exists run, steps :: Reached(run, steps, reps, net)
  }

  ghost predicate Unmoved(reps: seq<Replica>, reps': seq<Replica>, zs: seq<int>) {
    |reps| == |reps'| == 5 && forall z :: 0 <= z < 5 && z !in zs ==> reps'[z] == reps[z]
  }

  lemma Go(reps: seq<Replica>, net: set<Msg>, p: int, e: Event) returns (reps': seq<Replica>, net': set<Msg>)
    requires At(reps, net) && 0 <= p < 5 && Enabled(Sys(reps, net, {}), p, e)
    requires !e.FallAsleep? && (e.Deliver? ==> !IsEcho(e.m))
    ensures At(reps', net')
    ensures var o := Handle(FIVE, reps[p], e); reps' == reps[p := o.r] && net' == net + o.sent
  {
    var o := Handle(FIVE, reps[p], e);
    var run, steps :| Reached(run, steps, reps, net);
    var run', steps', s' := ExtendBy(ENV, run, steps, Sys(reps, net, {}), p, e);
    reps', net' := reps[p := o.r], net + o.sent;
    assert Reached(run', steps', reps', net');
  }

  // ----- what the rounds of a view change do to one replica -----

  /** No TIMEOUT for view w or above was collected. */
  ghost predicate Clean(r: Replica, w: int) {
    forall v :: v >= w ==>
      TimeoutCert(v) !in r.prepared && SendersOf(r.timeouts, v) == {} && MsgsOf(r.timeouts, v) == []
  }

  ghost predicate OnlyTimeouts(r: Replica, r': Replica) {
    && r'.id == r.id && r'.chain == r.chain && r'.votes == r.votes && r'.vcs == r.vcs
    && (forall h :: BlockCert(h) in r'.prepared <==> BlockCert(h) in r.prepared)
    && (forall v :: ViewCert(v) in r'.prepared <==> ViewCert(v) in r.prepared)
  }

  ghost predicate GaveUp(r: Replica, r': Replica, w: int) {
    && OnlyTimeouts(r, r') && r'.status == VIEWCHANGE && r'.view == r.view && r'.leader == r.leader
    && r'.pending == r.pending && r'.spawned == r.spawned && (Clean(r, w) ==> Clean(r', w + 1))
  }

  function Entry(p: int, w: int): SignedMsg {
    SignedMsg(TimeoutKind, p, w, Signed(p, Wire(TimeoutKind, p, w)))
  }

  predicate Trio(a: int, b: int, c: int) {
    0 <= a < 5 && 0 <= b < 5 && 0 <= c < 5 && a != b && b != c && a != c
  }

  function Entries(l: seq<int>, w: int): (es: seq<SignedMsg>)
    ensures |es| == |l|
  {
    seq(|l|, i requires 0 <= i < |l| => Entry(l[i], w))
  }

  lemma EntriesVerify(l: seq<int>, w: int)
    requires Distinct(l) && |l| >= 3
    ensures VerifyTQC(FIVE, w, Entries(l, w))
  {
    var es := Entries(l, w);
    forall i | 0 <= i < |es| ensures EntryOk(w, es[i], SourcesOf(es[..i])) {
      forall sm | sm in es[..i] ensures sm.source != es[i].source {
        var j :| 0 <= j < i && es[j] == sm;
      }
    }
  }

  /** The TIMEOUTs collected for view w, by l. */
  ghost predicate Holding(r: Replica, w: int, l: seq<int>) {
    SendersOf(r.timeouts, w) == Elements(l) && MsgsOf(r.timeouts, w) == Entries(l, w)
  }

  lemma OneMore(l: seq<int>, q: int, w: int)
    requires Distinct(l + [q])
    ensures q !in l && Elements(l + [q]) == Elements(l) + {q} && |Elements(l + [q])| == |l| + 1
    ensures Entries(l + [q], w) == Entries(l, w) + [Entry(q, w)]
  {
    var l' := l + [q];
    DistinctSize(l');
    forall i | 0 <= i < |l| ensures l[i] != q {
      assert l'[i] == l[i] && l'[|l|] == q;
    }
  }

  /** What a TIMEOUT of q does to a replica that holds those of l. */
  function WithTimeout(r: Replica, q: int, w: int, l: seq<int>): Out {
    var r1 := r.(timeouts := Collect(r.timeouts, w, q, Entry(q, w)));
    if |l| < 2 then Out(r1, {})
    else Out(r1.(prepared := r.prepared + {TimeoutCert(w)}), {TQC(r.id, w, Entries(l + [q], w))})
  }

  lemma CollectsTimeout(r: Replica, q: int, w: int, l: seq<int>)
    requires r.view <= w && TimeoutCert(w) !in r.prepared && Holding(r, w, l) && Distinct(l + [q])
    ensures OnTimeout(FIVE, r, TimeoutBy(q, w)) == WithTimeout(r, q, w, l)
    ensures Holding(WithTimeout(r, q, w, l).r, w, l + [q])
  {
    OneMore(l, q, w);
    var book := Collect(r.timeouts, w, q, Entry(q, w));
    assert SendersOf(book, w) == Elements(l + [q]) && MsgsOf(book, w) == Entries(l + [q], w);
  }

  predicate CanGiveUp(r: Replica, p: int, w: int) {
    r.id == p && Active(r) && r.view <= w && w in r.spawned.timers
  }

  lemma GivesUp(reps: seq<Replica>, net: set<Msg>, p: int, w: int) returns (reps': seq<Replica>, net': set<Msg>)
    requires At(reps, net) && 0 <= p < 5 && CanGiveUp(reps[p], p, w)
    ensures At(reps', net') && reps' == reps[p := reps[p].(status := VIEWCHANGE)] && net' == net + {TimeoutBy(p, w)}
  {
    reps', net' := Go(reps, net, p, TimerFires(w));
  }

  lemma CollectsOne(reps: seq<Replica>, net: set<Msg>, a: int, q: int, w: int, l: seq<int>)
    returns (reps': seq<Replica>, net': set<Msg>)
    requires At(reps, net) && 0 <= a < 5 && TimeoutBy(q, w) in net && reps[a].status == VIEWCHANGE && reps[a].view <= w
    requires TimeoutCert(w) !in reps[a].prepared && Holding(reps[a], w, l) && Distinct(l + [q])
    ensures var o := WithTimeout(reps[a], q, w, l);
      At(reps', net') && reps' == reps[a := o.r] && net' == net + o.sent && Holding(o.r, w, l + [q])
  {
    CollectsTimeout(reps[a], q, w, l);
    reps', net' := Go(reps, net, a, Deliver(TimeoutBy(q, w)));
  }

  lemma StaysClean(r: Replica, r': Replica, w: int)
    requires Clean(r, w)
    requires forall v :: v > w ==> SendersOf(r'.timeouts, v) == SendersOf(r.timeouts, v)
    requires forall v :: v > w ==> MsgsOf(r'.timeouts, v) == MsgsOf(r.timeouts, v)
    requires forall v :: v > w ==> (TimeoutCert(v) in r'.prepared <==> TimeoutCert(v) in r.prepared)
    ensures Clean(r', w + 1)
  {
  }

  lemma ThreeTimeouts(r: Replica, a: int, b: int, c: int, w: int)
    requires r.status == VIEWCHANGE && Clean(r, w) && Trio(a, b, c)
    ensures var o := WithTimeout(r, a, w, []); var o' := WithTimeout(o.r, b, w, [a]);
      var o'' := WithTimeout(o'.r, c, w, [a, b]);
      GaveUp(r, o''.r, w) && o''.sent == {TQC(r.id, w, Entries([a, b, c], w))}
  {
    assert [a, b] + [c] == [a, b, c];
    var o'' := WithTimeout(WithTimeout(WithTimeout(r, a, w, []).r, b, w, [a]).r, c, w, [a, b]);
    StaysClean(r, o''.r, w);
  }

  lemma CollectsTwo(reps: seq<Replica>, net: set<Msg>, a: int, b: int, w: int)
    returns (reps': seq<Replica>, net': set<Msg>)
    requires At(reps, net) && 0 <= a < 5 && a != b && reps[a].status == VIEWCHANGE && reps[a].view <= w
    requires Clean(reps[a], w) && TimeoutBy(a, w) in net && TimeoutBy(b, w) in net
    ensures var o := WithTimeout(reps[a], a, w, []); var o' := WithTimeout(o.r, b, w, [a]);
      && At(reps', net') && reps' == reps[a := o'.r] && net' == net + o.sent + o'.sent
      && Holding(o'.r, w, [a, b]) && TimeoutCert(w) !in o'.r.prepared
  {
    assert Holding(reps[a], w, []) && [] + [a] == [a] && [a] + [b] == [a, b];
    reps', net' := CollectsOne(reps, net, a, a, w, []);
    reps', net' := CollectsOne(reps', net', a, b, w, [a]);
  }

  /** Replica a collects the TIMEOUTs of all three. */
  lemma CollectsThree(reps: seq<Replica>, net: set<Msg>, a: int, b: int, c: int, w: int)
    returns (reps': seq<Replica>, net': set<Msg>, t: Msg)
    requires At(reps, net) && Trio(a, b, c) && reps[a].id == a && reps[a].status == VIEWCHANGE && reps[a].view <= w
    requires Clean(reps[a], w) && TimeoutBy(a, w) in net && TimeoutBy(b, w) in net && TimeoutBy(c, w) in net
    ensures At(reps', net') && Unmoved(reps, reps', [a]) && net <= net' && GaveUp(reps[a], reps'[a], w)
    ensures t in net' && t.TQC? && t.view == w && VerifyTQC(FIVE, w, t.v)
  {
    ThreeTimeouts(reps[a], a, b, c, w);
    EntriesVerify([a, b, c], w);
    t := TQC(a, w, Entries([a, b, c], w));
    reps', net' := CollectsTwo(reps, net, a, b, w);
    reps', net' := CollectsOne(reps', net', a, c, w, [a, b]);
  }

  /** Replicas a, b and c give up view w, and a collects their TIMEOUTs. */
  lemma Round(reps: seq<Replica>, net: set<Msg>, a: int, b: int, c: int, w: int)
    returns (reps': seq<Replica>, net': set<Msg>, t: Msg)
    requires At(reps, net) && Trio(a, b, c) && CanGiveUp(reps[a], a, w) && CanGiveUp(reps[b], b, w)
    requires CanGiveUp(reps[c], c, w) && Clean(reps[a], w) && Clean(reps[b], w) && Clean(reps[c], w)
    ensures At(reps', net') && Unmoved(reps, reps', [a, b, c]) && net <= net'
    ensures GaveUp(reps[a], reps'[a], w) && GaveUp(reps[b], reps'[b], w) && GaveUp(reps[c], reps'[c], w)
    ensures t in net' && t.TQC? && t.view == w && VerifyTQC(FIVE, w, t.v)
  {
    reps', net' := GivesUp(reps, net, a, w);
    reps', net' := GivesUp(reps', net', b, w);
    reps', net' := GivesUp(reps', net', c, w);
    reps', net', t := CollectsThree(reps', net', a, b, c, w);
  }

  /** What entering view v does. */
  ghost predicate Entered(r: Replica, r': Replica, v: int) {
    && OnlyTimeouts(r, r') && r'.view == v && r'.leader == (v % 5 == r.id)
    && r'.status == (if v % 5 == r.id then VIEWCHANGE else READY)
    && r'.pending == r.pending.(awaiting := map[])
    && (v % 5 != r.id ==> v in r'.spawned.timers) && (Clean(r, v) ==> Clean(r', v))
  }

  ghost predicate Announced(net: set<Msg>, r: Replica, v: int) {
    ViewChange(r.id, v % 5, v, r.chain.curBlock) in net
  }

  lemma CertificateEnters(r: Replica, t: Msg)
    requires Active(r) && t.TQC? && r.view <= t.view && VerifyTQC(FIVE, t.view, t.v)
    ensures var o := Handle(FIVE, r, Deliver(t)); Entered(r, o.r, t.view + 1) && Announced(o.sent, r, t.view + 1)
  {
  }

  lemma EnterAll(reps: seq<Replica>, net: set<Msg>, zs: seq<int>, t: Msg)
    returns (reps': seq<Replica>, net': set<Msg>)
    requires At(reps, net) && t in net && t.TQC? && VerifyTQC(FIVE, t.view, t.v) && Distinct(zs)
    requires forall z :: z in zs ==> 0 <= z < 5 && Active(reps[z]) && reps[z].id == z && reps[z].view <= t.view
    ensures At(reps', net') && Unmoved(reps, reps', zs) && net <= net'
    ensures forall z :: z in zs ==> Entered(reps[z], reps'[z], t.view + 1) && Announced(net', reps[z], t.view + 1)
  {
    if zs == [] {
      reps', net' := reps, net;
    } else {
      var k := |zs| - 1;
      var z := zs[k];
      assert zs == zs[..k] + [z];
      forall y | y in zs[..k] ensures y in zs && y != z {
        var i :| 0 <= i < k && zs[..k][i] == y;
        assert zs[i] == y;
      }
      assert z in zs;
      reps', net' := EnterAll(reps, net, zs[..k], t);
      CertificateEnters(reps[z], t);
      reps', net' := Go(reps', net', z, Deliver(t));
    }
  }

  // ----- whole view changes -----

  /** Replica z follows, or is about to lead, view v. */
  ghost predicate Follows(r: Replica, z: int, v: int) {
    && r.id == z && r.view == v && Active(r) && Clean(r, v) && r.leader == (v % 5 == z)
    && (v % 5 != z ==> v in r.spawned.timers && r.status == READY)
  }

  /** Nothing but views, timers, TIMEOUTs and awaited hashes changed. */
  ghost predicate Drifted(r: Replica, r': Replica) {
    OnlyTimeouts(r, r') && r'.pending.queue == r.pending.queue
  }

  lemma TurnMoves(r: Replica, r1: Replica, r2: Replica, z: int, w: int)
    requires Follows(r, z, w) && (r1 == r || GaveUp(r, r1, w)) && Entered(r1, r2, w + 1)
    ensures Follows(r2, z, w + 1) && Drifted(r, r2) && ((w + 1) % 5 == z ==> r2.status == VIEWCHANGE)
  {
  }

  /** Replicas a, b and c give up view w, and all of zs enter the next. */
  lemma Turn(reps: seq<Replica>, net: set<Msg>, a: int, b: int, c: int, zs: seq<int>, w: int)
    returns (reps': seq<Replica>, net': set<Msg>, t: Msg)
    requires At(reps, net) && Distinct(zs) && Trio(a, b, c) && a in zs && b in zs && c in zs
    requires forall z :: z in zs ==> 0 <= z < 5 && Follows(reps[z], z, w)
    requires w >= 0 && w % 5 != a && w % 5 != b && w % 5 != c
    ensures At(reps', net') && Unmoved(reps, reps', zs) && net <= net'
    ensures forall z :: z in zs ==>
      Follows(reps'[z], z, w + 1) && Drifted(reps[z], reps'[z]) && Announced(net', reps[z], w + 1)
    ensures (w + 1) % 5 in zs ==> reps'[(w + 1) % 5].status == VIEWCHANGE
    ensures t in net' && t.TQC? && t.view == w && VerifyTQC(FIVE, w, t.v)
  {
    var reps1, net1;
    reps1, net1, t := Round(reps, net, a, b, c, w);
    reps', net' := EnterAll(reps1, net1, zs, t);
    forall z | z in zs
      ensures Follows(reps'[z], z, w + 1) && Drifted(reps[z], reps'[z]) && Announced(net', reps[z], w + 1)
      ensures (w + 1) % 5 == z ==> reps'[z].status == VIEWCHANGE
    {
      TurnMoves(reps[z], reps1[z], reps'[z], z, w);
    }
  }

  /** All but replica 1. */
  const OTHERS := [0, 2, 3, 4]

  /** One turn of theirs; whoever leads a view does not give it up. */
  lemma NextTurn(reps: seq<Replica>, net: set<Msg>, w: int)
    returns (reps': seq<Replica>, net': set<Msg>, t: Msg)
    requires At(reps, net) && w >= 0 && forall z :: z in OTHERS ==> Follows(reps[z], z, w)
    ensures At(reps', net') && Unmoved(reps, reps', OTHERS) && net <= net'
    ensures forall z :: z in OTHERS ==>
      Follows(reps'[z], z, w + 1) && Drifted(reps[z], reps'[z]) && Announced(net', reps[z], w + 1)
    ensures t in net' && t.TQC? && t.view == w && VerifyTQC(FIVE, w, t.v)
  {
    if w % 5 == 2 {
      reps', net', t := Turn(reps, net, 0, 3, 4, OTHERS, w);
    } else if w % 5 == 3 {
      reps', net', t := Turn(reps, net, 0, 2, 4, OTHERS, w);
    } else if w % 5 == 4 {
      reps', net', t := Turn(reps, net, 0, 2, 3, OTHERS, w);
    } else {
      reps', net', t := Turn(reps, net, 2, 3, 4, OTHERS, w);
    }
  }

  /** They move on from view 1 to view v. */
  lemma {:induction false} Turns(reps: seq<Replica>, net: set<Msg>, v: int)
    returns (reps': seq<Replica>, net': set<Msg>)
    requires At(reps, net) && 1 <= v && forall z :: z in OTHERS ==> Follows(reps[z], z, 1)
    ensures At(reps', net') && Unmoved(reps, reps', OTHERS) && net <= net'
    ensures forall z :: z in OTHERS ==> Follows(reps'[z], z, v) && Drifted(reps[z], reps'[z])
    decreases v
  {
    if v == 1 {
      reps', net' := reps, net;
    } else {
      var t;
      reps', net' := Turns(reps, net, v - 1);
      reps', net', t := NextTurn(reps', net', v - 1);
    }
  }

  /** Replica 1 enters with them. */
  lemma AllTurn(reps: seq<Replica>, net: set<Msg>, w: int) returns (reps': seq<Replica>, net': set<Msg>)
    requires At(reps, net) && w >= 0 && forall z :: z in OTHERS ==> Follows(reps[z], z, w)
    requires reps[1].id == 1 && Active(reps[1]) && reps[1].view <= w
    ensures At(reps', net') && net <= net' && Entered(reps[1], reps'[1], w + 1)
    ensures forall z :: z in OTHERS ==>
      Follows(reps'[z], z, w + 1) && Drifted(reps[z], reps'[z]) && Announced(net', reps[z], w + 1)
  {
    var t;
    reps', net', t := NextTurn(reps, net, w);
    reps', net' := EnterAll(reps', net', [1], t);
  }

  // ----- leading a view -----

  ghost predicate AwaitsViewChanges(r: Replica, v: int, l: set<int>) {
    && r.status == VIEWCHANGE && r.view == v && v % 5 == r.id
    && ViewCert(v) !in r.prepared && SendersOf(r.vcs, v) == l
  }

  /** What a VIEWCHANGE for view v does to its leader, holding n others. */
  function WithViewChange(r: Replica, m: Msg, v: int, n: int): Replica
    requires m.ViewChange?
  {
    var r1 := r.(vcs := Collect(r.vcs, v, m.src, m), chain := AdoptBlock(r.chain, m.block));
    if n < 2 then r1
    else SetView(FIVE, r1, v).(
           prepared := r.prepared + {ViewCert(v)}, status := READY,
           spawned := Spawned(r.spawned.monitors + {v}, r.spawned.timers + {v}))
  }

  lemma CollectsViewChange(r: Replica, m: Msg, v: int, l: set<int>)
    requires AwaitsViewChanges(r, v, l) && m.ViewChange? && m.view == v && m.src !in l && VerifyQC(FIVE, m.block)
    ensures Handle(FIVE, r, Deliver(m)) == Out(WithViewChange(r, m, v, |l|), {})
    ensures SendersOf(WithViewChange(r, m, v, |l|).vcs, v) == l + {m.src}
  {
    assert SendersOf(Collect(r.vcs, v, m.src, m), v) == l + {m.src};
  }

  predicate ViewChangeTo(m: Msg, x: int, v: int) {
    m.ViewChange? && m.view == v && m.dst == x && VerifyQC(FIVE, m.block)
  }

  /** What a quorum of three does to the leader. */
  ghost predicate Leads(r: Replica, r': Replica, v: int, b: QCBlock, b': QCBlock, b'': QCBlock) {
    && r'.id == r.id && r'.view == v && r'.leader && r'.status == READY
    && r'.votes == r.votes && r'.pending == r.pending
    && r'.chain == AdoptBlock(AdoptBlock(AdoptBlock(r.chain, b), b'), b'')
    && v in r'.spawned.monitors && r'.prepared == r.prepared + {ViewCert(v)}
    && forall u :: u != v ==> SendersOf(r'.vcs, u) == SendersOf(r.vcs, u)
  }

  lemma Lead(reps: seq<Replica>, net: set<Msg>, x: int, m: Msg, m': Msg, m'': Msg, v: int)
    returns (reps': seq<Replica>)
    requires At(reps, net) && 0 <= x < 5 && reps[x].id == x && AwaitsViewChanges(reps[x], v, {})
    requires {m, m', m''} <= net && ViewChangeTo(m, x, v) && ViewChangeTo(m', x, v) && ViewChangeTo(m'', x, v)
    requires m.src != m'.src && m'.src != m''.src && m.src != m''.src
    ensures At(reps', net) && Unmoved(reps, reps', [x])
    ensures Leads(reps[x], reps'[x], v, m.block, m'.block, m''.block)
  {
    reps' := LeadStep(reps, net, x, m, v, {});
    reps' := LeadStep(reps', net, x, m', v, {m.src});
    reps' := LeadStep(reps', net, x, m'', v, {m.src, m'.src});
  }

  lemma LeadStep(reps: seq<Replica>, net: set<Msg>, x: int, m: Msg, v: int, l: set<int>) returns (reps': seq<Replica>)
    requires At(reps, net) && 0 <= x < 5 && reps[x].id == x && AwaitsViewChanges(reps[x], v, l)
    requires m in net && ViewChangeTo(m, x, v) && m.src !in l
    ensures At(reps', net) && reps' == reps[x := WithViewChange(reps[x], m, v, |l|)]
    ensures SendersOf(reps'[x].vcs, v) == l + {m.src}
  {
    CollectsViewChange(reps[x], m, v, l);
    var net';
    reps', net' := Go(reps, net, x, Deliver(m));
    assert net' == net;
  }

  // ----- counting votes -----

  function SignedVote(q: int, p: int, v: int, num: int, h: Digest): Msg {
    Vote(q, p, v, num, h, Signed(q, VoteOn(h)))
  }

  /** The votes for h are those of l, in order. */
  ghost predicate Votes(b: VoteBook, h: Digest, l: seq<int>) {
    VotersOf(b, h) == Elements(l) && |SigsOf(b, h)| == |l| && IdsOf(b, h) == l && Distinct(l)
  }

  ghost predicate SameBut(b: VoteBook, b': VoteBook, h: Digest) {
    forall g, l :: g != h && Votes(b, g, l) ==> Votes(b', g, l)
  }

  /** What q's vote does to a leader with the votes of l. */
  function WithVote(r: Replica, q: int, num: int, h: Digest, l: seq<int>): Replica {
    var book := AddVote(r.votes, h, q, Some(Signed(q, VoteOn(h))));
    if |l| < 2 then r.(votes := book)
    else r.(votes := book, prepared := r.prepared + {BlockCert(h)},
            chain := r.chain.(curBlock := Certificate(r, book, num, h)), status := READY)
  }

  predicate CountsFor(r: Replica, v: int, num: int, h: Digest) {
    && Active(r) && r.status != VIEWCHANGE && r.view <= v && BlockCert(h) !in r.prepared
    && (num in r.pending.awaiting ==> r.pending.awaiting[num] == h)
  }

  lemma AddsVote(b: VoteBook, h: Digest, q: int, sig: Signature, l: seq<int>)
    requires Votes(b, h, l) && q !in l
    ensures Votes(AddVote(b, h, q, Some(sig)), h, l + [q]) && SameBut(b, AddVote(b, h, q, Some(sig)), h)
    ensures |VotersOf(AddVote(b, h, q, Some(sig)), h)| == |l| + 1
  {
    DistinctSize(l);
    assert Elements(l + [q]) == Elements(l) + {q};
  }

  lemma CountsVote(r: Replica, q: int, p: int, v: int, num: int, h: Digest, l: seq<int>)
    requires CountsFor(r, v, num, h) && Votes(r.votes, h, l) && q !in l
    ensures Handle(FIVE, r, Deliver(SignedVote(q, p, v, num, h))) == Out(WithVote(r, q, num, h, l), {})
    ensures Votes(WithVote(r, q, num, h, l).votes, h, l + [q]) && SameBut(r.votes, WithVote(r, q, num, h, l).votes, h)
  {
    AddsVote(r.votes, h, q, Signed(q, VoteOn(h)), l);
  }

  lemma CountVote(reps: seq<Replica>, net: set<Msg>, p: int, q: int, v: int, num: int, h: Digest, l: seq<int>)
    returns (reps': seq<Replica>)
    requires At(reps, net) && 0 <= p < 5 && SignedVote(q, p, v, num, h) in net
    requires CountsFor(reps[p], v, num, h) && Votes(reps[p].votes, h, l) && q !in l
    ensures At(reps', net) && reps' == reps[p := WithVote(reps[p], q, num, h, l)]
    ensures Votes(reps'[p].votes, h, l + [q]) && SameBut(reps[p].votes, reps'[p].votes, h)
  {
    CountsVote(reps[p], q, p, v, num, h, l);
    var net';
    reps', net' := Go(reps, net, p, Deliver(SignedVote(q, p, v, num, h)));
    assert net' == net;
  }

  /** A certificate of three votes, one above the leader's block. */
  ghost predicate Certificated(r: Replica, r': Replica, h: Digest) {
    var c := r'.chain.curBlock;
    && r' == r.(votes := r'.votes, prepared := r.prepared + {BlockCert(h)}, chain := r.chain.(curBlock := c),
                status := READY)
    && c.hash == h && c.view == r.view && c.height == r.chain.curBlock.height + 1 && |c.qc| == |c.ids| == 3
    && SameBut(r.votes, r'.votes, h)
  }

  /** With a's vote counted, those of b and c complete the certificate. */
  lemma CountTwo(reps: seq<Replica>, net: set<Msg>, p: int, v: int, num: int, h: Digest, a: int, b: int, c: int)
    returns (reps': seq<Replica>)
    requires At(reps, net) && 0 <= p < 5 && Trio(a, b, c)
    requires CountsFor(reps[p], v, num, h) && Votes(reps[p].votes, h, [a])
    requires {SignedVote(b, p, v, num, h), SignedVote(c, p, v, num, h)} <= net
    ensures At(reps', net) && Unmoved(reps, reps', [p]) && Certificated(reps[p], reps'[p], h)
  {
    assert [a] + [b] == [a, b] && [a, b] + [c] == [a, b, c];
    reps' := CountVote(reps, net, p, b, v, num, h, [a]);
    reps' := CountVote(reps', net, p, c, v, num, h, [a, b]);
  }

  lemma CountThree(reps: seq<Replica>, net: set<Msg>, p: int, v: int, num: int, h: Digest, a: int, b: int, c: int)
    returns (reps': seq<Replica>)
    requires At(reps, net) && 0 <= p < 5 && Trio(a, b, c)
    requires CountsFor(reps[p], v, num, h) && Votes(reps[p].votes, h, [])
    requires {SignedVote(a, p, v, num, h), SignedVote(b, p, v, num, h), SignedVote(c, p, v, num, h)} <= net
    ensures At(reps', net) && Unmoved(reps, reps', [p]) && Certificated(reps[p], reps'[p], h)
  {
    assert [] + [a] == [a];
    reps' := CountVote(reps, net, p, a, v, num, h, []);
    reps' := CountTwo(reps', net, p, v, num, h, a, b, c);
  }
}
