/** The second recovery phase: what a returning replica has taken over from the
    replicas whose ECHO2 it counted. */
module StateTransfer {
  import opened Messages
  import opened Quorums
  import opened ReplicaSpec
  import opened System
  import opened Views
  import opened StoredCerts
  import opened Freshness
  import opened Pipeline

  // ----- merging ledgers -----

  function MergeAll(mine: Ledger, ls: seq<Ledger>): Ledger {
    if ls == [] then mine else MergeLedger(MergeAll(mine, ls[..|ls| - 1]), ls[|ls| - 1])
  }

  ghost predicate Agree(l: Ledger, l': Ledger) {
    forall k :: k in l && k in l' ==> l[k] == l'[k]
  }

  /** Entry k of the ledger has value v in mine or in one of the others. */
  ghost predicate Offered(mine: Ledger, ls: seq<Ledger>, k: int, v: QCBlock) {
    (k in mine && mine[k] == v) || exists i :: 0 <= i < |ls| && k in ls[i] && ls[i][k] == v
  }

  /** Merging in arrival order never overwrites an entry and adds only offered ones. */
  lemma {:induction false} MergeNeverOverwrites(mine: Ledger, ls: seq<Ledger>)
    ensures forall k :: k in mine ==> k in MergeAll(mine, ls) && MergeAll(mine, ls)[k] == mine[k]
    ensures forall k :: k in MergeAll(mine, ls) ==> Offered(mine, ls, k, MergeAll(mine, ls)[k])
    ensures forall i, k :: 0 <= i < |ls| && k in ls[i] ==> k in MergeAll(mine, ls)
  {
    if ls == [] {
    } else {
      var pre, n := ls[..|ls| - 1], |ls| - 1;
      MergeNeverOverwrites(mine, pre);
      forall k | k in MergeAll(mine, ls) ensures Offered(mine, ls, k, MergeAll(mine, ls)[k]) {
        if k in MergeAll(mine, pre) && k !in mine {
          var i :| 0 <= i < |pre| && k in pre[i] && pre[i][k] == MergeAll(mine, pre)[k];
          assert ls[i] == pre[i];
        } else if k !in MergeAll(mine, pre) {
          assert k in ls[n];
        }
      }
      forall i, k | 0 <= i < |ls| && k in ls[i] ensures k in MergeAll(mine, ls) {
        if i < n { assert pre[i] == ls[i]; }
      }
    }
  }

  /** For agreeing ledgers the merge is their union, whatever the arrival order. */
  lemma MergeOrderIrrelevant(mine: Ledger, ls: seq<Ledger>, ls': seq<Ledger>)
    requires forall l :: l in ls <==> l in ls'
    requires forall i :: 0 <= i < |ls| ==> Agree(mine, ls[i])
    requires forall i, j :: 0 <= i < |ls| && 0 <= j < |ls| ==> Agree(ls[i], ls[j])
    ensures MergeAll(mine, ls) == MergeAll(mine, ls')
  {
    MergeNeverOverwrites(mine, ls);
    MergeNeverOverwrites(mine, ls');
    forall k ensures k in MergeAll(mine, ls) <==> k in MergeAll(mine, ls') {
      if k in MergeAll(mine, ls) { MergedKeys(mine, ls, ls', k); }
      if k in MergeAll(mine, ls') { MergedKeys(mine, ls', ls, k); }
    }
    forall k | k in MergeAll(mine, ls) ensures MergeAll(mine, ls)[k] == MergeAll(mine, ls')[k] {
      if k !in mine {
        var i :| 0 <= i < |ls| && k in ls[i] && ls[i][k] == MergeAll(mine, ls)[k];
        var j :| 0 <= j < |ls'| && k in ls'[j] && ls'[j][k] == MergeAll(mine, ls')[k];
        assert ls'[j] in ls;
        var j' :| 0 <= j' < |ls| && ls[j'] == ls'[j];
        assert Agree(ls[i], ls[j']);
      }
    }
  }

  lemma MergedKeys(mine: Ledger, ls: seq<Ledger>, ls': seq<Ledger>, k: int)
    requires forall l :: l in ls ==> l in ls'
    requires k in MergeAll(mine, ls)
    ensures k in MergeAll(mine, ls')
  {
    MergeNeverOverwrites(mine, ls);
    MergeNeverOverwrites(mine, ls');
    if k !in mine {
      var i :| 0 <= i < |ls| && k in ls[i];
      assert ls[i] in ls';
      var j :| 0 <= j < |ls'| && ls'[j] == ls[i];
    }
  }

  // ----- what a run's counted answers leave behind -----

  predicate AnswersRequest(e: Event, req: RecRequest) {
    e.Deliver? && e.m.Rec2? && req == SecondRequest(e.m.src, e.m.ts, e.m.view)
  }

  predicate CountsEcho2(r: Replica, r': Replica, e: Event, req: RecRequest) {
    Counted(r, r', e) && e.m.Echo2? && e.m.req == req
  }

  /** Step k is replica p's, and counts an ECHO2 for req. */
  ghost predicate CountsAt(run: seq<Sys>, steps: seq<Step>, k: nat, p: int, req: RecRequest)
    requires k < |steps| && |run| == |steps| + 1 && 0 <= p < |run[k].reps| == |run[k + 1].reps|
  {
    var st := steps[k];
    st.Local? && st.p == p && CountsEcho2(run[k].reps[p], run[k + 1].reps[p], st.e, req)
  }

  /** The ECHO2s for req that replica p counted in steps i .. j-1. */
  ghost function CountedEchoes(env: Env, run: seq<Sys>, steps: seq<Step>, i: nat, j: nat, p: int,
          req: RecRequest): set<Msg>
    requires IsRun(env, run, steps) && i <= j < |run| && 0 <= p < env.c.n
  {
    set k {:trigger steps[k]} | i <= k < j && CountsAt(run, steps, k, p, req) :: steps[k].e.m
  }

  ghost function NowCounted(run: seq<Sys>, steps: seq<Step>, k: nat, p: int, req: RecRequest): set<Msg>
    requires k < |steps| && |run| == |steps| + 1 && 0 <= p < |run[k].reps| == |run[k + 1].reps|
  {
    if CountsAt(run, steps, k, p, req) then {steps[k].e.m} else {}
  }

  ghost predicate CountedNext(run: seq<Sys>, steps: seq<Step>, k: nat, p: int, req: RecRequest,
        before: set<Msg>, after: set<Msg>)
    requires k < |steps| && |run| == |steps| + 1 && 0 <= p < |run[k].reps| == |run[k + 1].reps|
  {
    after == before + NowCounted(run, steps, k, p, req)
  }

  lemma CountedUpTo(env: Env, run: seq<Sys>, steps: seq<Step>, i: nat, j: nat, p: int, req: RecRequest)
    requires IsRun(env, run, steps) && i <= j < |run| - 1 && 0 <= p < env.c.n
    ensures CountedNext(run, steps, j, p, req, CountedEchoes(env, run, steps, i, j, p, req),
                        CountedEchoes(env, run, steps, i, j + 1, p, req))
  {
  }

  function Senders(ms: set<Msg>): set<int> {
    set m | m in ms :: m.src
  }

  predicate Awaits(r: Replica, req: RecRequest) {
    r.status == RECOVERING && r.rec.reqHash == Some(req)
  }

  /** The replica's block and lock are at least as high as the message's. */
  predicate Dominates(ch: Chain, m: Msg) {
    m.Echo2? ==>
      && (m.prepared.hash != NoHash ==> ch.curBlock.height >= m.prepared.height)
      && (m.locked.hash != NoHash ==> ch.lockedBlock.height >= m.locked.height)
  }

  /** One event while awaiting ECHO2s, if no ECHO1 answers the request. */
  lemma AwaitingStep(c: Config, r: Replica, e: Event, req: RecRequest)
    requires Awaits(r, req) && req.SecondRequest? && (e.Deliver? && e.m.Echo1? ==> e.m.req != req)
    requires e.FinishWait? ==> !WaitIsOver(r)
    requires var r' := Handle(c, r, e).r; Awaits(r', req) || r'.status == READY
    ensures var r' := Handle(c, r, e).r;
      && r'.chain.curBlock.height >= r.chain.curBlock.height
      && r'.chain.lockedBlock.height >= r.chain.lockedBlock.height
      && (if CountsEcho2(r, r', e, req)
          then CountOf(r'.rec, req) == CountOf(r.rec, req) + 1 && Dominates(r'.chain, e.m)
          else CountOf(r'.rec, req) == CountOf(r.rec, req))
      && (r'.status == READY ==> CountOf(r'.rec, req) >= c.recQuorum)
      && (CountsEcho2(r, r', e, req) && CountOf(r'.rec, req) >= c.recQuorum ==> r'.status == READY)
  {
    if e.Deliver? && !e.m.Echo2? && !e.m.Echo1? {
      assert Handle(c, r, e).r.chain == r.chain && Handle(c, r, e).r.rec == r.rec;
    }
  }

  ghost predicate TransferOk(env: Env, s: Sys, p: int, req: RecRequest, ms: set<Msg>)
    requires 0 <= p < |s.reps|
  {
    var r := s.reps[p];
    && (forall m :: m in ms ==> m in s.net && m.Echo2? && m.req == req && (p, m.src, req) in s.heard)
    && (forall m :: m in ms ==> Dominates(r.chain, m))
    && |Senders(ms)| == CountOf(r.rec, req)
  }

  /** Throughout states i .. j-1 replica p awaits answers to the REC2 it sent in step i-1. */
  ghost predicate AwaitsThroughout(env: Env, run: seq<Sys>, steps: seq<Step>, i: nat, j: nat, p: int, req: RecRequest)
    requires IsRun(env, run, steps) && 0 <= p < env.c.n
  {
    && 1 <= i <= j < |run| && req.SecondRequest?
    && steps[i - 1].Local? && steps[i - 1].p == p && steps[i - 1].e.FinishWait? && WaitIsOver(run[i - 1].reps[p])
    && forall k :: i <= k < j ==> Awaits(run[k].reps[p], req)
  }

  // ----- requests are fresh -----

  predicate Asked(net: set<Msg>, p: int, req: RecRequest) {
    match req
    case FirstRequest(asker, ts) => asker == p && Rec1(p, ts) in net
    case SecondRequest(asker, ts, v) => asker == p && Rec2(p, ts, v) in net
  }

  /** A replica counts answers only to requests it sent. */
  ghost predicate CountsOwn(env: Env, s: Sys)
    requires |s.reps| == env.c.n
  {
    forall p :: Honest(env, p) ==>
      && (s.reps[p].rec.reqHash.Some? ==> Asked(s.net, p, s.reps[p].rec.reqHash.value))
      && (forall q :: q in s.reps[p].rec.recCount ==> Asked(s.net, p, q))
  }

  lemma CountsOnlyCurrent(c: Config, r: Replica, e: Event)
    ensures var r' := Handle(c, r, e).r;
      && (forall q :: q in r'.rec.recCount ==> q in r.rec.recCount || r.rec.reqHash == Some(q))
      && (r'.rec.reqHash == r.rec.reqHash
          || (e.WakeUp? && r'.rec.reqHash == Some(FirstRequest(r.id, e.ts)) &&
              Handle(c, r, e).sent == {Rec1(r.id, e.ts)})
          || (e.FinishWait? && r'.rec.reqHash == Some(SecondRequest(r.id, e.ts, r.view))
              && Handle(c, r, e).sent == {Rec2(r.id, e.ts, r.view)}))
  {
    if e.Deliver? && !e.m.Echo2? && !e.m.Echo1? {
      assert Handle(c, r, e).r.rec == r.rec;
    }
  }

  lemma StepCountsOwn(env: Env, s: Sys, s': Sys, st: Step)
    requires |s.reps| == |s'.reps| == env.c.n && Next(env, s, s', st) && CountsOwn(env, s)
    requires forall p :: 0 <= p < env.c.n ==> s.reps[p].id == p
    ensures CountsOwn(env, s')
  {
    if st.Local? {
      CountsOnlyCurrent(env.c, s.reps[st.p], st.e);
    }
  }

  lemma {:induction false} RunCountsOwn(env: Env, run: seq<Sys>, steps: seq<Step>, i: nat)
    requires EnvOk(env) && env.c.level == NoPersist && IsRun(env, run, steps) && i < |run|
    ensures CountsOwn(env, run[i])
  {
    if i == 0 {
    } else {
      RunCountsOwn(env, run, steps, i - 1);
      RunViewInv(env, run, steps, i - 1);
      assert StepAt(env, run, steps, i - 1);
      StepCountsOwn(env, run[i - 1], run[i], steps[i - 1]);
    }
  }

  /** A waiting replica that keeps its request does not send another. */
  lemma KeepsRequest(env: Env, s: Sys, s': Sys, e: Event, p: int, req: RecRequest)
    requires Honest(env, p) && Next(env, s, s', Local(p, e)) && |s'.reps| == env.c.n && s.reps[p].id == p
    requires Awaits(s.reps[p], req) && Asked(s.net, p, req)
    requires Awaits(s'.reps[p], req) || s'.reps[p].status == READY
    ensures e.FinishWait? ==> !WaitIsOver(s.reps[p])
  {
  }

  lemma OneMoreSender(ms: set<Msg>, m: Msg)
    requires m.src !in Senders(ms)
    ensures |Senders(ms + {m})| == |Senders(ms)| + 1
  {
    assert Senders(ms + {m}) == Senders(ms) + {m.src};
  }

  /** The waiting replica's own step. */
  lemma OwnTransferStep(env: Env, s: Sys, s': Sys, e: Event, p: int, req: RecRequest, ms: set<Msg>)
    requires Honest(env, p) && Next(env, s, s', Local(p, e)) && |s'.reps| == env.c.n
    requires Awaits(s.reps[p], req) && req.SecondRequest? && TransferOk(env, s, p, req, ms)
    requires Awaits(s'.reps[p], req) || s'.reps[p].status == READY
    requires e.FinishWait? ==> !WaitIsOver(s.reps[p])
    requires e.Deliver? && e.m.Echo1? ==> e.m.req != req
    ensures TransferOk(env, s', p, req, ms + (if CountsEcho2(s.reps[p], s'.reps[p], e, req) then {e.m} else {}))
    ensures ReadyByCount(env, s.reps[p], req) ==> ReadyByCount(env, s'.reps[p], req)
  {
    AwaitingStep(env.c, s.reps[p], e, req);
    if CountsEcho2(s.reps[p], s'.reps[p], e, req) {
      OneMoreSender(ms, e.m);
    } else {
      assert ms + {} == ms;
    }
  }

  /** No ECHO1 answers a REC2 when every replica follows the code. */
  lemma NoEcho1Answers(env: Env, run: seq<Sys>, steps: seq<Step>, k: nat, m: Msg)
    requires EnvRecovers(env) && env.byz == {} && IsRun(env, run, steps) && k < |run|
    requires m in run[k].net && m.Echo1?
    ensures m.req.FirstRequest?
  {
    RunViewInv(env, run, steps, k);
    RunEchoesAnswer(env, run, steps, k);
  }

  lemma AskedCurrent(env: Env, run: seq<Sys>, steps: seq<Step>, k: nat, p: int, req: RecRequest)
    requires EnvOk(env) && env.c.level == NoPersist && IsRun(env, run, steps) && k < |run| && Honest(env, p)
    requires Awaits(run[k].reps[p], req)
    ensures Asked(run[k].net, p, req) && run[k].reps[p].id == p
  {
    RunViewInv(env, run, steps, k);
    RunCountsOwn(env, run, steps, k);
  }

  /** READY with a recovery quorum of answers and not without; nothing counted decides nothing. */
  predicate ReadyByCount(env: Env, r: Replica, req: RecRequest) {
    var n := CountOf(r.rec, req);
    (r.status == READY ==> n >= env.c.recQuorum) && (n >= env.c.recQuorum && n > 0 ==> r.status == READY)
  }

  /** What the answers counted up to state j have left behind. */
  ghost predicate TransferredAt(env: Env, run: seq<Sys>, j: nat, p: int, req: RecRequest, ms: set<Msg>)
    requires j < |run| && 0 <= p < |run[j].reps|
  {
    && TransferOk(env, run[j], p, req, ms)
    && ReadyByCount(env, run[j].reps[p], req)
  }

  /** Replica p asked for the state in step i-1 and has since done nothing but
      count answers, the last of which may have ended its recovery. */
  ghost predicate Transfers(env: Env, run: seq<Sys>, steps: seq<Step>, i: nat, j: nat, p: int, req: RecRequest)
    requires IsRun(env, run, steps) && 0 <= p < env.c.n
  {
    && AwaitsThroughout(env, run, steps, i, j, p, req) && run[i].reps[p].rec.reqHash == Some(req)
    && (Awaits(run[j].reps[p], req) || run[j].reps[p].status == READY)
  }

  /** If before is what was counted up to state k, then after is what was counted up to k+1. */
  ghost predicate KeptByStep(env: Env, run: seq<Sys>, k: nat, p: int, req: RecRequest, before: set<Msg>,
          after: set<Msg>)
    requires k + 1 < |run| && 0 <= p < |run[k].reps| == |run[k + 1].reps|
  {
    TransferredAt(env, run, k, p, req, before) ==> TransferredAt(env, run, k + 1, p, req, after)
  }

  /** mss[x] holds the answers counted in the first x steps from state i on. */
  ghost predicate KeptThroughout(env: Env, run: seq<Sys>, i: nat, p: int, req: RecRequest, mss: seq<set<Msg>>)
    requires forall k :: 0 <= k < |run| ==> |run[k].reps| == env.c.n
    requires 0 < |mss| <= |run| - i && 0 <= p < env.c.n
  {
    && TransferredAt(env, run, i, p, req, mss[0])
    && forall x :: 0 <= x < |mss| - 1 ==> KeptByStep(env, run, i + x, p, req, mss[x], mss[x + 1])
  }

  lemma {:induction false} Accumulates(env: Env, run: seq<Sys>, i: nat, x: nat, p: int, req: RecRequest,
        mss: seq<set<Msg>>)
    requires forall k :: 0 <= k < |run| ==> |run[k].reps| == env.c.n
    requires x < |mss| <= |run| - i && 0 <= p < env.c.n && KeptThroughout(env, run, i, p, req, mss)
    ensures TransferredAt(env, run, i + x, p, req, mss[x])
    decreases x
  {
    if x > 0 {
      Accumulates(env, run, i, x - 1, p, req, mss);
      assert KeptByStep(env, run, i + (x - 1), p, req, mss[x - 1], mss[x - 1 + 1]);
    }
  }

  ghost predicate CountedSoFar(env: Env, run: seq<Sys>, steps: seq<Step>, i: nat, p: int, req: RecRequest,
        mss: seq<set<Msg>>)
    requires IsRun(env, run, steps) && 0 <= p < env.c.n
  {
    && 0 < |mss| <= |run| - i && mss[0] == {}
    && forall x :: 0 <= x < |mss| - 1 ==> CountedNext(run, steps, i + x, p, req, mss[x], mss[x + 1])
  }

  lemma EchoPrefixes(env: Env, run: seq<Sys>, steps: seq<Step>, i: nat, j: nat, p: int, req: RecRequest)
    returns (mss: seq<set<Msg>>)
    requires IsRun(env, run, steps) && i <= j < |run| && 0 <= p < env.c.n
    ensures |mss| == j - i + 1 && CountedSoFar(env, run, steps, i, p, req, mss)
    ensures mss[j - i] == CountedEchoes(env, run, steps, i, j, p, req)
  {
    assert CountedEchoes(env, run, steps, i, i, p, req) == {};
    mss := seq(j - i + 1, x requires 0 <= x <= j - i => CountedEchoes(env, run, steps, i, i + x, p, req));
    forall x | 0 <= x < |mss| - 1 ensures CountedNext(run, steps, i + x, p, req, mss[x], mss[x + 1]) {
      CountedUpTo(env, run, steps, i, i + x, p, req);
    }
  }

  lemma TransferSteps(env: Env, run: seq<Sys>, steps: seq<Step>, i: nat, j: nat, p: int, req: RecRequest,
        mss: seq<set<Msg>>)
    requires EnvRecovers(env) && env.byz == {} && IsRun(env, run, steps) && Honest(env, p)
    requires i <= j < |run| && Transfers(env, run, steps, i, j, p, req)
    requires |mss| == j - i + 1 && CountedSoFar(env, run, steps, i, p, req, mss)
    ensures KeptThroughout(env, run, i, p, req, mss)
  {
    TransferStarts(env, run, steps, i, j, p, req);
    forall x | 0 <= x < |mss| - 1 ensures KeptByStep(env, run, i + x, p, req, mss[x], mss[x + 1]) {
      KeepsCounting(env, run, steps, i, j, i + x, p, req, mss[x], mss[x + 1]);
    }
  }

  lemma KeepsCounting(env: Env, run: seq<Sys>, steps: seq<Step>, i: nat, j: nat, k: nat, p: int, req: RecRequest,
        before: set<Msg>, after: set<Msg>)
    requires EnvRecovers(env) && env.byz == {} && IsRun(env, run, steps) && Honest(env, p)
    requires i <= k < j < |run| && Transfers(env, run, steps, i, j, p, req)
    requires CountedNext(run, steps, k, p, req, before, after)
    ensures KeptByStep(env, run, k, p, req, before, after)
  {
    if TransferredAt(env, run, k, p, req, before) {
      CountMore(env, run, steps, k, p, req, before);
    }
  }

  lemma TransferStarts(env: Env, run: seq<Sys>, steps: seq<Step>, i: nat, j: nat, p: int, req: RecRequest)
    requires EnvOk(env) && env.c.level == NoPersist && IsRun(env, run, steps) && Honest(env, p)
    requires i <= j < |run| && Transfers(env, run, steps, i, j, p, req)
    ensures TransferredAt(env, run, i, p, req, {})
  {
    RunCountsOwn(env, run, steps, i - 1);
    RunViewInv(env, run, steps, i - 1);
    assert StepAt(env, run, steps, i - 1);
  }

  lemma CountMore(env: Env, run: seq<Sys>, steps: seq<Step>, k: nat, p: int, req: RecRequest, ms: set<Msg>)
    requires EnvRecovers(env) && env.byz == {} && IsRun(env, run, steps) && Honest(env, p) && k < |steps|
    requires Awaits(run[k].reps[p], req) && req.SecondRequest? && TransferredAt(env, run, k, p, req, ms)
    requires Awaits(run[k + 1].reps[p], req) || run[k + 1].reps[p].status == READY
    ensures TransferredAt(env, run, k + 1, p, req, ms + NowCounted(run, steps, k, p, req))
  {
    var st := steps[k];
    assert StepAt(env, run, steps, k);
    if st.Local? && st.p == p {
      OwnStepAnswersRequest(env, run, steps, k + 1, p, req);
      OwnTransferStep(env, run[k], run[k + 1], st.e, p, req, ms);
    } else {
      OthersTransferStep(env, run[k], run[k + 1], st, p, req, ms);
      assert ms + {} == ms;
    }
  }

  lemma OwnStepAnswersRequest(env: Env, run: seq<Sys>, steps: seq<Step>, j: nat, p: int, req: RecRequest)
    requires EnvRecovers(env) && env.byz == {} && IsRun(env, run, steps) && Honest(env, p) && 1 <= j < |run|
    requires Awaits(run[j - 1].reps[p], req) && req.SecondRequest?
    requires Awaits(run[j].reps[p], req) || run[j].reps[p].status == READY
    requires steps[j - 1].Local? && steps[j - 1].p == p
    ensures var e := steps[j - 1].e;
      (e.FinishWait? ==> !WaitIsOver(run[j - 1].reps[p])) && (e.Deliver? && e.m.Echo1? ==> e.m.req != req)
  {
    var e := steps[j - 1].e;
    AskedCurrent(env, run, steps, j - 1, p, req);
    assert StepAt(env, run, steps, j - 1);
    KeepsRequest(env, run[j - 1], run[j], e, p, req);
    if e.Deliver? && e.m.Echo1? {
      NoEcho1Answers(env, run, steps, j - 1, e.m);
    }
  }

  lemma OthersTransferStep(env: Env, s: Sys, s': Sys, st: Step, p: int, req: RecRequest, ms: set<Msg>)
    requires Honest(env, p) && Next(env, s, s', st) && |s.reps| == |s'.reps| == env.c.n
    requires !(st.Local? && st.p == p) && TransferOk(env, s, p, req, ms)
    ensures TransferOk(env, s', p, req, ms) && s'.reps[p] == s.reps[p]
  {
  }

  // ----- what exactly is taken over -----

  /** b is b0 or one of those offered, and the highest of them. */
  ghost predicate HighestOf(b: QCBlock, b0: QCBlock, offered: set<QCBlock>) {
    && (b == b0 || b in offered) && b.height >= b0.height
    && forall x :: x in offered ==> b.height >= x.height
  }

  ghost function BlocksOffered(ms: set<Msg>): set<QCBlock> {
    set m | m in ms && m.Echo2? && m.prepared.hash != NoHash :: m.prepared
  }

  ghost function LocksOffered(ms: set<Msg>): set<QCBlock> {
    set m | m in ms && m.Echo2? && m.locked.hash != NoHash :: m.locked
  }

  /** From chain ch0 with the answers ms: the highest block and the highest lock,
      each from its own kind, and every ledger entry that was offered. */
  ghost predicate TakenFrom(ch0: Chain, ch: Chain, ms: set<Msg>) {
    && HighestOf(ch.curBlock, ch0.curBlock, BlocksOffered(ms))
    && HighestOf(ch.lockedBlock, ch0.lockedBlock, LocksOffered(ms))
    && Extends(ch0.committed, ch.committed) && Follows(ch0, ch)
    && forall m, h :: m in ms && m.Echo2? && h in m.ledger ==> h in ch.committed
  }

  /** The sequence number is raised to the height of a block taken over. */
  predicate Follows(ch0: Chain, ch: Chain) {
    ch.sequence == if ch.curBlock.height > ch0.curBlock.height && ch.curBlock.height > ch0.sequence
                   then ch.curBlock.height else ch0.sequence
  }

  /** One answer raises block and lock, or leaves them. */
  predicate Raises(b: QCBlock, b': QCBlock, x: QCBlock) {
    b' == if x.hash != NoHash && x.height > b.height then x else b
  }

  lemma EchoTakes(c: Config, r: Replica, m: Msg)
    requires m.Echo2?
    ensures var ch, r' := r.chain, OnEcho2(c, r, m).r; var ch' := r'.chain;
      && Extends(ch.committed, ch'.committed) && Follows(ch, ch') && (forall h :: h in m.ledger ==> h in ch'.committed)
      && (if CountOf(r'.rec, m.req) != CountOf(r.rec, m.req)
          then Raises(ch.curBlock, ch'.curBlock, m.prepared) && Raises(ch.lockedBlock, ch'.lockedBlock, m.locked)
          else ch'.curBlock == ch.curBlock && ch'.lockedBlock == ch.lockedBlock)
  {
  }

  lemma AwaitingTakes(c: Config, r: Replica, e: Event, req: RecRequest)
    requires Awaits(r, req) && req.SecondRequest?
    requires var r' := Handle(c, r, e).r; Awaits(r', req) || r'.status == READY
    ensures var ch, ch' := r.chain, Handle(c, r, e).r.chain;
      && Extends(ch.committed, ch'.committed) && Follows(ch, ch')
      && (if CountsEcho2(r, Handle(c, r, e).r, e, req)
          then Raises(ch.curBlock, ch'.curBlock, e.m.prepared) && Raises(ch.lockedBlock, ch'.lockedBlock, e.m.locked)
               && forall h :: h in e.m.ledger ==> h in ch'.committed
          else ch'.curBlock == ch.curBlock && ch'.lockedBlock == ch.lockedBlock)
  {
    if e.Deliver? && e.m.Echo2? {
      EchoTakes(c, r, e.m);
    } else {
      assert Handle(c, r, e).r.chain == r.chain;
    }
  }

  lemma ReadyMarks(c: Config, r: Replica, e: Event, req: RecRequest)
    requires Awaits(r, req) && req.SecondRequest? && Handle(c, r, e).r.status == READY
    ensures SecondEchoes(req) in Handle(c, r, e).r.prepared
  {
  }

  lemma RaisedIsHighest(b0: QCBlock, b: QCBlock, b': QCBlock, x: QCBlock, offered: set<QCBlock>)
    requires HighestOf(b, b0, offered) && Raises(b, b', x)
    ensures HighestOf(b', b0, offered + if x.hash != NoHash then {x} else {})
  {
  }

  lemma TakesOneMore(ch0: Chain, ch: Chain, ch': Chain, ms: set<Msg>, m: Msg)
    requires TakenFrom(ch0, ch, ms) && m.Echo2? && Extends(ch.committed, ch'.committed) && Follows(ch, ch')
    requires Raises(ch.curBlock, ch'.curBlock, m.prepared) && Raises(ch.lockedBlock, ch'.lockedBlock, m.locked)
    requires forall h :: h in m.ledger ==> h in ch'.committed
    ensures TakenFrom(ch0, ch', ms + {m})
  {
    RaisedIsHighest(ch0.curBlock, ch.curBlock, ch'.curBlock, m.prepared, BlocksOffered(ms));
    RaisedIsHighest(ch0.lockedBlock, ch.lockedBlock, ch'.lockedBlock, m.locked, LocksOffered(ms));
    assert BlocksOffered(ms + {m}) == BlocksOffered(ms) + if m.prepared.hash != NoHash then {m.prepared} else {};
    assert LocksOffered(ms + {m}) == LocksOffered(ms) + if m.locked.hash != NoHash then {m.locked} else {};
  }

  lemma StepTakes(env: Env, run: seq<Sys>, steps: seq<Step>, k: nat, p: int, req: RecRequest, ch0: Chain, ms: set<Msg>)
    requires IsRun(env, run, steps) && Honest(env, p) && k < |steps| && req.SecondRequest?
    requires Awaits(run[k].reps[p], req) && (Awaits(run[k + 1].reps[p], req) || run[k + 1].reps[p].status == READY)
    requires TakenFrom(ch0, run[k].reps[p].chain, ms)
    ensures TakenFrom(ch0, run[k + 1].reps[p].chain, ms + NowCounted(run, steps, k, p, req))
  {
    var st := steps[k];
    assert StepAt(env, run, steps, k);
    if st.Local? && st.p == p {
      AwaitingTakes(env.c, run[k].reps[p], st.e, req);
      if CountsEcho2(run[k].reps[p], run[k + 1].reps[p], st.e, req) {
        TakesOneMore(ch0, run[k].reps[p].chain, run[k + 1].reps[p].chain, ms, st.e.m);
      } else {
        assert ms + {} == ms;
      }
    } else {
      assert ms + {} == ms;
    }
  }

  lemma {:induction false} TakesAll(env: Env, run: seq<Sys>, steps: seq<Step>, i: nat, j: nat, x: nat, p: int,
        req: RecRequest, mss: seq<set<Msg>>)
    requires IsRun(env, run, steps) && Honest(env, p) && i + x <= j < |run| && x < |mss|
    requires Transfers(env, run, steps, i, j, p, req) && CountedSoFar(env, run, steps, i, p, req, mss)
    ensures TakenFrom(run[i].reps[p].chain, run[i + x].reps[p].chain, mss[x])
    decreases x
  {
    if x > 0 {
      TakesAll(env, run, steps, i, j, x - 1, p, req, mss);
      assert CountedNext(run, steps, i + (x - 1), p, req, mss[x - 1], mss[x - 1 + 1]);
      StepTakes(env, run, steps, i + (x - 1), p, req, run[i].reps[p].chain, mss[x - 1]);
    }
  }

  /** What recovery takes over, in every run with arbitrary replicas.  From the
      REC2 to READY a replica's block is the highest among the one it held when
      asking and the prepared blocks of the ECHO2s it counted; its lock is the
      highest among its own and their locked blocks; its sequence number follows
      the block; its ledger keeps what it held and has every height of theirs; and
      the answers are marked complete. */
  lemma RecoveredStateIsTheHighest(env: Env, run: seq<Sys>, steps: seq<Step>, i: nat, j: nat, p: int, req: RecRequest)
    requires IsRun(env, run, steps) && Honest(env, p)
    requires AwaitsThroughout(env, run, steps, i, j, p, req) && run[i].reps[p].rec.reqHash == Some(req)
    requires run[j].reps[p].status == READY
    ensures TakenFrom(run[i].reps[p].chain, run[j].reps[p].chain, CountedEchoes(env, run, steps, i, j, p, req))
    ensures SecondEchoes(req) in run[j].reps[p].prepared
  {
    assert StepAt(env, run, steps, j - 1);
    ReadyMarks(env.c, run[j - 1].reps[p], steps[j - 1].e, req);
    var mss := EchoPrefixes(env, run, steps, i, j, p, req);
    TakesAll(env, run, steps, i, j, j - i, p, req, mss);
  }

  // ----- ledgers only grow -----

  lemma ProcessGrows(c: Config, leader: bool, ch: Chain, b: QCBlock, num: int)
    ensures ch.committed.Keys <= ProcessQCInfo(c, leader, ch, b, num).committed.Keys
  {
  }

  lemma LedgerGrows(c: Config, r: Replica, e: Event)
    ensures r.chain.committed.Keys <= Handle(c, r, e).r.chain.committed.Keys
  {
    var ledger := Handle(c, r, e).r.chain.committed;
    if e.Deliver? && e.m.Proposal? {
      var ch := if r.leader then r.chain else r.chain.(awaitingCopy := r.chain.awaitingCopy + {e.m.num});
      ProcessGrows(c, r.leader, ch, e.m.qc, e.m.num);
    } else if e.Deliver? && e.m.Echo2? {
      assert ledger == r.chain.committed || ledger == MergeLedger(r.chain.committed, e.m.ledger);
    } else {
      LedgerElsewhere(c, r, e);
    }
  }

  lemma LedgerElsewhere(c: Config, r: Replica, e: Event)
    requires e.Deliver? ==> !e.m.Proposal? && !e.m.Echo2?
    ensures Handle(c, r, e).r.chain.committed == r.chain.committed
  {
  }

  /** Every ECHO2 that reaches a replica that is not asleep is merged, whatever
      request it answers: from then on, sleeps included, the replica has every
      height of its own ledger and of the one sent. */
  lemma {:induction false} EchoedLedgersAreKept(c: Config, r: Replica, es: seq<Event>, k: nat)
    requires k < |es| && es[k].Deliver? && es[k].m.Echo2? && HandleAll(c, r, es[..k]).status != SLEEPING
    ensures HandleAll(c, r, es[..k]).chain.committed.Keys + es[k].m.ledger.Keys
            <= HandleAll(c, r, es).chain.committed.Keys
  {
    var n := |es| - 1;
    if k == n {
    } else {
      assert es[..n][..k] == es[..k];
      EchoedLedgersAreKept(c, r, es[..n], k);
      LedgerGrows(c, HandleAll(c, r, es[..n]), es[n]);
    }
  }

  // ----- the answering side -----

  /** Every ECHO2 for req on the network was sent by its sender from the block,
      lock and ledger it held when it answered. */
  lemma {:induction false} EchoCarriesState(env: Env, run: seq<Sys>, steps: seq<Step>, j: nat, m: Msg) returns (k: nat)
    requires EnvOk(env) && env.byz == {} && env.c.level == NoPersist && IsRun(env, run, steps) && j < |run|
    requires m in run[j].net && m.Echo2?
    ensures k < j && Honest(env, m.src) && steps[k].Local? && steps[k].p == m.src && AnswersRequest(steps[k].e, m.req)
    ensures var ch := run[k].reps[m.src].chain;
            m.prepared == ch.curBlock && m.locked == ch.lockedBlock && m.ledger == ch.committed
    decreases j
  {
    if j == 0 {
      assert false;
    } else if m in run[j - 1].net {
      k := EchoCarriesState(env, run, steps, j - 1, m);
    } else {
      k := j - 1;
      RunViewInv(env, run, steps, k);
      assert StepAt(env, run, steps, k);
      StepSendsEcho2(env, run[k], run[j], steps[k], m);
    }
  }

  lemma StepSendsEcho2(env: Env, s: Sys, s': Sys, st: Step, m: Msg)
    requires env.byz == {} && env.c.level == NoPersist && Next(env, s, s', st) && |s.reps| == env.c.n
    requires forall p :: 0 <= p < env.c.n ==> s.reps[p].id == p
    requires m.Echo2? && m in s'.net && m !in s.net
    ensures st.Local? && st.p == m.src && Honest(env, m.src) && AnswersRequest(st.e, m.req)
    ensures var ch := s.reps[m.src].chain;
            m.prepared == ch.curBlock && m.locked == ch.lockedBlock && m.ledger == ch.committed
  {
    SentEcho2(env.c, s.reps[st.p], st.e, m);
  }

  lemma SentEcho2(c: Config, r: Replica, e: Event, x: Msg)
    requires c.level == NoPersist && x.Echo2? && x in Handle(c, r, e).sent && !(e.Deliver? && x == e.m)
    ensures x.src == r.id && AnswersRequest(e, x.req)
    ensures x.prepared == r.chain.curBlock && x.locked == r.chain.lockedBlock && x.ledger == r.chain.committed
  {
  }

  /** Every member of q that answers req holds a certified block of height h or more. */
  ghost predicate AnswersFrom(env: Env, run: seq<Sys>, steps: seq<Step>, q: set<int>, req: RecRequest, h: int)
    requires IsRun(env, run, steps)
  {
    forall k {:trigger steps[k]} ::
      0 <= k < |steps| && steps[k].Local? && Honest(env, steps[k].p) ==>
        (steps[k].p in q && AnswersRequest(steps[k].e, req) ==>
           var b := run[k].reps[steps[k].p].chain.curBlock;
           b.hash != NoHash && b.height >= h)
  }

  /** The answers a replica returns with are on the network, dominated by its
      state, and from enough senders. */
  lemma CountedAnswers(env: Env, run: seq<Sys>, steps: seq<Step>, i: nat, j: nat, p: int, req: RecRequest)
    requires EnvRecovers(env) && env.byz == {} && IsRun(env, run, steps) && Honest(env, p)
    requires i <= j < |run| && Transfers(env, run, steps, i, j, p, req) && run[j].reps[p].status == READY
    ensures var ms := CountedEchoes(env, run, steps, i, j, p, req);
      |Senders(ms)| >= env.c.recQuorum && forall m :: m in ms ==> AnswerKept(run[j], p, req, m)
  {
    var mss := EchoPrefixes(env, run, steps, i, j, p, req);
    TransferSteps(env, run, steps, i, j, p, req, mss);
    Accumulates(env, run, i, j - i, p, req, mss);
  }

  predicate AnswerKept(s: Sys, p: int, req: RecRequest, m: Msg)
    requires 0 <= p < |s.reps|
  {
    m in s.net && m.Echo2? && m.req == req && Dominates(s.reps[p].chain, m)
  }

  /** Recovered state dominates the quorum: if the replicas of a vote quorum
      hold height h or more when they answer, the replica returns with a block of
      height h or more; and its block and lock are as high as those of every
      answer it counted. */
  lemma RecoveredStateDominates(env: Env, run: seq<Sys>, steps: seq<Step>, i: nat, j: nat, p: int, req: RecRequest,
          q: set<int>, h: int)
    requires EnvRecovers(env) && env.byz == {} && IsRun(env, run, steps) && Honest(env, p)
    requires AwaitsThroughout(env, run, steps, i, j, p, req) && run[i].reps[p].rec.reqHash == Some(req)
    requires run[j].reps[p].status == READY
    requires q <= Ids(env.c.n) && |q| >= env.c.quorum && AnswersFrom(env, run, steps, q, req, h)
    ensures run[j].reps[p].chain.curBlock.height >= h
    ensures forall m :: m in CountedEchoes(env, run, steps, i, j, p, req) ==> Dominates(run[j].reps[p].chain, m)
    ensures |Senders(CountedEchoes(env, run, steps, i, j, p, req))| >= env.c.recQuorum
  {
    CountedAnswers(env, run, steps, i, j, p, req);
    var ms := CountedEchoes(env, run, steps, i, j, p, req);
    forall x | x in Senders(ms) ensures 0 <= x < env.c.n {
      var m :| m in ms && m.src == x;
      assert AnswerKept(run[j], p, req, m);
      var k := EchoCarriesState(env, run, steps, j, m);
    }
    var t := HonestOverlap(q, Senders(ms), {}, env.c.n, env.c.f);
    var m :| m in ms && m.src == t;
    assert AnswerKept(run[j], p, req, m);
    var k := EchoCarriesState(env, run, steps, j, m);
  }
}
