/** Why freshness speaks of ECHO2s that name a REC1: the counter of answers is
    shared by both kinds of reply, and a run ends in a stale view. */
module EarlyReturns {
  import opened Messages
  import opened Quorums
  import opened ReplicaSpec
  import opened System
  import opened Freshness
  import opened Scripts

  const FOUR := Config(4, 1, 3, 3, NoPersist, true, 10)
  const ENV := Env(FOUR, {2})
  const REQ := FirstRequest(3, 9)

  function EmptyEcho(q: int): Msg {
    Echo1(q, 3, -1, REQ, [])
  }

  const FORGED := Echo2(2, 3, REQ, ZERO_BLOCK, ZERO_BLOCK, map[])

  /** The asker in view 0 has counted k answers to its REC1. */
  predicate Waiting(r: Replica, k: nat) {
    && r.status == RECOVERING && r.view == 0 && r.rec.reqHash == Some(REQ) && CountOf(r.rec, REQ) == k
    && FirstEchoes(REQ) !in r.prepared && SecondEchoes(REQ) !in r.prepared
  }

  lemma AskerWakes(r: Replica)
    requires r.id == 3 && r.status == SLEEPING
    ensures Waiting(Wake(FOUR, r, 9).r, 0) && Wake(FOUR, r, 9).sent == {Rec1(3, 9)}
  {
  }

  lemma Answers(q: int)
    requires 0 <= q < 3
    ensures Handle(FOUR, Fresh(FOUR, q), Deliver(Rec1(3, 9))) == Out(Fresh(FOUR, q), {EmptyEcho(q)})
  {
  }

  lemma CountsEcho(r: Replica, q: int, k: nat)
    requires Waiting(r, k) && k < 2
    ensures Waiting(Handle(FOUR, r, Deliver(EmptyEcho(q))).r, k + 1)
    ensures Counted(r, Handle(FOUR, r, Deliver(EmptyEcho(q))).r, Deliver(EmptyEcho(q)))
    ensures Handle(FOUR, r, Deliver(EmptyEcho(q))).sent == {}
  {
  }

  /** Replica 3 falls asleep and wakes up. */
  lemma AskerAsks() returns (run: seq<Sys>, steps: seq<Step>, s: Sys)
    ensures EndsIn(ENV, run, steps, s) && |run| == 3 && |steps| == 2 && |s.reps| == 4
    ensures Active(run[0].reps[3]) && run[0].reps[3].view == 0 && run[1].reps[3].status == SLEEPING
    ensures Waiting(s.reps[3], 0) && s.heard == {} && s.net == {Rec1(3, 9)}
    ensures s.reps[0] == Fresh(FOUR, 0) && s.reps[1] == Fresh(FOUR, 1)
  {
    var s0, s1;
    run, s0 := Start(ENV);
    run, steps, s1 := ExtendBy(ENV, run, [], s0, 3, FallAsleep);
    AskerWakes(s1.reps[3]);
    run, steps, s := ExtendBy(ENV, run, steps, s1, 3, WakeUp(9));
    assert run == [s0, s1, s];
  }

  /** Replicas 0 and 1 answer. */
  lemma AnswersSent() returns (run: seq<Sys>, steps: seq<Step>, s: Sys)
    ensures EndsIn(ENV, run, steps, s) && |run| == 5 && |steps| == 4 && |s.reps| == 4
    ensures Active(run[0].reps[3]) && run[0].reps[3].view == 0 && run[1].reps[3].status == SLEEPING
    ensures Waiting(s.reps[3], 0) && s.heard == {} && EmptyEcho(0) in s.net && EmptyEcho(1) in s.net
  {
    run, steps, s := AskerAsks();
    Answers(0);
    run, steps, s := ExtendBy(ENV, run, steps, s, 0, Deliver(Rec1(3, 9)));
    Answers(1);
    run, steps, s := ExtendBy(ENV, run, steps, s, 1, Deliver(Rec1(3, 9)));
  }

  lemma ForgedArrives(s: Sys)
    requires |s.reps| == 4
    ensures Next(ENV, s, s.(net := s.net + {FORGED}), Arbitrary(FORGED))
  {
  }

  /** Replica 3 was active in view 0, fell asleep, and has counted k answers in s. */
  ghost predicate Recovering(run: seq<Sys>, steps: seq<Step>, s: Sys, k: nat) {
    && EndsIn(ENV, run, steps, s) && |run| > 2 && |run[0].reps| == |run[1].reps| == |s.reps| == 4
    && Active(run[0].reps[3]) && run[0].reps[3].view == 0 && run[1].reps[3].status == SLEEPING
    && Waiting(s.reps[3], k) && FORGED in s.net && (3, 2, REQ) !in s.heard
  }

  lemma Forged() returns (run: seq<Sys>, steps: seq<Step>, s: Sys)
    ensures Recovering(run, steps, s, 0) && |steps| == 5
    ensures s.heard == {} && EmptyEcho(0) in s.net && EmptyEcho(1) in s.net
  {
    var before;
    run, steps, before := AnswersSent();
    s := before.(net := before.net + {FORGED});
    ForgedArrives(before);
    Extend(ENV, run, steps, before, Arbitrary(FORGED), s);
    run, steps := run + [s], steps + [Arbitrary(FORGED)];
  }

  lemma EchoArrives(run: seq<Sys>, steps: seq<Step>, s: Sys, q: int, k: nat)
    returns (run': seq<Sys>, steps': seq<Step>, s': Sys)
    requires Recovering(run, steps, s, k) && k < 2 && 0 <= q < 2
    requires EmptyEcho(q) in s.net && (3, q, REQ) !in s.heard
    ensures Recovering(run', steps', s', k + 1) && |steps'| == |steps| + 1
    ensures s.net <= s'.net && s'.heard == s.heard + {(3, q, REQ)}
  {
    CountsEcho(s.reps[3], q, k);
    run', steps', s' := ExtendBy(ENV, run, steps, s, 3, Deliver(EmptyEcho(q)));
  }

  lemma ForgedReturns(r: Replica)
    requires Waiting(r, 2)
    ensures ReturnsEarly(FOUR, r, Deliver(FORGED))
    ensures var r' := Handle(FOUR, r, Deliver(FORGED)).r; Active(r') && r'.view == 0
  {
    LeavesFirstPhaseIff(FOUR, r, Deliver(FORGED));
  }

  /** A run of four replicas, replica 2 arbitrary: replica 3 falls asleep and
      wakes up; two ECHO1s and one ECHO2 that names its REC1 return it to READY
      in view 0, the view it was active in before. */
  lemma StaleRun() returns (run: seq<Sys>, steps: seq<Step>)
    ensures EnvRecovers(ENV) && IsRun(ENV, run, steps) && Slept(ENV, run, 0, 1, 8, 3)
    ensures |run| == 9 && run[0].reps[3].view == 0 && run[8].reps[3].view == 0
    ensures EarlyReturn(ENV, run, steps, 7)
  {
    var s;
    run, steps, s := Forged();
    run, steps, s := EchoArrives(run, steps, s, 0, 0);
    run, steps, s := EchoArrives(run, steps, s, 1, 1);
    ForgedReturns(s.reps[3]);
    run, steps, s := ExtendBy(ENV, run, steps, s, 3, Deliver(FORGED));
  }

  function AfterAll(c: Config, r: Replica, es: seq<Event>): Replica
    decreases |es|
  {
    if es == [] then r else AfterAll(c, Handle(c, r, es[0]).r, es[1..])
  }

  /** A replica in view 5 of a group of four falls asleep and wakes up; two
      ECHO1s with valid certificates and one ECHO2 that names the REC1 return it
      to READY in view 0. */
  lemma EchoToFirstRequestReturnsStale(r: Replica, v: seq<SignedMsg>)
    requires VerifyTQC(FOUR, 4, v)
    requires r.id == 3 && r.status == READY && r.view == 5
    ensures var req := FirstRequest(3, 9);
            var echo2 := Echo2(2, 3, req, ZERO_BLOCK, ZERO_BLOCK, map[]);
            var woken := AfterAll(FOUR, r, [FallAsleep, WakeUp(9),
                           Deliver(Echo1(0, 3, 4, req, v)), Deliver(Echo1(1, 3, 4, req, v)), Deliver(echo2)]);
            woken.status == READY && woken.view == 0
  {
    var req := FirstRequest(3, 9);
    var m0, m1, m2 := Echo1(0, 3, 4, req, v), Echo1(1, 3, 4, req, v), Echo2(2, 3, req, ZERO_BLOCK, ZERO_BLOCK, map[]);
    var r1 := Handle(FOUR, r, FallAsleep).r;
    var r2 := Handle(FOUR, r1, WakeUp(9)).r;
    var r3 := Handle(FOUR, r2, Deliver(m0)).r;
    var r4 := Handle(FOUR, r3, Deliver(m1)).r;
    var r5 := Handle(FOUR, r4, Deliver(m2)).r;
    assert CountOf(r3.rec, req) == 1 && CountOf(r4.rec, req) == 2;
    assert r5.status == READY && r5.view == 0;
    var es := [FallAsleep, WakeUp(9), Deliver(m0), Deliver(m1), Deliver(m2)];
    assert es[1..][1..][1..][1..][1..] == [];
    assert AfterAll(FOUR, r5, es[1..][1..][1..][1..][1..]) == r5;
    assert AfterAll(FOUR, r4, es[1..][1..][1..][1..]) == r5;
    assert AfterAll(FOUR, r3, es[1..][1..][1..]) == r5;
    assert AfterAll(FOUR, r2, es[1..][1..]) == r5;
  }
}
