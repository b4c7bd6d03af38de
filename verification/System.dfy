/** n replicas and the messages ever sent.  A message may be delivered late, out
    of order, many times or never.  Up to f replicas are arbitrary: they send
    anything under their own name but cannot sign a TIMEOUT for another. */
module System {
  import opened Messages
  import opened Quorums
  import opened ReplicaSpec

  /** heard holds (p, q, req) once q's answer to p's recovery request was counted. */
  datatype Sys = Sys(reps: seq<Replica>, net: set<Msg>, heard: set<(int, int, RecRequest)>)

  datatype Env = Env(c: Config, byz: set<int>)

  datatype Step = Local(p: int, e: Event) | Arbitrary(m: Msg)

  predicate Honest(env: Env, p: int) {
    0 <= p < env.c.n && p !in env.byz
  }

  ghost predicate EnvOk(env: Env) {
    env.byz <= Ids(env.c.n) && |env.byz| <= env.c.f && VotesIntersect(env.c)
  }

  ghost predicate Init(env: Env, s: Sys) {
    && |s.reps| == env.c.n
    && (forall p :: 0 <= p < env.c.n ==> s.reps[p] == Fresh(env.c, p))
    && s.net == {} && s.heard == {}
  }

  predicate IsEcho(m: Msg) {
    m.Echo1? || m.Echo2?
  }

  predicate Addressed(p: int, m: Msg) {
    match m
    case Vote(_, dst, _, _, _, _) => dst == p
    case ViewChange(_, dst, _, _) => dst == p
    case Echo1(_, dst, _, _, _) => dst == p
    case Echo2(_, dst, _, _, _, _) => dst == p
    case _ => true
  }

  /** When an event may happen.  A REC2 is handled once the replica has reached
      its view; a replica's answer to a recovery request counts at most once;
      recovery requests carry new timestamps. */
  predicate Enabled(s: Sys, p: int, e: Event)
    requires 0 <= p < |s.reps|
  {
    match e
    case Deliver(m) =>
      && m in s.net && Addressed(p, m)
      && (m.Rec2? ==> s.reps[p].view >= m.view)
      && (IsEcho(m) ==> (p, m.src, m.req) !in s.heard)
    case TimerFires(v) => v in s.reps[p].spawned.timers
    case WakeUp(ts) => Rec1(p, ts) !in s.net
    case FinishWait(ts) => Rec2(p, ts, s.reps[p].view) !in s.net
    case _ => true
  }

  /** The answer e delivers is counted by the step from r to r'. */
  predicate Counted(r: Replica, r': Replica, e: Event) {
    e.Deliver? && IsEcho(e.m) && CountOf(r'.rec, e.m.req) != CountOf(r.rec, e.m.req)
  }

  predicate Genuine(sm: SignedMsg) {
    sm.kind == TimeoutKind && VerifySig(sm.source, Wire(sm.kind, sm.source, sm.view), sm.sig)
  }

  /** Every genuine TIMEOUT in the list whose signer is not arbitrary was sent. */
  ghost predicate SignedInNet(env: Env, net: set<Msg>, list: seq<SignedMsg>) {
    forall i :: 0 <= i < |list| && Genuine(list[i]) && list[i].source !in env.byz ==>
      TimeoutBy(list[i].source, list[i].view) in net
  }

  ghost predicate Next(env: Env, s: Sys, s': Sys, st: Step) {
    match st
    case Local(p, e) =>
      && |s.reps| == env.c.n && Honest(env, p) && Enabled(s, p, e)
      && var o := Handle(env.c, s.reps[p], e);
         s' == Sys(s.reps[p := o.r], s.net + o.sent,
                   if Counted(s.reps[p], o.r, e) then s.heard + {(p, e.m.src, e.m.req)} else s.heard)
    case Arbitrary(m) =>
      && m.src in env.byz
      && (m.TQC? || m.Echo1? ==> SignedInNet(env, s.net, m.v))
      && s' == s.(net := s.net + {m})
  }

  ghost predicate StepAt(env: Env, run: seq<Sys>, steps: seq<Step>, i: nat)
    requires i < |steps| == |run| - 1
  {
    Next(env, run[i], run[i + 1], steps[i])
  }

  ghost predicate IsRun(env: Env, run: seq<Sys>, steps: seq<Step>) {
    && |run| == |steps| + 1
    && (forall i :: 0 <= i < |run| ==> |run[i].reps| == env.c.n)
    && Init(env, run[0])
    && forall i :: 0 <= i < |steps| ==> StepAt(env, run, steps, i)
  }

  ghost predicate NoSleeps(steps: seq<Step>) {
    forall i :: 0 <= i < |steps| && steps[i].Local? ==> !steps[i].e.FallAsleep?
  }
}
