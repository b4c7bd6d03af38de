/** Building runs step by step, to exhibit concrete ones. */
module Scripts {
  import opened ReplicaSpec
  import opened System

  /** The state after replica p reacts to e. */
  function After(env: Env, s: Sys, p: int, e: Event): Sys
    requires 0 <= p < |s.reps|
  {
    var o := Handle(env.c, s.reps[p], e);
    Sys(s.reps[p := o.r], s.net + o.sent,
        if Counted(s.reps[p], o.r, e) then s.heard + {(p, e.m.src, e.m.req)} else s.heard)
  }

  ghost predicate EndsIn(env: Env, run: seq<Sys>, steps: seq<Step>, s: Sys) {
    IsRun(env, run, steps) && run[|run| - 1] == s
  }

  lemma Start(env: Env) returns (run: seq<Sys>, s: Sys)
    ensures s == Sys(seq(env.c.n, p => Fresh(env.c, p)), {}, {}) && run == [s] && EndsIn(env, run, [], s)
  {
    s := Sys(seq(env.c.n, p => Fresh(env.c, p)), {}, {});
    run := [s];
  }

  lemma Extend(env: Env, run: seq<Sys>, steps: seq<Step>, s: Sys, st: Step, s': Sys)
    requires EndsIn(env, run, steps, s) && Next(env, s, s', st) && |s'.reps| == env.c.n
    ensures EndsIn(env, run + [s'], steps + [st], s')
  {
    var run', steps' := run + [s'], steps + [st];
    forall i | 0 <= i < |steps'| ensures StepAt(env, run', steps', i) {
      if i < |steps| {
        assert StepAt(env, run, steps, i);
        assert run'[i] == run[i] && run'[i + 1] == run[i + 1] && steps'[i] == steps[i];
      }
    }
  }

  lemma ExtendBy(env: Env, run: seq<Sys>, steps: seq<Step>, s: Sys, p: int, e: Event)
    returns (run': seq<Sys>, steps': seq<Step>, s': Sys)
    requires EndsIn(env, run, steps, s) && Honest(env, p) && |s.reps| == env.c.n && Enabled(s, p, e)
    ensures s' == After(env, s, p, e) && run' == run + [s'] && steps' == steps + [Local(p, e)]
    ensures EndsIn(env, run', steps', s')
  {
    s' := After(env, s, p, e);
    run', steps' := run + [s'], steps + [Local(p, e)];
    Extend(env, run, steps, s, Local(p, e), s');
  }
}
