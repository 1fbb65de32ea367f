/** The morph state machine in its imperative form: it changes a context in place, step by step, while the
    environment answers each await. Every method is tied to its specification in FsmSpec. */
module Fsm {
  import opened Wrappers
  import opened MorphModel
  import opened FsmSpec

  // The context of one morph, its trace, and the environment that answers its awaits
  class MorphContext {
    const requestId: RequestId
    const attackerIp: string
    var state: MorphState
    var ghostSessionId: Option<string>
    var lbRuleId: Option<string>
    var rollbackToken: Option<string>
    var expiresAt: Option<int>
    const env: Env
    var now: nat
    var trace: Trace

    constructor (requestId: RequestId, attackerIp: string, env: Env)
      ensures Fresh(World()) && this.env == env && this.requestId == requestId
    {
      this.requestId, this.attackerIp, this.env := requestId, attackerIp, env;
      state, ghostSessionId, lbRuleId, rollbackToken, expiresAt := Idle, None, None, None, None;
      now, trace := 0, NOTHING;
    }

    function World(): World
      reads this
    {
      FsmSpec.World(
        Context(requestId, attackerIp, state, ghostSessionId, lbRuleId, rollbackToken, expiresAt), trace, now)
    }

    // Issue an MCP call; its answer comes with the await that follows.
    method Issue(c: Call)
      modifies this
      ensures World() == Called(old(World()), c)
    {
      trace := trace.(calls := trace.calls + [c]);
      now := now + 1;
    }
  }

  class MorphStateMachine {
    const ttlSeconds: int

    constructor (ttlSeconds: int)
      ensures this.ttlSeconds == ttlSeconds
    {
      this.ttlSeconds := ttlSeconds;
    }

    method Transition(ctx: MorphContext, newState: MorphState) returns (out: Outcome)
      modifies ctx
      ensures Res(ctx.World(), out) == To(ctx.env, old(ctx.World()), newState)
    {
      ctx.state := newState;
      ctx.trace := ctx.trace.(states := ctx.trace.states + [newState]);
      out := End(ctx.env.save(ctx.now));
      ctx.now := ctx.now + 1;
    }

    method Assign(ctx: MorphContext) returns (out: Outcome)
      modifies ctx
      ensures Res(ctx.World(), out) == AssigningStep(ctx.env, old(ctx.World()))
    {
      out := Transition(ctx, Assigning);
      if out != Done { return; }
      var reply := ctx.env.route(ctx.now);
      ctx.Issue(Route(ctx.requestId));
      if reply.Answer? {
        ctx.ghostSessionId := Some(reply.value);
        ctx.trace := ctx.trace.(sessions := ctx.trace.sessions + [reply.value]);
      }
      out := End(reply);
    }

    method Reroute(ctx: MorphContext) returns (out: Outcome)
      modifies ctx
      ensures Res(ctx.World(), out) == RerouteStep(ctx.env, old(ctx.World()), ttlSeconds)
    {
      out := Transition(ctx, Rerouting);
      if out != Done { return; }
      var reply := ctx.env.reroute(ctx.now);
      ctx.Issue(Call.Reroute(ctx.requestId));
      if !reply.Answer? { return End(reply); }
      var rule := reply.value;
      ctx.lbRuleId := Some(rule.id);
      ctx.rollbackToken := Some(rule.token);
      ctx.trace := ctx.trace.(rules := ctx.trace.rules + [(rule.id, rule.token)]);
      if !InDatetimeRange(rule.appliedAt + ttlSeconds) { return Failed; }
      ctx.expiresAt := Some(rule.appliedAt + ttlSeconds);
      return Done;
    }

    method Monitor(ctx: MorphContext) returns (out: Outcome)
      modifies ctx
      ensures Res(ctx.World(), out) == MonitoringStep(ctx.env, old(ctx.World()), ttlSeconds)
    {
      out := Transition(ctx, Monitoring);
      if out != Done { return; }
      var elapsed := 0;
      while elapsed < ttlSeconds
        invariant MonitoringStep(ctx.env, old(ctx.World()), ttlSeconds) ==
                  Ticks(ctx.env, ctx.World(), ttlSeconds, elapsed)
      {
        var sleepFor := if TICK <= ttlSeconds - elapsed then TICK else ttlSeconds - elapsed;
        var cancelled := ctx.env.sleepCancelled(ctx.now);
        ctx.trace := ctx.trace.(ticked := ctx.trace.ticked + sleepFor);
        ctx.now := ctx.now + 1;
        if cancelled { return Cancelled; }
        elapsed := elapsed + sleepFor;
      }
    }

    method Terminate(ctx: MorphContext) returns (out: Outcome)
      modifies ctx
      ensures Res(ctx.World(), out) == TerminatingStep(ctx.env, old(ctx.World()))
    {
      out := Transition(ctx, Terminating);
      if out != Done { return; }
      if ctx.ghostSessionId.None? || ctx.lbRuleId.None? || ctx.rollbackToken.None? { return Failed; }
      var reply := ctx.env.terminate(ctx.now);
      ctx.Issue(Call.Terminate(ctx.ghostSessionId.value, ctx.lbRuleId.value, ctx.rollbackToken.value));
      if !reply.Answer? { return End(reply); }
      out := Transition(ctx, Idle);
    }

    method DoRollback(ctx: MorphContext) returns (out: Outcome)
      modifies ctx
      ensures Res(ctx.World(), out) == RollbackAll(ctx.env, old(ctx.World()))
    {
      out := Transition(ctx, Rollback);
      if out != Done { return; }
      if ctx.ghostSessionId.Some? && ctx.ghostSessionId.value != "" {
        var reply := ctx.env.terminate(ctx.now);
        ctx.Issue(Call.Terminate(ctx.ghostSessionId.value, ctx.lbRuleId.GetOr(""), ctx.rollbackToken.GetOr("")));
        if reply.Cancel? { return Cancelled; }
      }
      out := Transition(ctx, Error);
    }

    // One counted attempt of a step
    method DoStep(ctx: MorphContext, step: nat) returns (out: Outcome)
      requires step < 4
      modifies ctx
      ensures Res(ctx.World(), out) == StepList(ctx.env, ttlSeconds)[step](Counted(old(ctx.World())))
    {
      ctx.trace := ctx.trace.(attempts := ctx.trace.attempts + 1);
      match step {
        case 0 => out := Assign(ctx);
        case 1 => out := Reroute(ctx);
        case 2 => out := Monitor(ctx);
        case _ => out := Terminate(ctx);
      }
    }

    method BackOff(ctx: MorphContext, seconds: nat) returns (cancelled: bool)
      modifies ctx
      ensures ctx.World() == BackedOff(old(ctx.World()), seconds)
      ensures cancelled == ctx.env.sleepCancelled(old(ctx.now))
    {
      cancelled := ctx.env.sleepCancelled(ctx.now);
      ctx.trace := ctx.trace.(backoff := ctx.trace.backoff + seconds);
      ctx.now := ctx.now + 1;
    }

    method GiveUpAtCap(ctx: MorphContext) returns (out: Outcome)
      modifies ctx
      ensures Res(ctx.World(), out) == RollbackAll(ctx.env, Capped(old(ctx.World())))
    {
      ctx.trace := ctx.trace.(capped := true);
      out := DoRollback(ctx);
    }

    // Tries one step until it succeeds (the run goes on with the next step) or the run has ended.
    method Retry(ctx: MorphContext, step: nat, thoughtSteps: nat)
        returns (ended: bool, out: Outcome, thoughtSteps': nat)
      requires step < 4 && thoughtSteps <= MAX_THOUGHT_STEPS
      modifies ctx
      ensures thoughtSteps' <= MAX_THOUGHT_STEPS
      ensures var steps := StepList(ctx.env, ttlSeconds);
              Loop(ctx.env, steps, old(ctx.World()), step, thoughtSteps, 0)
              == if ended then Res(ctx.World(), out) else Loop(ctx.env, steps, ctx.World(), step + 1, thoughtSteps', 0)
    {
      var consecutiveFailures := 0;
      thoughtSteps' := thoughtSteps;
      ghost var steps := StepList(ctx.env, ttlSeconds);
      ghost var result := Loop(ctx.env, steps, ctx.World(), step, thoughtSteps, 0);
      while true
        invariant thoughtSteps' <= MAX_THOUGHT_STEPS
        invariant result == Loop(ctx.env, steps, ctx.World(), step, thoughtSteps', consecutiveFailures)
        decreases MAX_THOUGHT_STEPS - thoughtSteps'
      {
        if thoughtSteps' >= MAX_THOUGHT_STEPS {
          out := GiveUpAtCap(ctx);
          return true, out, thoughtSteps';
        }
        thoughtSteps' := thoughtSteps' + 1;
        out := DoStep(ctx, step);
        if out == Done { return false, out, thoughtSteps'; }
        if out == Cancelled { return true, out, thoughtSteps'; }
        consecutiveFailures := consecutiveFailures + 1;
        if consecutiveFailures >= MAX_CONSECUTIVE_TOOL_FAILURES {
          out := DoRollback(ctx);
          return true, out, thoughtSteps';
        }
        var cancelled := BackOff(ctx, RETRY_BACKOFF_BASE_SECONDS * consecutiveFailures);
        if cancelled { return true, Cancelled, thoughtSteps'; }
      }
    }

    method Run(ctx: MorphContext, confidence: real) returns (out: Outcome)
      modifies ctx
      ensures Res(ctx.World(), out) == FsmSpec.Run(ctx.env, old(ctx.World()), ttlSeconds, confidence)
    {
      out := Transition(ctx, Detecting);
      if out != Done { return; }
      if confidence < CONFIDENCE_GATE {
        out := Transition(ctx, Idle);
        return;
      }
      var thoughtSteps: nat, ended := 0, false;
      ghost var steps := StepList(ctx.env, ttlSeconds);
      ghost var result := Loop(ctx.env, steps, ctx.World(), 0, 0, 0);
      for step := 0 to 4
        invariant thoughtSteps <= MAX_THOUGHT_STEPS
        invariant result == Loop(ctx.env, steps, ctx.World(), step, thoughtSteps, 0)
      {
        ended, out, thoughtSteps := Retry(ctx, step, thoughtSteps);
        if ended { return; }
      }
      return Done;
    }

    method Drive(ctx: MorphContext, confidence: real)
      modifies ctx
      ensures ctx.World() == FsmSpec.Drive(ctx.env, old(ctx.World()), ttlSeconds, confidence)
    {
      var out := Run(ctx, confidence);
      if out == Cancelled {
        var _ := DoRollback(ctx);
      }
    }
  }
}
