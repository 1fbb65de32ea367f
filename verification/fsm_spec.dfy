/** What a run of the morph state machine does, as a function of every answer its environment gives:
    each save, each MCP call and each sleep may succeed, fail, or be the point of cancellation. */
module FsmSpec {
  import opened Wrappers
  import opened MorphModel

  const CONFIDENCE_GATE := 0.75
  const MAX_THOUGHT_STEPS := 15
  const MAX_CONSECUTIVE_TOOL_FAILURES := 3
  const RETRY_BACKOFF_BASE_SECONDS := 2
  const TICK := 60

  datatype Reply<+T> = Answer(value: T) | Fails | Cancel

  datatype Rule = Rule(id: string, token: string, appliedAt: int)

  // The k-th await of a run gets the k-th answer of its kind. A sleep cannot fail, only be cancelled.
  datatype Env = Env(
    save: nat -> Reply<()>, route: nat -> Reply<string>, reroute: nat -> Reply<Rule>,
    terminate: nat -> Reply<()>, sleepCancelled: nat -> bool)

  datatype Call = Route(requestId: RequestId) | Reroute(requestId: RequestId)
                | Terminate(session: string, ruleId: string, token: string)

  // What has happened so far: the states entered, the MCP calls issued, the ids recorded (in order), the number of
  // step attempts, the seconds of backoff and of monitoring, and whether the cap on steps was met.
  datatype Trace = Trace(
    states: seq<MorphState>, calls: seq<Call>, sessions: seq<string>, rules: seq<(string, string)>,
    attempts: nat, backoff: nat, ticked: nat, capped: bool)

  datatype World = World(ctx: Context, trace: Trace, now: nat)

  // How a coroutine ends: normally, with an exception, or cancelled
  datatype Outcome = Done | Failed | Cancelled

  datatype Res = Res(w: World, out: Outcome)

  function End<T>(r: Reply<T>): Outcome {
    match r case Answer(_) => Done case Fails => Failed case Cancel => Cancelled
  }

  // ---- The steps ----

  // A transition: the context is in its new state before the save is awaited.
  function To(env: Env, w: World, s: MorphState): Res {
    Res(World(w.ctx.(state := s), w.trace.(states := w.trace.states + [s]), w.now + 1), End(env.save(w.now)))
  }

  function Called(w: World, c: Call): World {
    World(w.ctx, w.trace.(calls := w.trace.calls + [c]), w.now + 1)
  }

  function RecordSession(w: World, id: string): World {
    World(w.ctx.(session := Some(id)), w.trace.(sessions := w.trace.sessions + [id]), w.now)
  }

  function RecordRule(w: World, r: Rule): World {
    World(
      w.ctx.(ruleId := Some(r.id), rollbackToken := Some(r.token)),
      w.trace.(rules := w.trace.rules + [(r.id, r.token)]), w.now)
  }

  function AssigningStep(env: Env, w: World): Res {
    var r := To(env, w, Assigning);
    if r.out != Done then r
    else
      var called := Called(r.w, Route(w.ctx.requestId));
      match env.route(r.w.now)
      case Answer(id) => Res(RecordSession(called, id), Done)
      case reply => Res(called, End(reply))
  }

  // datetime covers the years 1 to 9999.
  predicate InDatetimeRange(t: int) { -62135596800 <= t <= 253402300799 }

  function RerouteStep(env: Env, w: World, ttl: int): Res {
    var r := To(env, w, Rerouting);
    if r.out != Done then r
    else
      var called := Called(r.w, Reroute(w.ctx.requestId));
      match env.reroute(r.w.now)
      case Answer(rule) =>
        var recorded := RecordRule(called, rule);
        if InDatetimeRange(rule.appliedAt + ttl)
        then Res(recorded.(ctx := recorded.ctx.(expiresAt := Some(rule.appliedAt + ttl))), Done)
        else Res(recorded, Failed)
      case reply => Res(called, End(reply))
  }

  function Slept(w: World, seconds: nat): World {
    World(w.ctx, w.trace.(ticked := w.trace.ticked + seconds), w.now + 1)
  }

  function Ticks(env: Env, w: World, ttl: int, elapsed: nat): Res
    decreases ttl - elapsed
  {
    if elapsed >= ttl then Res(w, Done)
    else
      var sleepFor := if TICK <= ttl - elapsed then TICK else ttl - elapsed;
      if env.sleepCancelled(w.now) then Res(Slept(w, sleepFor), Cancelled)
      else Ticks(env, Slept(w, sleepFor), ttl, elapsed + sleepFor)
  }

  function MonitoringStep(env: Env, w: World, ttl: int): Res {
    var r := To(env, w, Monitoring);
    if r.out != Done then r else Ticks(env, r.w, ttl, 0)
  }

  function TerminatingStep(env: Env, w: World): Res {
    var r := To(env, w, Terminating);
    var c := r.w.ctx;
    if r.out != Done then r
    else if c.session.None? || c.ruleId.None? || c.rollbackToken.None? then Res(r.w, Failed)
    else
      var called := Called(r.w, Terminate(c.session.value, c.ruleId.value, c.rollbackToken.value));
      match env.terminate(r.w.now)
      case Answer(_) => To(env, called, Idle)
      case reply => Res(called, End(reply))
  }

  // The four steps, in order
  function StepList(env: Env, ttl: int): (s: seq<World -> Res>)
    ensures |s| == 4
  {
    [w => AssigningStep(env, w), w => RerouteStep(env, w, ttl), w => MonitoringStep(env, w, ttl),
     w => TerminatingStep(env, w)]
  }

  function StepState(step: nat): MorphState {
    match step case 0 => Assigning case 1 => Rerouting case 2 => Monitoring case _ => Terminating
  }

  // A session id counts as recorded when it is a non-empty string.
  predicate HasSession(c: Context) { c.session.Some? && c.session.value != "" }

  function ReleaseCall(c: Context): Call {
    Terminate(c.session.GetOr(""), c.ruleId.GetOr(""), c.rollbackToken.GetOr(""))
  }

  function RollbackAll(env: Env, w: World): Res {
    var r := To(env, w, Rollback);
    if r.out != Done then r
    else if !HasSession(r.w.ctx) then To(env, r.w, Error)
    else
      var called := Called(r.w, ReleaseCall(r.w.ctx));
      if env.terminate(r.w.now).Cancel? then Res(called, Cancelled) else To(env, called, Error)
  }

  function Counted(w: World): World { w.(trace := w.trace.(attempts := w.trace.attempts + 1)) }

  function Capped(w: World): World { w.(trace := w.trace.(capped := true)) }

  function BackedOff(w: World, seconds: nat): World {
    World(w.ctx, w.trace.(backoff := w.trace.backoff + seconds), w.now + 1)
  }

  // The retry loop over the steps, at this step, after thought attempts in all and fails failures in a row
  function Loop(env: Env, steps: seq<World -> Res>, w: World, step: nat, thought: nat, fails: nat): Res
    requires step <= |steps| && thought <= MAX_THOUGHT_STEPS
    decreases MAX_THOUGHT_STEPS - thought
  {
    if step == |steps| then Res(w, Done)
    else if thought >= MAX_THOUGHT_STEPS then RollbackAll(env, Capped(w))
    else
      var r := steps[step](Counted(w));
      if r.out == Done then Loop(env, steps, r.w, step + 1, thought + 1, 0)
      else if r.out == Cancelled then r
      else if fails + 1 >= MAX_CONSECUTIVE_TOOL_FAILURES then RollbackAll(env, r.w)
      else
        var slept := BackedOff(r.w, RETRY_BACKOFF_BASE_SECONDS * (fails + 1));
        if env.sleepCancelled(r.w.now) then Res(slept, Cancelled)
        else Loop(env, steps, slept, step, thought + 1, fails + 1)
  }

  function Run(env: Env, w: World, ttl: int, confidence: real): Res {
    var r := To(env, w, Detecting);
    if r.out != Done then r
    else if confidence < CONFIDENCE_GATE then To(env, r.w, Idle)
    else Loop(env, StepList(env, ttl), r.w, 0, 0, 0)
  }

  // The coroutine around a run: a cancelled run is rolled back (the bounded delay may cut that short, as one more
  // cancellation), any other exception is only logged.
  function Drive(env: Env, w: World, ttl: int, confidence: real): World {
    var r := Run(env, w, ttl, confidence);
    if r.out == Cancelled then RollbackAll(env, r.w).w else r.w
  }

  const NOTHING := Trace([], [], [], [], 0, 0, 0, false)

  // A morph just received: idle, with no ids, and nothing has happened yet
  ghost predicate Fresh(w: World) {
    && w.ctx.state == Idle && w.ctx.session.None? && w.ctx.ruleId.None? && w.ctx.rollbackToken.None?
    && w.trace == NOTHING && w.now == 0
  }
}
