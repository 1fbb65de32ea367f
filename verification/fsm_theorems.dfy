/** Theorems about every run of the morph state machine, whatever its environment answers. */
module FsmTheorems {
  import opened Wrappers
  import opened MorphModel
  import opened FsmSpec

  // ---- Bounds, for any environment ----

  // A step costs at most one call (monitoring none) and no backoff, and leaves the counters of the loop alone.
  ghost predicate Cheap(w: World, r: Res, step: nat) {
    var t, t' := w.trace, r.w.trace;
    && t'.attempts == t.attempts && t'.backoff == t.backoff && t'.capped == t.capped
    && |t.calls| <= |t'.calls| <= |t.calls| + (if step == 2 then 0 else 1)
  }

  ghost predicate CheapSteps(steps: seq<World -> Res>) {
    |steps| == 4 && forall i, w | 0 <= i < 4 :: Cheap(w, steps[i](w), i)
  }

  // Ticking only advances the clock and the time slept, and ends after the TTL if not cancelled.
  lemma {:induction false} TicksOnlySleep(env: Env, w: World, ttl: int, elapsed: nat)
    ensures var r := Ticks(env, w, ttl, elapsed);
            && r.w.ctx == w.ctx && r.w.trace == w.trace.(ticked := r.w.trace.ticked) && r.out != Failed
            && (r.out == Done ==> r.w.trace.ticked == w.trace.ticked + if elapsed < ttl then ttl - elapsed else 0)
    decreases ttl - elapsed
  {
    if elapsed < ttl && !env.sleepCancelled(w.now) {
      var sleepFor := if TICK <= ttl - elapsed then TICK else ttl - elapsed;
      TicksOnlySleep(env, Slept(w, sleepFor), ttl, elapsed + sleepFor);
    }
  }

  lemma MonitoringOnlySleeps(env: Env, w: World, ttl: int)
    ensures var r, w' := MonitoringStep(env, w, ttl), To(env, w, Monitoring).w;
            && r.w.ctx == w'.ctx && r.w.trace == w'.trace.(ticked := r.w.trace.ticked)
            && (r.out == Failed ==> env.save(w.now) == Fails)
  {
    TicksOnlySleep(env, To(env, w, Monitoring).w, ttl, 0);
  }

  lemma StepListIsCheap(env: Env, ttl: int)
    ensures CheapSteps(StepList(env, ttl))
  {
    var steps := StepList(env, ttl);
    forall i, w | 0 <= i < 4 ensures Cheap(w, steps[i](w), i) {
      if i == 2 { MonitoringOnlySleeps(env, w, ttl); }
    }
  }

  // What the retry loop has spent when it stands at this step
  ghost predicate Spent(t: Trace, step: nat, thought: nat, fails: nat) {
    && step <= 4 && fails <= 2 && (step == 4 ==> fails == 0) && !t.capped
    && t.attempts == thought <= 3 * step + fails
    && t.backoff <= 6 * step + (if fails == 2 then 6 else 2 * fails)
    && |t.calls| <= (if step <= 2 then 3 * step else 3 * (step - 1)) + (if step == 2 then 0 else fails)
  }

  predicate Bounded(t: Trace, calls: nat) { t.attempts <= 12 && t.backoff <= 24 && |t.calls| <= calls && !t.capped }

  lemma RollbackCost(env: Env, w: World)
    ensures var t, t' := w.trace, RollbackAll(env, w).w.trace;
            && t'.attempts == t.attempts && t'.backoff == t.backoff && t'.capped == t.capped
            && |t.calls| <= |t'.calls| <= |t.calls| + 1
  {}

  // One attempt: what has been spent when the loop goes on, and when it ends there
  lemma SpentNext(w: World, r: Res, step: nat, thought: nat, fails: nat)
    requires Spent(w.trace, step, thought, fails) && step < 4 && Cheap(Counted(w), r, step)
    ensures Spent(r.w.trace, step + 1, thought + 1, 0)
    ensures var slept := BackedOff(r.w, 2 * (fails + 1));
            fails < 2 ==> Bounded(slept.trace, 10) && Spent(slept.trace, step, thought + 1, fails + 1)
    ensures Bounded(r.w.trace, if fails == 2 then 9 else 10) && thought < MAX_THOUGHT_STEPS
  {}

  // The loop never meets its own step cap: it goes through the four steps, or rolls back, before that.
  lemma {:induction false} LoopBounded(
      env: Env, steps: seq<World -> Res>, w: World, step: nat, thought: nat, fails: nat)
    requires CheapSteps(steps) && thought <= MAX_THOUGHT_STEPS && Spent(w.trace, step, thought, fails)
    ensures Bounded(Loop(env, steps, w, step, thought, fails).w.trace, 10)
    decreases MAX_THOUGHT_STEPS - thought
  {
    if step < 4 {
      var r := steps[step](Counted(w));
      assert Cheap(Counted(w), r, step);
      SpentNext(w, r, step, thought, fails);
      if r.out == Done {
        LoopBounded(env, steps, r.w, step + 1, thought + 1, 0);
      } else if r.out == Failed && fails == 2 {
        RollbackCost(env, r.w);
      } else if r.out == Failed && !env.sleepCancelled(r.w.now) {
        LoopBounded(env, steps, BackedOff(r.w, 2 * (fails + 1)), step, thought + 1, fails + 1);
      }
    }
  }

  // Whatever fails and wherever it is cancelled, a run makes at most 12 attempts, backs off at most 24 s,
  // issues at most 10 MCP calls, and never reaches the cap of 15 steps; the coroutine around it adds at most one call.
  lemma RunIsBounded(env: Env, w: World, ttl: int, confidence: real)
    requires Fresh(w)
    ensures Bounded(Run(env, w, ttl, confidence).w.trace, 10)
    ensures Bounded(Drive(env, w, ttl, confidence).trace, 11)
  {
    var r := To(env, w, Detecting);
    StepListIsCheap(env, ttl);
    if r.out == Done && confidence >= CONFIDENCE_GATE {
      LoopBounded(env, StepList(env, ttl), r.w, 0, 0, 0);
    }
    RollbackCost(env, Run(env, w, ttl, confidence).w);
  }

  // ---- The shape of a run whose saves do not fail ----

  ghost predicate SavesSucceed(env: Env) { forall k :: env.save(k) != Fails }

  // The states entered so far, then s entered n more times
  function Then(states: seq<MorphState>, s: MorphState, n: nat): seq<MorphState> {
    if n == 0 then states else Then(states, s, n - 1) + [s]
  }

  // DETECTING, and then the state of step i entered tries[i] times, step by step
  function Visits(tries: seq<nat>): seq<MorphState> {
    if tries == [] then [Detecting]
    else Then(Visits(tries[..|tries| - 1]), StepState(|tries| - 1), tries[|tries| - 1])
  }

  // Monitoring makes no call, so with saves that do not fail it succeeds at once.
  function MaxTries(step: nat): nat { if step == 2 then 1 else 3 }

  // At most four steps, each tried at least once and at most 3 times (monitoring once)
  predicate Tries(tries: seq<nat>) {
    |tries| <= 4 && (tries == [] || (1 <= tries[|tries| - 1] <= MaxTries(|tries| - 1) && Tries(tries[..|tries| - 1])))
  }

  function Sum(tries: seq<nat>): nat {
    if tries == [] then 0 else Sum(tries[..|tries| - 1]) + tries[|tries| - 1]
  }

  // The backoff of a step tried n times: 2 s before the second try, 4 s before the third
  function Pause(n: nat): nat { if n <= 1 then 0 else if n == 2 then 2 else 6 }

  function Pauses(tries: seq<nat>): nat {
    if tries == [] then 0 else Pauses(tries[..|tries| - 1]) + Pause(tries[|tries| - 1])
  }

  // The states entered by a run that goes through, and by one that gives up at its last step
  ghost predicate GoesThrough(states: seq<MorphState>, tries: seq<nat>) {
    Tries(tries) && |tries| == 4 && states == Visits(tries) + [Idle]
  }

  ghost predicate GivesUp(states: seq<MorphState>, tries: seq<nat>) {
    Tries(tries) && tries != [] && tries[|tries| - 1] == 3 && states == Visits(tries) + [Rollback, Error]
  }

  // A step that is not cancelled enters its own state once, and IDLE too when it is the last one and succeeds.
  ghost predicate EntersItsState(w: World, r: Res, step: nat) {
    r.out != Cancelled ==>
      && (step == 2 ==> r.out == Done)
      && r.w.trace.states == if step == 3 && r.out == Done then w.trace.states + [StepState(step)] + [Idle]
                             else w.trace.states + [StepState(step)]
  }

  ghost predicate OrderlySteps(steps: seq<World -> Res>) {
    |steps| == 4 && forall i, w | 0 <= i < 4 :: EntersItsState(w, steps[i](w), i)
  }

  lemma StepListIsOrderly(env: Env, ttl: int)
    requires SavesSucceed(env)
    ensures OrderlySteps(StepList(env, ttl))
  {
    var steps := StepList(env, ttl);
    forall i, w | 0 <= i < 4 ensures EntersItsState(w, steps[i](w), i) {
      if i == 2 { MonitoringOnlySleeps(env, w, ttl); }
    }
  }

  // The states entered when the loop stands at a step that failed this often so far
  function Standing(tries: seq<nat>, fails: nat): seq<MorphState> {
    Then(Visits(tries), StepState(|tries|), fails)
  }

  lemma StandingNext(tries: seq<nat>, fails: nat)
    ensures Standing(tries, fails) + [StepState(|tries|)] == Standing(tries, fails + 1) == Visits(tries + [fails + 1])
    ensures Tries(tries) && |tries| < 4 && fails < MaxTries(|tries|) ==> Tries(tries + [fails + 1])
  {
    assert (tries + [fails + 1])[..|tries|] == tries;
  }

  lemma RollbackStates(env: Env, w: World)
    requires SavesSucceed(env) && RollbackAll(env, w).out != Cancelled
    ensures RollbackAll(env, w).out == Done && RollbackAll(env, w).w.trace.states == w.trace.states + [Rollback, Error]
  {}

  // How an uncancelled loop ends
  ghost predicate EndsOrderly(r: Res, tries: seq<nat>) {
    && r.out == Done && (GoesThrough(r.w.trace.states, tries) || GivesUp(r.w.trace.states, tries))
    && r.w.trace.attempts == Sum(tries) && r.w.trace.backoff == Pauses(tries)
  }

  lemma OneMoreStep(tries: seq<nat>, n: nat)
    ensures Sum(tries + [n]) == Sum(tries) + n && Pauses(tries + [n]) == Pauses(tries) + Pause(n)
  {
    assert (tries + [n])[..|tries|] == tries;
  }

  lemma RollbackGivesUp(env: Env, w: World, tries: seq<nat>)
    requires SavesSucceed(env) && RollbackAll(env, w).out != Cancelled
    requires Tries(tries) && tries != [] && tries[|tries| - 1] == 3 && w.trace.states == Visits(tries)
    requires w.trace.attempts == Sum(tries) && w.trace.backoff == Pauses(tries)
    ensures EndsOrderly(RollbackAll(env, w), tries)
  {
    RollbackStates(env, w);
    RollbackCost(env, w);
  }

  // The loop stands at the step after these tries, which has failed this often so far.
  ghost predicate Stands(w: World, tries: seq<nat>, fails: nat) {
    && w.trace.states == Standing(tries, fails)
    && w.trace.attempts == Sum(tries) + fails && w.trace.backoff == Pauses(tries) + Pause(fails + 1)
  }

  // One attempt of that step
  lemma StandsNext(w: World, r: Res, tries: seq<nat>, fails: nat)
    requires Stands(w, tries, fails) && |tries| < 4 && fails <= 2 && r.out != Cancelled
    requires EntersItsState(Counted(w), r, |tries|) && Cheap(Counted(w), r, |tries|)
    ensures r.out == Done && |tries| < 3 ==> Stands(r.w, tries + [fails + 1], 0)
    ensures r.out == Failed && fails < 2 ==> Stands(BackedOff(r.w, 2 * (fails + 1)), tries, fails + 1)
    ensures var states, all := r.w.trace.states, Visits(tries + [fails + 1]);
            states == if |tries| == 3 && r.out == Done then all + [Idle] else all
    ensures r.w.trace.attempts == Sum(tries + [fails + 1]) && r.w.trace.backoff == Pauses(tries + [fails + 1])
  {
    StandingNext(tries, fails);
    OneMoreStep(tries, fails + 1);
  }

  // The attempt that ends the loop: the last step succeeds,
  lemma StandsThrough(w: World, r: Res, tries: seq<nat>, fails: nat)
    requires Stands(w, tries, fails) && Tries(tries) && |tries| == 3 && fails <= 2 && r.out == Done
    requires EntersItsState(Counted(w), r, 3) && Cheap(Counted(w), r, 3)
    ensures EndsOrderly(r, tries + [fails + 1])
  {
    StandsNext(w, r, tries, fails);
    StandingNext(tries, fails);
  }

  // or a step fails for the third time.
  lemma StandsGivingUp(env: Env, w: World, r: Res, tries: seq<nat>)
    requires Stands(w, tries, 2) && Tries(tries) && |tries| < 4 && MaxTries(|tries|) == 3 && r.out == Failed
    requires EntersItsState(Counted(w), r, |tries|) && Cheap(Counted(w), r, |tries|)
    requires SavesSucceed(env) && RollbackAll(env, r.w).out != Cancelled
    ensures EndsOrderly(RollbackAll(env, r.w), tries + [3])
  {
    StandsNext(w, r, tries, 2);
    StandingNext(tries, 2);
    RollbackGivesUp(env, r.w, tries + [3]);
  }

  lemma MoreTries(tries: seq<nat>, n: nat)
    requires Tries(tries) && |tries| < 4 && 1 <= n <= MaxTries(|tries|)
    ensures Tries(tries + [n])
  {
    assert (tries + [n])[..|tries|] == tries;
  }

  lemma {:induction false} LoopShape(
      env: Env, steps: seq<World -> Res>, w: World, thought: nat, fails: nat, tries: seq<nat>)
    returns (t: seq<nat>)
    requires OrderlySteps(steps) && CheapSteps(steps) && SavesSucceed(env) && thought <= MAX_THOUGHT_STEPS
    requires Tries(tries) && |tries| < 4 && fails < MaxTries(|tries|) && thought <= 3 * |tries| + fails
    requires Stands(w, tries, fails)
    requires Loop(env, steps, w, |tries|, thought, fails).out != Cancelled
    ensures EndsOrderly(Loop(env, steps, w, |tries|, thought, fails), t)
    decreases MAX_THOUGHT_STEPS - thought
  {
    var step := |tries|;
    var r := steps[step](Counted(w));
    assert EntersItsState(Counted(w), r, step) && Cheap(Counted(w), r, step);
    StandsNext(w, r, tries, fails);
    MoreTries(tries, fails + 1);
    t := tries + [fails + 1];
    if r.out == Done && step < 3 {
      t := LoopShape(env, steps, r.w, thought + 1, 0, t);
    } else if r.out == Done {
      StandsThrough(w, r, tries, fails);
    } else if fails < 2 {
      t := LoopShape(env, steps, BackedOff(r.w, 2 * (fails + 1)), thought + 1, fails + 1, tries);
    } else {
      StandsGivingUp(env, w, r, tries);
    }
  }

  // Every uncancelled run below the gate enters DETECTING, IDLE; every other one goes through the four steps in
  // order, each tried 1 to 3 times (monitoring once), to IDLE, or gives up after trying its last step exactly 3 times.
  // The attempts are these tries, and before the second and third try of a step it backs off 2 s and 4 s.
  lemma RunShape(env: Env, w: World, ttl: int, confidence: real)
    requires Fresh(w) && SavesSucceed(env) && Run(env, w, ttl, confidence).out != Cancelled
    ensures var r := Run(env, w, ttl, confidence); var states := r.w.trace.states;
            && r.out == Done
            && if confidence < 0.75 then states == [Detecting, Idle] && r.w.trace.attempts == r.w.trace.backoff == 0
               else exists tries ::
                 && (GoesThrough(states, tries) || GivesUp(states, tries))
                 && r.w.trace.attempts == Sum(tries) && r.w.trace.backoff == Pauses(tries)
  {
    var r := To(env, w, Detecting);
    if confidence >= CONFIDENCE_GATE {
      assert Standing([], 0) == [Detecting];
      StepListIsOrderly(env, ttl);
      StepListIsCheap(env, ttl);
      var t := LoopShape(env, StepList(env, ttl), r.w, 0, 0, []);
    }
  }

  // ---- The recorded ids, for any environment ----

  // The context holds exactly the ids recorded last: at most one session id, and never a rule id without one.
  ghost predicate IdsAgree(w: World) {
    var c, t := w.ctx, w.trace;
    && c.session == (if t.sessions == [] then None else Some(t.sessions[0])) && |t.sessions| <= 1
    && (t.rules == [] ==> c.ruleId.None? && c.rollbackToken.None?)
    && (t.rules != [] ==>
          c.ruleId == Some(t.rules[|t.rules| - 1].0) && c.rollbackToken == Some(t.rules[|t.rules| - 1].1))
    && (t.rules != [] ==> t.sessions != [])
  }

  // The loop stands at this step: there is a session id once assigning is over, a rule once rerouting is.
  ghost predicate IdsAt(w: World, step: nat) {
    IdsAgree(w) && (w.trace.sessions != [] <==> step >= 1) && (step >= 2 ==> w.trace.rules != [])
  }

  // A terminate call was attempted with exactly the ids the context holds.
  ghost predicate Released(w: World) { HasSession(w.ctx) ==> ReleaseCall(w.ctx) in w.trace.calls }

  ghost predicate KeepsIds(w: World, r: Res, step: nat) {
    IdsAt(w, step) ==>
      && IdsAgree(r.w)
      && (r.out == Done ==> IdsAt(r.w, step + 1) && (step == 3 ==> Released(r.w)))
      && (r.out == Failed ==> IdsAt(r.w, step))
      && (step != 1 ==> r.w.trace.rules == w.trace.rules)
  }

  ghost predicate CarefulSteps(steps: seq<World -> Res>) {
    |steps| == 4 && forall i, w | 0 <= i < 4 :: KeepsIds(w, steps[i](w), i)
  }

  lemma TerminatingKeepsIds(env: Env, w: World)
    ensures KeepsIds(w, TerminatingStep(env, w), 3)
  {}

  lemma StepListIsCareful(env: Env, ttl: int)
    ensures CarefulSteps(StepList(env, ttl))
  {
    var steps := StepList(env, ttl);
    forall i, w | 0 <= i < 4 ensures KeepsIds(w, steps[i](w), i) {
      if i == 2 { MonitoringOnlySleeps(env, w, ttl); }
      if i == 3 { TerminatingKeepsIds(env, w); }
    }
  }

  // A rollback keeps the ids, and issues the release unless the save of its own ROLLBACK state fails or is cut.
  lemma RollbackReleases(env: Env, w: World)
    ensures var r := RollbackAll(env, w);
            && r.w.ctx == w.ctx.(state := r.w.ctx.state)
            && r.w.trace.sessions == w.trace.sessions && r.w.trace.rules == w.trace.rules
            && (Released(r.w) || (r.w.ctx.state == Rollback && r.out != Done && !env.save(w.now).Answer?))
  {}

  // What the loop makes of the ids
  ghost predicate LoopKeeps(r: Res) {
    IdsAgree(r.w) && (r.out != Cancelled ==> Released(r.w) || (r.w.ctx.state == Rollback && r.out == Failed))
  }

  lemma RollbackKeeps(env: Env, w: World)
    requires IdsAgree(w)
    ensures LoopKeeps(RollbackAll(env, w))
  {
    RollbackReleases(env, w);
  }

  lemma {:induction false} LoopKeepsIds(
      env: Env, steps: seq<World -> Res>, w: World, step: nat, thought: nat, fails: nat)
    requires CarefulSteps(steps) && step <= 4 && thought <= MAX_THOUGHT_STEPS
    requires IdsAt(w, step) && (step == 4 ==> Released(w))
    ensures LoopKeeps(Loop(env, steps, w, step, thought, fails))
    decreases MAX_THOUGHT_STEPS - thought
  {
    if step < 4 && thought < MAX_THOUGHT_STEPS {
      var r := steps[step](Counted(w));
      assert KeepsIds(Counted(w), r, step);
      if r.out == Done {
        LoopKeepsIds(env, steps, r.w, step + 1, thought + 1, 0);
      } else if r.out == Failed && fails + 1 >= 3 {
        RollbackKeeps(env, r.w);
      } else if r.out == Failed && !env.sleepCancelled(r.w.now) {
        LoopKeepsIds(env, steps, BackedOff(r.w, 2 * (fails + 1)), step, thought + 1, fails + 1);
      }
    } else if step < 4 {
      RollbackKeeps(env, Capped(w));
    }
  }

  lemma RunKeepsIds(env: Env, w: World, ttl: int, confidence: real)
    requires Fresh(w)
    ensures LoopKeeps(Run(env, w, ttl, confidence))
  {
    var r := To(env, w, Detecting);
    if r.out == Done && confidence >= CONFIDENCE_GATE {
      StepListIsCareful(env, ttl);
      LoopKeepsIds(env, StepList(env, ttl), r.w, 0, 0, 0);
    }
  }

  // ---- Exactly when the release is attempted ----

  // A rollback leaves a recorded session without a terminate call exactly when none was issued before, and the save of
  // ROLLBACK fails or is cut.
  ghost predicate Leaks(env: Env, w: World) {
    HasSession(w.ctx) && ReleaseCall(w.ctx) !in w.trace.calls && !env.save(w.now).Answer?
  }

  lemma RollbackLeaksExactly(env: Env, w: World)
    ensures Released(RollbackAll(env, w).w) <==> !Leaks(env, w)
  {}

  // A rollback without a session, or with an empty one, asks for nothing to be torn down; any other one asks at most
  // once.
  lemma RollbackCalls(env: Env, w: World)
    ensures var calls, calls' := w.trace.calls, RollbackAll(env, w).w.trace.calls;
            if w.ctx.session.None? || w.ctx.session.value == "" || !env.save(w.now).Answer? then calls' == calls
            else
              var c := w.ctx;
              calls' == calls + [Terminate(c.session.value, c.ruleId.GetOr(""), c.rollbackToken.GetOr(""))]
  {}

  // Where the retry loop gives up, if it does: the world its rollback starts from
  function GivesUpAt(env: Env, steps: seq<World -> Res>, w: World, step: nat, thought: nat, fails: nat): Option<World>
    requires step <= |steps| && thought <= MAX_THOUGHT_STEPS
    decreases MAX_THOUGHT_STEPS - thought
  {
    if step == |steps| then None
    else if thought >= MAX_THOUGHT_STEPS then Some(Capped(w))
    else
      var r := steps[step](Counted(w));
      if r.out == Done then GivesUpAt(env, steps, r.w, step + 1, thought + 1, 0)
      else if r.out == Cancelled then None
      else if fails + 1 >= MAX_CONSECUTIVE_TOOL_FAILURES then Some(r.w)
      else if env.sleepCancelled(r.w.now) then None
      else GivesUpAt(env, steps, BackedOff(r.w, RETRY_BACKOFF_BASE_SECONDS * (fails + 1)), step, thought + 1, fails + 1)
  }

  // A loop that gives up rolls back from there; any other one went through, and has released, or was cancelled.
  lemma {:induction false} LoopGivesUpAt(
      env: Env, steps: seq<World -> Res>, w: World, step: nat, thought: nat, fails: nat)
    requires CarefulSteps(steps) && step <= 4 && thought <= MAX_THOUGHT_STEPS
    requires IdsAt(w, step) && (step == 4 ==> Released(w))
    ensures var r := Loop(env, steps, w, step, thought, fails);
            match GivesUpAt(env, steps, w, step, thought, fails)
            case Some(u) => r == RollbackAll(env, u)
            case None => r.out == Cancelled || (r.out == Done && Released(r.w))
    decreases MAX_THOUGHT_STEPS - thought
  {
    if step < 4 && thought < MAX_THOUGHT_STEPS {
      var r := steps[step](Counted(w));
      assert KeepsIds(Counted(w), r, step);
      if r.out == Done {
        LoopGivesUpAt(env, steps, r.w, step + 1, thought + 1, 0);
      } else if r.out == Failed && fails + 1 < 3 && !env.sleepCancelled(r.w.now) {
        LoopGivesUpAt(env, steps, BackedOff(r.w, 2 * (fails + 1)), step, thought + 1, fails + 1);
      }
    }
  }

  // Where the last rollback of a morph starts, if it has one: after a cancelled run, or where an uncancelled one gives
  // up
  function RollbackStart(env: Env, w: World, ttl: int, confidence: real): Option<World> {
    var r, first := Run(env, w, ttl, confidence), To(env, w, Detecting);
    if r.out == Cancelled then Some(r.w)
    else if first.out != Done || confidence < CONFIDENCE_GATE then None
    else GivesUpAt(env, StepList(env, ttl), first.w, 0, 0, 0)
  }

  // A morph ends with the rollback that starts here, or, without one, released.
  ghost predicate EndsFrom(env: Env, end: World, start: Option<World>) {
    match start
    case Some(u) => end == RollbackAll(env, u).w
    case None => Released(end)
  }

  lemma DriveEndsFrom(env: Env, w: World, ttl: int, confidence: real)
    requires Fresh(w)
    ensures EndsFrom(env, Drive(env, w, ttl, confidence), RollbackStart(env, w, ttl, confidence))
  {
    var first := To(env, w, Detecting);
    if first.out == Done && confidence >= CONFIDENCE_GATE {
      StepListIsCareful(env, ttl);
      LoopGivesUpAt(env, StepList(env, ttl), first.w, 0, 0, 0);
    }
  }

  // However the coroutine of a morph ends, cancelled or not, a terminate call with exactly the recorded ids was
  // attempted, unless its last rollback starts with a recorded session and no such call yet, and the save of
  // ROLLBACK does not answer; and then it was not.
  lemma ReleasedExactly(env: Env, w: World, ttl: int, confidence: real)
    requires Fresh(w)
    ensures var start := RollbackStart(env, w, ttl, confidence);
            Released(Drive(env, w, ttl, confidence)) <==> start.None? || !Leaks(env, start.value)
  {
    DriveEndsFrom(env, w, ttl, confidence);
    var start := RollbackStart(env, w, ttl, confidence);
    if start.Some? { RollbackLeaksExactly(env, start.value); }
  }

  lemma DriveKeepsIds(env: Env, w: World, ttl: int, confidence: real)
    requires Fresh(w)
    ensures IdsAgree(Drive(env, w, ttl, confidence))
  {
    RunKeepsIds(env, w, ttl, confidence);
    RollbackReleases(env, Run(env, w, ttl, confidence).w);
  }

  ghost predicate ReleasedOrCut(env: Env, end: World) {
    Released(end) || (end.ctx.state == Rollback && end.now > 0 && !env.save(end.now - 1).Answer?)
  }

  lemma EndsReleasedOrCut(env: Env, end: World, start: Option<World>)
    requires EndsFrom(env, end, start)
    ensures ReleasedOrCut(env, end)
  {}

  // However the coroutine of a morph ends, and wherever its run is cancelled: a recorded rule implies a recorded
  // session, the session id was recorded at most once, the context holds what was recorded last, and a terminate
  // call was attempted with exactly those ids, unless the very last await was the save of ROLLBACK and it failed or
  // was cut.
  lemma DriveReleases(env: Env, w: World, ttl: int, confidence: real)
    requires Fresh(w)
    ensures var end := Drive(env, w, ttl, confidence);
            && IdsAgree(end) && (end.ctx.ruleId.Some? ==> end.ctx.session.Some?)
            && ReleasedOrCut(env, end)
  {
    DriveKeepsIds(env, w, ttl, confidence);
    DriveEndsFrom(env, w, ttl, confidence);
    EndsReleasedOrCut(env, Drive(env, w, ttl, confidence), RollbackStart(env, w, ttl, confidence));
  }

  // So a run that is not cancelled, with saves that do not fail, always attempts the release.
  lemma SavedRunReleases(env: Env, w: World, ttl: int, confidence: real)
    requires Fresh(w) && SavesSucceed(env) && Run(env, w, ttl, confidence).out != Cancelled
    ensures Released(Drive(env, w, ttl, confidence))
  {
    RunKeepsIds(env, w, ttl, confidence);
    RunShape(env, w, ttl, confidence);
  }

  // ---- Which calls a run issues ----

  function Rank(c: Call): nat {
    match c case Route(_) => 0 case Reroute(_) => 1 case Terminate(_, _, _) => 3
  }

  // The calls come in the order of the steps, none later than this one.
  ghost predicate InStepOrder(calls: seq<Call>, step: nat) {
    calls == [] || (Rank(calls[|calls| - 1]) <= step && InStepOrder(calls[..|calls| - 1], Rank(calls[|calls| - 1])))
  }

  lemma OneMoreCall(calls: seq<Call>, c: Call)
    requires InStepOrder(calls, Rank(c))
    ensures InStepOrder(calls + [c], Rank(c))
  {
    assert (calls + [c])[..|calls|] == calls;
  }

  lemma LaterStep(calls: seq<Call>, step: nat, step': nat)
    requires InStepOrder(calls, step) && step <= step'
    ensures InStepOrder(calls, step')
  {}

  // Calls name this morph's request, and every terminate call carries exactly the ids the context holds.
  ghost predicate NamesItsIds(w: World) {
    forall c | c in w.trace.calls ::
      match c
      case Terminate(_, _, _) => c == ReleaseCall(w.ctx)
      case _ => c.requestId == w.ctx.requestId
  }

  ghost predicate CallsAt(w: World, step: nat) {
    InStepOrder(w.trace.calls, step) && NamesItsIds(w) && (step <= 1 ==> forall c | c in w.trace.calls :: !c.Terminate?)
  }

  ghost predicate CallsInTurn(w: World, r: Res, step: nat) {
    IdsAt(w, step) && CallsAt(w, step) ==> CallsAt(r.w, step)
  }

  ghost predicate TurnTakingSteps(steps: seq<World -> Res>) {
    |steps| == 4 && forall i, w | 0 <= i < 4 :: CallsInTurn(w, steps[i](w), i)
  }

  // The call a step issues
  function StepCall(c: Context, step: nat): Call {
    match step case 0 => Route(c.requestId) case 1 => Reroute(c.requestId) case _ => ReleaseCall(c)
  }

  // One more call of this step, with the ids it should carry; early steps may record ids after it.
  lemma StepCallInTurn(w: World, w': World, step: nat)
    requires CallsAt(w, step) && step in {0, 1, 3}
    requires w'.trace.calls == w.trace.calls || w'.trace.calls == w.trace.calls + [StepCall(w.ctx, step)]
    requires w'.ctx.requestId == w.ctx.requestId && (step == 3 ==> ReleaseCall(w'.ctx) == ReleaseCall(w.ctx))
    ensures CallsAt(w', step)
  {
    var c := StepCall(w.ctx, step);
    OneMoreCall(w.trace.calls, c);
    assert forall x | x in w.trace.calls + [c] :: x in w.trace.calls || x == c;
  }

  ghost predicate IssuesStepCall(w: World, r: Res, step: nat) {
    && (r.w.trace.calls == w.trace.calls || r.w.trace.calls == w.trace.calls + [StepCall(w.ctx, step)])
    && r.w.ctx.requestId == w.ctx.requestId && (step == 3 ==> ReleaseCall(r.w.ctx) == ReleaseCall(w.ctx))
  }

  lemma StepsIssueTheirCall(env: Env, w: World, ttl: int)
    ensures IssuesStepCall(w, AssigningStep(env, w), 0)
    ensures IssuesStepCall(w, RerouteStep(env, w, ttl), 1)
    ensures IssuesStepCall(w, TerminatingStep(env, w), 3)
    ensures IssuesStepCall(w, RollbackAll(env, w), 3)
  {}

  lemma StepListTakesTurns(env: Env, ttl: int)
    ensures TurnTakingSteps(StepList(env, ttl))
  {
    var steps := StepList(env, ttl);
    forall i, w | 0 <= i < 4 ensures CallsInTurn(w, steps[i](w), i) {
      StepsIssueTheirCall(env, w, ttl);
      if i == 2 {
        MonitoringOnlySleeps(env, w, ttl);
      } else if CallsAt(w, i) {
        StepCallInTurn(w, steps[i](w).w, i);
      }
    }
  }

  lemma RollbackInTurn(env: Env, w: World, step: nat)
    requires step <= 3 && CallsAt(w, step)
    ensures CallsAt(RollbackAll(env, w).w, 3)
  {
    LaterStep(w.trace.calls, step, 3);
    StepsIssueTheirCall(env, w, 0);
    StepCallInTurn(w, RollbackAll(env, w).w, 3);
  }

  lemma {:induction false} LoopTakesTurns(
      env: Env, steps: seq<World -> Res>, w: World, step: nat, thought: nat, fails: nat)
    requires CarefulSteps(steps) && TurnTakingSteps(steps) && step <= 4 && thought <= MAX_THOUGHT_STEPS
    requires IdsAt(w, step) && CallsAt(w, if step <= 3 then step else 3)
    ensures CallsAt(Loop(env, steps, w, step, thought, fails).w, 3)
    decreases MAX_THOUGHT_STEPS - thought
  {
    if step < 4 && thought < MAX_THOUGHT_STEPS {
      var r := steps[step](Counted(w));
      assert KeepsIds(Counted(w), r, step) && CallsInTurn(Counted(w), r, step);
      LaterStep(r.w.trace.calls, step, 3);
      if r.out == Done {
        if step < 3 { LaterStep(r.w.trace.calls, step, step + 1); }
        LoopTakesTurns(env, steps, r.w, step + 1, thought + 1, 0);
      } else if r.out == Failed && fails + 1 >= 3 {
        RollbackInTurn(env, r.w, step);
      } else if r.out == Failed && !env.sleepCancelled(r.w.now) {
        LoopTakesTurns(env, steps, BackedOff(r.w, 2 * (fails + 1)), step, thought + 1, fails + 1);
      }
    } else if step < 4 {
      RollbackInTurn(env, Capped(w), step);
    }
  }

  // In every run, cancelled or not, the calls come in the order allocate, reroute, terminate; they name the morph's own
  // request, and every terminate call carries exactly the ids the context ends up with.
  lemma CallsFollowTheSteps(env: Env, w: World, ttl: int, confidence: real)
    requires Fresh(w)
    ensures InStepOrder(Drive(env, w, ttl, confidence).trace.calls, 3) && NamesItsIds(Drive(env, w, ttl, confidence))
  {
    var r := To(env, w, Detecting);
    StepListIsCareful(env, ttl);
    StepListTakesTurns(env, ttl);
    if r.out == Done && confidence >= CONFIDENCE_GATE {
      LoopTakesTurns(env, StepList(env, ttl), r.w, 0, 0, 0);
    }
    RollbackInTurn(env, Run(env, w, ttl, confidence).w, 3);
  }

  // ---- Are rule ids ever overwritten? ----

  ghost predicate TimesInRange(env: Env, ttl: int) {
    forall k :: env.reroute(k).Answer? ==> InDatetimeRange(env.reroute(k).value.appliedAt + ttl)
  }

  // A step records a rule only if it is the second one, and only when it succeeds.
  ghost predicate RecordsOnSuccess(w: World, r: Res, step: nat) {
    |r.w.trace.rules| == |w.trace.rules| + if step == 1 && r.out == Done then 1 else 0
  }

  ghost predicate RecordingSteps(steps: seq<World -> Res>) {
    |steps| == 4 && forall i, w | 0 <= i < 4 :: RecordsOnSuccess(w, steps[i](w), i)
  }

  lemma StepListRecordsOnSuccess(env: Env, ttl: int)
    requires TimesInRange(env, ttl)
    ensures RecordingSteps(StepList(env, ttl))
  {
    var steps := StepList(env, ttl);
    forall i, w | 0 <= i < 4 ensures RecordsOnSuccess(w, steps[i](w), i) {
      if i == 2 { MonitoringOnlySleeps(env, w, ttl); }
    }
  }

  lemma {:induction false} LoopRecordsOnce(
      env: Env, steps: seq<World -> Res>, w: World, step: nat, thought: nat, fails: nat)
    requires RecordingSteps(steps) && step <= 4 && thought <= MAX_THOUGHT_STEPS
    requires |w.trace.rules| == if step >= 2 then 1 else 0
    ensures |Loop(env, steps, w, step, thought, fails).w.trace.rules| <= 1
    decreases MAX_THOUGHT_STEPS - thought
  {
    if step < 4 && thought < MAX_THOUGHT_STEPS {
      var r := steps[step](Counted(w));
      assert RecordsOnSuccess(Counted(w), r, step);
      if r.out == Done {
        LoopRecordsOnce(env, steps, r.w, step + 1, thought + 1, 0);
      } else if r.out == Failed && fails + 1 >= 3 {
        RollbackReleases(env, r.w);
      } else if r.out == Failed && !env.sleepCancelled(r.w.now) {
        LoopRecordsOnce(env, steps, BackedOff(r.w, 2 * (fails + 1)), step, thought + 1, fails + 1);
      }
    } else if step < 4 {
      RollbackReleases(env, Capped(w));
    }
  }

  lemma RuleRecordedOnce(env: Env, w: World, ttl: int, confidence: real)
    requires Fresh(w) && TimesInRange(env, ttl)
    ensures |Drive(env, w, ttl, confidence).trace.rules| <= 1
  {
    var r := To(env, w, Detecting);
    if r.out == Done && confidence >= CONFIDENCE_GATE {
      StepListRecordsOnSuccess(env, ttl);
      LoopRecordsOnce(env, StepList(env, ttl), r.w, 0, 0, 0);
    }
    RollbackReleases(env, Run(env, w, ttl, confidence).w);
  }

  // An environment in which every call succeeds and every rule is said to be applied at this time
  function Smooth(appliedAt: int): Env {
    Env(k => Answer(()), k => Answer("session"), k => Answer(Rule("rule", "token", appliedAt)), k => Answer(()),
        k => false)
  }

  // The loop at the second step, in an environment in which that step fails three times
  function Failed3(env: Env, w: World, ttl: int): World {
    var w1 := BackedOff(RerouteStep(env, Counted(w), ttl).w, 2);
    var w2 := BackedOff(RerouteStep(env, Counted(w1), ttl).w, 4);
    RerouteStep(env, Counted(w2), ttl).w
  }

  lemma ThreeFailures(env: Env, w: World, ttl: int)
    requires !env.sleepCancelled(w.now + 2) && !env.sleepCancelled(w.now + 5)
    requires forall u :: RerouteStep(env, u, ttl).out == Failed && RerouteStep(env, u, ttl).w.now == u.now + 2
    ensures Loop(env, StepList(env, ttl), w, 1, 1, 0) == RollbackAll(env, Failed3(env, w, ttl))
  {
    var steps := StepList(env, ttl);
    var w1 := BackedOff(RerouteStep(env, Counted(w), ttl).w, 2);
    var w2 := BackedOff(RerouteStep(env, Counted(w1), ttl).w, 4);
    assert Loop(env, steps, w2, 1, 3, 2) == RollbackAll(env, Failed3(env, w, ttl));
    assert Loop(env, steps, w1, 1, 2, 1) == Loop(env, steps, w2, 1, 3, 2);
  }

  // Rule ids are recorded at most once exactly when the load balancer's time is in range: otherwise even an
  // environment in which every call succeeds makes the run reroute, and record a rule, three times over.
  lemma OverwrittenExactlyOutOfRange(w: World, ttl: int, appliedAt: int)
    requires Fresh(w)
    ensures InDatetimeRange(appliedAt + ttl) <==> |Drive(Smooth(appliedAt), w, ttl, 1.0).trace.rules| <= 1
  {
    var env := Smooth(appliedAt);
    if InDatetimeRange(appliedAt + ttl) {
      RuleRecordedOnce(env, w, ttl, 1.0);
    } else {
      var w0 := To(env, w, Detecting).w;
      var w1 := AssigningStep(env, Counted(w0)).w;
      ThreeFailures(env, w1, ttl);
    }
  }

  // The exception in the release theorems is real: when rerouting keeps failing and then the save of ROLLBACK fails,
  // a session that was recorded is never asked to be torn down.
  lemma FailedSaveLeaks(w: World, ttl: int)
    requires Fresh(w)
    ensures exists env :: HasSession(Drive(env, w, ttl, 1.0).ctx) && !Released(Drive(env, w, ttl, 1.0))
  {
    // Awaits: 0 DETECTING, 1-2 assigning, 3-4, 6-7 and 9-10 rerouting with backoffs 5 and 8, 11 ROLLBACK
    var env := Env(
      k => if k == 11 then Fails else Answer(()), k => Answer("session"), k => Fails, k => Answer(()), k => false);
    var w0 := To(env, w, Detecting).w;
    var w1 := AssigningStep(env, Counted(w0)).w;
    var end := Drive(env, w, ttl, 1.0);
    assert HasSession(end.ctx) && !Released(end);
  }

  // Monitoring that is not cancelled sleeps for exactly the TTL, or not at all when it is not positive.
  lemma MonitoringLastsTheTtl(env: Env, w: World, ttl: int)
    requires MonitoringStep(env, w, ttl).out == Done
    ensures MonitoringStep(env, w, ttl).w.trace.ticked == w.trace.ticked + if ttl > 0 then ttl else 0
  {
    TicksOnlySleep(env, To(env, w, Monitoring).w, ttl, 0);
  }
}
