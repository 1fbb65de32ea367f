/** How runs of the morph state machine end: which answers make a step succeed, what a run that goes smoothly does, and
    what a failed call, a cancellation and a report of the load balancer mean for the end. */
module FsmOutcomes {
  import opened Wrappers
  import opened MorphModel
  import opened FsmSpec
  import opened FsmTheorems

  // ---- Steps ----

  // A step succeeds exactly when all its awaits are answered, and what it needs is there.
  lemma StepsSucceedExactly(env: Env, w: World, ttl: int)
    ensures AssigningStep(env, w).out == Done <==> env.save(w.now).Answer? && env.route(w.now + 1).Answer?
    ensures RerouteStep(env, w, ttl).out == Done <==>
              && env.save(w.now).Answer? && env.reroute(w.now + 1).Answer?
              && -62135596800 <= env.reroute(w.now + 1).value.appliedAt + ttl < 253402300800
    ensures TerminatingStep(env, w).out == Done <==>
              && env.save(w.now).Answer? && w.ctx.session.Some? && w.ctx.ruleId.Some? && w.ctx.rollbackToken.Some?
              && env.terminate(w.now + 1).Answer? && env.save(w.now + 2).Answer?
  {}

  // How many sleeps of at most a minute make up this time
  function Sleeps(seconds: int): nat { if seconds <= 0 then 0 else (seconds + 59) / 60 }

  lemma {:induction false} TicksTakeMinutes(env: Env, w: World, ttl: int, elapsed: nat)
    requires forall k | w.now <= k < w.now + Sleeps(ttl - elapsed) :: !env.sleepCancelled(k)
    ensures var slept := if elapsed < ttl then ttl - elapsed else 0;
            Ticks(env, w, ttl, elapsed) ==
            Res(World(w.ctx, w.trace.(ticked := w.trace.ticked + slept), w.now + Sleeps(ttl - elapsed)), Done)
    decreases ttl - elapsed
  {
    if elapsed >= ttl {
    } else {
      var sleepFor := if 60 <= ttl - elapsed then 60 else ttl - elapsed;
      assert Sleeps(ttl - elapsed) == 1 + Sleeps(ttl - (elapsed + sleepFor));
      TicksTakeMinutes(env, Slept(w, sleepFor), ttl, elapsed + sleepFor);
    }
  }

  // ---- A run that goes smoothly ----

  ghost predicate AllAnswer(env: Env, ttl: int) {
    && (forall k :: env.save(k).Answer? && env.route(k).Answer? && env.reroute(k).Answer? && env.terminate(k).Answer?)
    && (forall k :: !env.sleepCancelled(k)) && TimesInRange(env, ttl)
  }

  // Where the run stands when a step has succeeded at the first try
  lemma SmoothSteps(env: Env, w: World, ttl: int)
    requires AllAnswer(env, ttl)
    ensures var n, t := w.now, w.trace;
            AssigningStep(env, w) ==
            Res(World(w.ctx.(state := Assigning, session := Some(env.route(n + 1).value)),
                      t.(states := t.states + [Assigning], calls := t.calls + [Route(w.ctx.requestId)],
                         sessions := t.sessions + [env.route(n + 1).value]),
                      n + 2), Done)
    ensures var n, t, rule := w.now, w.trace, env.reroute(w.now + 1).value;
            RerouteStep(env, w, ttl) ==
            Res(World(w.ctx.(state := Rerouting, ruleId := Some(rule.id), rollbackToken := Some(rule.token),
                             expiresAt := Some(rule.appliedAt + ttl)),
                      t.(states := t.states + [Rerouting], calls := t.calls + [Reroute(w.ctx.requestId)],
                         rules := t.rules + [(rule.id, rule.token)]),
                      n + 2), Done)
    ensures var n, t := w.now, w.trace;
            MonitoringStep(env, w, ttl) ==
            Res(World(w.ctx.(state := Monitoring),
                      t.(states := t.states + [Monitoring], ticked := t.ticked + if ttl > 0 then ttl else 0),
                      n + 1 + Sleeps(ttl)), Done)
    ensures w.ctx.session.Some? && w.ctx.ruleId.Some? && w.ctx.rollbackToken.Some? ==>
              var n, t, c := w.now, w.trace, w.ctx;
              TerminatingStep(env, w) ==
              Res(World(c.(state := Idle),
                        t.(states := t.states + [Terminating] + [Idle],
                           calls := t.calls + [Terminate(c.session.value, c.ruleId.value, c.rollbackToken.value)]),
                        n + 3), Done)
  {
    TicksTakeMinutes(env, To(env, w, Monitoring).w, ttl, 0);
  }

  lemma LoopOnSuccess(env: Env, steps: seq<World -> Res>, w: World, step: nat)
    requires |steps| == 4 && step < 4 && steps[step](Counted(w)).out == Done
    ensures Loop(env, steps, w, step, step, 0) == Loop(env, steps, steps[step](Counted(w)).w, step + 1, step + 1, 0)
  {}

  // If every await is answered, and the load balancer reports a time in range, a run at or above the gate takes each
  // step once: it allocates, reroutes with the answered session and rule recorded, stays for the TTL, tears down
  // exactly what was recorded, and ends in IDLE.
  lemma SmoothRun(env: Env, w: World, ttl: int, confidence: real)
    requires Fresh(w) && AllAnswer(env, ttl) && confidence >= 0.75
    ensures var session, rule, id := env.route(2).value, env.reroute(4).value, w.ctx.requestId;
            var r := Run(env, w, ttl, confidence);
            && r.out == Done
            && r.w.ctx == Context(id, w.ctx.attackerIp, Idle, Some(session), Some(rule.id), Some(rule.token),
                                  Some(rule.appliedAt + ttl))
            && r.w.trace.states == [Detecting, Assigning, Rerouting, Monitoring, Terminating, Idle]
            && r.w.trace.calls == [Route(id), Reroute(id), Terminate(session, rule.id, rule.token)]
            && r.w.trace.attempts == 4 && r.w.trace.backoff == 0 && r.w.trace.ticked == (if ttl > 0 then ttl else 0)
            && r.w.now == 9 + Sleeps(ttl)
  {
    var steps := StepList(env, ttl);
    var w0 := To(env, w, Detecting).w;
    SmoothSteps(env, Counted(w0), ttl);
    LoopOnSuccess(env, steps, w0, 0);
    var w1 := AssigningStep(env, Counted(w0)).w;
    SmoothSteps(env, Counted(w1), ttl);
    LoopOnSuccess(env, steps, w1, 1);
    var w2 := RerouteStep(env, Counted(w1), ttl).w;
    SmoothSteps(env, Counted(w2), ttl);
    LoopOnSuccess(env, steps, w2, 2);
    var w3 := MonitoringStep(env, Counted(w2), ttl).w;
    SmoothSteps(env, Counted(w3), ttl);
    LoopOnSuccess(env, steps, w3, 3);
  }

  // ---- Failed terminate calls ----

  ghost predicate NeverTerminates(env: Env) { forall k :: !env.terminate(k).Answer? }

  lemma RollbackStaysOutOfIdle(env: Env, w: World)
    ensures RollbackAll(env, w).w.ctx.state != Idle
  {}

  ghost predicate StaysOut(w: World, r: Res, step: nat) {
    w.ctx.state != Idle ==> r.w.ctx.state != Idle && (step == 3 ==> r.out != Done)
  }

  ghost predicate OutOfIdle(steps: seq<World -> Res>) {
    |steps| == 4 && forall i, w | 0 <= i < 4 :: StaysOut(w, steps[i](w), i)
  }

  lemma StepListStaysOutOfIdle(env: Env, ttl: int)
    requires NeverTerminates(env)
    ensures OutOfIdle(StepList(env, ttl))
  {
    forall i, w | 0 <= i < 4 ensures StaysOut(w, StepList(env, ttl)[i](w), i) {
      if i == 2 { MonitoringOnlySleeps(env, w, ttl); }
    }
  }

  lemma {:induction false} LoopStaysOutOfIdle(
      env: Env, steps: seq<World -> Res>, w: World, step: nat, thought: nat, fails: nat)
    requires NeverTerminates(env) && OutOfIdle(steps) && w.ctx.state != Idle && step < 4 && thought <= MAX_THOUGHT_STEPS
    ensures Loop(env, steps, w, step, thought, fails).w.ctx.state != Idle
    decreases MAX_THOUGHT_STEPS - thought
  {
    if thought >= MAX_THOUGHT_STEPS {
      RollbackStaysOutOfIdle(env, Capped(w));
    } else {
      var r := steps[step](Counted(w));
      assert StaysOut(Counted(w), r, step);
      if r.out == Done {
        LoopStaysOutOfIdle(env, steps, r.w, step + 1, thought + 1, 0);
      } else if r.out == Failed && fails + 1 >= 3 {
        RollbackStaysOutOfIdle(env, r.w);
      } else if r.out == Failed && !env.sleepCancelled(r.w.now) {
        LoopStaysOutOfIdle(env, steps, BackedOff(r.w, 2 * (fails + 1)), step, thought + 1, fails + 1);
      }
    }
  }

  // A morph at or above the gate returns to IDLE only if a terminate call was answered.
  lemma IdleNeedsTermination(env: Env, w: World, ttl: int, confidence: real)
    requires Fresh(w) && confidence >= 0.75
    ensures Run(env, w, ttl, confidence).w.ctx.state == Idle ==> exists k :: env.terminate(k).Answer?
  {
    if NeverTerminates(env) {
      var first := To(env, w, Detecting);
      StepListStaysOutOfIdle(env, ttl);
      if first.out == Done { LoopStaysOutOfIdle(env, StepList(env, ttl), first.w, 0, 0, 0); }
    }
  }

  // ---- Cancellation ----

  // Whatever is awaited at this point is cancelled.
  ghost predicate CancelsAt(env: Env, k: nat) {
    && env.save(k).Cancel? && env.route(k).Cancel? && env.reroute(k).Cancel? && env.terminate(k).Cancel?
    && env.sleepCancelled(k)
  }

  // Nothing is awaited after the point of cancellation.
  ghost predicate StopsAt(k: nat, r: Res) { r.w.now <= k || (r.w.now == k + 1 && r.out == Cancelled) }

  lemma {:induction false} TicksStop(env: Env, k: nat, w: World, ttl: int, elapsed: nat)
    requires CancelsAt(env, k) && w.now <= k
    ensures StopsAt(k, Ticks(env, w, ttl, elapsed))
    decreases ttl - elapsed
  {
    if elapsed < ttl && !env.sleepCancelled(w.now) {
      var sleepFor := if TICK <= ttl - elapsed then TICK else ttl - elapsed;
      TicksStop(env, k, Slept(w, sleepFor), ttl, elapsed + sleepFor);
    }
  }

  ghost predicate Stops(k: nat, w: World, r: Res) { w.now <= k ==> StopsAt(k, r) }

  ghost predicate AllStop(k: nat, steps: seq<World -> Res>) {
    |steps| == 4 && forall i, w | 0 <= i < 4 :: Stops(k, w, steps[i](w))
  }

  lemma StepListStops(env: Env, k: nat, ttl: int)
    requires CancelsAt(env, k)
    ensures AllStop(k, StepList(env, ttl))
  {
    forall i, w | 0 <= i < 4 ensures Stops(k, w, StepList(env, ttl)[i](w)) {
      if i == 2 && w.now < k { TicksStop(env, k, To(env, w, Monitoring).w, ttl, 0); }
    }
  }

  lemma RollbackStops(env: Env, k: nat, w: World)
    requires CancelsAt(env, k) && w.now <= k
    ensures StopsAt(k, RollbackAll(env, w))
  {}

  lemma {:induction false} LoopStops(
      env: Env, k: nat, steps: seq<World -> Res>, w: World, step: nat, thought: nat, fails: nat)
    requires CancelsAt(env, k) && AllStop(k, steps) && w.now <= k && step <= 4 && thought <= MAX_THOUGHT_STEPS
    ensures StopsAt(k, Loop(env, steps, w, step, thought, fails))
    decreases MAX_THOUGHT_STEPS - thought
  {
    if step < 4 && thought >= MAX_THOUGHT_STEPS {
      RollbackStops(env, k, Capped(w));
    } else if step < 4 {
      var r := steps[step](Counted(w));
      assert Stops(k, Counted(w), r);
      if r.out == Done {
        LoopStops(env, k, steps, r.w, step + 1, thought + 1, 0);
      } else if r.out == Failed && fails + 1 >= 3 {
        RollbackStops(env, k, r.w);
      } else if r.out == Failed && !env.sleepCancelled(r.w.now) {
        LoopStops(env, k, steps, BackedOff(r.w, 2 * (fails + 1)), step, thought + 1, fails + 1);
      }
    }
  }

  // A run cancelled at its k-th await ends there, as cancelled: no retry, no backoff and no rollback follows inside it.
  lemma CancellationEndsTheRun(env: Env, k: nat, w: World, ttl: int, confidence: real)
    requires Fresh(w) && CancelsAt(env, k)
    ensures StopsAt(k, Run(env, w, ttl, confidence))
  {
    var first := To(env, w, Detecting);
    StepListStops(env, k, ttl);
    if first.out == Done && confidence >= CONFIDENCE_GATE { LoopStops(env, k, StepList(env, ttl), first.w, 0, 0, 0); }
  }

  ghost predicate NothingCancels(env: Env) {
    && (forall k :: !env.save(k).Cancel? && !env.route(k).Cancel?)
    && (forall k :: !env.reroute(k).Cancel? && !env.terminate(k).Cancel? && !env.sleepCancelled(k))
  }

  lemma {:induction false} TicksGoOn(env: Env, w: World, ttl: int, elapsed: nat)
    requires NothingCancels(env)
    ensures Ticks(env, w, ttl, elapsed).out == Done
    decreases ttl - elapsed
  {
    if elapsed < ttl {
      var sleepFor := if TICK <= ttl - elapsed then TICK else ttl - elapsed;
      TicksGoOn(env, Slept(w, sleepFor), ttl, elapsed + sleepFor);
    }
  }

  ghost predicate GoOn(steps: seq<World -> Res>) {
    |steps| == 4 && forall i, w | 0 <= i < 4 :: steps[i](w).out != Cancelled
  }

  lemma StepListGoesOn(env: Env, ttl: int)
    requires NothingCancels(env)
    ensures GoOn(StepList(env, ttl))
  {
    forall i, w: World | 0 <= i < 4 ensures StepList(env, ttl)[i](w).out != Cancelled {
      if i == 2 { TicksGoOn(env, To(env, w, Monitoring).w, ttl, 0); }
    }
  }

  lemma RollbackGoesOn(env: Env, w: World)
    requires NothingCancels(env)
    ensures RollbackAll(env, w).out != Cancelled
  {}

  lemma {:induction false} LoopGoesOn(
      env: Env, steps: seq<World -> Res>, w: World, step: nat, thought: nat, fails: nat)
    requires NothingCancels(env) && GoOn(steps) && step <= 4 && thought <= MAX_THOUGHT_STEPS
    ensures Loop(env, steps, w, step, thought, fails).out != Cancelled
    decreases MAX_THOUGHT_STEPS - thought
  {
    if step < 4 && thought >= MAX_THOUGHT_STEPS {
      RollbackGoesOn(env, Capped(w));
    } else if step < 4 {
      var r := steps[step](Counted(w));
      assert r.out != Cancelled;
      if r.out == Done {
        LoopGoesOn(env, steps, r.w, step + 1, thought + 1, 0);
      } else if fails + 1 >= 3 {
        RollbackGoesOn(env, r.w);
      } else {
        LoopGoesOn(env, steps, BackedOff(r.w, 2 * (fails + 1)), step, thought + 1, fails + 1);
      }
    }
  }

  // A run in which nothing is cancelled is not cancelled.
  lemma OnlyCancellationCancels(env: Env, w: World, ttl: int, confidence: real)
    requires Fresh(w) && NothingCancels(env)
    ensures Run(env, w, ttl, confidence).out != Cancelled
  {
    var first := To(env, w, Detecting);
    StepListGoesOn(env, ttl);
    if first.out == Done && confidence >= CONFIDENCE_GATE { LoopGoesOn(env, StepList(env, ttl), first.w, 0, 0, 0); }
  }

  // ---- In flight until the end ----

  ghost predicate InFlight(states: seq<MorphState>) { forall i | 0 <= i < |states| :: !Terminal(states[i]) }

  lemma {:induction false} ThenInFlight(states: seq<MorphState>, s: MorphState, n: nat)
    requires InFlight(states) && !Terminal(s)
    ensures InFlight(Then(states, s, n))
  {
    if n == 0 {
    } else {
      ThenInFlight(states, s, n - 1);
    }
  }

  lemma {:induction false} VisitsAreInFlight(tries: seq<nat>)
    ensures InFlight(Visits(tries))
    decreases |tries|
  {
    if tries == [] {
    } else {
      VisitsAreInFlight(tries[..|tries| - 1]);
      ThenInFlight(Visits(tries[..|tries| - 1]), StepState(|tries| - 1), tries[|tries| - 1]);
    }
  }

  // The store's eviction tells finished morphs by their state: an uncancelled run with saves that do not fail is in a
  // terminal state at its end, and at no time before.
  lemma TerminalExactlyAtTheEnd(env: Env, w: World, ttl: int, confidence: real)
    requires Fresh(w) && SavesSucceed(env) && Run(env, w, ttl, confidence).out != Cancelled
    ensures var states := Run(env, w, ttl, confidence).w.trace.states;
            states != [] && Terminal(states[|states| - 1]) && InFlight(states[..|states| - 1])
  {
    RunShape(env, w, ttl, confidence);
    var states := Run(env, w, ttl, confidence).w.trace.states;
    if confidence < CONFIDENCE_GATE {
    } else {
      var tries :| GoesThrough(states, tries) || GivesUp(states, tries);
      VisitsAreInFlight(tries);
      if GoesThrough(states, tries) {
        assert states[..|states| - 1] == Visits(tries);
      } else {
        assert states[..|states| - 1] == Visits(tries) + [Rollback];
      }
    }
  }

  // ---- The expiry ----

  // The expiry in the context, if any, is a time the load balancer reported plus the TTL, and a date.
  ghost predicate Reported(env: Env, ttl: int, w: World) {
    w.ctx.expiresAt.Some? ==>
      exists k: nat ::
        k < w.now && env.reroute(k).Answer? && w.ctx.expiresAt.value == env.reroute(k).value.appliedAt + ttl
  }

  lemma Later(env: Env, ttl: int, w: World, w': World)
    requires Reported(env, ttl, w) && w'.ctx.expiresAt == w.ctx.expiresAt && w'.now >= w.now
    ensures Reported(env, ttl, w')
  {}

  lemma {:induction false} TicksGoForward(env: Env, w: World, ttl: int, elapsed: nat)
    ensures Ticks(env, w, ttl, elapsed).w.now >= w.now
    decreases ttl - elapsed
  {
    if elapsed < ttl && !env.sleepCancelled(w.now) {
      var sleepFor := if TICK <= ttl - elapsed then TICK else ttl - elapsed;
      TicksGoForward(env, Slept(w, sleepFor), ttl, elapsed + sleepFor);
    }
  }

  lemma StepsReport(env: Env, w: World, ttl: int)
    requires Reported(env, ttl, w)
    ensures Reported(env, ttl, AssigningStep(env, w).w) && Reported(env, ttl, RerouteStep(env, w, ttl).w)
    ensures Reported(env, ttl, MonitoringStep(env, w, ttl).w) && Reported(env, ttl, TerminatingStep(env, w).w)
    ensures Reported(env, ttl, RollbackAll(env, w).w)
  {
    MonitoringOnlySleeps(env, w, ttl);
    TicksGoForward(env, To(env, w, Monitoring).w, ttl, 0);
    Later(env, ttl, w, AssigningStep(env, w).w);
    Later(env, ttl, w, MonitoringStep(env, w, ttl).w);
    Later(env, ttl, w, TerminatingStep(env, w).w);
    Later(env, ttl, w, RollbackAll(env, w).w);
    var r := RerouteStep(env, w, ttl);
    if r.out == Done {
      assert env.reroute(w.now + 1).Answer? && w.now + 1 < r.w.now;
    } else {
      Later(env, ttl, w, r.w);
    }
  }

  ghost predicate AllReport(env: Env, ttl: int, steps: seq<World -> Res>) {
    |steps| == 4 && forall i, w | 0 <= i < 4 && Reported(env, ttl, w) :: Reported(env, ttl, steps[i](w).w)
  }

  lemma StepListReports(env: Env, ttl: int)
    ensures AllReport(env, ttl, StepList(env, ttl))
  {
    forall i, w | 0 <= i < 4 && Reported(env, ttl, w) ensures Reported(env, ttl, StepList(env, ttl)[i](w).w) {
      StepsReport(env, w, ttl);
    }
  }

  lemma {:induction false} LoopReports(
      env: Env, ttl: int, steps: seq<World -> Res>, w: World, step: nat, thought: nat, fails: nat)
    requires AllReport(env, ttl, steps) && Reported(env, ttl, w) && step <= 4 && thought <= MAX_THOUGHT_STEPS
    ensures Reported(env, ttl, Loop(env, steps, w, step, thought, fails).w)
    decreases MAX_THOUGHT_STEPS - thought
  {
    if step < 4 && thought >= MAX_THOUGHT_STEPS {
      StepsReport(env, Capped(w), ttl);
    } else if step < 4 {
      var r := steps[step](Counted(w));
      assert Reported(env, ttl, Counted(w)) && Reported(env, ttl, r.w);
      if r.out == Done {
        LoopReports(env, ttl, steps, r.w, step + 1, thought + 1, 0);
      } else if r.out == Failed && fails + 1 >= 3 {
        StepsReport(env, r.w, ttl);
      } else if r.out == Failed {
        var slept := BackedOff(r.w, 2 * (fails + 1));
        Later(env, ttl, r.w, slept);
        if !env.sleepCancelled(r.w.now) { LoopReports(env, ttl, steps, slept, step, thought + 1, fails + 1); }
      }
    }
  }

  lemma ExpiryIsReported(env: Env, w: World, ttl: int, confidence: real)
    requires Fresh(w) && w.ctx.expiresAt.None?
    ensures Reported(env, ttl, Drive(env, w, ttl, confidence))
  {
    var first := To(env, w, Detecting);
    StepListReports(env, ttl);
    if first.out == Done && confidence >= CONFIDENCE_GATE {
      LoopReports(env, ttl, StepList(env, ttl), first.w, 0, 0, 0);
    }
    StepsReport(env, Run(env, w, ttl, confidence).w, ttl);
  }

  // ---- The environments that these theorems speak of ----

  // An environment that answers everything satisfies all that is asked for, one whose terminate calls all fail never
  // terminates, and one that cancels everything cancels at every point.
  lemma EnvironmentsExist(ttl: int, k: nat)
    ensures var env := Smooth(-ttl); AllAnswer(env, ttl) && SavesSucceed(env) && NothingCancels(env)
    ensures NeverTerminates(Smooth(0).(terminate := k => Fails))
    ensures CancelsAt(Env(k => Cancel, k => Cancel, k => Cancel, k => Cancel, k => true), k)
  {}
}
