/** Whole runs of the detection cascade: batches whose requests are served at the same time and give way to each other
    wherever one waits for tier 2, and a run in which one IP is reported twice. */
module SentinelRuns {
  import opened Wrappers
  import opened Tier1
  import opened ReconBreadth
  import opened Sentinel

  // A request in progress: whether it has started, its next event, the event that waits for tier 2, and what it
  // has triggered so far
  datatype Progress = Progress(started: bool, next: nat, waiting: Option<Arrival>, triggered: nat)

  function Next(p: Progress): nat { p.next }

  function Waits(p: Progress): nat { if p.waiting.Some? then 1 else 0 }

  // How far a request is: an event counts twice, once for being begun and once for being done
  function Done(p: Progress): int { 2 * p.next - Waits(p) }

  // A move of a run: a request gets its turn, or the ghost shell reports a canary
  datatype Move = TurnOf(batch: nat) | CanaryOf(ip: Id, at: real)

  // How many turns this schedule gives to a request
  function Turns(schedule: seq<Move>, b: nat): nat {
    if schedule == [] then 0
    else Turns(schedule[..|schedule| - 1], b) + if schedule[|schedule| - 1] == TurnOf(b) then 1 else 0
  }

  function Reports(schedule: seq<Move>): nat {
    if schedule == [] then 0
    else Reports(schedule[..|schedule| - 1]) + if schedule[|schedule| - 1].CanaryOf? then 1 else 0
  }

  lemma ScheduleSnoc(schedule: seq<Move>, m: Move)
    ensures forall b :: Turns(schedule + [m], b) == Turns(schedule, b) + if m == TurnOf(b) then 1 else 0
    ensures Reports(schedule + [m]) == Reports(schedule) + if m.CanaryOf? then 1 else 0
  {
    assert (schedule + [m])[..|schedule|] == schedule;
  }

  // ---- What a run has done ----

  // An event of a batch, and where it stopped
  datatype Entry = Entry(batch: nat, arrival: Arrival, where: Outcome)

  function OutcomesOf(log: seq<Entry>): seq<Outcome> {
    if log == [] then [] else OutcomesOf(log[..|log| - 1]) + [log[|log| - 1].where]
  }

  function TouchesOf(log: seq<Entry>): seq<Touch> {
    if log == [] then []
    else
      var e := log[|log| - 1];
      TouchesOf(log[..|log| - 1]) + Touching(e.arrival.event, e.arrival.seen, e.where)
  }

  // The events of one batch, in the order in which they were begun
  function ArrivalsOf(log: seq<Entry>, b: nat): seq<Arrival> {
    if log == [] then []
    else
      var front, e := ArrivalsOf(log[..|log| - 1], b), log[|log| - 1];
      if e.batch == b then front + [e.arrival] else front
  }

  lemma LogSnoc(log: seq<Entry>, e: Entry)
    ensures OutcomesOf(log + [e]) == OutcomesOf(log) + [e.where]
    ensures TouchesOf(log + [e]) == TouchesOf(log) + Touching(e.arrival.event, e.arrival.seen, e.where)
    ensures forall b ::
              ArrivalsOf(log + [e], b) == if e.batch == b then ArrivalsOf(log, b) + [e.arrival] else ArrivalsOf(log, b)
  {
    assert (log + [e])[..|log|] == log;
  }

  // How many of these touches fired
  function Firings(ts: seq<Touch>): nat {
    if ts == [] then 0 else Firings(ts[..|ts| - 1]) + if ts[|ts| - 1].fired then 1 else 0
  }

  lemma FiringsTouching(ts: seq<Touch>, e: Event, o: Observed, where: Outcome)
    requires where.Breadth? ==> e.family.Some?
    ensures Firings(ts + Touching(e, o, where)) == Firings(ts) + if where.Breadth? then 1 else 0
  {
    var more := Touching(e, o, where);
    if more == [] {
      assert ts + more == ts;
    } else {
      assert (ts + more)[..|ts|] == ts;
    }
  }

  function Total(ps: seq<Progress>, f: Progress -> nat): nat {
    if ps == [] then 0 else Total(ps[..|ps| - 1], f) + f(ps[|ps| - 1])
  }

  // How many of these signals this batch queued
  function QueuedBy(ss: seq<Signal>, batch: nat): nat {
    if ss == [] then 0 else QueuedBy(ss[..|ss| - 1], batch) + if ss[|ss| - 1].source == Logs(batch) then 1 else 0
  }

  lemma {:induction false} TotalUpdate(ps: seq<Progress>, i: nat, p: Progress, f: Progress -> nat)
    requires i < |ps|
    ensures Total(ps[i := p], f) + f(ps[i]) == Total(ps, f) + f(p)
  {
    var front := ps[..|ps| - 1];
    if i < |front| {
      TotalUpdate(front, i, p, f);
      assert ps[i := p][..|ps| - 1] == front[i := p];
    } else {
      assert ps[i := p][..|ps| - 1] == front;
    }
  }

  lemma {:induction false} TotalZero(ps: seq<Progress>, f: Progress -> nat)
    requires forall p | p in ps :: f(p) == 0
    ensures Total(ps, f) == 0
  {
    if ps == [] {
    } else {
      TotalZero(ps[..|ps| - 1], f);
    }
  }

  lemma {:induction false} TotalAtLeast(ps: seq<Progress>, i: nat, f: Progress -> nat)
    requires i < |ps|
    ensures Total(ps, f) >= f(ps[i])
  {
    if i < |ps| - 1 { TotalAtLeast(ps[..|ps| - 1], i, f); }
  }

  // At most one signal was queued, by this batch, and it was counted.
  ghost predicate CountsItsSignal(before: seq<Signal>, after: seq<Signal>, batch: nat, triggered: int) {
    || (triggered == 0 && after == before)
    || (triggered == 1 && exists s: Signal :: s.source == Logs(batch) && after == before + [s])
  }

  lemma QueuedByOne(before: seq<Signal>, after: seq<Signal>, batch: nat, triggered: int, other: nat)
    requires CountsItsSignal(before, after, batch, triggered)
    ensures QueuedBy(after, other) == QueuedBy(before, other) + if other == batch then triggered else 0
  {
    if triggered == 1 {
      var s: Signal :| s.source == Logs(batch) && after == before + [s];
      assert (before + [s])[..|before|] == before;
    }
  }

  // The outcomes and touches that this entry, if any, adds to a cascade
  ghost predicate Adds(
      entry: Option<Entry>, os: seq<Outcome>, os': seq<Outcome>, ts: seq<Touch>, ts': seq<Touch>) {
    match entry
    case None => os' == os && ts' == ts
    case Some(e) =>
      && os' == os + [e.where] && ts' == ts + Touching(e.arrival.event, e.arrival.seen, e.where)
      && (e.where.Breadth? ==> e.arrival.event.family.Some?)
  }

  method NextEvent(c: Cascade, a: Arrival, id: nat) returns (hit: bool, waits: bool, ghost where: Outcome)
    requires c.Valid()
    modifies c
    ensures c.Valid() && c.canaries == old(c.canaries)
    ensures Adds(Some(Entry(id, a, where)), old(c.outcomes), c.outcomes, old(c.touches), c.touches)
    ensures c.Waiting() == old(c.Waiting()) + if waits then 1 else 0
    ensures CountsItsSignal(old(c.signals), c.signals, id, if hit then 1 else 0)
  {
    ghost var before := c.outcomes;
    var stop;
    hit, stop := c.Begin(a.event, a.seen, id);
    OneMore(before, stop, Escalated);
    waits, where := stop.Escalated?, stop;
  }

  // The entry that a turn of b adds to its progress
  ghost predicate Follows(batch: Batch, b: nat, p: Progress, p': Progress, entry: Option<Entry>) {
    match entry
    case None => p'.next == p.next
    case Some(e) =>
      p'.next == p.next + 1 <= |batch.arrivals| && e.batch == b && e.arrival == batch.arrivals[p.next]
  }

  predicate Finished(batch: Batch, p: Progress) { p.next == |batch.arrivals| && p.waiting.None? }

  // A turn moves its request, unless it has finished.
  ghost predicate Moves(batch: Batch, p: Progress, p': Progress) {
    Done(p') > Done(p) || (p' == p.(started := true) && Finished(batch, p))
  }

  // One turn of a request: up to its next question to tier 2 or the end of one event, and no further
  method Turn(c: Cascade, batch: Batch, id: nat, p: Progress) returns (p': Progress, ghost entry: Option<Entry>)
    requires c.Valid() && p.next <= |batch.arrivals| && (p.waiting.Some? ==> c.Waiting() > 0)
    modifies c
    ensures c.Valid() && p'.next <= |batch.arrivals| && c.canaries == old(c.canaries)
    ensures c.Waiting() - Waits(p') == old(c.Waiting()) - Waits(p)
    ensures Adds(entry, old(c.outcomes), c.outcomes, old(c.touches), c.touches)
    ensures Follows(batch, id, p, p', entry) && Moves(batch, p, p')
    ensures CountsItsSignal(old(c.signals), c.signals, id, p'.triggered - p.triggered)
    ensures p'.waiting.Some? ==> p'.next > 0 && p'.waiting.value == batch.arrivals[p'.next - 1]
  {
    p', entry := p.(started := true), None;
    if p.waiting.Some? {
      var hit := c.Resume(KeyOf(p.waiting.value.event), p.waiting.value.answer, id);
      return p'.(waiting := None, triggered := p.triggered + if hit then 1 else 0), None;
    }
    if !p.started && batch.start - c.lastCleanup > 60.0 { c.Cleanup(batch.start); }
    if p.next < |batch.arrivals| {
      var a := batch.arrivals[p.next];
      var hit, waits, where := NextEvent(c, a, id);
      p' := Progress(true, p.next + 1, if waits then Some(a) else None, p.triggered + if hit then 1 else 0);
      entry := Some(Entry(id, a, where));
    }
  }

  ghost predicate Explained(os: seq<Outcome>, ts: seq<Touch>, log: seq<Entry>) {
    os == OutcomesOf(log) && |os| == |log| && ts == TouchesOf(log) && Firings(ts) == Number(os, Breadth)
  }

  ghost predicate BatchAccounted(batch: Batch, b: nat, p: Progress, log: seq<Entry>, signals: seq<Signal>) {
    && p.next <= |batch.arrivals| && ArrivalsOf(log, b) == batch.arrivals[..p.next]
    && p.triggered == QueuedBy(signals, b)
  }

  ghost predicate AllAccounted(batches: seq<Batch>, ps: seq<Progress>, log: seq<Entry>, signals: seq<Signal>) {
    && |ps| == |batches| && Total(ps, Next) == |log|
    && forall b | 0 <= b < |ps| :: BatchAccounted(batches[b], b, ps[b], log, signals)
  }

  // The account of a run: the cascade has seen exactly the events of the log, each batch's events in order up to where
  // it is; what waits is what the requests wait for; and each request has counted its signals.
  ghost predicate Accounted(c: Cascade, batches: seq<Batch>, ps: seq<Progress>, log: seq<Entry>)
    reads c
  {
    && c.Valid() && Explained(c.outcomes, c.touches, log) && AllAccounted(batches, ps, log, c.signals)
    && Total(ps, Waits) == c.Waiting()
  }

  // No turn was wasted: a request with turns enough has done all its events.
  ghost predicate Served(batches: seq<Batch>, ps: seq<Progress>, schedule: seq<Move>) {
    && |ps| == |batches|
    && forall b | 0 <= b < |ps| :: Done(ps[b]) >= Turns(schedule, b) || Finished(batches[b], ps[b])
  }

  ghost function Appended(log: seq<Entry>, entry: Option<Entry>): seq<Entry> {
    if entry.Some? then log + [entry.value] else log
  }

  // What one entry does to the log, as seen from the cascade
  lemma ExplainedNext(
      log: seq<Entry>, entry: Option<Entry>, os: seq<Outcome>, os': seq<Outcome>, ts: seq<Touch>, ts': seq<Touch>)
    requires Explained(os, ts, log) && Adds(entry, os, os', ts, ts')
    ensures Explained(os', ts', Appended(log, entry))
  {
    if entry.Some? {
      var e := entry.value;
      LogSnoc(log, e);
      OneMore(os, e.where, Breadth);
      FiringsTouching(ts, e.arrival.event, e.arrival.seen, e.where);
    }
  }

  lemma BatchNext(
      batch: Batch, b: nat, p: Progress, p': Progress, log: seq<Entry>, entry: Option<Entry>, ss: seq<Signal>,
      ss': seq<Signal>)
    requires BatchAccounted(batch, b, p, log, ss) && Follows(batch, b, p, p', entry)
    requires CountsItsSignal(ss, ss', b, p'.triggered - p.triggered)
    ensures BatchAccounted(batch, b, p', Appended(log, entry), ss')
  {
    QueuedByOne(ss, ss', b, p'.triggered - p.triggered, b);
    if entry.Some? { LogSnoc(log, entry.value); }
  }

  lemma OtherBatch(
      batch: Batch, b: nat, p: Progress, log: seq<Entry>, entry: Option<Entry>, ss: seq<Signal>, ss': seq<Signal>,
      turned: nat, triggered: int)
    requires BatchAccounted(batch, b, p, log, ss) && b != turned && (entry.Some? ==> entry.value.batch == turned)
    requires CountsItsSignal(ss, ss', turned, triggered)
    ensures BatchAccounted(batch, b, p, Appended(log, entry), ss')
  {
    QueuedByOne(ss, ss', turned, triggered, b);
    if entry.Some? { LogSnoc(log, entry.value); }
  }

  lemma AllAccountedNext(
      batches: seq<Batch>, ps: seq<Progress>, b: nat, p: Progress, log: seq<Entry>, entry: Option<Entry>,
      ss: seq<Signal>, ss': seq<Signal>)
    requires AllAccounted(batches, ps, log, ss) && b < |ps| && Follows(batches[b], b, ps[b], p, entry)
    requires CountsItsSignal(ss, ss', b, p.triggered - ps[b].triggered)
    ensures AllAccounted(batches, ps[b := p], Appended(log, entry), ss')
  {
    TotalUpdate(ps, b, p, Next);
    var ps', log' := ps[b := p], Appended(log, entry);
    forall other | 0 <= other < |ps'| ensures BatchAccounted(batches[other], other, ps'[other], log', ss') {
      if other == b {
        BatchNext(batches[b], b, ps[b], p, log, entry, ss, ss');
      } else {
        OtherBatch(batches[other], other, ps[other], log, entry, ss, ss', b, p.triggered - ps[b].triggered);
      }
    }
  }

  lemma ServedNext(batches: seq<Batch>, ps: seq<Progress>, past: seq<Move>, b: nat, p: Progress)
    requires Served(batches, ps, past) && b < |ps| && Moves(batches[b], ps[b], p) && p.next <= |batches[b].arrivals|
    ensures Served(batches, ps[b := p], past + [TurnOf(b)])
  {
    ScheduleSnoc(past, TurnOf(b));
    var ps' := ps[b := p];
    forall other | 0 <= other < |ps'|
      ensures Done(ps'[other]) >= Turns(past + [TurnOf(b)], other) || Finished(batches[other], ps'[other])
    {
      assert Done(ps[other]) >= Turns(past, other) || Finished(batches[other], ps[other]);
    }
  }

  lemma ProgressNext(
      batches: seq<Batch>, ps: seq<Progress>, past: seq<Move>, b: nat, p: Progress, log: seq<Entry>,
      entry: Option<Entry>, ss: seq<Signal>, ss': seq<Signal>)
    requires AllAccounted(batches, ps, log, ss) && Served(batches, ps, past) && b < |ps|
    requires Follows(batches[b], b, ps[b], p, entry) && Moves(batches[b], ps[b], p) && p.next <= |batches[b].arrivals|
    requires CountsItsSignal(ss, ss', b, p.triggered - ps[b].triggered)
    ensures AllAccounted(batches, ps[b := p], Appended(log, entry), ss')
    ensures Served(batches, ps[b := p], past + [TurnOf(b)])
    ensures Total(ps[b := p], Waits) + Waits(ps[b]) == Total(ps, Waits) + Waits(p)
  {
    AllAccountedNext(batches, ps, b, p, log, entry, ss, ss');
    ServedNext(batches, ps, past, b, p);
    TotalUpdate(ps, b, p, Waits);
  }

  method OneTurn(
      c: Cascade, batches: seq<Batch>, ps: seq<Progress>, ghost past: seq<Move>, ghost log: seq<Entry>, b: nat)
    returns (ps': seq<Progress>, ghost log': seq<Entry>)
    requires Accounted(c, batches, ps, log) && Served(batches, ps, past) && b < |batches|
    modifies c
    ensures Accounted(c, batches, ps', log') && Served(batches, ps', past + [TurnOf(b)])
    ensures c.canaries == old(c.canaries)
  {
    TotalAtLeast(ps, b, Waits);
    ghost var os, ts, ss := c.outcomes, c.touches, c.signals;
    var p, entry := Turn(c, batches[b], b, ps[b]);
    ps', log' := ps[b := p], Appended(log, entry);
    ExplainedNext(log, entry, os, c.outcomes, ts, c.touches);
    ProgressNext(batches, ps, past, b, p, log, entry, ss, c.signals);
  }

  // A canary touches no event and no count.
  method OneReport(c: Cascade, batches: seq<Batch>, ps: seq<Progress>, ghost log: seq<Entry>, ip: Id, at: real)
    requires Accounted(c, batches, ps, log)
    modifies c
    ensures Accounted(c, batches, ps, log) && c.canaries == old(c.canaries) + 1
  {
    ghost var before := c.signals;
    var queued := c.CanaryHit(ip, at);
    forall b | 0 <= b < |ps| ensures BatchAccounted(batches[b], b, ps[b], log, c.signals) {
      if queued { assert (before + [Signal(ip, at, Canary)])[..|before|] == before; }
    }
  }

  lemma NothingServed(
      batches: seq<Batch>, ps: seq<Progress>, log: seq<Entry>, past: seq<Move>, os: seq<Outcome>, ts: seq<Touch>,
      ss: seq<Signal>)
    requires |ps| == |batches| && forall p | p in ps :: p == Progress(false, 0, None, 0)
    requires |log| == 0 && |past| == 0 && |os| == 0 && |ts| == 0 && |ss| == 0
    ensures Explained(os, ts, log) && AllAccounted(batches, ps, log, ss) && Total(ps, Waits) == 0
    ensures Served(batches, ps, past) && Reports(past) == 0
  {
    TotalZero(ps, Next);
    TotalZero(ps, Waits);
    forall b | 0 <= b < |ps| ensures BatchAccounted(batches[b], b, ps[b], log, ss) { assert ps[b] in ps; }
  }

  method OneMove(
      c: Cascade, batches: seq<Batch>, ps: seq<Progress>, ghost past: seq<Move>, ghost log: seq<Entry>, m: Move)
    returns (ps': seq<Progress>, ghost log': seq<Entry>)
    requires Accounted(c, batches, ps, log) && Served(batches, ps, past) && c.canaries == Reports(past)
    modifies c
    ensures Accounted(c, batches, ps', log') && Served(batches, ps', past + [m]) && c.canaries == Reports(past + [m])
  {
    ps', log' := ps, log;
    ScheduleSnoc(past, m);
    match m
    case TurnOf(b) => if b < |batches| { ps', log' := OneTurn(c, batches, ps, past, log, b); }
    case CanaryOf(ip, at) => OneReport(c, batches, ps, log, ip, at);
  }

  method Serve(c: Cascade, batches: seq<Batch>, schedule: seq<Move>)
    returns (ps: seq<Progress>, ghost log: seq<Entry>)
    requires c.Valid() && |c.outcomes| == 0 && |c.touches| == 0 && |c.signals| == 0 && c.canaries == 0
    modifies c
    ensures Accounted(c, batches, ps, log) && Served(batches, ps, schedule) && c.canaries == Reports(schedule)
  {
    ps := seq(|batches|, _ => Progress(false, 0, None, 0));
    log :| |log| == 0;
    NothingServed(batches, ps, log, schedule[..0], c.outcomes, c.touches, c.signals);
    for i := 0 to |schedule|
      invariant Accounted(c, batches, ps, log) && Served(batches, ps, schedule[..i])
      invariant c.canaries == Reports(schedule[..i])
    {
      assert schedule[..i + 1] == schedule[..i] + [schedule[i]];
      ps, log := OneMove(c, batches, ps, schedule[..i], log, schedule[i]);
    }
    assert schedule[..|schedule|] == schedule;
  }

  lemma CountersAddUp(c: Cascade, batches: seq<Batch>, ps: seq<Progress>, log: seq<Entry>)
    requires Accounted(c, batches, ps, log)
    ensures var s := c.stats;
            && s.eventsTotal == s.t0.critical + s.t0.recon + s.t0.eliminated + s.t1.evaluations == Total(ps, Next)
            && s.t1.evaluations == s.t1.high + s.t1.benign + s.t2.evaluations
            && s.t2.triggered <= s.t2.evaluations && s.t0.small <= s.t0.eliminated
            && s.t0.recon == Firings(c.touches)
    ensures c.stats.t2.evaluations == |c.answers| + Total(ps, Waits) && c.stats.t2.triggered == Yeses(c.answers)
  {
    CountersConserveEvents(c.stats, c.outcomes, c.answers);
    CountersAreNumbers(c.outcomes, c.answers);
  }

  lemma EnoughTurnsFinish(c: Cascade, batches: seq<Batch>, ps: seq<Progress>, log: seq<Entry>, schedule: seq<Move>)
    requires Accounted(c, batches, ps, log) && Served(batches, ps, schedule)
    ensures forall b | 0 <= b < |ps| && Turns(schedule, b) >= 2 * |batches[b].arrivals| ::
              ps[b].next == |batches[b].arrivals| && ps[b].waiting.None?
  {
    forall b | 0 <= b < |ps| && Turns(schedule, b) >= 2 * |batches[b].arrivals|
      ensures ps[b].next == |batches[b].arrivals| && ps[b].waiting.None?
    {
      assert BatchAccounted(batches[b], b, ps[b], log, c.signals);
    }
  }

  lemma RecordsFireOnce(ts: seq<Touch>, rs: map<Id, ReconRecord>)
    requires Explains(ts, rs)
    ensures forall ip :: FiresOncePerSilence(Of(ts, ip))
  {
    forall ip ensures FiresOncePerSilence(Of(ts, ip)) { LawfulFiresOncePerSilence(Of(ts, ip)); }
  }

  // Any requests, served in any interleaving, with canaries reported in between: the schedule says what comes next.
  // Whatever the clocks read, at every point the log holds each batch's events in order, up to where the batch is, and
  // the counters add up over it; each request's count is the number of signals it queued; a request that got turns
  // enough is done; any two signals of one key are the cooldown apart; and the recon reports are the touches that
  // fired, which for each IP happens at most once between two long silences.
  method Interleave(stub: bool, cooldown: real, threshold: real, now: real, batches: seq<Batch>, schedule: seq<Move>)
    returns (c: Cascade, ps: seq<Progress>, ghost log: seq<Entry>)
    ensures |ps| == |batches|
    ensures forall b | 0 <= b < |ps| ::
              && ps[b].next <= |batches[b].arrivals| && ArrivalsOf(log, b) == batches[b].arrivals[..ps[b].next]
              && ps[b].triggered == QueuedBy(c.signals, b)
    ensures forall b | 0 <= b < |ps| && Turns(schedule, b) >= 2 * |batches[b].arrivals| ::
              ps[b].next == |batches[b].arrivals| && ps[b].waiting.None?
    ensures var s := c.stats;
            && s.eventsTotal == s.t0.critical + s.t0.recon + s.t0.eliminated + s.t1.evaluations == Total(ps, Next)
            && s.t1.evaluations == s.t1.high + s.t1.benign + s.t2.evaluations
            && s.t2.triggered <= s.t2.evaluations && s.t0.small <= s.t0.eliminated
    ensures c.canaries == Reports(schedule)
    ensures c.stats == Tally(OutcomesOf(log), c.answers)
    ensures c.stats.t2.evaluations == |c.answers| + Total(ps, Waits) && c.stats.t2.triggered == Yeses(c.answers)
    ensures !stub && cooldown >= 0.0 ==>
              forall i, j | 0 <= i < j < |c.signals| && c.signals[i].key == c.signals[j].key ::
                c.signals[j].at - c.signals[i].at >= cooldown
    ensures c.touches == TouchesOf(log) && c.stats.t0.recon == Firings(c.touches)
    ensures forall ip :: FiresOncePerSilence(Of(c.touches, ip))
  {
    c := new Cascade(stub, cooldown, threshold, now);
    ps, log := Serve(c, batches, schedule);
    CountersAddUp(c, batches, ps, log);
    EnoughTurnsFinish(c, batches, ps, log, schedule);
    RecordsFireOnce(c.touches, c.recon);
    if !stub && cooldown >= 0.0 { SpacedPairs(c.signals, cooldown); }
  }

  // ---- Two reports of one IP ----

  // A calm request of this IP for a path of this family
  function Visit(ip: Id, family: nat): Event {
    Event(ip, None, Some(family), LogEvent(0.0, "/", "GET", None))
  }

  function Calm(at: real): Observed { Observed(at, at, false, false, 0.0, None, 0, 0.0, 0.0) }

  // A visit that leaves a record of these families: it is reported when they are enough.
  method VisitAt(c: Cascade, ip: Id, family: nat, at: real, ghost seen: set<nat>)
    requires c.Valid() && !Cooling(c.alerted, ip, at, c.cooldown)
    requires Touched(RecordOf(c.recon, ip), family, at) == ReconRecord(seen, at, false)
    modifies c
    ensures var reported := |seen| >= RECON_FAMILY_THRESHOLD;
            && c.Valid() && RecordOf(c.recon, ip) == Some(ReconRecord(seen, at, reported))
            && c.alerted == (if reported then old(c.alerted)[ip := at] else old(c.alerted))
            && c.touches == old(c.touches) + [Touch(ip, family, at, reported)]
            && Number(c.outcomes, Breadth) == Number(old(c.outcomes), Breadth) + if reported then 1 else 0
  {
    ghost var before := c.outcomes;
    var _, where := c.Begin(Visit(ip, family), Calm(at), 0);
    OneMore(before, where, Breadth);
  }

  lemma FamiliesAddUp(at: real)
    ensures |{0}| == 1 && |{0, 1}| == 2 && |{0, 1, 2}| == 3
    ensures Touched(Some(ReconRecord({0}, at, false)), 1, at + 1.0) == ReconRecord({0, 1}, at + 1.0, false)
    ensures Touched(Some(ReconRecord({0, 1}, at + 1.0, false)), 2, at + 2.0) == ReconRecord({0, 1, 2}, at + 2.0, false)
  {
    assert {0} + {1} == {0, 1} && {0, 1} + {2} == {0, 1, 2};
  }

  // Three families touched in a row, of which the third touch fires
  function ThreeTouches(ip: Id, at: real): seq<Touch> {
    [Touch(ip, 0, at, false), Touch(ip, 1, at + 1.0, false), Touch(ip, 2, at + 2.0, true)]
  }

  lemma ThreeInARow(ts: seq<Touch>, ip: Id, at: real)
    ensures ts + [Touch(ip, 0, at, false)] + [Touch(ip, 1, at + 1.0, false)] + [Touch(ip, 2, at + 2.0, true)] ==
            ts + ThreeTouches(ip, at)
  {}

  // Three families in a row, when the record is new or the last touch is long ago: the third one is reported.
  method ThreeVisits(c: Cascade, ip: Id, at: real)
    requires c.Valid() && !Cooling(c.alerted, ip, at, c.cooldown)
    requires RecordOf(c.recon, ip).Some? ==> at - RecordOf(c.recon, ip).value.last > RECON_HORIZON_SECONDS
    modifies c
    ensures c.Valid() && Number(c.outcomes, Breadth) == Number(old(c.outcomes), Breadth) + 1
    ensures RecordOf(c.recon, ip).Some? && RecordOf(c.recon, ip).value.last == at + 2.0
    ensures c.alerted == old(c.alerted)[ip := at + 2.0]
    ensures c.touches == old(c.touches) + ThreeTouches(ip, at)
  {
    FamiliesAddUp(at);
    ghost var before := c.touches;
    VisitAt(c, ip, 0, at, {0});
    VisitAt(c, ip, 1, at + 1.0, {0, 1});
    VisitAt(c, ip, 2, at + 2.0, {0, 1, 2});
    ThreeInARow(before, ip, at);
  }

  // An IP that touches three families, is silent for longer than the horizon and the cooldown, and touches three
  // families again is reported twice.
  method ReportedTwice(ip: Id, cooldown: real, threshold: real) returns (c: Cascade)
    requires cooldown >= 0.0
    ensures Number(c.outcomes, Breadth) == 2
    ensures c.touches == ThreeTouches(ip, 0.0) + ThreeTouches(ip, RECON_HORIZON_SECONDS + cooldown + 3.0)
  {
    c := new Cascade(false, cooldown, threshold, 0.0);
    ThreeVisits(c, ip, 0.0);
    ThreeVisits(c, ip, RECON_HORIZON_SECONDS + cooldown + 3.0);
  }
}
