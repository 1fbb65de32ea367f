/** The detection cascade: where each event stops, the counters that must add up, the recon record of each IP, and
    the cooldown that spaces the signals. Sigma hits, the suspicion gate, the trained model and the answers of tier 2
    are inputs. An event may wait for tier 2 while events of other batches go through the cascade. */
module Sentinel {
  import opened Wrappers
  import opened Tier1
  import opened ReconBreadth

  // family is the OWASP family of the path, if it belongs to one
  datatype Event = Event(srcIp: Id, sessionId: Option<Id>, family: Option<nat>, line: LogEvent)

  // What the cascade sees of the outside at one event: the clock at its start and at its cooldown check, what the rules
  // and the gate say, and for the score the trained model's confidence, if there is a model, and the features from
  // outside
  datatype Observed = Observed(
    now: real, later: real, critical: bool, suspicious: bool, rps: real,
    model: Option<real>, sigmaHits: nat, uaEntropy: real, coverage: real)

  // What tier 2 answers, and the clock at the cooldown check after its answer
  datatype Answer = Answer(at: real, confidence: real)

  // Where an event stops, or that it goes on to tier 2
  datatype Outcome = Critical | Breadth | TooSmall | NotSuspicious | T1High | T1Benign | Escalated

  // The counters, tier by tier
  datatype Tier0 = Tier0(critical: nat, recon: nat, eliminated: nat, small: nat)

  datatype Tier1Count = Tier1Count(evaluations: nat, high: nat, benign: nat)

  datatype Tier2 = Tier2(evaluations: nat, triggered: nat)

  datatype Stats = Stats(eventsTotal: nat, t0: Tier0, t1: Tier1Count, t2: Tier2)

  const ZERO := Stats(0, Tier0(0, 0, 0, 0), Tier1Count(0, 0, 0), Tier2(0, 0))

  // Who queued a signal: a batch of log lines, or the ghost shell's report of a canary that was followed
  datatype Source = Logs(batch: nat) | Canary

  datatype Signal = Signal(key: Id, at: real, source: Source)

  const WINDOW_SECONDS := 10.0
  const WINDOW_MAXLEN := 500

  // ---- Counters ----

  function Number(os: seq<Outcome>, w: Outcome): nat {
    if os == [] then 0 else Number(os[..|os| - 1], w) + if os[|os| - 1] == w then 1 else 0
  }

  // How many answers of tier 2 reached the threshold
  function Yeses(vs: seq<bool>): nat {
    if vs == [] then 0 else Yeses(vs[..|vs| - 1]) + if vs[|vs| - 1] then 1 else 0
  }

  // The counters an outcome moves: those of the tiers that its event went through
  function Scores(s: Stats, w: Outcome): Stats {
    var s := s.(t1 := s.t1.(evaluations := s.t1.evaluations + 1));
    match w
    case T1High => s.(t1 := s.t1.(high := s.t1.high + 1))
    case T1Benign => s.(t1 := s.t1.(benign := s.t1.benign + 1))
    case _ => s.(t2 := s.t2.(evaluations := s.t2.evaluations + 1))
  }

  function Sifts(s: Stats, w: Outcome): Stats {
    match w
    case TooSmall => s.(t0 := s.t0.(small := s.t0.small + 1, eliminated := s.t0.eliminated + 1))
    case NotSuspicious => s.(t0 := s.t0.(eliminated := s.t0.eliminated + 1))
    case _ => Scores(s, w)
  }

  function Stops(s: Stats, w: Outcome): Stats {
    match w
    case Critical => s.(t0 := s.t0.(critical := s.t0.critical + 1))
    case Breadth => s.(t0 := s.t0.(recon := s.t0.recon + 1))
    case _ => Sifts(s, w)
  }

  function Bump(s: Stats, w: Outcome): Stats { Stops(s.(eventsTotal := s.eventsTotal + 1), w) }

  function Answered(s: Stats, yes: bool): Stats {
    if yes then s.(t2 := s.t2.(triggered := s.t2.triggered + 1)) else s
  }

  // The counters after these outcomes and answers of tier 2
  function Tally(os: seq<Outcome>, vs: seq<bool>): Stats
    decreases |os| + |vs|
  {
    if os != [] then Bump(Tally(os[..|os| - 1], vs), os[|os| - 1])
    else if vs != [] then Answered(Tally(os, vs[..|vs| - 1]), vs[|vs| - 1])
    else ZERO
  }

  ghost predicate Counts(s: Stats, os: seq<Outcome>, vs: seq<bool>) {
    s == Tally(os, vs) && |vs| <= Number(os, Escalated)
  }

  // Each counter is the number of events that stopped in, or passed through, its tier.
  lemma {:induction false} CountersAreNumbers(os: seq<Outcome>, vs: seq<bool>)
    ensures var s := Tally(os, vs);
            && s.eventsTotal == |os| && s.t0.critical == Number(os, Critical) && s.t0.recon == Number(os, Breadth)
            && s.t0.small == Number(os, TooSmall) && s.t0.eliminated == Number(os, TooSmall) + Number(os, NotSuspicious)
            && s.t1.evaluations == Number(os, T1High) + Number(os, T1Benign) + Number(os, Escalated)
            && s.t1.high == Number(os, T1High) && s.t1.benign == Number(os, T1Benign)
            && s.t2.evaluations == Number(os, Escalated) && s.t2.triggered == Yeses(vs)
    decreases |os| + |vs|
  {
    if os != [] {
      CountersAreNumbers(os[..|os| - 1], vs);
    } else if vs != [] {
      CountersAreNumbers(os, vs[..|vs| - 1]);
    }
  }

  lemma {:induction false} EveryEventStopsOnce(os: seq<Outcome>)
    ensures |os| == Number(os, Critical) + Number(os, Breadth) + Number(os, TooSmall) + Number(os, NotSuspicious)
                    + Number(os, T1High) + Number(os, T1Benign) + Number(os, Escalated)
  {
    if os == [] {
    } else {
      EveryEventStopsOnce(os[..|os| - 1]);
    }
  }

  lemma {:induction false} YesesAtMost(vs: seq<bool>)
    ensures Yeses(vs) <= |vs|
  {
    if vs == [] {
    } else {
      YesesAtMost(vs[..|vs| - 1]);
    }
  }

  // Every event is counted in exactly one place, tier by tier.
  lemma CountersConserveEvents(s: Stats, os: seq<Outcome>, vs: seq<bool>)
    requires Counts(s, os, vs)
    ensures s.eventsTotal == s.t0.critical + s.t0.recon + s.t0.eliminated + s.t1.evaluations
    ensures s.t1.evaluations == s.t1.high + s.t1.benign + s.t2.evaluations
    ensures s.t2.triggered <= s.t2.evaluations && s.t0.small <= s.t0.eliminated
  {
    CountersAreNumbers(os, vs);
    EveryEventStopsOnce(os);
    YesesAtMost(vs);
  }

  lemma BumpCounts(s: Stats, os: seq<Outcome>, vs: seq<bool>, w: Outcome)
    requires Counts(s, os, vs)
    ensures Counts(Bump(s, w), os + [w], vs)
  {
    assert (os + [w])[..|os|] == os;
  }

  lemma {:induction false} AnswerCounts(os: seq<Outcome>, vs: seq<bool>, yes: bool)
    ensures Tally(os, vs + [yes]) == Answered(Tally(os, vs), yes)
  {
    if os == [] {
      assert (vs + [yes])[..|vs|] == vs;
    } else {
      AnswerCounts(os[..|os| - 1], vs, yes);
    }
  }

  // ---- Windows ----

  function Pruned(w: seq<LogEvent>, cutoff: real): seq<LogEvent> {
    if w != [] && w[0].timestamp < cutoff then Pruned(w[1..], cutoff) else w
  }

  method PruneWindow(w: seq<LogEvent>, now: real) returns (kept: seq<LogEvent>)
    ensures kept == Pruned(w, now - WINDOW_SECONDS)
  {
    kept := w;
    var cutoff := now - WINDOW_SECONDS;
    while kept != [] && kept[0].timestamp < cutoff
      invariant Pruned(kept, cutoff) == Pruned(w, cutoff)
    {
      kept := kept[1..];
    }
  }

  // Only old events are dropped, from the front; if events arrive in order, exactly the recent ones stay.
  lemma {:induction false} PruneDropsOnlyOld(w: seq<LogEvent>, cutoff: real)
    ensures var k := |w| - |Pruned(w, cutoff)|;
            && 0 <= k && Pruned(w, cutoff) == w[k..] && (forall i | 0 <= i < k :: w[i].timestamp < cutoff)
            && ((forall i, j | 0 <= i < j < |w| :: w[i].timestamp <= w[j].timestamp) ==>
                  forall x | x in Pruned(w, cutoff) :: x.timestamp >= cutoff)
  {
    if w != [] && w[0].timestamp < cutoff {
      PruneDropsOnlyOld(w[1..], cutoff);
      var k := |w| - |Pruned(w, cutoff)|;
      assert w[1..][k - 1..] == w[k..];
      forall i | 0 <= i < k ensures w[i].timestamp < cutoff { if i > 0 { assert w[i] == w[1..][i - 1]; } }
    }
  }

  // A deque of bounded length: the newest event pushes out the oldest.
  function Pushed(w: seq<LogEvent>, line: LogEvent): seq<LogEvent> {
    if |w| < WINDOW_MAXLEN then w + [line] else w[|w| - WINDOW_MAXLEN + 1..] + [line]
  }

  type Windows = map<Id, seq<LogEvent>>

  function Window(ws: Windows, key: Id): seq<LogEvent> { if key in ws then ws[key] else [] }

  function KeyOf(e: Event): Id {
    if e.sessionId.Some? && e.sessionId.value.text != "" then e.sessionId.value else e.srcIp
  }

  // Events of one session share a window and a cooldown, from whatever IP they come; events without a session share
  // them exactly with those of the same IP.
  lemma KeysFollowTheSession(e: Event, f: Event)
    ensures e.sessionId == f.sessionId && e.sessionId.Some? && e.sessionId.value.text != "" ==>
              KeyOf(e) == KeyOf(f) == e.sessionId.value
    ensures e.sessionId in {None, Some(Id(""))} && f.sessionId in {None, Some(Id(""))} ==>
              (KeyOf(e) == KeyOf(f) <==> e.srcIp == f.srcIp)
  {}

  // A window when an event joins it
  function Slid(w: seq<LogEvent>, line: LogEvent, now: real): seq<LogEvent> {
    Pruned(Pushed(w, line), now - WINDOW_SECONDS)
  }

  // The window of an event once it is in it
  function Kept(ws: Windows, e: Event, now: real): seq<LogEvent> { Slid(Window(ws, KeyOf(e)), e.line, now) }

  // This is the recent end of all these events.
  ghost predicate RecentEnd(all: seq<LogEvent>, kept: seq<LogEvent>, now: real) {
    && |kept| <= 500 && |kept| <= |all| && kept == all[|all| - |kept|..]
    && (forall i | 0 <= i < |all| - |kept| :: now - all[i].timestamp > 10.0 || i + 500 < |all|)
    && (kept != [] ==> now - kept[0].timestamp <= 10.0)
  }

  lemma {:induction false} FirstKept(w: seq<LogEvent>, cutoff: real)
    ensures Pruned(w, cutoff) != [] ==> Pruned(w, cutoff)[0].timestamp >= cutoff
  {
    if w != [] && w[0].timestamp < cutoff { FirstKept(w[1..], cutoff); }
  }

  lemma PushedIsEnd(w: seq<LogEvent>, line: LogEvent)
    requires |w| <= 500
    ensures var all, pushed := w + [line], Pushed(w, line);
            && |pushed| <= 500 && |pushed| <= |all| && pushed == all[|all| - |pushed|..]
            && (|pushed| < |all| ==> |pushed| == 500)
  {}

  lemma PrunedIsEnd(w: seq<LogEvent>, cutoff: real)
    ensures var kept := Pruned(w, cutoff); var k := |w| - |kept|;
            && 0 <= k && kept == w[k..] && (forall i | 0 <= i < k :: w[i].timestamp < cutoff)
            && (kept != [] ==> kept[0].timestamp >= cutoff)
  {
    PruneDropsOnlyOld(w, cutoff);
    FirstKept(w, cutoff);
  }

  lemma EndOfEnd(all: seq<LogEvent>, pushed: seq<LogEvent>, kept: seq<LogEvent>, now: real)
    requires |kept| <= |pushed| <= |all| && pushed == all[|all| - |pushed|..] && kept == pushed[|pushed| - |kept|..]
    requires |pushed| < |all| ==> |pushed| == 500
    requires forall i | 0 <= i < |pushed| - |kept| :: pushed[i].timestamp < now - WINDOW_SECONDS
    requires |kept| <= 500 && (kept != [] ==> kept[0].timestamp >= now - WINDOW_SECONDS)
    ensures RecentEnd(all, kept, now)
  {
    var d := |all| - |pushed|;
    forall i | 0 <= i < |all| - |kept| ensures now - all[i].timestamp > 10.0 || i + 500 < |all| {
      if i >= d { assert pushed[i - d] == all[i]; }
    }
  }

  lemma PrunedIsRecent(all: seq<LogEvent>, pushed: seq<LogEvent>, now: real)
    requires |pushed| <= 500 && |pushed| <= |all| && pushed == all[|all| - |pushed|..]
    requires |pushed| < |all| ==> |pushed| == 500
    ensures RecentEnd(all, Pruned(pushed, now - WINDOW_SECONDS), now)
  {
    PrunedIsEnd(pushed, now - WINDOW_SECONDS);
    EndOfEnd(all, pushed, Pruned(pushed, now - WINDOW_SECONDS), now);
  }

  lemma SlidIsRecentEnd(w: seq<LogEvent>, line: LogEvent, now: real)
    requires |w| <= 500
    ensures RecentEnd(w + [line], Slid(w, line, now), now)
  {
    PushedIsEnd(w, line);
    PrunedIsRecent(w + [line], Pushed(w, line), now);
  }

  // A window with one more event is the end of what it held before and the event, at most 500 long. What is missing was
  // pushed out by the 500 after it, or is more than 10 s old; and the first one left is not.
  lemma SlidIsExact(w: seq<LogEvent>, line: LogEvent, now: real, all: seq<LogEvent>, kept: seq<LogEvent>)
    requires |w| <= 500 && all == w + [line] && kept == Slid(w, line, now)
    ensures |kept| <= 500 && |kept| <= |all| && kept == all[|all| - |kept|..]
    ensures forall i | 0 <= i < |all| - |kept| :: now - all[i].timestamp > 10.0 || i + 500 < |all|
    ensures kept != [] ==> now - kept[0].timestamp <= 10.0
  {
    SlidIsRecentEnd(w, line, now);
  }

  function Cleaned(ws: Windows, cutoff: real): Windows {
    map k | k in ws && Pruned(ws[k], cutoff) != [] :: Pruned(ws[k], cutoff)
  }

  lemma SlidWithoutFirst(w: seq<LogEvent>, line: LogEvent, now: real)
    requires w != [] && w[0].timestamp < now - WINDOW_SECONDS
    ensures Slid(w, line, now) == Slid(w[1..], line, now)
  {
    if |w| < WINDOW_MAXLEN {
      assert (w + [line])[1..] == w[1..] + [line];
    } else {
      assert Pushed(w, line) == Pushed(w[1..], line);
    }
  }

  lemma {:induction false} SlidAfterPruning(w: seq<LogEvent>, cutoff: real, line: LogEvent, now: real)
    requires cutoff <= now - WINDOW_SECONDS
    ensures Slid(Pruned(w, cutoff), line, now) == Slid(w, line, now)
  {
    if w != [] && w[0].timestamp < cutoff {
      SlidWithoutFirst(w, line, now);
      SlidAfterPruning(w[1..], cutoff, line, now);
    }
  }

  // The periodic cleanup changes no decision: an event that comes no earlier finds the window it would have found.
  lemma CleanupIsInvisible(ws: Windows, cleaned: real, e: Event, now: real)
    requires cleaned <= now
    ensures Kept(Cleaned(ws, cleaned - WINDOW_SECONDS), e, now) == Kept(ws, e, now)
  {
    SlidAfterPruning(Window(ws, KeyOf(e)), cleaned - WINDOW_SECONDS, e.line, now);
  }

  // ---- Where an event stops ----

  predicate Cooling(alerted: map<Id, real>, key: Id, at: real, cooldown: real) {
    key in alerted && at - alerted[key] < cooldown
  }

  // The recon check fires: the record is broad enough, has not fired yet, and the key is not cooling down.
  predicate ReconFires(e: Event, o: Observed, rs: map<Id, ReconRecord>, alerted: map<Id, real>, cooldown: real) {
    e.family.Some? &&
    var rec := Touched(RecordOf(rs, e.srcIp), e.family.value, o.now);
    !rec.fired && |rec.families| >= RECON_FAMILY_THRESHOLD && !Cooling(alerted, KeyOf(e), o.later, cooldown)
  }

  function T1(o: Observed, w: seq<LogEvent>): real {
    Predicted(ExtractFeatures(w, o.sigmaHits, o.uaEntropy, o.coverage), o.model)
  }

  function Scored(o: Observed, w: seq<LogEvent>, stub: bool): Outcome {
    if stub then (if o.rps > 100.0 then T1High else T1Benign)
    else match BandOf(T1(o, w))
      case High => T1High
      case Benign => T1Benign
      case Ambiguous => Escalated
  }

  function Sifted(o: Observed, w: seq<LogEvent>, stub: bool): Outcome {
    if |w| < 3 then TooSmall
    else if !o.suspicious then NotSuspicious
    else Scored(o, w, stub)
  }

  // Where an event stops, from what is observed, its window, and whether the recon check fires
  function Classify(o: Observed, w: seq<LogEvent>, fires: bool, stub: bool): Outcome {
    if o.critical then Critical
    else if fires then Breadth
    else Sifted(o, w, stub)
  }

  // Where an event stops, outcome by outcome. A critical event stops at once, a recon signal stops all others, and the
  // rest are scored if their window holds three events and looks suspicious: a confidence from 0.85 triggers, one
  // below 0.40 is benign, and what lies between goes on to tier 2. The stub mode goes by the rate alone.
  lemma ClassifiesExactly(o: Observed, w: seq<LogEvent>, fires: bool, stub: bool)
    ensures var where := Classify(o, w, fires, stub); var past := !o.critical && !fires;
            && (where == Critical <==> o.critical)
            && (where == Breadth <==> !o.critical && fires)
            && (where == TooSmall <==> past && |w| < 3)
            && (where == NotSuspicious <==> past && |w| >= 3 && !o.suspicious)
    ensures var where := Classify(o, w, fires, stub);
            var scored := !o.critical && !fires && |w| >= 3 && o.suspicious;
            var features := ExtractFeatures(w, o.sigmaHits, o.uaEntropy, o.coverage);
            var t1 := if o.model.Some? then o.model.value else Confidence(features);
            if stub then
              && (where == T1High <==> scored && o.rps > 100.0) && (where == T1Benign <==> scored && o.rps <= 100.0)
              && where != Escalated
            else
              && (where == T1High <==> scored && t1 >= 0.85) && (where == T1Benign <==> scored && t1 < 0.40)
              && (where == Escalated <==> scored && 0.40 <= t1 < 0.85)
  {}

  // More than 5 requests per second, over a positive span
  predicate Fast(w: seq<LogEvent>) {
    |w| >= 2 && Span(w) > 0.0 && |w| as real / Max(Span(w), 0.001) > 5.0
  }

  // Without a trained model, an event whose window is fast is never counted as benign.
  lemma FastWindowNotCountedBenign(o: Observed, w: seq<LogEvent>, fires: bool)
    requires |w| >= 2 && Span(w) > 0.0 && ExtractFeatures(w, o.sigmaHits, o.uaEntropy, o.coverage).rateRps > 5.0
    requires o.model.None?
    ensures Fast(w) && Classify(o, w, fires, false) != T1Benign
  {
    FastWindowIsNeverBenign(w, o.sigmaHits, o.uaEntropy, o.coverage);
  }

  // The recon check fires exactly when enough families were touched since the last silence, none of those touches
  // fired, and the key is not cooling down.
  lemma ReconFiresExactly(
      e: Event, o: Observed, ts: seq<Touch>, rs: map<Id, ReconRecord>, alerted: map<Id, real>, cooldown: real)
    requires Explains(ts, rs) && e.family.Some?
    ensures var all := Of(ts, e.srcIp) + [Touch(e.srcIp, e.family.value, o.now, false)]; var since := all[Start(all)..];
            ReconFires(e, o, rs, alerted, cooldown) <==>
            && |Families(since)| >= 3 && !AnyFired(since)
            && !Cooling(alerted, KeyOf(e), o.later, cooldown)
  {
    CheckSeesSinceSilence(Of(ts, e.srcIp), Touch(e.srcIp, e.family.value, o.now, false));
  }

  // The touch that an event makes, if it gets as far as the recon check
  function Touching(e: Event, o: Observed, where: Outcome): seq<Touch> {
    if where.Critical? || e.family.None? then [] else [Touch(e.srcIp, e.family.value, o.now, where.Breadth?)]
  }

  function ReconAfter(rs: map<Id, ReconRecord>, e: Event, o: Observed, where: Outcome): map<Id, ReconRecord> {
    if where.Critical? || e.family.None? then rs
    else
      var rec := Touched(RecordOf(rs, e.srcIp), e.family.value, o.now);
      rs[e.srcIp := rec.(fired := rec.fired || where.Breadth?)]
  }

  lemma TouchingExplains(
      ts: seq<Touch>, rs: map<Id, ReconRecord>, e: Event, o: Observed, where: Outcome, alerted: map<Id, real>,
      cooldown: real)
    requires Explains(ts, rs) && (where.Breadth? ==> ReconFires(e, o, rs, alerted, cooldown))
    ensures Explains(ts + Touching(e, o, where), ReconAfter(rs, e, o, where))
  {
    if Touching(e, o, where) == [] {
      assert ts + [] == ts;
    } else {
      OneMoreTouch(ts, rs, Touch(e.srcIp, e.family.value, o.now, where.Breadth?));
    }
  }

  // ---- Signals ----

  // The outcomes that ask for a signal
  predicate Alarming(w: Outcome) { w.Critical? || w.Breadth? || w.T1High? }

  // Any two signals of one key are at least the cooldown apart.
  ghost predicate Spaced(ss: seq<Signal>, cooldown: real) {
    ss == [] ||
    var front, last := ss[..|ss| - 1], ss[|ss| - 1];
    Spaced(front, cooldown) && forall s | s in front && s.key == last.key :: last.at - s.at >= cooldown
  }

  lemma {:induction false} SpacedPairs(ss: seq<Signal>, cooldown: real)
    requires Spaced(ss, cooldown)
    ensures forall i, j | 0 <= i < j < |ss| && ss[i].key == ss[j].key :: ss[j].at - ss[i].at >= cooldown
  {
    if ss == [] {
    } else {
      var front := ss[..|ss| - 1];
      SpacedPairs(front, cooldown);
      forall i, j | 0 <= i < j < |ss| && ss[i].key == ss[j].key ensures ss[j].at - ss[i].at >= cooldown {
        assert ss[i] == front[i];
        if j == |ss| - 1 { assert front[i] in front; } else { assert ss[j] == front[j]; }
      }
    }
  }

  // Every signal is remembered by the cooldown of its key.
  ghost predicate Remembered(ss: seq<Signal>, alerted: map<Id, real>) {
    forall s | s in ss :: s.key in alerted && s.at <= alerted[s.key]
  }

  // An alert that is not suppressed keeps the signals spaced and remembered, even if the clock has gone back.
  lemma AlertKeepsOrder(ss: seq<Signal>, alerted: map<Id, real>, s: Signal, cooldown: real)
    requires Spaced(ss, cooldown) && Remembered(ss, alerted) && !Cooling(alerted, s.key, s.at, cooldown)
             && cooldown >= 0.0
    ensures Spaced(ss + [s], cooldown) && Remembered(ss + [s], alerted[s.key := s.at])
  {
    assert (ss + [s])[..|ss|] == ss;
    assert forall x | x in ss + [s] :: x in ss || x == s;
  }

  lemma OneMore(os: seq<Outcome>, w: Outcome, x: Outcome)
    ensures Number(os + [w], x) == Number(os, x) + if w == x then 1 else 0
  {
    assert (os + [w])[..|os|] == os;
  }

  // An event, what the cascade sees at it, and what tier 2 will answer if it is asked
  datatype Arrival = Arrival(event: Event, seen: Observed, answer: Answer)

  // The events of one request, and the clock at its start
  datatype Batch = Batch(arrivals: seq<Arrival>, start: real)

  class Cascade {
    const stub: bool
    const cooldown: real
    const threshold: real
    var stats: Stats
    var windows: Windows
    var alerted: map<Id, real>
    var recon: map<Id, ReconRecord>
    var signals: seq<Signal>
    var lastCleanup: real
    var canaries: nat
    ghost var outcomes: seq<Outcome>
    ghost var answers: seq<bool>
    ghost var touches: seq<Touch>

    constructor (stub: bool, cooldown: real, threshold: real, now: real)
      ensures this.stub == stub && this.cooldown == cooldown && this.threshold == threshold
      ensures lastCleanup == now && canaries == 0
      ensures Valid() && stats == ZERO && |outcomes| == 0 && |touches| == 0 && |signals| == 0
      ensures windows == map[] && alerted == map[] && recon == map[]
    {
      this.stub, this.cooldown, this.threshold := stub, cooldown, threshold;
      stats, windows, alerted, recon, lastCleanup, canaries := ZERO, map[], map[], map[], now, 0;
      signals := [];
      outcomes, answers, touches := [], [], [];
    }

    // The counters are the numbers of outcomes and answers, the signals are in order, and the touches explain the
    // records.
    ghost predicate Valid()
      reads this
    {
      Counts(stats, outcomes, answers) && InOrder() && Explains(touches, recon)
    }

    // Outside the stub mode, signals are spaced by the cooldown.
    ghost predicate InOrder()
      reads this
    {
      !stub && cooldown >= 0.0 ==> Spaced(signals, cooldown) && Remembered(signals, alerted)
    }

    // How many events wait for tier 2
    ghost function Waiting(): int
      reads this
    {
      Number(outcomes, Escalated) - |answers|
    }

    method CooldownCheck(key: Id, at: real) returns (suppress: bool)
      modifies this`alerted
      ensures suppress == (key in old(alerted) && at - old(alerted)[key] < cooldown)
      ensures alerted == if suppress then old(alerted) else old(alerted)[key := at]
    {
      if key in alerted && at - alerted[key] < cooldown { return true; }
      alerted := alerted[key := at];
      return false;
    }

    // Queue a signal unless its key is cooling down.
    method Alert(s: Signal) returns (queued: bool)
      requires InOrder()
      modifies this`alerted, this`signals
      ensures InOrder()
      ensures queued == !Cooling(old(alerted), s.key, s.at, cooldown)
      ensures signals == if queued then old(signals) + [s] else old(signals)
      ensures alerted == if queued then old(alerted)[s.key := s.at] else old(alerted)
    {
      if !stub && cooldown >= 0.0 && !Cooling(alerted, s.key, s.at, cooldown) {
        AlertKeepsOrder(signals, alerted, s, cooldown);
      }
      var suppress := CooldownCheck(s.key, s.at);
      queued := !suppress;
      if queued { signals := signals + [s]; }
    }

    // A verdict: queue its signal unless the key is cooling down, and close the window.
    method Verdict(s: Signal) returns (queued: bool)
      requires InOrder()
      modifies this`alerted, this`signals, this`windows
      ensures InOrder()
      ensures queued == !Cooling(old(alerted), s.key, s.at, cooldown)
      ensures signals == if queued then old(signals) + [s] else old(signals)
      ensures alerted == if queued then old(alerted)[s.key := s.at] else old(alerted)
      ensures windows == old(windows)[s.key := []]
    {
      queued := Alert(s);
      windows := windows[s.key := []];
    }

    method ReconCheck(e: Event, o: Observed, s: Signal) returns (fired: bool)
      requires InOrder() && s.key == KeyOf(e) && s.at == o.later
      modifies this`recon, this`alerted, this`signals, this`stats
      ensures InOrder()
      ensures fired == ReconFires(e, o, old(recon), old(alerted), cooldown)
      ensures signals == if fired then old(signals) + [s] else old(signals)
      ensures alerted == if fired then old(alerted)[s.key := s.at] else old(alerted)
      ensures stats == if fired then old(stats).(t0 := old(stats).t0.(recon := old(stats).t0.recon + 1)) else old(stats)
      ensures recon == ReconAfter(old(recon), e, o, if fired then Breadth else TooSmall)
    {
      if e.family.None? { return false; }
      var rec := Touched(RecordOf(recon, e.srcIp), e.family.value, o.now);
      recon := recon[e.srcIp := rec];
      if rec.fired || |rec.families| < RECON_FAMILY_THRESHOLD { return false; }
      fired := Alert(s);
      if fired {
        recon := recon[e.srcIp := rec.(fired := true)];
        stats := stats.(t0 := stats.t0.(recon := stats.t0.recon + 1));
      }
    }

    // The event joins its window, and what is too old leaves it.
    method Slide(e: Event, now: real) returns (window: seq<LogEvent>)
      modifies this`windows
      ensures window == Kept(old(windows), e, now) && windows == old(windows)[KeyOf(e) := window]
    {
      var key := KeyOf(e);
      window := PruneWindow(Pushed(Window(windows, key), e.line), now);
      windows := windows[key := window];
    }

    // The tiers that score a window, up to the question to tier 2
    method Score(o: Observed, s: Signal, window: seq<LogEvent>) returns (triggered: bool, where: Outcome)
      requires InOrder() && s.at == o.later
      modifies this`stats, this`windows, this`alerted, this`signals
      ensures InOrder()
      ensures where == Scored(o, window, stub) && stats == Scores(old(stats), where)
      ensures triggered <==> Alarming(where) && (stub || !Cooling(old(alerted), s.key, s.at, cooldown))
      ensures signals == if triggered then old(signals) + [s] else old(signals)
      ensures alerted == if triggered && !stub then old(alerted)[s.key := s.at] else old(alerted)
      ensures windows == if Alarming(where) then old(windows)[s.key := []] else old(windows)
    {
      stats := stats.(t1 := stats.t1.(evaluations := stats.t1.evaluations + 1));
      if stub {
        if o.rps > 100.0 {
          stats := stats.(t1 := stats.t1.(high := stats.t1.high + 1));
          signals := signals + [s];
          windows := windows[s.key := []];
          return true, T1High;
        }
        stats := stats.(t1 := stats.t1.(benign := stats.t1.benign + 1));
        return false, T1Benign;
      }
      var confidence := Predict(ExtractFeatures(window, o.sigmaHits, o.uaEntropy, o.coverage), o.model);
      if confidence >= 0.85 {
        stats := stats.(t1 := stats.t1.(high := stats.t1.high + 1));
        triggered := Verdict(s);
        return triggered, T1High;
      }
      if confidence < 0.40 {
        stats := stats.(t1 := stats.t1.(benign := stats.t1.benign + 1));
        return false, T1Benign;
      }
      stats := stats.(t2 := stats.t2.(evaluations := stats.t2.evaluations + 1));
      return false, Escalated;
    }

    // The gates before scoring, for an event that is neither critical nor raises a recon signal
    method Gate(o: Observed, s: Signal, window: seq<LogEvent>) returns (triggered: bool, where: Outcome)
      requires InOrder() && s.at == o.later
      modifies this`stats, this`windows, this`alerted, this`signals
      ensures InOrder()
      ensures where == Sifted(o, window, stub)
      ensures stats == Sifts(old(stats), where)
      ensures triggered <==> Alarming(where) && (stub || !Cooling(old(alerted), s.key, s.at, cooldown))
      ensures signals == if triggered then old(signals) + [s] else old(signals)
      ensures alerted == if triggered && !stub then old(alerted)[s.key := s.at] else old(alerted)
      ensures windows == if Alarming(where) then old(windows)[s.key := []] else old(windows)
    {
      if |window| < 3 {
        stats := stats.(t0 := stats.t0.(small := stats.t0.small + 1));
        stats := stats.(t0 := stats.t0.(eliminated := stats.t0.eliminated + 1));
        return false, TooSmall;
      }
      if !o.suspicious {
        stats := stats.(t0 := stats.t0.(eliminated := stats.t0.eliminated + 1));
        return false, NotSuspicious;
      }
      triggered, where := Score(o, s, window);
    }

    // Where an event with this window stops
    method Settle(e: Event, o: Observed, s: Signal, window: seq<LogEvent>) returns (triggered: bool, where: Outcome)
      requires InOrder() && s.key == KeyOf(e) && s.at == o.later
      modifies this`stats, this`windows, this`alerted, this`recon, this`signals
      ensures InOrder()
      ensures where == Classify(o, window, ReconFires(e, o, old(recon), old(alerted), cooldown), stub)
      ensures stats == Stops(old(stats), where)
      ensures recon == ReconAfter(old(recon), e, o, where)
      ensures triggered <==>
              && (where.Critical? || where.Breadth? || where.T1High?)
              && ((stub && where.T1High?) || !Cooling(old(alerted), s.key, s.at, cooldown))
      ensures signals == if triggered then old(signals) + [s] else old(signals)
      ensures alerted == if triggered && !(stub && where.T1High?) then old(alerted)[s.key := s.at] else old(alerted)
      ensures windows == if Alarming(where) && !where.Breadth? then old(windows)[s.key := []] else old(windows)
    {
      if o.critical {
        stats := stats.(t0 := stats.t0.(critical := stats.t0.critical + 1));
        triggered := Verdict(s);
        return triggered, Critical;
      }
      var fired := ReconCheck(e, o, s);
      if fired { return true, Breadth; }
      triggered, where := Gate(o, s, window);
    }

    // The cascade on one event, up to the question to tier 2. A signal is queued exactly when the event stops in an
    // alarming place and its key is not cooling down (the stub mode does not ask). A verdict closes the window, a recon
    // signal does not.
    method Step(e: Event, o: Observed, s: Signal) returns (triggered: bool, where: Outcome)
      requires InOrder() && s.key == KeyOf(e) && s.at == o.later
      modifies this`stats, this`windows, this`alerted, this`recon, this`signals
      ensures InOrder()
      ensures where ==
              Classify(o, Kept(old(windows), e, o.now), ReconFires(e, o, old(recon), old(alerted), cooldown), stub)
      ensures stats == Bump(old(stats), where)
      ensures recon == ReconAfter(old(recon), e, o, where)
      ensures triggered <==>
              && (where.Critical? || where.Breadth? || where.T1High?)
              && ((stub && where.T1High?) || !Cooling(old(alerted), s.key, s.at, cooldown))
      ensures signals == if triggered then old(signals) + [s] else old(signals)
      ensures alerted == if triggered && !(stub && where.T1High?) then old(alerted)[s.key := s.at] else old(alerted)
      ensures windows ==
              old(windows)[s.key := if Alarming(where) && !where.Breadth? then [] else Kept(old(windows), e, o.now)]
    {
      stats := stats.(eventsTotal := stats.eventsTotal + 1);
      var window := Slide(e, o.now);
      triggered, where := Settle(e, o, s, window);
    }

    // The same, keeping the account of all events: each stops in exactly one place, or waits for tier 2.
    method Begin(e: Event, o: Observed, batch: nat) returns (triggered: bool, where: Outcome)
      requires Valid()
      modifies this`stats, this`windows, this`alerted, this`recon, this`signals, this`outcomes, this`touches
      ensures Valid()
      ensures where ==
              Classify(o, Kept(old(windows), e, o.now), ReconFires(e, o, old(recon), old(alerted), cooldown), stub)
      ensures outcomes == old(outcomes) + [where] && touches == old(touches) + Touching(e, o, where)
      ensures recon == ReconAfter(old(recon), e, o, where)
      ensures triggered <==>
              && (where.Critical? || where.Breadth? || where.T1High?)
              && ((stub && where.T1High?) || !Cooling(old(alerted), KeyOf(e), o.later, cooldown))
      ensures signals == if triggered then old(signals) + [Signal(KeyOf(e), o.later, Logs(batch))] else old(signals)
      ensures alerted ==
              if triggered && !(stub && where.T1High?) then old(alerted)[KeyOf(e) := o.later] else old(alerted)
      ensures windows ==
              old(windows)[KeyOf(e) := if Alarming(where) && !where.Breadth? then [] else Kept(old(windows), e, o.now)]
      ensures !stub && o.model.None? && Fast(Kept(old(windows), e, o.now)) ==> where != T1Benign
    {
      ghost var s0, r0, a0, w := stats, recon, alerted, Kept(windows, e, o.now);
      triggered, where := Step(e, o, Signal(KeyOf(e), o.later, Logs(batch)));
      BumpCounts(s0, outcomes, answers, where);
      TouchingExplains(touches, r0, e, o, where, a0, cooldown);
      if !stub && o.model.None? && Fast(w) { FastWindowNotCountedBenign(o, w, ReconFires(e, o, r0, a0, cooldown)); }
      outcomes, touches := outcomes + [where], touches + Touching(e, o, where);
    }

    // Tier 2 answers a waiting event.
    method Resume(key: Id, a: Answer, batch: nat) returns (triggered: bool)
      requires Valid() && Waiting() > 0
      modifies this`stats, this`windows, this`alerted, this`signals, this`answers
      ensures Valid() && answers == old(answers) + [a.confidence >= threshold]
      ensures triggered <==> a.confidence >= threshold && !Cooling(old(alerted), key, a.at, cooldown)
      ensures signals == if triggered then old(signals) + [Signal(key, a.at, Logs(batch))] else old(signals)
      ensures alerted == if triggered then old(alerted)[key := a.at] else old(alerted)
      ensures windows == if a.confidence >= threshold then old(windows)[key := []] else old(windows)
    {
      AnswerCounts(outcomes, answers, a.confidence >= threshold);
      triggered := false;
      if a.confidence >= threshold {
        stats := stats.(t2 := stats.t2.(triggered := stats.t2.triggered + 1));
        triggered := Verdict(Signal(key, a.at, Logs(batch)));
      }
      answers := answers + [a.confidence >= threshold];
    }

    // Prunes every window and forgets the empty ones.
    method Cleanup(now: real)
      modifies this`windows, this`lastCleanup
      ensures windows == Cleaned(old(windows), now - WINDOW_SECONDS) && lastCleanup == now
    {
      var before, cutoff := windows, now - WINDOW_SECONDS;
      var todo, left: Windows := before.Keys, map[];
      while todo != {}
        invariant todo <= before.Keys
        invariant left == map k | k in before && k !in todo && Pruned(before[k], cutoff) != [] ::
                  Pruned(before[k], cutoff)
      {
        var k :| k in todo;
        var kept := PruneWindow(before[k], now);
        if kept != [] { left := left[k := kept]; }
        todo := todo - {k};
      }
      windows := left;
      lastCleanup := now;
    }

    // One event, with the answer of tier 2 if it is asked
    method IngestOne(a: Arrival, id: nat) returns (triggered: bool, ghost where: Outcome)
      requires Valid()
      modifies this`stats, this`windows, this`alerted, this`recon, this`signals
      modifies this`outcomes, this`touches, this`answers
      ensures Valid() && Waiting() == old(Waiting())
      ensures var o, w := a.seen, Kept(old(windows), a.event, a.seen.now);
              && where == Classify(o, w, ReconFires(a.event, o, old(recon), old(alerted), cooldown), stub)
              && (!stub && o.model.None? && Fast(w) ==> where != T1Benign)
      ensures outcomes == old(outcomes) + [where] && touches == old(touches) + Touching(a.event, a.seen, where)
      ensures recon == ReconAfter(old(recon), a.event, a.seen, where)
      ensures answers == old(answers) + if where.Escalated? then [a.answer.confidence >= threshold] else []
      ensures old(signals) <= signals && |signals| == |old(signals)| + if triggered then 1 else 0
    {
      ghost var before := outcomes;
      var stop;
      triggered, stop := Begin(a.event, a.seen, id);
      where := stop;
      OneMore(before, where, Escalated);
      if stop.Escalated? { triggered := Resume(KeyOf(a.event), a.answer, id); }
    }

    // A batch of events that is not interrupted: each is ingested in turn, and the count of triggered events is the
    // number of signals queued.
    method IngestLogs(batch: Batch, id: nat) returns (processed: nat, triggered: nat)
      requires Valid()
      modifies this
      ensures Valid() && Waiting() == old(Waiting())
      ensures processed == |batch.arrivals| && |outcomes| == |old(outcomes)| + |batch.arrivals|
      ensures old(signals) <= signals && triggered == |signals| - |old(signals)|
      // Windows are cleaned up before the first event, at most once a minute.
      ensures lastCleanup == if batch.start - old(lastCleanup) > 60.0 then batch.start else old(lastCleanup)
      ensures batch.arrivals == [] ==>
                windows == if batch.start - old(lastCleanup) > 60.0 then Cleaned(old(windows), batch.start - 10.0)
                           else old(windows)
    {
      triggered := 0;
      if batch.start - lastCleanup > 60.0 { Cleanup(batch.start); }
      for i := 0 to |batch.arrivals|
        invariant Valid() && Waiting() == old(Waiting())
        invariant |outcomes| == |old(outcomes)| + i
        invariant old(signals) <= signals && triggered == |signals| - |old(signals)|
        invariant lastCleanup == if batch.start - old(lastCleanup) > 60.0 then batch.start else old(lastCleanup)
        invariant i == 0 ==>
                    windows == if batch.start - old(lastCleanup) > 60.0 then Cleaned(old(windows), batch.start - 10.0)
                               else old(windows)
      {
        var a := batch.arrivals[i];
        var hit, _ := IngestOne(a, id);
        if hit { triggered := triggered + 1; }
      }
      processed := |batch.arrivals|;
    }

    // The ghost shell reports that an agent followed its canary: the IP, not the session, is put on cooldown.
    method CanaryHit(ip: Id, at: real) returns (queued: bool)
      requires Valid()
      modifies this`alerted, this`signals, this`canaries
      ensures Valid() && canaries == old(canaries) + 1
      ensures queued == !Cooling(old(alerted), ip, at, cooldown)
      ensures signals == if queued then old(signals) + [Signal(ip, at, Canary)] else old(signals)
      ensures alerted == if queued then old(alerted)[ip := at] else old(alerted)
    {
      canaries := canaries + 1;
      queued := Alert(Signal(ip, at, Canary));
    }
  }
}
