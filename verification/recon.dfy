/** The breadth of an IP's reconnaissance: the record that collects the OWASP families it touches, when that record
    fires, and what this means over the whole history of touches. */
module ReconBreadth {
  import opened Wrappers

  // A session id or an IP; windows and cooldowns are keyed by either
  datatype Id = Id(text: string)

  datatype ReconRecord = ReconRecord(families: set<nat>, last: real, fired: bool)

  // An IP touched a family, and its record fired on it or did not.
  datatype Touch = Touch(ip: Id, family: nat, at: real, fired: bool)

  const RECON_HORIZON_SECONDS := 300.0
  const RECON_FAMILY_THRESHOLD := 3

  // The record of an IP after it touched this family: a fresh one after a silence longer than the horizon
  function Touched(rec: Option<ReconRecord>, family: nat, now: real): ReconRecord {
    if rec.None? || now - rec.value.last > RECON_HORIZON_SECONDS then ReconRecord({family}, now, false)
    else ReconRecord(rec.value.families + {family}, now, rec.value.fired)
  }

  function RecordOf(rs: map<Id, ReconRecord>, ip: Id): Option<ReconRecord> { if ip in rs then Some(rs[ip]) else None }

  // ---- The record as a function of the touches ----

  // The touches of one IP, oldest first
  function Of(ts: seq<Touch>, ip: Id): seq<Touch> {
    if ts == [] then []
    else
      var front, t := Of(ts[..|ts| - 1], ip), ts[|ts| - 1];
      if t.ip == ip then front + [t] else front
  }

  // The record these touches of one IP have left
  function RecordAfter(ts: seq<Touch>): Option<ReconRecord> {
    if ts == [] then None
    else
      var t := ts[|ts| - 1];
      var rec := Touched(RecordAfter(ts[..|ts| - 1]), t.family, t.at);
      Some(rec.(fired := rec.fired || t.fired))
  }

  // A touch fires only on a record that has not fired and is broad enough.
  ghost predicate Lawful(ts: seq<Touch>) {
    ts == [] ||
    var front, t := ts[..|ts| - 1], ts[|ts| - 1];
    var rec := Touched(RecordAfter(front), t.family, t.at);
    Lawful(front) && (t.fired ==> !rec.fired && |rec.families| >= RECON_FAMILY_THRESHOLD)
  }

  // The records in force are what the touches have left, and every firing was lawful.
  ghost predicate Explains(ts: seq<Touch>, rs: map<Id, ReconRecord>) {
    forall ip :: RecordOf(rs, ip) == RecordAfter(Of(ts, ip)) && Lawful(Of(ts, ip))
  }

  lemma OfSnoc(ts: seq<Touch>, t: Touch, ip: Id)
    ensures Of(ts + [t], ip) == if t.ip == ip then Of(ts, ip) + [t] else Of(ts, ip)
  {
    assert (ts + [t])[..|ts|] == ts;
  }

  lemma LawfulSnoc(own: seq<Touch>, t: Touch)
    requires Lawful(own)
    requires var rec := Touched(RecordAfter(own), t.family, t.at);
             t.fired ==> !rec.fired && |rec.families| >= RECON_FAMILY_THRESHOLD
    ensures var rec := Touched(RecordAfter(own), t.family, t.at);
            Lawful(own + [t]) && RecordAfter(own + [t]) == Some(rec.(fired := rec.fired || t.fired))
  {
    assert (own + [t])[..|own|] == own;
  }

  lemma OneMoreTouch(ts: seq<Touch>, rs: map<Id, ReconRecord>, t: Touch)
    requires Explains(ts, rs)
    requires var rec := Touched(RecordOf(rs, t.ip), t.family, t.at);
             t.fired ==> !rec.fired && |rec.families| >= RECON_FAMILY_THRESHOLD
    ensures var rec := Touched(RecordOf(rs, t.ip), t.family, t.at);
            Explains(ts + [t], rs[t.ip := rec.(fired := rec.fired || t.fired)])
  {
    var rec := Touched(RecordOf(rs, t.ip), t.family, t.at);
    var rs' := rs[t.ip := rec.(fired := rec.fired || t.fired)];
    forall ip ensures RecordOf(rs', ip) == RecordAfter(Of(ts + [t], ip)) && Lawful(Of(ts + [t], ip)) {
      OfSnoc(ts, t, ip);
      if ip == t.ip {
        LawfulSnoc(Of(ts, ip), t);
      } else {
        assert RecordOf(rs', ip) == RecordOf(rs, ip);
      }
    }
  }

  // ---- Silences ----

  // The i-th touch came after a silence longer than the horizon.
  predicate AfterSilence(ts: seq<Touch>, i: nat)
    requires 0 < i < |ts|
  {
    ts[i].at - ts[i - 1].at > 300.0
  }

  // Where the last silence ended, or the first touch if there was none
  function Start(ts: seq<Touch>): (b: nat)
    requires ts != []
    ensures b < |ts| && (b > 0 ==> AfterSilence(ts, b))
  {
    if |ts| == 1 then 0
    else if AfterSilence(ts, |ts| - 1) then |ts| - 1
    else Start(ts[..|ts| - 1])
  }

  lemma {:induction false} NoSilenceSinceStart(ts: seq<Touch>)
    requires ts != []
    ensures forall i | Start(ts) < i < |ts| :: !AfterSilence(ts, i)
  {
    if |ts| > 1 && !AfterSilence(ts, |ts| - 1) {
      var front := ts[..|ts| - 1];
      NoSilenceSinceStart(front);
      forall i | Start(ts) < i < |ts| ensures !AfterSilence(ts, i) {
        if i < |front| { assert !AfterSilence(front, i); }
      }
    }
  }

  // The families touched
  function Families(ts: seq<Touch>): set<nat> { set t | t in ts :: t.family }

  ghost predicate AnyFired(ts: seq<Touch>) { exists t :: t in ts && t.fired }

  // What a record should hold after touches that began with the b-th one
  ghost function Since(ts: seq<Touch>, b: nat): Option<ReconRecord>
    requires b < |ts|
  {
    Some(ReconRecord(Families(ts[b..]), ts[|ts| - 1].at, AnyFired(ts[b..])))
  }

  lemma SinceOne(t: Touch)
    ensures Families([t]) == {t.family} && (AnyFired([t]) <==> t.fired)
  {
    assert t in [t];
  }

  lemma RecordStarts(ts: seq<Touch>)
    requires ts != []
    requires var rec := RecordAfter(ts[..|ts| - 1]);
             rec.Some? ==> ts[|ts| - 1].at - rec.value.last > RECON_HORIZON_SECONDS
    ensures RecordAfter(ts) == Since(ts, |ts| - 1)
  {
    assert ts[|ts| - 1..] == [ts[|ts| - 1]];
    SinceOne(ts[|ts| - 1]);
  }

  lemma SinceSnoc(ts: seq<Touch>, t: Touch)
    ensures Families(ts + [t]) == Families(ts) + {t.family}
    ensures AnyFired(ts + [t]) <==> AnyFired(ts) || t.fired
  {
    assert t in ts + [t];
    assert forall x | x in ts :: x in ts + [t];
  }

  lemma RecordContinues(ts: seq<Touch>, b: nat)
    requires b < |ts| - 1 && !AfterSilence(ts, |ts| - 1) && RecordAfter(ts[..|ts| - 1]) == Since(ts[..|ts| - 1], b)
    ensures RecordAfter(ts) == Since(ts, b)
  {
    var front, t := ts[..|ts| - 1], ts[|ts| - 1];
    assert ts[b..] == front[b..] + [t];
    SinceSnoc(front[b..], t);
  }

  // The record holds the families touched since the last silence, and has fired exactly if a touch since then did.
  lemma {:induction false} RecordIsSinceSilence(ts: seq<Touch>)
    requires ts != []
    ensures RecordAfter(ts) == Since(ts, Start(ts))
  {
    var front := ts[..|ts| - 1];
    if front != [] { RecordIsSinceSilence(front); }
    if Start(ts) == |ts| - 1 { RecordStarts(ts); } else { RecordContinues(ts, Start(ts)); }
  }

  // So the record that the check looks at, when t touches its family, holds what was touched since the last silence.
  lemma CheckSeesSinceSilence(ts: seq<Touch>, t: Touch)
    requires !t.fired
    ensures var since := (ts + [t])[Start(ts + [t])..];
            Touched(RecordAfter(ts), t.family, t.at) == ReconRecord(Families(since), t.at, AnyFired(since))
  {
    assert (ts + [t])[..|ts|] == ts;
    RecordIsSinceSilence(ts + [t]);
  }

  // A record fires at most once: between two firings of one IP there is a silence longer than the horizon, and at
  // least as many families as the threshold were touched since then.
  ghost predicate FiresOncePerSilence(ts: seq<Touch>) {
    forall i, j | 0 <= i < j < |ts| && ts[i].fired && ts[j].fired ::
      exists b :: i < b <= j && AfterSilence(ts, b) && |Families(ts[b..j + 1])| >= 3
  }

  lemma {:induction false} LawfulPrefix(ts: seq<Touch>, n: nat)
    requires Lawful(ts) && n <= |ts|
    ensures Lawful(ts[..n])
  {
    if n == |ts| {
      assert ts[..n] == ts;
    } else {
      LawfulPrefix(ts[..|ts| - 1], n);
      assert ts[..|ts| - 1][..n] == ts[..n];
    }
  }

  lemma NoneFired(ts: seq<Touch>, b: nat)
    requires b < |ts| && !AnyFired(ts[..|ts| - 1][b..])
    ensures forall i | b <= i < |ts| - 1 :: !ts[i].fired
  {
    forall i | b <= i < |ts| - 1 ensures !ts[i].fired { assert ts[..|ts| - 1][b..][i - b] == ts[i]; }
  }

  lemma RecordUnfired(ts: seq<Touch>)
    requires Lawful(ts) && ts != [] && ts[|ts| - 1].fired && Start(ts) < |ts| - 1
    ensures var front := ts[..|ts| - 1];
            Start(ts) == Start(front) && (RecordAfter(front).Some? ==> !RecordAfter(front).value.fired)
  {
    var front, t := ts[..|ts| - 1], ts[|ts| - 1];
    assert t.at - front[|front| - 1].at <= RECON_HORIZON_SECONDS by { assert !AfterSilence(ts, |ts| - 1); }
    assert RecordAfter(front).Some? ==> RecordAfter(front).value.last == front[|front| - 1].at;
  }

  lemma UnfiredBeforeLast(ts: seq<Touch>)
    requires Lawful(ts) && ts != [] && ts[|ts| - 1].fired && Start(ts) < |ts| - 1
    ensures forall i | Start(ts) <= i < |ts| - 1 :: !ts[i].fired
  {
    RecordUnfired(ts);
    RecordIsSinceSilence(ts[..|ts| - 1]);
    NoneFired(ts, Start(ts));
  }

  // The last touch fires: nothing has fired since the silence before it, and enough families were touched.
  lemma FiringNeedsBreadth(ts: seq<Touch>)
    requires Lawful(ts) && ts != [] && ts[|ts| - 1].fired
    ensures |Families(ts[Start(ts)..])| >= RECON_FAMILY_THRESHOLD
    ensures forall i | Start(ts) <= i < |ts| - 1 :: !ts[i].fired
  {
    RecordIsSinceSilence(ts);
    if Start(ts) < |ts| - 1 {
      UnfiredBeforeLast(ts);
    }
  }

  // Between two firings of one IP there is a silence longer than 300 s, and at least three families were touched since
  // then.
  lemma SilenceBetweenFirings(ts: seq<Touch>, i: nat, j: nat) returns (b: nat)
    requires Lawful(ts) && i < j < |ts| && ts[i].fired && ts[j].fired
    ensures i < b <= j && ts[b].at - ts[b - 1].at > 300.0
    ensures |Families(ts[b..j + 1])| >= 3
  {
    var upTo := ts[..j + 1];
    LawfulPrefix(ts, j + 1);
    FiringNeedsBreadth(upTo);
    b := Start(upTo);
    assert upTo[i].fired;
    assert AfterSilence(upTo, b) && upTo[b..] == ts[b..j + 1];
  }

  lemma LawfulFiresOncePerSilence(ts: seq<Touch>)
    requires Lawful(ts)
    ensures FiresOncePerSilence(ts)
  {
    forall i, j | 0 <= i < j < |ts| && ts[i].fired && ts[j].fired
      ensures exists b :: i < b <= j && AfterSilence(ts, b) && |Families(ts[b..j + 1])| >= 3
    {
      var b := SilenceBetweenFirings(ts, i, j);
      assert i < b <= j && AfterSilence(ts, b);
    }
  }
}
