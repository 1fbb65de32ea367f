/** The Octavia reroute backend: L7 policies on a remote load balancer that are created in several calls, each of
    which may fail before or after it took effect, and are recovered by the next attempt. */
module Octavia {
  import opened Wrappers

  datatype PolicyName = PolicyName(text: string)

  // A rule that matches one value of the session cookie
  datatype CookieRule = CookieRule(session: string)

  datatype Policy = Policy(id: nat, name: PolicyName, rules: seq<CookieRule>)

  // A remote write either succeeds, or raises before or after it took effect.
  datatype Write = Succeeds | FailsAfter | FailsBefore

  // What one attempt meets: which calls raise, and whether deleting an orphan takes effect. The waits after the
  // writes raise when the load balancer does not come back; a wait after a delete is ignored by the code.
  datatype Faults = Faults(
    listRaises: bool, rulesRaise: bool, deleteTakes: bool, targetsMissing: bool,
    create: Write, createWaitRaises: bool, addRule: Write, ruleWaitRaises: bool)

  // Some call on the way to a finished policy raises.
  predicate Interrupted(f: Faults) {
    f.targetsMissing || f.create != Succeeds || f.createWaitRaises || f.addRule != Succeeds || f.ruleWaitRaises
  }

  // ---- Views of the policy list ----

  function Named(ps: seq<Policy>, name: PolicyName): seq<Policy> {
    if ps == [] then []
    else
      var front, p := Named(ps[..|ps| - 1], name), ps[|ps| - 1];
      if p.name == name then front + [p] else front
  }

  function Others(ps: seq<Policy>, name: PolicyName): seq<Policy> {
    if ps == [] then []
    else
      var front, p := Others(ps[..|ps| - 1], name), ps[|ps| - 1];
      if p.name == name then front else front + [p]
  }

  function Remove(ps: seq<Policy>, id: nat): seq<Policy> {
    if ps == [] then []
    else
      var front, p := Remove(ps[..|ps| - 1], id), ps[|ps| - 1];
      if p.id == id then front else front + [p]
  }

  function AddRule(ps: seq<Policy>, id: nat, r: CookieRule): seq<Policy> {
    if ps == [] then []
    else
      var front, p := AddRule(ps[..|ps| - 1], id, r), ps[|ps| - 1];
      front + [if p.id == id then p.(rules := p.rules + [r]) else p]
  }

  ghost predicate Absent(ps: seq<Policy>, id: nat) {
    ps == [] || (ps[|ps| - 1].id != id && Absent(ps[..|ps| - 1], id))
  }

  // Ids are unique and below the next one.
  ghost predicate Fresh(ps: seq<Policy>, nextId: nat) {
    ps == [] || (ps[|ps| - 1].id < nextId && Fresh(ps[..|ps| - 1], nextId) && Absent(ps[..|ps| - 1], ps[|ps| - 1].id))
  }

  // ---- What the attempts for one request leave behind ----

  // At most one policy of this name, without rules or with exactly this session's rule
  ghost predicate Recoverable(ps: seq<Policy>, name: PolicyName, session: string) {
    var own := Named(ps, name);
    |own| <= 1 && (own != [] ==> own[0].rules == [] || own[0].rules == [CookieRule(session)])
  }

  // Exactly one policy of this name: this one, carrying exactly this session's rule
  ghost predicate Settled(ps: seq<Policy>, name: PolicyName, session: string, id: nat) {
    Named(ps, name) == [Policy(id, name, [CookieRule(session)])]
  }

  // What a returning attempt needs in order to settle: no policy yet, or the right one already, or an orphan that
  // it can see to be one and that it can delete.
  ghost predicate CanSettle(own: seq<Policy>, session: string, f: Faults) {
    own == [] || own[0].rules == [CookieRule(session)] || (own[0].rules == [] && !f.rulesRaise && f.deleteTakes)
  }

  // The first eight characters
  function Short(requestId: string): string { if |requestId| < 8 then requestId else requestId[..8] }

  function ShortName(prefix: string, requestId: string): PolicyName {
    PolicyName(prefix + "-reroute-" + Short(requestId))
  }

  // How far creating a policy has come, and what that adds to the policies of its name
  datatype Stage = Nothing | Orphan | Finished

  ghost function Made(stage: Stage, id: nat, name: PolicyName, session: string): seq<Policy> {
    match stage
    case Nothing => []
    case Orphan => [Policy(id, name, [])]
    case Finished => [Policy(id, name, [CookieRule(session)])]
  }

  predicate IsReroute(prefix: string, p: Policy) { prefix + "-reroute-" <= p.name.text }

  function Kept(ps: seq<Policy>, prefix: string, takes: nat -> bool): seq<Policy> {
    if ps == [] then []
    else
      var front, p := Kept(ps[..|ps| - 1], prefix, takes), ps[|ps| - 1];
      if IsReroute(prefix, p) && takes(|ps| - 1) then front else front + [p]
  }

  function Counted(ps: seq<Policy>, prefix: string, raises: nat -> bool): nat {
    if ps == [] then 0
    else Counted(ps[..|ps| - 1], prefix, raises) + if IsReroute(prefix, ps[|ps| - 1]) && !raises(|ps| - 1) then 1 else 0
  }

  // ---- Lemmas about the views ----

  // The first policy of a name is a policy of the list.
  lemma {:induction false} NamedPresent(ps: seq<Policy>, name: PolicyName)
    requires Named(ps, name) != []
    ensures Named(ps, name)[0].name == name && !Absent(ps, Named(ps, name)[0].id)
  {
    if Named(ps[..|ps| - 1], name) != [] { NamedPresent(ps[..|ps| - 1], name); }
  }

  lemma AbsentSnoc(ps: seq<Policy>, p: Policy, id: nat)
    ensures Absent(ps + [p], id) <==> Absent(ps, id) && p.id != id
  {
    assert (ps + [p])[..|ps|] == ps;
  }

  lemma {:induction false} RemoveKeepsAbsent(ps: seq<Policy>, id: nat, other: nat)
    requires Absent(ps, other)
    ensures Absent(Remove(ps, id), other)
  {
    if ps == [] {
    } else {
      var front, p := ps[..|ps| - 1], ps[|ps| - 1];
      RemoveKeepsAbsent(front, id, other);
      AbsentSnoc(Remove(front, id), p, other);
    }
  }

  lemma FreshSnoc(ps: seq<Policy>, p: Policy, nextId: nat)
    requires Fresh(ps, nextId) && p.id < nextId && Absent(ps, p.id)
    ensures Fresh(ps + [p], nextId)
  {
    assert (ps + [p])[..|ps|] == ps;
  }

  lemma {:induction false} RemoveFresh(ps: seq<Policy>, id: nat, nextId: nat)
    requires Fresh(ps, nextId)
    ensures Fresh(Remove(ps, id), nextId)
  {
    if ps == [] {
    } else {
      var front, p := ps[..|ps| - 1], ps[|ps| - 1];
      RemoveFresh(front, id, nextId);
      RemoveKeepsAbsent(front, id, p.id);
      FreshSnoc(Remove(front, id), p, nextId);
    }
  }

  lemma {:induction false} RemoveAbsent(ps: seq<Policy>, id: nat)
    requires Absent(ps, id)
    ensures Remove(ps, id) == ps
  {
    if ps == [] {
    } else {
      RemoveAbsent(ps[..|ps| - 1], id);
      assert ps == ps[..|ps| - 1] + [ps[|ps| - 1]];
    }
  }

  lemma Snoc(ps: seq<Policy>, p: Policy, name: PolicyName)
    ensures Named(ps + [p], name) == if p.name == name then Named(ps, name) + [p] else Named(ps, name)
    ensures Others(ps + [p], name) == if p.name == name then Others(ps, name) else Others(ps, name) + [p]
  {
    assert (ps + [p])[..|ps|] == ps;
  }

  // Deleting the first policy of a name by its id deletes just that one.
  lemma {:induction false} RemoveFirst(ps: seq<Policy>, name: PolicyName, nextId: nat)
    requires Fresh(ps, nextId) && Named(ps, name) != []
    ensures var id := Named(ps, name)[0].id;
            Named(Remove(ps, id), name) == Named(ps, name)[1..] && Others(Remove(ps, id), name) == Others(ps, name)
  {
    var front, p := ps[..|ps| - 1], ps[|ps| - 1];
    var id := Named(ps, name)[0].id;
    if Named(front, name) == [] {
      RemoveAbsent(front, id);
    } else {
      RemoveFirst(front, name, nextId);
      NamedPresent(front, name);
      assert Named(ps, name)[0] == Named(front, name)[0];
      assert Remove(ps, id) == Remove(front, id) + [p];
      Snoc(Remove(front, id), p, name);
      if p.name == name { assert (Named(front, name) + [p])[1..] == Named(front, name)[1..] + [p]; }
    }
  }

  lemma {:induction false} IdsBelow(ps: seq<Policy>, nextId: nat)
    requires Fresh(ps, nextId)
    ensures Absent(ps, nextId)
  {
    if ps == [] {
    } else {
      IdsBelow(ps[..|ps| - 1], nextId);
    }
  }

  lemma {:induction false} FreshLater(ps: seq<Policy>, nextId: nat)
    requires Fresh(ps, nextId)
    ensures Fresh(ps, nextId + 1)
  {
    if ps == [] {
    } else {
      FreshLater(ps[..|ps| - 1], nextId);
    }
  }

  // What each stage of creating a policy adds to the views
  lemma MadeViews(ps: seq<Policy>, stage: Stage, id: nat, name: PolicyName, session: string)
    requires Fresh(ps, id)
    ensures Named(ps + Made(stage, id, name, session), name) == Named(ps, name) + Made(stage, id, name, session)
    ensures Others(ps + Made(stage, id, name, session), name) == Others(ps, name)
    ensures Fresh(ps + Made(stage, id, name, session), if stage == Nothing then id else id + 1)
  {
    var made := Made(stage, id, name, session);
    if stage == Nothing {
      assert ps + made == ps && Named(ps, name) + made == Named(ps, name);
    } else {
      var p := made[0];
      assert made == [p];
      IdsBelow(ps, id);
      FreshLater(ps, id);
      FreshSnoc(ps, p, id + 1);
      Snoc(ps, p, name);
    }
  }

  lemma {:induction false} AddRuleAbsent(ps: seq<Policy>, id: nat, r: CookieRule)
    requires Absent(ps, id)
    ensures AddRule(ps, id, r) == ps
  {
    if ps == [] {
    } else {
      AddRuleAbsent(ps[..|ps| - 1], id, r);
      assert ps == ps[..|ps| - 1] + [ps[|ps| - 1]];
    }
  }

  lemma RuleGoesToNewPolicy(ps: seq<Policy>, name: PolicyName, id: nat, r: CookieRule)
    requires Absent(ps, id)
    ensures AddRule(ps + [Policy(id, name, [])], id, r) == ps + [Policy(id, name, [r])]
  {
    assert (ps + [Policy(id, name, [])])[..|ps|] == ps;
    AddRuleAbsent(ps, id, r);
    assert [] + [r] == [r];
  }

  lemma {:induction false} KeptKeepsAbsent(ps: seq<Policy>, prefix: string, takes: nat -> bool, id: nat)
    requires Absent(ps, id)
    ensures Absent(Kept(ps, prefix, takes), id)
  {
    if ps == [] {
    } else {
      var front, p := ps[..|ps| - 1], ps[|ps| - 1];
      KeptKeepsAbsent(front, prefix, takes, id);
      AbsentSnoc(Kept(front, prefix, takes), p, id);
    }
  }

  lemma {:induction false} KeptFresh(ps: seq<Policy>, prefix: string, takes: nat -> bool, nextId: nat)
    requires Fresh(ps, nextId)
    ensures Fresh(Kept(ps, prefix, takes), nextId)
  {
    if ps == [] {
    } else {
      var front, p := ps[..|ps| - 1], ps[|ps| - 1];
      KeptFresh(front, prefix, takes, nextId);
      KeptKeepsAbsent(front, prefix, takes, p.id);
      FreshSnoc(Kept(front, prefix, takes), p, nextId);
    }
  }

  // Named picks out exactly the policies of its name, in order, and Others the rest.
  lemma {:induction false} NamedIsExact(ps: seq<Policy>, name: PolicyName)
    ensures forall p :: p in Named(ps, name) <==> p in ps && p.name == name
    ensures forall p :: p in Others(ps, name) <==> p in ps && p.name != name
    ensures |Named(ps, name)| + |Others(ps, name)| == |ps|
  {
    if ps == [] {
    } else {
      var front, p := ps[..|ps| - 1], ps[|ps| - 1];
      NamedIsExact(front, name);
      assert forall q :: q in ps <==> q in front || q == p;
    }
  }

  // ---- The purge loop ----

  // What the purge loop leaves, and has counted, when it has gone through the first i of its snapshot
  ghost predicate Purged(
      ps: seq<Policy>, i: nat, prefix: string, takes: nat -> bool, raises: nat -> bool, left: seq<Policy>, count: nat)
    requires i <= |ps|
  {
    left == Kept(ps[..i], prefix, takes) + ps[i..] && count == Counted(ps[..i], prefix, raises)
  }

  lemma PurgeStart(ps: seq<Policy>, prefix: string, takes: nat -> bool, raises: nat -> bool)
    ensures Purged(ps, 0, prefix, takes, raises, ps, 0)
  {
    assert ps[..0] == [] && ps[0..] == ps;
  }

  lemma PurgeEnd(
      ps: seq<Policy>, prefix: string, takes: nat -> bool, raises: nat -> bool, left: seq<Policy>, count: nat)
    requires Purged(ps, |ps|, prefix, takes, raises, left, count)
    ensures left == Kept(ps, prefix, takes) && count == Counted(ps, prefix, raises)
  {
    assert ps[..|ps|] == ps && ps[|ps|..] == [];
  }

  lemma RemoveSnoc(ps: seq<Policy>, p: Policy, id: nat)
    ensures Remove(ps + [p], id) == if p.id == id then Remove(ps, id) else Remove(ps, id) + [p]
  {
    assert (ps + [p])[..|ps|] == ps;
  }

  lemma {:induction false} RemoveAppend(a: seq<Policy>, b: seq<Policy>, id: nat)
    ensures Remove(a + b, id) == Remove(a, id) + Remove(b, id)
  {
    if b == [] {
      assert a + b == a;
    } else {
      var front, p := b[..|b| - 1], b[|b| - 1];
      assert a + b == (a + front) + [p];
      RemoveSnoc(a + front, p, id);
      RemoveAppend(a, front, id);
    }
  }

  lemma RemoveMiddle(a: seq<Policy>, p: Policy, b: seq<Policy>)
    requires Absent(a, p.id) && Absent(b, p.id)
    ensures Remove(a + [p] + b, p.id) == a + b
  {
    RemoveAppend(a + [p], b, p.id);
    RemoveSnoc(a, p, p.id);
    RemoveAbsent(a, p.id);
    RemoveAbsent(b, p.id);
  }

  lemma {:induction false} AbsentAt(ps: seq<Policy>, i: nat, id: nat)
    requires i < |ps| && Absent(ps, id)
    ensures ps[i].id != id
  {
    if i < |ps| - 1 { AbsentAt(ps[..|ps| - 1], i, id); }
  }

  lemma {:induction false} FreshAround(ps: seq<Policy>, i: nat, nextId: nat)
    requires i < |ps| && Fresh(ps, nextId)
    ensures Absent(ps[..i], ps[i].id) && Absent(ps[i + 1..], ps[i].id)
  {
    var front, p := ps[..|ps| - 1], ps[|ps| - 1];
    if i < |front| {
      FreshAround(front, i, nextId);
      AbsentAt(front, i, p.id);
      assert ps[..i] == front[..i] && ps[i + 1..] == front[i + 1..] + [p];
      AbsentSnoc(front[i + 1..], p, ps[i].id);
    } else {
      assert ps[..i] == front && ps[i + 1..] == [];
    }
  }

  // One turn of the purge loop
  lemma PurgeNext(
      ps: seq<Policy>, i: nat, prefix: string, takes: nat -> bool, raises: nat -> bool, left: seq<Policy>, count: nat,
      nextId: nat)
    requires i < |ps| && Fresh(ps, nextId) && Purged(ps, i, prefix, takes, raises, left, count)
    ensures Purged(ps, i + 1, prefix, takes, raises,
                   if IsReroute(prefix, ps[i]) && takes(i) then Remove(left, ps[i].id) else left,
                   if IsReroute(prefix, ps[i]) && !raises(i) then count + 1 else count)
  {
    var kept, p, rest := Kept(ps[..i], prefix, takes), ps[i], ps[i + 1..];
    assert ps[..i + 1][..i] == ps[..i];
    assert left == kept + [p] + rest;
    FreshAround(ps, i, nextId);
    KeptKeepsAbsent(ps[..i], prefix, takes, p.id);
    RemoveMiddle(kept, p, rest);
  }

  // Two requests share their policy name exactly when their ids agree on the first eight characters: an id shorter than
  // that shares it with itself only.
  lemma NamesCollide(prefix: string, a: string, b: string)
    ensures ShortName(prefix, a) == ShortName(prefix, b) <==>
              if |a| < 8 || |b| < 8 then a == b else a[..8] == b[..8]
  {
    var head := prefix + "-reroute-";
    assert (head + Short(a))[|head|..] == Short(a) && (head + Short(b))[|head|..] == Short(b);
  }

  // The policies of a name are among those of the other names.
  lemma {:induction false} NamedAmongOthers(ps: seq<Policy>, name: PolicyName, other: PolicyName)
    requires name != other
    ensures Named(Others(ps, name), other) == Named(ps, other)
  {
    if ps == [] {
    } else {
      var front, p := ps[..|ps| - 1], ps[|ps| - 1];
      NamedAmongOthers(front, name, other);
      Snoc(Others(front, name), p, other);
    }
  }

  // How far creation comes: a call that raises before it took effect, or after, or whose wait raises, stops it.
  function StageOf(f: Faults): Stage {
    if f.targetsMissing || f.create == FailsBefore then Nothing
    else if f.create == FailsAfter || f.createWaitRaises || f.addRule == FailsBefore then Orphan
    else Finished
  }

  class OctaviaAdapter {
    const prefix: string
    var policies: seq<Policy>
    var nextId: nat

    constructor (prefix: string)
      ensures Valid() && policies == [] && this.prefix == prefix
    {
      this.prefix, policies, nextId := prefix, [], 0;
    }

    ghost predicate Valid()
      reads this
    {
      Fresh(policies, nextId)
    }

    method DeleteOrphan(name: PolicyName, orphan: Policy, takes: bool)
      requires Valid() && Named(policies, name) != [] && orphan == Named(policies, name)[0]
      modifies this
      ensures Valid() && Others(policies, name) == old(Others(policies, name)) && nextId == old(nextId)
      ensures Named(policies, name) == if takes then old(Named(policies, name))[1..] else old(Named(policies, name))
    {
      if takes {
        RemoveFirst(policies, name, nextId);
        RemoveFresh(policies, orphan.id, nextId);
        policies := Remove(policies, orphan.id);
      }
    }

    method CreatePolicy(name: PolicyName) returns (id: nat)
      modifies this
      ensures id == old(nextId) && nextId == id + 1 && policies == old(policies) + [Policy(id, name, [])]
    {
      id := nextId;
      policies, nextId := policies + [Policy(id, name, [])], nextId + 1;
    }

    method CreateRule(id: nat, session: string, name: PolicyName, ghost before: seq<Policy>)
      requires policies == before + [Policy(id, name, [])] && Absent(before, id)
      modifies this`policies
      ensures policies == before + [Policy(id, name, [CookieRule(session)])]
    {
      RuleGoesToNewPolicy(before, name, id, CookieRule(session));
      policies := AddRule(policies, id, CookieRule(session));
    }

    // Creates the policy and then its rule, stopping at the first call that raises: nothing, an orphan without its
    // rule, or the finished policy is left behind, with an id of its own.
    method CreateSteps(name: PolicyName, session: string, f: Faults) returns (r: Result<nat, ()>, ghost stage: Stage)
      requires Valid()
      modifies this
      ensures policies == old(policies) + Made(stage, old(nextId), name, session)
      ensures nextId == if stage == Nothing then old(nextId) else old(nextId) + 1
      ensures !f.targetsMissing ==> stage == StageOf(f)
      ensures r.Ok? ==> stage == Finished && r.value == old(nextId)
      ensures !f.targetsMissing ==> (r.Err? <==> Interrupted(f))
    {
      stage := Nothing;
      if f.create == FailsBefore { return Err(()), stage; }
      ghost var before := policies;
      IdsBelow(before, nextId);
      var id := CreatePolicy(name);
      stage := Orphan;
      if f.create == FailsAfter || f.createWaitRaises || f.addRule == FailsBefore { return Err(()), stage; }
      CreateRule(id, session, name, before);
      stage := Finished;
      if f.addRule == FailsAfter || f.ruleWaitRaises { return Err(()), stage; }
      return Ok(id), stage;
    }

    // The same, as seen from the policies of this name and of the others
    method CreateWithRule(name: PolicyName, session: string, f: Faults)
        returns (r: Result<nat, ()>, ghost stage: Stage, ghost id: nat)
      requires Valid()
      modifies this
      ensures id == old(nextId) && (!f.targetsMissing ==> stage == StageOf(f))
      ensures Valid() && Others(policies, name) == old(Others(policies, name))
      ensures Named(policies, name) == old(Named(policies, name)) + Made(stage, id, name, session)
      ensures r.Ok? ==> stage == Finished && r.value == id
      ensures !f.targetsMissing ==> (r.Err? <==> Interrupted(f))
    {
      ghost var before := policies;
      id := nextId;
      r, stage := CreateSteps(name, session, f);
      MadeViews(before, stage, id, name, session);
    }

    // One attempt to reroute a session ("" when none is known). Ok(None) is the no-op answer.
    method Reroute(requestId: string, session: string, f: Faults) returns (r: Result<Option<nat>, ()>)
      requires Valid()
      modifies this
      // Policies of other names are never touched.
      ensures Valid() && Others(policies, ShortName(prefix, requestId)) ==
              old(Others(policies, ShortName(prefix, requestId)))
      // From at most one policy of its name, an attempt that returns leaves exactly one, carrying exactly this
      // session's rule, and returns its id, if and only if it could settle.
      ensures var name := ShortName(prefix, requestId); var own := old(Named(policies, name));
              r.Ok? && session != "" && |own| <= 1 ==>
                ((r.value.Some? && Settled(policies, name, session, r.value.value)) <==> CanSettle(own, session, f))
      // Whether it returns or raises, a recoverable state stays recoverable when orphans can be deleted.
      ensures var name := ShortName(prefix, requestId);
              old(Recoverable(policies, name, session)) && session != "" && f.deleteTakes ==>
                Recoverable(policies, name, session)
      // A policy that has rules, or whose rules cannot be read, is returned as it is: repeating a settled reroute adds
      // nothing.
      ensures var own := old(Named(policies, ShortName(prefix, requestId)));
              !f.listRaises && own != [] && (own[0].rules != [] || f.rulesRaise) ==>
                policies == old(policies) && r == Ok(Some(own[0].id))
      // Otherwise a policy is created if a session is known, and the attempt raises exactly when one of the calls does;
      // without a session nothing is created.
      ensures var own := old(Named(policies, ShortName(prefix, requestId)));
              !f.listRaises && (own == [] || (own[0].rules == [] && !f.rulesRaise)) ==>
                if session == "" then r == Ok(None) && |Named(policies, ShortName(prefix, requestId))| <= |own|
                else (r.Err? <==>
                      || f.targetsMissing || f.create != Succeeds || f.createWaitRaises || f.addRule != Succeeds
                      || f.ruleWaitRaises)
      // What is left of the policies of this name: those found, without the first one if it was an orphan that could be
      // deleted, and then what creation came to.
      ensures var name := ShortName(prefix, requestId); var own := old(Named(policies, name));
              !f.listRaises && (own == [] || (own[0].rules == [] && !f.rulesRaise)) ==>
                Named(policies, name) ==
                (if own != [] && f.deleteTakes then own[1..] else own)
                + Made(if session == "" then Nothing else StageOf(f), old(nextId), name, session)
      ensures f.listRaises ==> r.Err? && policies == old(policies)
    {
      var name := ShortName(prefix, requestId);
      if f.listRaises { return Err(()); }
      var own := Named(policies, name);
      if own != [] {
        var existing := own[0];
        NamedPresent(policies, name);
        var hasRules := f.rulesRaise || existing.rules != [];
        if hasRules { return Ok(Some(existing.id)); }
        DeleteOrphan(name, existing, f.deleteTakes);
      }
      if session == "" { return Ok(None); }
      if f.targetsMissing { return Err(()); }
      var created, stage, id := CreateWithRule(name, session, f);
      if created.Err? { return Err(()); }
      return Ok(Some(created.value));
    }

    // Any number of interrupted attempts, until one returns: if rules can be read and orphans deleted, the first
    // attempt that returns has settled the reroute, whatever the earlier ones left behind; and one does return if some
    // attempt meets no call that raises.
    method RetryReroute(requestId: string, session: string, attempts: seq<Faults>) returns (r: Result<nat, ()>)
      requires Valid() && session != "" && Recoverable(policies, ShortName(prefix, requestId), session)
      requires forall f | f in attempts :: !f.rulesRaise && f.deleteTakes
      modifies this
      ensures Valid() && Recoverable(policies, ShortName(prefix, requestId), session)
      ensures Others(policies, ShortName(prefix, requestId)) == old(Others(policies, ShortName(prefix, requestId)))
      ensures r.Ok? ==> Settled(policies, ShortName(prefix, requestId), session, r.value)
      ensures (exists f :: f in attempts && !f.listRaises && !Interrupted(f)) ==> r.Ok?
    {
      r := Err(());
      var i := 0;
      while i < |attempts| && r.Err?
        invariant i <= |attempts| && Valid() && Recoverable(policies, ShortName(prefix, requestId), session)
        invariant Others(policies, ShortName(prefix, requestId)) == old(Others(policies, ShortName(prefix, requestId)))
        invariant r.Ok? ==> Settled(policies, ShortName(prefix, requestId), session, r.value)
        invariant r.Err? ==> forall j | 0 <= j < i :: attempts[j].listRaises || Interrupted(attempts[j])
        decreases |attempts| - i
      {
        var answer := Reroute(requestId, session, attempts[i]);
        if answer.Ok? { r := Ok(answer.value.value); }
        i := i + 1;
      }
    }

    // Two requests in turn, each of which could settle by itself: when both return, the second one has its own session
    // rerouted exactly if the ids differ in their first eight characters, or the session is the same. Otherwise it is
    // answered with the policy of the first, and nothing is added.
    method RerouteBoth(a: string, b: string, session: string, other: string, f: Faults, g: Faults)
      returns (first: Result<Option<nat>, ()>, second: Result<Option<nat>, ()>)
      requires Valid() && session != "" && other != ""
      requires |Named(policies, ShortName(prefix, a))| <= 1
               && CanSettle(Named(policies, ShortName(prefix, a)), session, f)
      requires |Named(policies, ShortName(prefix, b))| <= 1
      requires ShortName(prefix, a) != ShortName(prefix, b) ==>
                 CanSettle(Named(policies, ShortName(prefix, b)), other, g)
      modifies this
      ensures var same := if |a| < 8 || |b| < 8 then a == b else a[..8] == b[..8];
              first.Ok? && second.Ok? ==>
                && first.value.Some? && Settled(policies, ShortName(prefix, a), session, first.value.value)
                && second.value.Some?
                && (Settled(policies, ShortName(prefix, b), other, second.value.value) <==>
                    !same || session == other)
                && (same ==> second == first)
    {
      ghost var nameA, nameB := ShortName(prefix, a), ShortName(prefix, b);
      NamesCollide(prefix, a, b);
      ghost var before := policies;
      first := Reroute(a, session, f);
      ghost var between := policies;
      second := Reroute(b, other, g);
      if nameA != nameB {
        NamedAmongOthers(before, nameA, nameB);
        NamedAmongOthers(between, nameA, nameB);
        NamedAmongOthers(between, nameB, nameA);
        NamedAmongOthers(policies, nameB, nameA);
      }
    }

    // Deletes one policy if it is a reroute policy, and says whether that is to be counted.
    method PurgeOne(p: Policy, takes: bool, raises: bool) returns (counted: bool)
      modifies this`policies
      ensures policies == if IsReroute(prefix, p) && takes then Remove(old(policies), p.id) else old(policies)
      ensures counted == (IsReroute(prefix, p) && !raises)
    {
      counted := false;
      if IsReroute(prefix, p) {
        if takes { policies := Remove(policies, p.id); }
        counted := !raises;
      }
    }

    // Deletes every reroute policy; a delete may have no effect, and one that raises is not counted. If the load
    // balancer cannot be looked up or its policies cannot be listed, nothing happens.
    method Purge(lookupRaises: bool, takes: nat -> bool, raises: nat -> bool) returns (n: Result<nat, ()>)
      requires Valid()
      modifies this`policies
      ensures Valid()
      ensures policies == if lookupRaises then old(policies) else Kept(old(policies), prefix, takes)
      ensures n == if lookupRaises then Err(()) else Ok(Counted(old(policies), prefix, raises))
    {
      if lookupRaises { return Err(()); }
      var snapshot, count := policies, 0;
      PurgeStart(snapshot, prefix, takes, raises);
      for i := 0 to |snapshot|
        invariant Purged(snapshot, i, prefix, takes, raises, policies, count)
      {
        PurgeNext(snapshot, i, prefix, takes, raises, policies, count, nextId);
        var counted := PurgeOne(snapshot[i], takes(i), raises(i));
        if counted { count := count + 1; }
      }
      PurgeEnd(snapshot, prefix, takes, raises, policies, count);
      KeptFresh(snapshot, prefix, takes, nextId);
      return Ok(count);
    }
  }

  // ---- What a purge leaves ----

  // A purge whose deletes all take effect leaves no policy of any request, and leaves every other policy in place.
  lemma {:induction false} PurgeIsComplete(ps: seq<Policy>, prefix: string, takes: nat -> bool, name: PolicyName)
    requires forall i :: takes(i)
    ensures prefix + "-reroute-" <= name.text ==> Named(Kept(ps, prefix, takes), name) == []
    ensures !(prefix + "-reroute-" <= name.text) ==> Named(Kept(ps, prefix, takes), name) == Named(ps, name)
  {
    if ps == [] {
    } else {
      var front, p := ps[..|ps| - 1], ps[|ps| - 1];
      PurgeIsComplete(front, prefix, takes, name);
      Snoc(Kept(front, prefix, takes), p, name);
    }
  }

  // So after such a purge no request finds a policy of its name, whatever its id.
  lemma PurgeForgetsEveryRequest(ps: seq<Policy>, prefix: string, takes: nat -> bool, requestId: string)
    requires forall i :: takes(i)
    ensures Named(Kept(ps, prefix, takes), ShortName(prefix, requestId)) == []
  {
    PurgeIsComplete(ps, prefix, takes, ShortName(prefix, requestId));
  }

  // The count of a purge is the number of reroute policies whose delete returns.
  lemma {:induction false} CountedIsNumber(ps: seq<Policy>, prefix: string, raises: nat -> bool)
    ensures Counted(ps, prefix, raises) ==
            |set i | 0 <= i < |ps| && prefix + "-reroute-" <= ps[i].name.text && !raises(i)|
  {
    if ps == [] {
    } else {
      var front, n := ps[..|ps| - 1], |ps| - 1;
      CountedIsNumber(front, prefix, raises);
      var before := set i | 0 <= i < |front| && prefix + "-reroute-" <= front[i].name.text && !raises(i);
      var all := set i | 0 <= i < |ps| && prefix + "-reroute-" <= ps[i].name.text && !raises(i);
      if IsReroute(prefix, ps[n]) && !raises(n) { assert all == before + {n}; } else { assert all == before; }
    }
  }

  lemma {:induction false} AbsentMember(ps: seq<Policy>, p: Policy)
    requires Absent(ps, p.id)
    ensures p !in ps
  {
    if ps == [] {
    } else {
      AbsentMember(ps[..|ps| - 1], p);
      assert ps == ps[..|ps| - 1] + [ps[|ps| - 1]];
    }
  }

  // With unique ids, a policy stays exactly if it is no reroute policy or its delete has no effect.
  lemma {:induction false} KeptIsExact(ps: seq<Policy>, prefix: string, takes: nat -> bool, nextId: nat, i: nat)
    requires Fresh(ps, nextId) && i < |ps|
    ensures ps[i] in Kept(ps, prefix, takes) <==> !(prefix + "-reroute-" <= ps[i].name.text && takes(i))
  {
    var front, p := ps[..|ps| - 1], ps[|ps| - 1];
    if i < |front| {
      KeptIsExact(front, prefix, takes, nextId, i);
      AbsentAt(front, i, p.id);
    } else {
      KeptKeepsAbsent(front, prefix, takes, p.id);
      AbsentMember(Kept(front, prefix, takes), p);
    }
  }
}
