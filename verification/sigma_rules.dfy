/** The Sigma rule engine in its imperative form: the cursor-based condition evaluator, the field tests of a
    selection, and the matching of one event against all rules. */
module SigmaRules {
  import opened Wrappers
  import opened SigmaLexer
  import opened SigmaCondition

  // One evaluation of a condition: the token list, the truth table, and the cursor that consume advances.
  class ConditionEvaluator {
    const tokens: seq<string>
    const truth: Truth
    var tokenIdx: nat

    constructor (tokens: seq<string>, truth: Truth)
      ensures this.tokens == tokens && this.truth == truth && tokenIdx == 0
    {
      this.tokens, this.truth, tokenIdx := tokens, truth, 0;
    }

    // The cursor never passes the end.
    ghost predicate Valid()
      reads this
    {
      tokenIdx <= |tokens|
    }

    // The tokens at and after the cursor, as the evaluator sees them
    ghost function Ahead(): seq<Tok>
      requires Valid()
      reads this
    {
      ClassifyAll(
        seq(|tokens| - tokenIdx, i requires 0 <= i < |tokens| - tokenIdx reads this => Lower(tokens[tokenIdx + i])))
    }

    // What p leaves behind: no exception, this value, and the cursor in front of this rest
    ghost predicate Follows(raised: bool, val: bool, p: Parse)
      requires Valid()
      reads this
    {
      match p
      case Raised => raised
      case Done(v, rest) => !raised && val == v && Ahead() == rest
    }

    function Peek(): (t: Option<string>)
      requires Valid()
      reads this
      ensures t.None? <==> Ahead() == []
      ensures t.Some? ==> Ahead()[0] == Classify(t.value)
    {
      if tokenIdx < |tokens| then Some(Lower(tokens[tokenIdx])) else None
    }

    // Advances past the token ahead; raises when another one was expected.
    method Consume(expected: Option<string>) returns (raised: bool, t: Option<string>)
      requires Valid() && (expected.None? ==> Ahead() != [])
      modifies this
      ensures Valid() && t == old(Peek())
      ensures raised == (expected.Some? && t != expected)
      ensures raised ==> tokenIdx == old(tokenIdx)
      ensures !raised ==> tokenIdx == old(tokenIdx) + 1 && old(Ahead()) != [] && Ahead() == old(Ahead())[1..]
    {
      t := Peek();
      raised := expected.Some? && t != expected;
      if !raised {
        tokenIdx := tokenIdx + 1;
      }
    }

    method ParseFactor() returns (raised: bool, val: bool)
      requires Valid()
      modifies this
      ensures Valid() && old(tokenIdx) <= tokenIdx
      ensures Follows(raised, val, Factor(old(Ahead()), truth))
      decreases |tokens| - tokenIdx, 0
    {
      raised, val := false, false;
      var t := Peek();
      if t == Some("not") {
        var _, _ := Consume(Some("not"));
        raised, val := ParseFactor();
        val := !val;
      } else if t == Some("(") {
        var _, _ := Consume(Some("("));
        raised, val := ParseExpr();
        if !raised {
          var missing, _ := Consume(Some(")"));
          raised := missing;
        }
      } else if t.Some? && t.value !in {"and", "or", ")"} {
        var _, name := Consume(None);
        val := Lookup(truth, name.value);
      }
    }

    method ParseTerm() returns (raised: bool, val: bool)
      requires Valid()
      modifies this
      ensures Valid() && old(tokenIdx) <= tokenIdx
      ensures Follows(raised, val, Term(old(Ahead()), truth))
      decreases |tokens| - tokenIdx, 1
    {
      raised, val := ParseFactor();
      while !raised && Peek() == Some("and")
        invariant Valid() && old(tokenIdx) <= tokenIdx
        invariant Term(old(Ahead()), truth) == if raised then Raised else TermRest(val, Ahead(), truth)
        decreases !raised, |tokens| - tokenIdx
      {
        var _, _ := Consume(Some("and"));
        var failed, right := ParseFactor();
        raised, val := failed, val && right;
      }
    }

    method ParseExpr() returns (raised: bool, val: bool)
      requires Valid()
      modifies this
      ensures Valid() && old(tokenIdx) <= tokenIdx
      ensures Follows(raised, val, Expr(old(Ahead()), truth))
      decreases |tokens| - tokenIdx, 2
    {
      raised, val := ParseTerm();
      while !raised && Peek() == Some("or")
        invariant Valid() && old(tokenIdx) <= tokenIdx
        invariant Expr(old(Ahead()), truth) == if raised then Raised else ExprRest(val, Ahead(), truth)
        decreases !raised, |tokens| - tokenIdx
      {
        var _, _ := Consume(Some("or"));
        var failed, right := ParseTerm();
        raised, val := failed, val || right;
      }
    }
  }

  // ---- Selections and rules ----

  // The attributes of an event as strings; an absent or null attribute reads as "".
  datatype Event = Event(timestamp: real, attributes: map<string, string>)

  // A "field" or "field|modifier" key with its patterns
  datatype FieldTest = FieldTest(key: string, patterns: seq<string>)

  // What stands under a selection's name need not be a mapping of field tests.
  datatype Selection = Fields(tests: seq<FieldTest>) | NotAMapping

  datatype Rule = Rule(
    id: string, title: string, severity: string, selections: map<string, Selection>, condition: string)

  datatype SigmaHit = SigmaHit(
    ruleId: string, title: string, severity: string, matchedAt: real, eventIndex: nat,
    fieldsMatched: map<string, string>)

  const REPORTED_FIELDS := {"src_ip", "path", "method"}

  function HitOf(r: Rule, e: Event, idx: nat): SigmaHit {
    var fields := map f | f in REPORTED_FIELDS && f in e.attributes :: e.attributes[f];
    SigmaHit(r.id, r.title, r.severity, e.timestamp, idx, fields)
  }

  // p occurs in value
  predicate Contains(value: string, p: string) {
    p <= value || (value != "" && Contains(value[1..], p))
  }

  // The text before the first "|", and the text after it ("equals" when there is none)
  function SplitKey(key: string): (r: (string, string))
    ensures '|' !in r.0
    ensures if '|' in key then key == r.0 + "|" + r.1 else key == r.0 && r.1 == "equals"
  {
    if key == "" then ("", "equals")
    else if key[0] == '|' then ("", key[1..])
    else
      var (f, m) := SplitKey(key[1..]);
      ([key[0]] + f, m)
  }

  // p stands in value at this position.
  predicate OccursAt(value: string, p: string, i: nat) {
    i + |p| <= |value| && value[i..i + |p|] == p
  }

  lemma OccursLater(value: string, p: string, i: nat)
    requires value != ""
    ensures OccursAt(value[1..], p, i) <==> OccursAt(value, p, i + 1)
  {
    if i + 1 + |p| <= |value| { assert value[1..][i..i + |p|] == value[i + 1..i + 1 + |p|]; }
  }

  lemma OccursFirst(value: string, p: string)
    ensures OccursAt(value, p, 0) <==> p <= value
  {}

  lemma {:induction false} ContainsIsOccurrence(value: string, p: string)
    ensures Contains(value, p) <==> exists i: nat :: OccursAt(value, p, i)
  {
    OccursFirst(value, p);
    if p <= value {
    } else if value == "" {
    } else {
      ContainsIsOccurrence(value[1..], p);
      if i: nat :| OccursAt(value[1..], p, i) { OccursLater(value, p, i); }
      if i: nat :| OccursAt(value, p, i) { OccursLater(value, p, i - 1); }
    }
  }

  ghost predicate PatternHolds(modifier: string, value: string, p: string) {
    if modifier == "contains" then exists i: nat :: OccursAt(value, p, i) else value == p
  }

  ghost predicate TestHolds(t: FieldTest, e: Event) {
    var (field, modifier) := SplitKey(t.key);
    var value := if field in e.attributes then e.attributes[field] else "";
    exists p | p in t.patterns :: PatternHolds(modifier, value, p)
  }

  ghost predicate Selected(tests: seq<FieldTest>, e: Event) {
    forall t | t in tests :: TestHolds(t, e)
  }

  method EvalSelection(s: seq<FieldTest>, e: Event) returns (holds: bool)
    ensures holds == Selected(s, e)
    ensures holds <==>
              forall t | t in s ::
                var (field, modifier) := SplitKey(t.key);
                var value := if field in e.attributes then e.attributes[field] else "";
                if modifier == "contains" then exists p :: p in t.patterns && exists i: nat :: OccursAt(value, p, i)
                else value in t.patterns
  {
    for i := 0 to |s|
      invariant forall j | 0 <= j < i :: TestHolds(s[j], e)
    {
      var (field, modifier) := SplitKey(s[i].key);
      var value := if field in e.attributes then e.attributes[field] else "";
      if modifier == "contains" {
        forall p ensures Contains(value, p) <==> PatternHolds(modifier, value, p) { ContainsIsOccurrence(value, p); }
        if !exists p | p in s[i].patterns :: Contains(value, p) {
          assert forall p | p in s[i].patterns :: !PatternHolds(modifier, value, p);
          assert !TestHolds(s[i], e);
          return false;
        }
        assert exists p | p in s[i].patterns :: PatternHolds(modifier, value, p);
      } else {
        if value !in s[i].patterns {
          assert forall p | p in s[i].patterns :: !PatternHolds(modifier, value, p);
          assert !TestHolds(s[i], e);
          return false;
        }
        assert PatternHolds(modifier, value, value);
      }
    }
    return true;
  }

  // Every selection of the rule is a mapping; one that is not makes the rule raise on every event.
  predicate WellFormed(r: Rule) {
    forall n | n in r.selections && n != "condition" :: r.selections[n].Fields?
  }

  ghost function TruthTable(r: Rule, e: Event): Truth {
    map n | n in r.selections && n != "condition" :: r.selections[n].Fields? && Selected(r.selections[n].tests, e)
  }

  // Every selection but "condition" has its entry, true exactly if the selection is one that holds of the event.
  lemma TruthTableIsExact(r: Rule, e: Event, n: string)
    ensures n in TruthTable(r, e) <==> n in r.selections && n != "condition"
    ensures n in TruthTable(r, e) ==>
              TruthTable(r, e)[n] == (r.selections[n].Fields? && Selected(r.selections[n].tests, e))
  {}

  ghost predicate Fires(r: Rule, e: Event) {
    Value(r.condition, TruthTable(r, e))
  }

  method BuildTruth(r: Rule, e: Event) returns (truth: Result<Truth, ()>)
    ensures truth == if WellFormed(r) then Ok(TruthTable(r, e)) else Err(())
  {
    var table: Truth := map[];
    var names := r.selections.Keys - {"condition"};
    while names != {}
      invariant names <= r.selections.Keys - {"condition"}
      invariant forall n | n in r.selections && n != "condition" && n !in names :: r.selections[n].Fields?
      invariant table == map n | n in r.selections && n != "condition" && n !in names ::
                           r.selections[n].Fields? && Selected(r.selections[n].tests, e)
    {
      var n :| n in names;
      if r.selections[n].NotAMapping? { return Err(()); }
      var holds := EvalSelection(r.selections[n].tests, e);
      table := table[n := holds];
      names := names - {n};
    }
    assert table == TruthTable(r, e);
    return Ok(table);
  }

  // A hit exactly when the condition holds of the event; a condition that raises gives no hit, and a rule that is not
  // well-formed raises whatever its condition.
  method Match(r: Rule, e: Event, idx: nat) returns (hit: Result<Option<SigmaHit>, ()>)
    ensures hit == if !WellFormed(r) then Err(()) else if Fires(r, e) then Ok(Some(HitOf(r, e, idx))) else Ok(None)
    // A hit names its rule and event, and those of the three reported attributes that the event has.
    ensures hit.Ok? && hit.value.Some? ==>
              var h := hit.value.value;
              && h.ruleId == r.id && h.title == r.title && h.severity == r.severity
              && h.matchedAt == e.timestamp && h.eventIndex == idx
              && h.fieldsMatched == map f | f in {"src_ip", "path", "method"} && f in e.attributes :: e.attributes[f]
  {
    var truth := BuildTruth(r, e);
    if truth.Err? { return Err(()); }
    var words := Tokens(r.condition);
    TokensShape(r.condition);
    var evaluator := new ConditionEvaluator(words, truth.value);
    assert evaluator.Ahead() == ClassifyAll(words);
    var raised, result := evaluator.ParseExpr();
    if raised { result := false; }
    return Ok(if result then Some(HitOf(r, e, idx)) else None);
  }

  // The hits come from the rules that fire, one each, in rule order.
  ghost function Firing(rules: seq<Rule>, e: Event, idx: nat): seq<SigmaHit> {
    if rules == [] then []
    else
      var front, r := Firing(rules[..|rules| - 1], e, idx), rules[|rules| - 1];
      if Fires(r, e) then front + [HitOf(r, e, idx)] else front
  }

  method MatchEvent(rules: seq<Rule>, e: Event, idx: nat) returns (hits: Result<seq<SigmaHit>, ()>)
    ensures hits == if forall r | r in rules :: WellFormed(r) then Ok(Firing(rules, e, idx)) else Err(())
  {
    var found := [];
    for i := 0 to |rules|
      invariant found == Firing(rules[..i], e, idx)
      invariant forall j | 0 <= j < i :: WellFormed(rules[j])
    {
      var hit := Match(rules[i], e, idx);
      if hit.Err? { return Err(()); }
      if hit.value.Some? {
        found := found + [hit.value.value];
      }
      assert rules[..i + 1][..i] == rules[..i];
    }
    assert rules[..|rules|] == rules;
    return Ok(found);
  }

  // A rule whose condition prints a tree over good selection names fires exactly on the events that
  // satisfy the tree, each name standing for its selection.
  lemma RuleMeansItsTree(r: Rule, c: Cond, e: Event)
    requires GoodNames(c) && r.condition == Print(c, EXPR)
    ensures Fires(r, e) == Meaning(c, TruthTable(r, e))
  {
    RoundTrip(c, TruthTable(r, e));
  }
}
