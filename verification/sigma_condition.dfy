/** The boolean condition of a Sigma rule: its syntax trees and their meaning, the evaluator that
    computes a value while it parses, and the theorems that tie the two together. */
module SigmaCondition {
  import opened SigmaLexer

  type Truth = map<string, bool>

  // Missing is an operand that is not there; it counts as false. Group is a redundant pair of parentheses.
  datatype Cond = Missing | Name(name: string) | Not(arg: Cond) | And(left: Cond, right: Cond)
                | Or(left: Cond, right: Cond) | Group(body: Cond)

  function Lookup(truth: Truth, name: string): bool {
    if name in truth then truth[name] else false
  }

  function Meaning(c: Cond, truth: Truth): bool {
    match c
    case Missing => false
    case Name(n) => Lookup(truth, n)
    case Not(d) => !Meaning(d, truth)
    case And(l, r) => Meaning(l, truth) && Meaning(r, truth)
    case Or(l, r) => Meaning(l, truth) || Meaning(r, truth)
    case Group(d) => Meaning(d, truth)
  }

  // ---- Printing, with parentheses only where precedence needs them ----

  // The precedence a position asks for: EXPR admits or, TERM admits and, FACTOR admits neither.
  const EXPR := 0

  const TERM := 1
  const FACTOR := 2

  function Wrap(needed: bool, s: string): string {
    if needed then "(" + s + ")" else s
  }

  function Print(c: Cond, level: nat): string {
    match c
    case Missing => ""
    case Name(n) => n
    case Not(d) => "not " + Print(d, FACTOR)
    case And(l, r) => Wrap(level > TERM, Print(l, TERM) + " and " + Print(r, TERM))
    case Or(l, r) => Wrap(level > EXPR, Print(l, EXPR) + " or " + Print(r, EXPR))
    case Group(d) => "(" + Print(d, EXPR) + ")"
  }

  // What a token is to the evaluator: a keyword, a parenthesis, or the name of a selection.
  datatype Tok = TNot | TAnd | TOr | TOpen | TClose | TName(name: string)

  function Classify(t: string): Tok {
    if t == "not" then TNot else if t == "and" then TAnd else if t == "or" then TOr
    else if t == "(" then TOpen else if t == ")" then TClose else TName(t)
  }

  function ClassifyAll(ts: seq<string>): (ks: seq<Tok>)
    ensures |ks| == |ts|
  {
    seq(|ts|, i requires 0 <= i < |ts| => Classify(ts[i]))
  }

  function WrapToks(needed: bool, ts: seq<Tok>): seq<Tok> {
    if needed then [TOpen] + ts + [TClose] else ts
  }

  // The tokens of c in a position of this precedence
  function Toks(c: Cond, level: nat): seq<Tok> {
    match c
    case Missing => []
    case Name(n) => [TName(n)]
    case Not(d) => [TNot] + Toks(d, FACTOR)
    case And(l, r) => WrapToks(level > TERM, Toks(l, TERM) + [TAnd] + Toks(r, TERM))
    case Or(l, r) => WrapToks(level > EXPR, Toks(l, EXPR) + [TOr] + Toks(r, EXPR))
    case Group(d) => [TOpen] + Toks(d, EXPR) + [TClose]
  }

  // ---- What can be a selection name ----

  predicate GoodName(n: string) {
    Word(n) && Lower(n) == n && Classify(n).TName?
  }

  predicate GoodNames(c: Cond) {
    match c
    case Missing => true
    case Name(n) => GoodName(n)
    case Not(d) => GoodNames(d)
    case And(l, r) => GoodNames(l) && GoodNames(r)
    case Or(l, r) => GoodNames(l) && GoodNames(r)
    case Group(d) => GoodNames(d)
  }

  // ---- The evaluator, on the tokens still ahead of the cursor ----

  datatype Parse = Raised | Done(val: bool, rest: seq<Tok>)

  function ExprRest(val: bool, ts: seq<Tok>, truth: Truth): (p: Parse)
    ensures p.Done? ==> |p.rest| <= |ts|
    decreases |ts|, 3
  {
    if ts != [] && ts[0] == TOr then
      match Term(ts[1..], truth)
      case Raised => Raised
      case Done(v, rest) => ExprRest(val || v, rest, truth)
    else Done(val, ts)
  }

  function Expr(ts: seq<Tok>, truth: Truth): (p: Parse)
    ensures p.Done? ==> |p.rest| <= |ts|
    decreases |ts|, 4
  {
    match Term(ts, truth)
    case Raised => Raised
    case Done(v, rest) => ExprRest(v, rest, truth)
  }

  function Factor(ts: seq<Tok>, truth: Truth): (p: Parse)
    ensures p.Done? ==> |p.rest| <= |ts|
    decreases |ts|, 0
  {
    if ts == [] then Done(false, ts)
    else if ts[0] == TNot then
      match Factor(ts[1..], truth)
      case Raised => Raised
      case Done(v, rest) => Done(!v, rest)
    else if ts[0] == TOpen then
      match Expr(ts[1..], truth)
      case Raised => Raised
      case Done(v, rest) => if rest != [] && rest[0] == TClose then Done(v, rest[1..]) else Raised
    else if !ts[0].TName? then Done(false, ts)
    else Done(Lookup(truth, ts[0].name), ts[1..])
  }

  function TermRest(val: bool, ts: seq<Tok>, truth: Truth): (p: Parse)
    ensures p.Done? ==> |p.rest| <= |ts|
    decreases |ts|, 1
  {
    if ts != [] && ts[0] == TAnd then
      match Factor(ts[1..], truth)
      case Raised => Raised
      case Done(v, rest) => TermRest(val && v, rest, truth)
    else Done(val, ts)
  }

  function Term(ts: seq<Tok>, truth: Truth): (p: Parse)
    ensures p.Done? ==> |p.rest| <= |ts|
    decreases |ts|, 2
  {
    match Factor(ts, truth)
    case Raised => Raised
    case Done(v, rest) => TermRest(v, rest, truth)
  }

  // The value of a condition text: a raised failure and unread trailing tokens are both ignored.
  function Value(condition: string, truth: Truth): bool {
    match Expr(ClassifyAll(Tokens(condition)), truth)
    case Raised => false
    case Done(v, _) => v
  }

  // ---- Completeness: a printed tree evaluates to its meaning ----

  // The text of c at this level ends in a missing operand.
  predicate Open(c: Cond, level: nat) {
    match c
    case Missing => true
    case Name(_) => false
    case Not(d) => Open(d, FACTOR)
    case And(_, r) => level <= TERM && Open(r, TERM)
    case Or(_, r) => level <= EXPR && Open(r, EXPR)
    case Group(_) => false
  }

  // A missing operand can only be followed by one of these.
  predicate Stops(rest: seq<Tok>) {
    rest == [] || (rest[0] == TAnd || rest[0] == TOr || rest[0] == TClose)
  }

  lemma SameWithoutOr(c: Cond)
    requires !c.Or?
    ensures Toks(c, EXPR) == Toks(c, TERM) && Open(c, EXPR) == Open(c, TERM)
  {}

  lemma TermEnds(val: bool, rest: seq<Tok>, truth: Truth)
    requires rest == [] || rest[0] != TAnd
    ensures TermRest(val, rest, truth) == Done(val, rest)
  {}

  lemma OrThenTerm(ts: seq<Tok>, val: bool, m: bool, rest: seq<Tok>, truth: Truth)
    requires ts != [] && ts[0] == TOr && Term(ts[1..], truth) == Done(m, rest)
    ensures ExprRest(val, ts, truth) == ExprRest(val || m, rest, truth)
  {}

  lemma OrSplits(c: Cond, rest: seq<Tok>)
    requires c.Or?
    ensures [TOr] + Toks(c, EXPR) + rest == [TOr] + Toks(c.left, EXPR) + ([TOr] + Toks(c.right, EXPR) + rest)
  {}

  lemma {:induction false} ExprRestComplete(ts: seq<Tok>, val: bool, c: Cond, rest: seq<Tok>, truth: Truth)
    requires ts == [TOr] + Toks(c, EXPR) + rest
    requires (Open(c, EXPR) ==> Stops(rest)) && (rest == [] || rest[0] != TAnd)
    ensures ExprRest(val, ts, truth) == ExprRest(val || Meaning(c, truth), rest, truth)
    decreases c, if c.And? then 1 else if c.Or? then 0 else 3
  {
    if c.Or? {
      var tail := [TOr] + Toks(c.right, EXPR) + rest;
      OrSplits(c, rest);
      ExprRestComplete(ts, val, c.left, tail, truth);
      ExprRestComplete(tail, val || Meaning(c.left, truth), c.right, rest, truth);
    } else {
      SameWithoutOr(c);
      TermComplete(c, rest, truth);
      TermEnds(Meaning(c, truth), rest, truth);
      assert ts[1..] == Toks(c, TERM) + rest;
      OrThenTerm(ts, val, Meaning(c, truth), rest, truth);
    }
  }

  lemma {:induction false} ExprReaches(c: Cond, rest: seq<Tok>, truth: Truth)
    requires (Open(c, EXPR) ==> Stops(rest)) && (rest == [] || rest[0] != TAnd)
    ensures Expr(Toks(c, EXPR) + rest, truth) == ExprRest(Meaning(c, truth), rest, truth)
    decreases c, if c.And? then 1 else if c.Or? then 0 else 3, 0
  {
    if c.Or? {
      var tail := [TOr] + Toks(c.right, EXPR) + rest;
      assert Toks(c, EXPR) + rest == Toks(c.left, EXPR) + tail;
      ExprReaches(c.left, tail, truth);
      ExprRestComplete(tail, Meaning(c.left, truth), c.right, rest, truth);
    } else {
      TermComplete(c, rest, truth);
    }
  }

  // The tokens after a whole condition do not continue it.
  predicate Ends(c: Cond, rest: seq<Tok>) {
    (Open(c, EXPR) ==> Stops(rest)) && (rest == [] || (rest[0] != TAnd && rest[0] != TOr))
  }

  lemma ExprComplete(c: Cond, rest: seq<Tok>, truth: Truth)
    requires Ends(c, rest)
    ensures Expr(Toks(c, EXPR) + rest, truth) == Done(Meaning(c, truth), rest)
    decreases c, if c.And? then 1 else if c.Or? then 0 else 3, 1
  {
    ExprReaches(c, rest, truth);
  }

  lemma {:induction false} ParenComplete(ts: seq<Tok>, c: Cond, rest: seq<Tok>, truth: Truth)
    requires ts == [TOpen] + Toks(c, EXPR) + [TClose] + rest
    ensures Factor(ts, truth) == Done(Meaning(c, truth), rest)
    decreases c, if c.And? then 2 else if c.Or? then 0 else 5
  {
    var inner, after := Toks(c, EXPR), [TClose] + rest;
    assert ts[1..] == inner + after;
    ExprComplete(c, after, truth);
    assert after[1..] == rest;
  }

  lemma {:induction false} FactorComplete(c: Cond, rest: seq<Tok>, truth: Truth)
    requires Open(c, FACTOR) ==> Stops(rest)
    ensures Factor(Toks(c, FACTOR) + rest, truth) == Done(Meaning(c, truth), rest)
    decreases c, if c.And? then 3 else if c.Or? then 1 else 0
  {
    var ts := Toks(c, FACTOR) + rest;
    match c
    case Missing =>
      assert ts == rest;
    case Name(n) =>
      assert ts[1..] == rest;
    case Not(d) =>
      assert ts[1..] == Toks(d, FACTOR) + rest;
      FactorComplete(d, rest, truth);
    case Group(d) =>
      ParenComplete(ts, d, rest, truth);
    case And(_, _) =>
      ParenComplete(ts, c, rest, truth);
    case Or(_, _) =>
      ParenComplete(ts, c, rest, truth);
  }

  lemma {:induction false} TermRestComplete(ts: seq<Tok>, val: bool, c: Cond, rest: seq<Tok>, truth: Truth)
    requires ts == [TAnd] + Toks(c, TERM) + rest && (Open(c, TERM) ==> Stops(rest))
    ensures TermRest(val, ts, truth) == TermRest(val && Meaning(c, truth), rest, truth)
    decreases c, if c.And? then 0 else 2
  {
    if c.And? {
      var tail := [TAnd] + Toks(c.right, TERM) + rest;
      assert ts == [TAnd] + Toks(c.left, TERM) + tail;
      TermRestComplete(ts, val, c.left, tail, truth);
      TermRestComplete(tail, val && Meaning(c.left, truth), c.right, rest, truth);
    } else {
      FactorComplete(c, rest, truth);
      assert ts[1..] == Toks(c, TERM) + rest;
    }
  }

  lemma {:induction false} TermComplete(c: Cond, rest: seq<Tok>, truth: Truth)
    requires (Open(c, TERM) ==> Stops(rest))
    ensures Term(Toks(c, TERM) + rest, truth) == TermRest(Meaning(c, truth), rest, truth)
    decreases c, if c.And? then 0 else 2
  {
    if c.And? {
      var tail := [TAnd] + Toks(c.right, TERM) + rest;
      assert Toks(c, TERM) + rest == Toks(c.left, TERM) + tail;
      TermComplete(c.left, tail, truth);
      TermRestComplete(tail, Meaning(c.left, truth), c.right, rest, truth);
    } else {
      FactorComplete(c, rest, truth);
    }
  }

  // ---- Soundness: on every token list the evaluator reads a tree, or meets an unclosed parenthesis ----

  // ts starts with the tokens of c, at this level, and continues with rest.
  ghost predicate Derives(ts: seq<Tok>, c: Cond, level: nat, rest: seq<Tok>) {
    ts == Toks(c, level) + rest && (Open(c, level) ==> Stops(rest))
  }

  // ts holds, after pre, a "(" and a whole condition, and what follows is neither ")" nor more of it.
  ghost predicate Unclosed(ts: seq<Tok>, pre: seq<Tok>, inner: Cond, after: seq<Tok>) {
    && Ends(inner, after)
    && ts == pre + [TOpen] + Toks(inner, EXPR) + after
    && (after == [] || after[0] != TClose)
  }

  datatype Reading = Tree(c: Cond, rest: seq<Tok>) | Broken(pre: seq<Tok>, inner: Cond, after: seq<Tok>)

  // An unclosed parenthesis in a suffix of ts is one in ts.
  lemma Shift(ts: seq<Tok>, k: nat, r: Reading) returns (s: Reading)
    requires k <= |ts| && r.Broken? && Unclosed(ts[k..], r.pre, r.inner, r.after)
    ensures s.Broken? && Unclosed(ts, s.pre, s.inner, s.after)
  {
    s := Broken(ts[..k] + r.pre, r.inner, r.after);
    assert ts == ts[..k] + ts[k..];
  }

  lemma Glue(whole: seq<Tok>, k: nat, x: seq<Tok>, y: seq<Tok>, rest: seq<Tok>)
    requires k < |whole| && whole == x + whole[k..] && whole[k + 1..] == y + rest
    ensures whole == x + [whole[k]] + y + rest && rest == whole[|whole| - |rest|..]
  {
    assert whole[k..] == [whole[k]] + whole[k + 1..];
  }

  // Reading one more "and" operand, or one more "or" operand, extends the tree read so far.
  lemma AndExtends(whole: seq<Tok>, k: nat, a: Cond, f: Cond, rest: seq<Tok>)
    requires k < |whole| && whole[k] == TAnd && Derives(whole, a, TERM, whole[k..])
    requires Derives(whole[k + 1..], f, FACTOR, rest) && !f.And? && !f.Or?
    ensures Derives(whole, And(a, f), TERM, rest) && rest == whole[|whole| - |rest|..]
  {
    assert Toks(f, TERM) == Toks(f, FACTOR) && Open(f, TERM) == Open(f, FACTOR);
    Glue(whole, k, Toks(a, TERM), Toks(f, TERM), rest);
  }

  // ... and the loop goes on with the value of the larger tree.
  lemma AndGoesOn(ts: seq<Tok>, a: Cond, f: Cond, rest: seq<Tok>)
    requires ts != [] && ts[0] == TAnd
    requires forall truth :: Factor(ts[1..], truth) == Done(Meaning(f, truth), rest)
    ensures forall truth :: TermRest(Meaning(a, truth), ts, truth) == TermRest(Meaning(And(a, f), truth), rest, truth)
  {}

  lemma OrExtends(whole: seq<Tok>, k: nat, a: Cond, t: Cond, rest: seq<Tok>)
    requires k < |whole| && whole[k] == TOr && Derives(whole, a, EXPR, whole[k..])
    requires Derives(whole[k + 1..], t, TERM, rest) && !t.Or?
    ensures Derives(whole, Or(a, t), EXPR, rest) && rest == whole[|whole| - |rest|..]
  {
    assert Toks(t, EXPR) == Toks(t, TERM) && Open(t, EXPR) == Open(t, TERM);
    Glue(whole, k, Toks(a, EXPR), Toks(t, EXPR), rest);
  }

  lemma OrGoesOn(ts: seq<Tok>, a: Cond, t: Cond, rest: seq<Tok>)
    requires ts != [] && ts[0] == TOr
    requires forall truth :: Term(ts[1..], truth) == Done(Meaning(t, truth), rest)
    ensures forall truth :: ExprRest(Meaning(a, truth), ts, truth) == ExprRest(Meaning(Or(a, t), truth), rest, truth)
  {}

  lemma {:induction false} ExprRestSound(whole: seq<Tok>, k: nat, a: Cond) returns (r: Reading)
    requires k <= |whole| && Derives(whole, a, EXPR, whole[k..]) && (k == |whole| || whole[k] != TAnd)
    ensures r.Tree? ==> Derives(whole, r.c, EXPR, r.rest) && Ends(r.c, r.rest)
    ensures r.Tree? ==>
              forall truth :: ExprRest(Meaning(a, truth), whole[k..], truth) == Done(Meaning(r.c, truth), r.rest)
    ensures r.Broken? ==> Unclosed(whole, r.pre, r.inner, r.after)
    ensures r.Broken? ==> forall truth :: ExprRest(Meaning(a, truth), whole[k..], truth).Raised?
    decreases |whole| - k, 3
  {
    var ts := whole[k..];
    if ts == [] || ts[0] != TOr {
      r := Tree(a, ts);
    } else {
      assert ts[1..] == whole[k + 1..];
      var t := TermSound(ts[1..]);
      if t.Broken? {
        r := Shift(whole, k + 1, t);
        forall truth ensures ExprRest(Meaning(a, truth), ts, truth).Raised? { assert Term(ts[1..], truth).Raised?; }
      } else {
        OrExtends(whole, k, a, t.c, t.rest);
        OrGoesOn(ts, a, t.c, t.rest);
        r := ExprRestSound(whole, |whole| - |t.rest|, Or(a, t.c));
      }
    }
  }

  lemma {:induction false} ExprSound(ts: seq<Tok>) returns (r: Reading)
    ensures r.Tree? ==> Derives(ts, r.c, EXPR, r.rest) && Ends(r.c, r.rest)
    ensures r.Tree? ==> forall truth :: Expr(ts, truth) == Done(Meaning(r.c, truth), r.rest)
    ensures r.Broken? ==> Unclosed(ts, r.pre, r.inner, r.after) && forall truth :: Expr(ts, truth).Raised?
    decreases |ts|, 4
  {
    r := TermSound(ts);
    if r.Tree? {
      var k := |ts| - |r.rest|;
      assert r.rest == ts[k..];
      r := ExprRestSound(ts, k, r.c);
    }
  }

  lemma {:induction false} FactorSound(ts: seq<Tok>) returns (r: Reading)
    ensures r.Tree? ==> Derives(ts, r.c, FACTOR, r.rest) && !r.c.And? && !r.c.Or?
    ensures r.Tree? ==> forall truth :: Factor(ts, truth) == Done(Meaning(r.c, truth), r.rest)
    ensures r.Broken? ==> Unclosed(ts, r.pre, r.inner, r.after) && forall truth :: Factor(ts, truth).Raised?
    decreases |ts|, 0
  {
    if ts != [] && ts[0] == TNot {
      r := FactorSound(ts[1..]);
      assert ts == [TNot] + ts[1..];
      if r.Tree? { r := Tree(Not(r.c), r.rest); } else { r := Shift(ts, 1, r); }
    } else if ts != [] && ts[0] == TOpen {
      r := ExprSound(ts[1..]);
      assert ts == [TOpen] + ts[1..];
      if r.Broken? {
        r := Shift(ts, 1, r);
      } else if r.rest != [] && r.rest[0] == TClose {
        assert r.rest == [TClose] + r.rest[1..];
        r := Tree(Group(r.c), r.rest[1..]);
      } else {
        r := Broken([], r.c, r.rest);
      }
    } else if ts == [] || !ts[0].TName? {
      r := Tree(Missing, ts);
    } else {
      assert ts == [ts[0]] + ts[1..];
      r := Tree(Name(ts[0].name), ts[1..]);
    }
  }

  lemma {:induction false} TermRestSound(whole: seq<Tok>, k: nat, a: Cond) returns (r: Reading)
    requires k <= |whole| && !a.Or? && Derives(whole, a, TERM, whole[k..])
    ensures r.Tree? ==>
              && Derives(whole, r.c, TERM, r.rest) && !r.c.Or? && (r.rest == [] || r.rest[0] != TAnd)
              && |r.rest| <= |whole| - k
    ensures r.Tree? ==>
              forall truth :: TermRest(Meaning(a, truth), whole[k..], truth) == Done(Meaning(r.c, truth), r.rest)
    ensures r.Broken? ==> Unclosed(whole, r.pre, r.inner, r.after)
    ensures r.Broken? ==> forall truth :: TermRest(Meaning(a, truth), whole[k..], truth).Raised?
    decreases |whole| - k, 1
  {
    var ts := whole[k..];
    if ts == [] || ts[0] != TAnd {
      r := Tree(a, ts);
    } else {
      assert ts[1..] == whole[k + 1..];
      var f := FactorSound(ts[1..]);
      if f.Broken? {
        r := Shift(whole, k + 1, f);
        forall truth ensures TermRest(Meaning(a, truth), ts, truth).Raised? { assert Factor(ts[1..], truth).Raised?; }
      } else {
        AndExtends(whole, k, a, f.c, f.rest);
        AndGoesOn(ts, a, f.c, f.rest);
        r := TermRestSound(whole, |whole| - |f.rest|, And(a, f.c));
      }
    }
  }

  lemma {:induction false} TermSound(ts: seq<Tok>) returns (r: Reading)
    ensures r.Tree? ==>
              && Derives(ts, r.c, TERM, r.rest) && !r.c.Or? && (r.rest == [] || r.rest[0] != TAnd)
              && |r.rest| <= |ts|
    ensures r.Tree? ==> forall truth :: Term(ts, truth) == Done(Meaning(r.c, truth), r.rest)
    ensures r.Broken? ==> Unclosed(ts, r.pre, r.inner, r.after) && forall truth :: Term(ts, truth).Raised?
    decreases |ts|, 2
  {
    r := FactorSound(ts);
    if r.Tree? {
      var k := |ts| - |r.rest|;
      assert r.rest == ts[k..];
      r := TermRestSound(ts, k, r.c);
    }
  }

  // ---- Main theorems ----

  // The evaluator returns v and leaves rest exactly when the tokens are those of some tree with that
  // meaning, followed by a rest that does not continue it: evaluating while parsing is parsing, then evaluating.
  lemma EvaluatesExactlyTheTrees(ts: seq<Tok>, truth: Truth, v: bool, rest: seq<Tok>)
    ensures Expr(ts, truth) == Done(v, rest)
            <==> exists c :: Derives(ts, c, EXPR, rest) && Ends(c, rest) && Meaning(c, truth) == v
  {
    if Expr(ts, truth) == Done(v, rest) {
      var r := ExprSound(ts);
      assert r.Tree?;
      assert Derives(ts, r.c, EXPR, rest) && Ends(r.c, rest) && Meaning(r.c, truth) == v;
    }
    forall c | Derives(ts, c, EXPR, rest) && Ends(c, rest) && Meaning(c, truth) == v
      ensures Expr(ts, truth) == Done(v, rest)
    {
      ExprComplete(c, rest, truth);
    }
  }

  // The evaluator raises exactly when no tree can be read, whatever the selections say, and then some "("
  // opens a whole condition that is not directly followed by ")".
  lemma RaisesExactlyWithoutTree(ts: seq<Tok>, truth: Truth)
    ensures Expr(ts, truth).Raised? <==> !exists c, rest :: Derives(ts, c, EXPR, rest) && Ends(c, rest)
    ensures Expr(ts, truth).Raised? ==> exists pre, inner, after :: Unclosed(ts, pre, inner, after)
  {
    var r := ExprSound(ts);
    if r.Tree? {
      assert Derives(ts, r.c, EXPR, r.rest) && Ends(r.c, r.rest);
    } else {
      assert Unclosed(ts, r.pre, r.inner, r.after);
    }
    forall c, rest | Derives(ts, c, EXPR, rest) && Ends(c, rest)
      ensures Expr(ts, truth).Done?
    {
      ExprComplete(c, rest, truth);
    }
  }

  // Where it raises: a "(" and a whole condition, not directly followed by ")"
  lemma RaisesAtUnclosed(ts: seq<Tok>, truth: Truth) returns (pre: seq<Tok>, inner: Cond, after: seq<Tok>)
    requires Expr(ts, truth).Raised?
    ensures ts == pre + [TOpen] + Toks(inner, EXPR) + after && Ends(inner, after)
    ensures after == [] || after[0] != TClose
  {
    var r := ExprSound(ts);
    pre, inner, after := r.pre, r.inner, r.after;
  }

  // Two readings of the same tokens, even ones that group differently, have the same meaning.
  lemma ReadingsAgree(c: Cond, d: Cond, truth: Truth)
    requires Toks(c, EXPR) == Toks(d, EXPR)
    ensures Meaning(c, truth) == Meaning(d, truth)
  {
    assert Toks(c, EXPR) + [] == Toks(c, EXPR) && Toks(d, EXPR) + [] == Toks(d, EXPR);
    ExprComplete(c, [], truth);
    ExprComplete(d, [], truth);
  }

  // ---- Printing, then tokenising ----

  lemma WrapLower(needed: bool, a: string, k: string, b: string)
    requires Lower(a) == a && Lower(b) == b && Lower(k) == k
    ensures Lower(Wrap(needed, a + k + b)) == Wrap(needed, a + k + b)
  {
    LowerConcat(a, k);
    LowerConcat(a + k, b);
    LowerConcat("(", a + k + b);
    LowerConcat("(" + (a + k + b), ")");
  }

  lemma {:induction false} PrintIsLower(c: Cond, level: nat)
    requires GoodNames(c)
    ensures Lower(Print(c, level)) == Print(c, level)
  {
    match c
    case Missing =>
    case Name(_) =>
    case Not(d) =>
      PrintIsLower(d, FACTOR);
      LowerConcat("not ", Print(d, FACTOR));
    case And(l, r) =>
      PrintIsLower(l, TERM);
      PrintIsLower(r, TERM);
      WrapLower(level > TERM, Print(l, TERM), " and ", Print(r, TERM));
    case Or(l, r) =>
      PrintIsLower(l, EXPR);
      PrintIsLower(r, EXPR);
      WrapLower(level > EXPR, Print(l, EXPR), " or ", Print(r, EXPR));
    case Group(d) =>
      PrintIsLower(d, EXPR);
      WrapLower(true, Print(d, EXPR), "", "");
      assert Print(d, EXPR) + "" + "" == Print(d, EXPR);
  }

  lemma ClassifyConcat(a: seq<string>, b: seq<string>)
    ensures ClassifyAll(a + b) == ClassifyAll(a) + ClassifyAll(b)
  {}

  // The tokens of a text
  function Scan(s: string): seq<Tok> { ClassifyAll(Lex(s, [])) }

  lemma ScanParens(s: string)
    ensures Scan("(" + s + ")") == [TOpen] + Scan(s) + [TClose]
  {
    assert ("(" + s + ")")[1..] == s + ")";
    LexCut(s, ")", []);
    assert Lex(")", []) == [")"] by { assert ")"[1..] == []; }
    assert Lex("(" + s + ")", []) == ["("] + (Lex(s, []) + [")"]);
    ClassifyConcat(["("], Lex(s, []) + [")"]);
    ClassifyConcat(Lex(s, []), [")"]);
  }

  // a, a blank, the keyword k and a blank, then b, perhaps in parentheses
  lemma ScanInfix(needed: bool, a: string, k: string, sep: string, b: string)
    requires Word(k) && sep == " " + k + " "
    ensures Scan(Wrap(needed, a + sep + b)) == WrapToks(needed, Scan(a) + [Classify(k)] + Scan(b))
  {
    var tail := " " + k + " " + b;
    LexCut(a, tail, []);
    assert tail[1..] == k + (" " + b);
    LexWordThen(k, " " + b);
    assert (" " + b)[1..] == b;
    var s := a + sep + b;
    assert s == a + tail;
    ClassifyConcat(Lex(a, []), [k] + Lex(b, []));
    ClassifyConcat([k], Lex(b, []));
    assert Scan(s) == Scan(a) + [Classify(k)] + Scan(b);
    ScanParens(s);
  }

  lemma ScanNot(s: string)
    ensures Scan("not " + s) == [TNot] + Scan(s)
  {
    LexWordThen("not", " " + s);
    assert "not" + (" " + s) == "not " + s;
    assert (" " + s)[1..] == s;
    ClassifyConcat(["not"], Lex(s, []));
  }

  lemma {:induction false} PrintScans(c: Cond, level: nat)
    requires GoodNames(c)
    ensures Scan(Print(c, level)) == Toks(c, level)
  {
    match c
    case Missing =>
    case Name(n) =>
      LexWord(n, []);
      assert [] + n == n;
    case Not(d) =>
      PrintScans(d, FACTOR);
      ScanNot(Print(d, FACTOR));
    case And(l, r) =>
      PrintScans(l, TERM);
      PrintScans(r, TERM);
      ScanInfix(level > TERM, Print(l, TERM), "and", " and ", Print(r, TERM));
    case Or(l, r) =>
      PrintScans(l, EXPR);
      PrintScans(r, EXPR);
      ScanInfix(level > EXPR, Print(l, EXPR), "or", " or ", Print(r, EXPR));
    case Group(d) =>
      PrintScans(d, EXPR);
      ScanParens(Print(d, EXPR));
  }

  // Round trip: print any tree, tokenise and evaluate the text, and the tree's meaning comes back.
  lemma RoundTrip(c: Cond, truth: Truth)
    requires GoodNames(c)
    ensures Value(Print(c, EXPR), truth) == Meaning(c, truth)
  {
    TokensAreLex(Print(c, EXPR));
    PrintIsLower(c, EXPR);
    PrintScans(c, EXPR);
    assert Toks(c, EXPR) + [] == Toks(c, EXPR);
    ExprComplete(c, [], truth);
  }

  lemma {:induction false} MeaningOfGoodNames(c: Cond, level: nat, truth: Truth, truth': Truth)
    requires forall k | k in Toks(c, level) && k.TName? :: GoodName(k.name)
    requires forall n | GoodName(n) :: Lookup(truth, n) == Lookup(truth', n)
    ensures Meaning(c, truth) == Meaning(c, truth')
  {
    match c
    case Missing =>
    case Name(n) =>
      assert TName(n) in Toks(c, level);
    case Not(d) =>
      MeaningOfGoodNames(d, FACTOR, truth, truth');
    case And(l, r) =>
      MeaningOfGoodNames(l, TERM, truth, truth');
      MeaningOfGoodNames(r, TERM, truth, truth');
    case Or(l, r) =>
      MeaningOfGoodNames(l, EXPR, truth, truth');
      MeaningOfGoodNames(r, EXPR, truth, truth');
    case Group(d) =>
      MeaningOfGoodNames(d, EXPR, truth, truth');
  }

  // Only good names are ever looked up, so what a truth table says of other names cannot matter.
  lemma {:induction false} ValueIgnoresBadNames(condition: string, truth: Truth, truth': Truth)
    requires forall n | GoodName(n) :: Lookup(truth, n) == Lookup(truth', n)
    ensures Value(condition, truth) == Value(condition, truth')
  {
    var words := Tokens(condition);
    TokensShape(condition);
    var r := ExprSound(ClassifyAll(words));
    if r.Tree? {
      forall k | k in Toks(r.c, EXPR) && k.TName? ensures GoodName(k.name) {
        assert k in ClassifyAll(words);
        var i :| 0 <= i < |words| && ClassifyAll(words)[i] == k;
        assert words[i] in words;
      }
      MeaningOfGoodNames(r.c, EXPR, truth, truth');
    }
  }

  // A selection can be used by its own name exactly when the name is a lower-case, blank-free word other
  // than a keyword. "Scanner", "or" and "sql injection" all fail: the condition text is lower-cased and cut.
  lemma NameWorksExactlyWhenGood(n: string)
    ensures (forall truth :: Value(Print(Name(n), EXPR), truth) == Meaning(Name(n), truth)) <==> GoodName(n)
  {
    if GoodName(n) {
      forall truth ensures Value(Print(Name(n), EXPR), truth) == Meaning(Name(n), truth) {
        RoundTrip(Name(n), truth);
      }
    } else {
      ValueIgnoresBadNames(n, map[n := true], map[n := false]);
      assert Meaning(Name(n), map[n := true]) != Meaning(Name(n), map[n := false]);
    }
  }

  // A name that no selection has counts as false.
  lemma UnknownNamesAreFalse(n: string, truth: Truth)
    requires GoodName(n) && n !in truth
    ensures !Value(n, truth)
  {
    RoundTrip(Name(n), truth);
  }

  lemma PrintedReads(tree: Cond, text: string, truth: Truth)
    requires GoodNames(tree) && text == Print(tree, EXPR)
    ensures Value(text, truth) == Meaning(tree, truth)
  {
    RoundTrip(tree, truth);
  }

  lemma NameReads(n: string, level: nat, truth: Truth)
    requires GoodName(n) && n in truth
    ensures GoodNames(Name(n)) && Print(Name(n), level) == n && Meaning(Name(n), truth) == truth[n]
  {}

  lemma NotReads(c: Cond, level: nat, truth: Truth)
    requires GoodNames(c)
    ensures GoodNames(Not(c)) && Print(Not(c), level) == "not " + Print(c, FACTOR)
    ensures Meaning(Not(c), truth) == !Meaning(c, truth)
  {}

  lemma AndReads(l: Cond, r: Cond, truth: Truth)
    requires GoodNames(l) && GoodNames(r)
    ensures GoodNames(And(l, r)) && Meaning(And(l, r), truth) == (Meaning(l, truth) && Meaning(r, truth))
    ensures Print(And(l, r), EXPR) == Print(l, TERM) + " and " + Print(r, TERM)
  {}

  lemma OrReads(l: Cond, r: Cond, truth: Truth)
    requires GoodNames(l) && GoodNames(r)
    ensures GoodNames(Or(l, r)) && Meaning(Or(l, r), truth) == (Meaning(l, truth) || Meaning(r, truth))
    ensures Print(Or(l, r), EXPR) == Print(l, EXPR) + " or " + Print(r, EXPR)
    ensures Print(Or(l, r), FACTOR) == "(" + (Print(l, EXPR) + " or " + Print(r, EXPR)) + ")"
  {}

  // The keywords bind as they should: not before and, and before or, and parentheses before all.
  lemma NotBindsBeforeAnd(a: string, b: string, truth: Truth)
    requires GoodName(a) && GoodName(b) && {a, b} <= truth.Keys
    ensures Value("not " + a + " and " + b, truth) == (!truth[a] && truth[b])
  {
    NameReads(a, FACTOR, truth);
    NameReads(b, TERM, truth);
    NotReads(Name(a), TERM, truth);
    AndReads(Not(Name(a)), Name(b), truth);
    PrintedReads(And(Not(Name(a)), Name(b)), "not " + a + " and " + b, truth);
  }

  lemma AndBindsBeforeOr(a: string, b: string, c: string, truth: Truth)
    requires GoodName(a) && GoodName(b) && GoodName(c) && {a, b, c} <= truth.Keys
    ensures Value(a + " or " + b + " and " + c, truth) == (truth[a] || (truth[b] && truth[c]))
  {
    NameReads(a, EXPR, truth);
    NameReads(b, TERM, truth);
    NameReads(c, TERM, truth);
    AndReads(Name(b), Name(c), truth);
    OrReads(Name(a), And(Name(b), Name(c)), truth);
    assert a + " or " + b + " and " + c == a + " or " + (b + " and " + c);
    PrintedReads(Or(Name(a), And(Name(b), Name(c))), a + " or " + b + " and " + c, truth);
  }

  lemma ParenthesesBindFirst(a: string, b: string, c: string, truth: Truth)
    requires GoodName(a) && GoodName(b) && GoodName(c) && {a, b, c} <= truth.Keys
    ensures Value("not (" + a + " or " + b + ") and " + c, truth) == (!(truth[a] || truth[b]) && truth[c])
  {
    NameReads(a, EXPR, truth);
    NameReads(b, EXPR, truth);
    NameReads(c, TERM, truth);
    var either := Or(Name(a), Name(b));
    OrReads(Name(a), Name(b), truth);
    NotReads(either, TERM, truth);
    AndReads(Not(either), Name(c), truth);
    assert "not " + ("(" + (a + " or " + b) + ")") == "not (" + a + " or " + b + ")";
    PrintedReads(And(Not(either), Name(c)), "not (" + a + " or " + b + ") and " + c, truth);
  }
}
