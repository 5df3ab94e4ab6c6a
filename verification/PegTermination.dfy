/** Matching ends: every pattern that the checks accept has a result on every input. */
module PegTermination {
  import opened PegTree
  import opened PegSemantics
  import opened PegAnalysis
  import opened PegVerify

  ghost predicate Ends(m: Mode, g: Grammar, t: Tree, s: Subject, i: nat)
    requires i <= |s|
  {
    exists f: nat :: RunEnds(m, g, t, s, i, f)
  }

  predicate RunEnds(m: Mode, g: Grammar, t: Tree, s: Subject, i: nat, f: nat)
    requires i <= |s|
  {
    Run(m, g, t, s, i, f) != Diverge
  }

  /** The result of a run that ends. */
  ghost function Result(m: Mode, g: Grammar, t: Tree, s: Subject, i: nat): (r: Outcome)
    requires i <= |s| && Ends(m, g, t, s, i)
    ensures r.Ok? ==> i <= r.pos <= |s|
  {
    var f: nat :| RunEnds(m, g, t, s, i, f);
    Run(m, g, t, s, i, f)
  }

  lemma ResultAt(m: Mode, g: Grammar, t: Tree, s: Subject, i: nat) returns (f: nat)
    requires i <= |s| && Ends(m, g, t, s, i)
    ensures forall k: nat | k >= f :: Run(m, g, t, s, i, k) == Result(m, g, t, s, i)
  {
    f :| RunEnds(m, g, t, s, i, f) && Run(m, g, t, s, i, f) == Result(m, g, t, s, i);
    forall k: nat | k >= f ensures Run(m, g, t, s, i, k) == Result(m, g, t, s, i) {
      RunMono(m, g, t, s, i, f, k);
    }
  }

  // ---------- how the parts of a tree make it end ----------

  /** A tree with one child ends when the child does, and so does a leaf. */
  lemma EndsUnary(m: Mode, g: Grammar, t: Tree, s: Subject, i: nat)
    requires i <= |s| && !t.Seq? && !t.Choice? && !t.Rep?
    requires t.Not? || t.And? || t.Capture? ==> Ends(m, g, t.p, s, i)
    requires t.Behind? && i >= t.n ==> Ends(m, g, t.p, s, i - t.n)
    requires t.Rules? && |t.rules| > 0 ==> Ends(m, t.rules, t.rules[0], s, i)
    requires t.Call? && t.rule < |g| ==> Ends(m, g, g[t.rule], s, i)
    ensures Ends(m, g, t, s, i)
  {
    var f := 1;
    match t {
      case Not(p) => f := ResultAt(m, g, p, s, i);
      case And(p) => f := ResultAt(m, g, p, s, i);
      case Capture(_, _, p) => f := ResultAt(m, g, p, s, i);
      case Behind(n, p) => if i >= n { f := ResultAt(m, g, p, s, i - n); }
      case Rules(rs) => if |rs| > 0 { f := ResultAt(m, rs, rs[0], s, i); }
      case Call(n) => if n < |g| { f := ResultAt(m, g, g[n], s, i); }
      case _ =>
    }
    RunCases(m, g, t, s, i, f + 1);
    assert RunEnds(m, g, t, s, i, f + 1);
  }

  lemma EndsSeq(m: Mode, g: Grammar, t: Tree, s: Subject, i: nat)
    requires i <= |s| && t.Seq? && Ends(m, g, t.p1, s, i)
    requires var r := Result(m, g, t.p1, s, i); r.Ok? ==> Ends(m, g, t.p2, s, r.pos)
    ensures Ends(m, g, t, s, i)
  {
    var f := ResultAt(m, g, t.p1, s, i);
    var r := Result(m, g, t.p1, s, i);
    if r.Ok? {
      var f2 := ResultAt(m, g, t.p2, s, r.pos);
      f := if f < f2 then f2 else f;
    }
    RunCases(m, g, t, s, i, f + 1);
    assert RunEnds(m, g, t, s, i, f + 1);
  }

  lemma EndsChoice(m: Mode, g: Grammar, t: Tree, s: Subject, i: nat)
    requires i <= |s| && t.Choice? && Ends(m, g, t.p1, s, i) && Ends(m, g, t.p2, s, i)
    ensures Ends(m, g, t, s, i)
  {
    var f1 := ResultAt(m, g, t.p1, s, i);
    var f2 := ResultAt(m, g, t.p2, s, i);
    var f := if f1 < f2 then f2 else f1;
    RunCases(m, g, t, s, i, f + 1);
    assert RunEnds(m, g, t, s, i, f + 1);
  }

  lemma EndsRep(m: Mode, g: Grammar, t: Tree, s: Subject, i: nat)
    requires i <= |s| && t.Rep? && Ends(m, g, t.p, s, i)
    requires var r := Result(m, g, t.p, s, i); r.Ok? ==> Ends(m, g, t, s, r.pos)
    ensures Ends(m, g, t, s, i)
  {
    var f := ResultAt(m, g, t.p, s, i);
    var r := Result(m, g, t.p, s, i);
    if r.Ok? {
      var f2 := ResultAt(m, g, t, s, r.pos);
      f := if f < f2 then f2 else f;
    }
    RunCases(m, g, t, s, i, f + 1);
    assert RunEnds(m, g, t, s, i, f + 1);
  }

  // ---------- the measure ----------

  function Size(t: Tree): nat
    decreases t
  {
    match t
    case Rep(p) => 1 + Size(p)
    case Not(p) => 1 + Size(p)
    case And(p) => 1 + Size(p)
    case Behind(_, p) => 1 + Size(p)
    case Capture(_, _, p) => 1 + Size(p)
    case Seq(p1, p2) => 1 + Size(p1) + Size(p2)
    case Choice(p1, p2) => 1 + Size(p1) + Size(p2)
    case Rules(rs) => 1 + SizeAll(rs)
    case _ => 1
  }

  function SizeAll(rs: seq<Tree>): nat
    decreases rs
  {
    if rs == [] then 0 else Size(rs[0]) + SizeAll(rs[1..])
  }

  lemma {:induction false} SizeOfRule(rs: seq<Tree>, n: nat)
    requires n < |rs|
    ensures Size(rs[n]) <= SizeAll(rs)
    decreases n
  {
    if n > 0 { SizeOfRule(rs[1..], n - 1); }
  }

  /** How far calls lead from a rule. */
  function Span(g: Grammar, n: nat): nat {
    if n < |g| then |Reach(g, {n})| else 0
  }

  /** How often a run can still look behind in a tree, where rules have at most `size` nodes. */
  function Level(g: Grammar, size: nat, t: Tree): nat {
    match t
    case Rep(p) => Level(g, size, p)
    case Not(p) => Level(g, size, p)
    case And(p) => Level(g, size, p)
    case Behind(_, p) => 1 + Level(g, size, p)
    case Capture(_, _, p) => Level(g, size, p)
    case Seq(p1, p2) => Most(Level(g, size, p1), Level(g, size, p2))
    case Choice(p1, p2) => Most(Level(g, size, p1), Level(g, size, p2))
    case Call(n) => Span(g, n) * size
    case _ => 0
  }

  function Most(a: nat, b: nat): (c: nat)
    ensures c >= a && c >= b && (c == a || c == b)
  {
    if a < b then b else a
  }

  /** A rule that is called leads to no more rules than its caller, */
  lemma {:induction false} ReachLeast(g: Grammar, from: set<nat>, closed: set<nat>)
    requires from <= closed <= Below(|g|) && Next(g, closed) <= closed
    ensures Reach(g, from) <= closed
    decreases Below(|g|) - from
  {
    var more := Next(g, from);
    assert more <= Next(g, closed);
    if !(more <= from) { ReachLeast(g, from + more, closed); }
  }

  lemma CalledSpan(g: Grammar, n: nat, k: nat)
    requires n < |g| && k < |g| && k in Calls(g[n])
    ensures Span(g, k) <= Span(g, n)
    ensures n !in Reach(g, {k}) ==> Span(g, k) < Span(g, n)
  {
    var from, to := Reach(g, {n}), Reach(g, {k});
    assert n in from;
    assert k in Next(g, from);
    ReachLeast(g, {k}, from);
    Smaller(to, from);
    if n !in to { assert to != from; }
  }

  lemma Smaller(a: set<nat>, b: set<nat>)
    requires a <= b
    ensures |a| <= |b| && (a != b ==> |a| < |b|)
  {
    assert b == a + (b - a);
    if a != b { assert b - a != {}; }
  }

  /** All calls of a tree lead to at most `most` rules. */
  predicate SpansIn(g: Grammar, calls: set<nat>, most: int) {
    forall n | n in calls :: Span(g, n) <= most
  }

  lemma {:induction false} LevelInside(g: Grammar, size: nat, t: Tree, most: nat)
    requires SpansIn(g, Calls(t), most)
    ensures Level(g, size, t) < most * size + Size(t)
    decreases t
  {
    match t
    case Rep(p) => LevelInside(g, size, p, most);
    case Not(p) => LevelInside(g, size, p, most);
    case And(p) => LevelInside(g, size, p, most);
    case Behind(_, p) => LevelInside(g, size, p, most);
    case Capture(_, _, p) => LevelInside(g, size, p, most);
    case Seq(p1, p2) => LevelInside(g, size, p1, most); LevelInside(g, size, p2, most);
    case Choice(p1, p2) => LevelInside(g, size, p1, most); LevelInside(g, size, p2, most);
    case Call(n) => Scaled(Span(g, n), most, size);
    case _ => Scaled(0, most, size);
  }

  lemma Scaled(a: nat, b: nat, size: nat)
    requires a <= b
    ensures a * size <= b * size
  {}

  lemma {:induction false} LevelOutside(g: Grammar, size: nat, t: Tree, most: nat)
    requires most > 0 && Size(t) <= size && SpansIn(g, Calls(t), most) && SpansIn(g, BehindCalls(t), most - 1)
    ensures Level(g, size, t) <= most * size
    decreases t
  {
    match t
    case Rep(p) => LevelOutside(g, size, p, most);
    case Not(p) => LevelOutside(g, size, p, most);
    case And(p) => LevelOutside(g, size, p, most);
    case Behind(_, p) =>
      LevelInside(g, size, p, most - 1);
      assert most * size == (most - 1) * size + size;
    case Capture(_, _, p) => LevelOutside(g, size, p, most);
    case Seq(p1, p2) => LevelOutside(g, size, p1, most); LevelOutside(g, size, p2, most);
    case Choice(p1, p2) => LevelOutside(g, size, p1, most); LevelOutside(g, size, p2, most);
    case Call(n) => Scaled(Span(g, n), most, size);
    case _ => Scaled(0, most, size);
  }

  /** Calls inside look-behinds are calls. */
  lemma {:induction false} BehindCallsAreCalls(t: Tree)
    ensures BehindCalls(t) <= Calls(t)
    decreases t
  {
    match t
    case Rep(p) => BehindCallsAreCalls(p);
    case Not(p) => BehindCallsAreCalls(p);
    case And(p) => BehindCallsAreCalls(p);
    case Capture(_, _, p) => BehindCallsAreCalls(p);
    case Seq(p1, p2) => BehindCallsAreCalls(p1); BehindCallsAreCalls(p2);
    case Choice(p1, p2) => BehindCallsAreCalls(p1); BehindCallsAreCalls(p2);
    case _ =>
  }

  /** A call reaches no higher level than its rule has. */
  lemma RuleLevel(g: Grammar, size: nat, n: nat)
    requires n < |g| && NoWayBack(g, n) && CallsUsed(g, g[n]) && Size(g[n]) <= size
    ensures Level(g, size, g[n]) <= Level(g, size, Call(n))
  {
    BehindCallsAreCalls(g[n]);
    var most := Span(g, n);
    assert n in Reach(g, {n});
    forall k | k in Calls(g[n]) ensures Span(g, k) <= most && (k in BehindCalls(g[n]) ==> Span(g, k) <= most - 1) {
      CalledSpan(g, n, k);
    }
    LevelOutside(g, size, g[n], most);
  }

  /** Trees of the grammar `g` have at most `size` nodes, unless `t` calls none of its rules, and the
      tree looks behind at most `level` times. */
  predicate Fits(size: nat, level: nat, g: Grammar, t: Tree) {
    && Size(t) <= size && (Calls(t) != {} ==> forall r | r in g :: Size(r) <= size)
    && Level(g, size, t) <= level
  }

  /** What is known about a tree inside an accepted grammar. */
  ghost predicate Safe(size: nat, level: nat, g: Grammar, t: Tree, left: nat, nb: bool) {
    && RulesSafe(g) && CallsUsed(g, t) && WellFormed(g, t) && WellFormedRules(g)
    && VerifyRule(true, g, t, left, nb).Answer?
    && !CheckLoops(g, t) && GrammarsAccepted(true, t) && BackFree(t)
    && Fits(size, level, g, t)
  }

  /**
   The measure is (size of the grammar, look-behinds to come, rest of the subject, left calls
   that may still be passed, size of the tree): a call passes a rule, a nested grammar is
   smaller, a look-behind is one less, and everything else either consumes or moves into the
   tree.
   */
  lemma {:induction false} Total(m: Mode, size: nat, level: nat, g: Grammar, t: Tree, s: Subject, i: nat, left: nat,
                                 nb: bool)
    requires i <= |s| && Safe(size, level, g, t, left, nb)
    ensures Ends(m, g, t, s, i)
    decreases size, level, |s| - i, left, t, 1
  {
    match t
    case Seq(_, _) => TotalSeq(m, size, level, g, t, s, i, left, nb);
    case Choice(p1, p2) =>
      Total(m, size, level, g, p1, s, i, left, nb);
      Total(m, size, level, g, p2, s, i, left, VerifyRule(true, g, p1, left, nb).nullable);
      EndsChoice(m, g, t, s, i);
    case Rep(_) => TotalRep(m, size, level, g, t, s, i, left);
    case Not(p) => Total(m, size, level, g, p, s, i, left, true); EndsUnary(m, g, t, s, i);
    case And(p) => Total(m, size, level, g, p, s, i, left, true); EndsUnary(m, g, t, s, i);
    case Capture(_, _, p) => Total(m, size, level, g, p, s, i, left, nb); EndsUnary(m, g, t, s, i);
    case Behind(_, _) => TotalBehind(m, size, level, g, t, s, i, left, nb);
    case Rules(_) => TotalGrammar(m, size, t, s, i); EndsUnary(m, g, t, s, i);
    case Call(n) => TotalCall(m, size, level, g, t, s, i, left, nb); EndsUnary(m, g, t, s, i);
    case _ => EndsUnary(m, g, t, s, i);
  }

  lemma {:induction false} TotalSeq(m: Mode, size: nat, level: nat, g: Grammar, t: Tree, s: Subject, i: nat,
                                    left: nat, nb: bool)
    requires i <= |s| && t.Seq? && Safe(size, level, g, t, left, nb)
    ensures Ends(m, g, t, s, i)
    decreases size, level, |s| - i, left, t, 0
  {
    Total(m, size, level, g, t.p1, s, i, left, false);
    var r := Result(m, g, t.p1, s, i);
    if r.Ok? {
      if r.pos > i {
        VerifyRestart(g, t.p2, nb);
        Total(m, size, level, g, t.p2, s, r.pos, MAX_RULES + 1, nb);
      } else {
        var f := ResultAt(m, g, t.p1, s, i);
        if VerifyRule(true, g, t.p1, left, false) == Answer(false) {
          VerifySound(m, g, t.p1, s, i, f, left, false);
        }
        Total(m, size, level, g, t.p2, s, i, left, nb);
      }
    }
    EndsSeq(m, g, t, s, i);
  }

  lemma {:induction false} TotalRep(m: Mode, size: nat, level: nat, g: Grammar, t: Tree, s: Subject, i: nat, left: nat)
    requires i <= |s| && t.Rep? && Safe(size, level, g, t, left, true)
    ensures Ends(m, g, t, s, i)
    decreases size, level, |s| - i, left, t, 0
  {
    Total(m, size, level, g, t.p, s, i, left, true);
    var r := Result(m, g, t.p, s, i);
    if r.Ok? {
      var f := ResultAt(m, g, t.p, s, i);
      NullableSound(m, g, t.p, s, i, f, MAX_RULES);
      VerifyRestart(g, t, true);
      TotalRep(m, size, level, g, t, s, r.pos, MAX_RULES + 1);
    }
    EndsRep(m, g, t, s, i);
  }

  lemma {:induction false} TotalCall(m: Mode, size: nat, level: nat, g: Grammar, t: Tree, s: Subject, i: nat,
                                     left: nat, nb: bool)
    requires i <= |s| && t.Call? && Safe(size, level, g, t, left, nb)
    ensures t.rule < |g| && Ends(m, g, g[t.rule], s, i)
    decreases size, level, |s| - i, left, t, 0
  {
    var n := t.rule;
    assert n in Calls(t);
    assert RuleSafe(g, n);
    RuleCallsUsed(g, n);
    assert g[n] in g;
    RuleLevel(g, size, n);
    Total(m, size, level, g, g[n], s, i, left - 1, nb);
  }

  /** The rules that a rule of the grammar calls are used. */
  lemma RuleCallsUsed(g: Grammar, n: nat)
    requires n < |g| && WellFormedRules(g)
    ensures CallsUsed(g, g[n])
  {
    CallsInRange(g, g[n]);
    forall k | k in Calls(g[n]) ensures Used(g, k) {
      assert g[n] in g;
    }
  }

  lemma {:induction false} CallsInRange(g: Grammar, t: Tree)
    requires WellFormed(g, t)
    ensures forall n | n in Calls(t) :: n < |g|
    decreases t
  {
    match t
    case Rep(p) => CallsInRange(g, p);
    case Not(p) => CallsInRange(g, p);
    case And(p) => CallsInRange(g, p);
    case Behind(_, p) => CallsInRange(g, p);
    case Capture(_, _, p) => CallsInRange(g, p);
    case Seq(p1, p2) => CallsInRange(g, p1); CallsInRange(g, p2);
    case Choice(p1, p2) => CallsInRange(g, p1); CallsInRange(g, p2);
    case _ =>
  }

  lemma {:induction false} CallFreeCalls(t: Tree)
    requires CallFree(t)
    ensures Calls(t) == {}
    decreases t
  {
    match t
    case Rep(p) => CallFreeCalls(p);
    case Not(p) => CallFreeCalls(p);
    case And(p) => CallFreeCalls(p);
    case Behind(_, p) => CallFreeCalls(p);
    case Capture(_, _, p) => CallFreeCalls(p);
    case Seq(p1, p2) => CallFreeCalls(p1); CallFreeCalls(p2);
    case Choice(p1, p2) => CallFreeCalls(p1); CallFreeCalls(p2);
    case _ =>
  }

  lemma {:induction false} TotalBehind(m: Mode, size: nat, level: nat, g: Grammar, t: Tree, s: Subject, i: nat,
                                       left: nat, nb: bool)
    requires i <= |s| && t.Behind? && Safe(size, level, g, t, left, nb)
    ensures Ends(m, g, t, s, i)
    decreases size, level, |s| - i, left, t, 0
  {
    if i >= t.n {
      assert Calls(t) == Calls(t.p);
      VerifyRestart(g, t.p, false);
      Total(m, size, level - 1, g, t.p, s, i - t.n, MAX_RULES + 1, false);
    }
    EndsUnary(m, g, t, s, i);
  }

  lemma {:induction false} TotalGrammar(m: Mode, size: nat, t: Tree, s: Subject, i: nat)
    requires i <= |s| && t.Rules? && |t.rules| > 0 && GrammarsAccepted(true, t) && BackFree(t) && Size(t) <= size
    requires WellFormedRules(t.rules)
    ensures Ends(m, t.rules, t.rules[0], s, i)
    decreases size, 0, |s| - i, 0, t, 0
  {
    var rs := t.rules;
    forall r | r in rs ensures Size(r) <= size - 1 {
      var n: nat :| n < |rs| && rs[n] == r;
      SizeOfRule(rs, n);
    }
    RuleCallsUsed(rs, 0);
    assert RuleSafe(rs, 0);
    assert rs[0] in rs;
    Total(m, size - 1, Level(rs, size - 1, rs[0]), rs, rs[0], s, i, MAX_RULES, false);
  }

  /** Every pattern that the strict checks accept has a result on every subject, from every
      position. */
  lemma AcceptedEnds(m: Mode, t: Tree, s: Subject, i: nat)
    requires i <= |s| && Accepted(true, t)
    ensures Ends(m, [], t, s, i)
  {
    CallFreeCalls(t);
    VerifyRestart([], t, false);
    Total(m, Size(t), Level([], Size(t), t), [], t, s, i, MAX_RULES + 1, false);
  }

  // ---------- the text of verifyrule ----------

  /** The walk of the check meets a nested grammar that is not nullable when the pattern
      around it is already known to be nullable. */
  predicate Masked(g: Grammar, t: Tree, left: nat, nb: bool)
    decreases left, t
  {
    match t
    case Rules(_) => nb && !Check(g, t, Nullable)
    case Not(p) => Masked(g, p, left, true)
    case And(p) => Masked(g, p, left, true)
    case Rep(p) => Masked(g, p, left, true)
    case Capture(_, _, p) => Masked(g, p, left, nb)
    case Call(n) => left > 0 && n < |g| && Masked(g, g[n], left - 1, nb)
    case Seq(p1, p2) =>
      || Masked(g, p1, left, false)
      || (VerifyRule(true, g, p1, left, false) == Answer(true) && Masked(g, p2, left, nb))
    case Choice(p1, p2) =>
      || Masked(g, p1, left, nb)
      || (var b := VerifyRule(true, g, p1, left, nb); b.Answer? && Masked(g, p2, left, b.nullable))
    case _ => false
  }

  /** Elsewhere the text of `verifyrule` and the strict check give the same answer. */
  lemma {:induction false} UnmaskedSame(g: Grammar, t: Tree, left: nat, nb: bool)
    requires !Masked(g, t, left, nb)
    ensures VerifyRule(false, g, t, left, nb) == VerifyRule(true, g, t, left, nb)
    decreases left, t
  {
    match t
    case Not(p) => UnmaskedSame(g, p, left, true);
    case And(p) => UnmaskedSame(g, p, left, true);
    case Rep(p) => UnmaskedSame(g, p, left, true);
    case Capture(_, _, p) => UnmaskedSame(g, p, left, nb);
    case Call(n) => if left > 0 && n < |g| { UnmaskedSame(g, g[n], left - 1, nb); }
    case Seq(p1, p2) =>
      UnmaskedSame(g, p1, left, false);
      if VerifyRule(true, g, p1, left, false) == Answer(true) { UnmaskedSame(g, p2, left, nb); }
    case Choice(p1, p2) =>
      UnmaskedSame(g, p1, left, nb);
      var b := VerifyRule(true, g, p1, left, nb);
      if b.Answer? { UnmaskedSame(g, p2, left, b.nullable); }
    case _ =>
  }

  /** No checked rule of a grammar inside the tree is masked. */
  predicate Unmasked(t: Tree) {
    match t
    case Rep(p) => Unmasked(p)
    case Not(p) => Unmasked(p)
    case And(p) => Unmasked(p)
    case Behind(_, p) => Unmasked(p)
    case Capture(_, _, p) => Unmasked(p)
    case Seq(p1, p2) => Unmasked(p1) && Unmasked(p2)
    case Choice(p1, p2) => Unmasked(p1) && Unmasked(p2)
    case Rules(rs) =>
      forall n: nat | n < |rs| ::
        (Used(rs, n) ==> !Masked(rs, rs[n], MAX_RULES, false)) && Unmasked(rs[n])
    case _ => true
  }

  /** Then the two checks accept the same grammars. */
  lemma {:induction false} UnmaskedAccepted(t: Tree)
    requires Unmasked(t)
    ensures GrammarsAccepted(false, t) <==> GrammarsAccepted(true, t)
    decreases t
  {
    match t
    case Rep(p) => UnmaskedAccepted(p);
    case Not(p) => UnmaskedAccepted(p);
    case And(p) => UnmaskedAccepted(p);
    case Behind(_, p) => UnmaskedAccepted(p);
    case Capture(_, _, p) => UnmaskedAccepted(p);
    case Seq(p1, p2) => UnmaskedAccepted(p1); UnmaskedAccepted(p2);
    case Choice(p1, p2) => UnmaskedAccepted(p1); UnmaskedAccepted(p2);
    case Rules(rs) =>
      forall n: nat | n < |rs|
        ensures Used(rs, n) ==> (RuleAccepted(true, rs, n) <==> RuleAccepted(false, rs, n))
        ensures GrammarsAccepted(false, rs[n]) <==> GrammarsAccepted(true, rs[n])
      {
        if Used(rs, n) { UnmaskedSame(rs, rs[n], MAX_RULES, false); }
        UnmaskedAccepted(rs[n]);
      }
    case _ =>
  }

  /** Where the strict check answers, the text answers too, and calls no more patterns
      nullable. */
  lemma {:induction false} StrictAnswers(g: Grammar, t: Tree, left: nat, nb: bool, nb': bool)
    requires VerifyRule(true, g, t, left, nb).Answer? && (nb' ==> nb)
    ensures VerifyRule(false, g, t, left, nb').Answer?
    ensures VerifyRule(false, g, t, left, nb').nullable ==> VerifyRule(true, g, t, left, nb).nullable
    decreases left, t
  {
    match t
    case Not(p) => StrictAnswers(g, p, left, true, true);
    case And(p) => StrictAnswers(g, p, left, true, true);
    case Rep(p) => StrictAnswers(g, p, left, true, true);
    case Capture(_, _, p) => StrictAnswers(g, p, left, nb, nb');
    case Call(n) => StrictAnswers(g, g[n], left - 1, nb, nb');
    case Seq(p1, p2) =>
      StrictAnswers(g, p1, left, false, false);
      if VerifyRule(true, g, p1, left, false).nullable {
        StrictAnswers(g, p2, left, nb, nb');
        if nb { NullableKept(g, p2, left, nb); }
      }
    case Choice(p1, p2) =>
      StrictAnswers(g, p1, left, nb, nb');
      StrictAnswers(g, p2, left, VerifyRule(true, g, p1, left, nb).nullable,
                    VerifyRule(false, g, p1, left, nb').nullable);
    case _ =>
  }

  /** The strict check does not forget that a pattern is nullable. */
  lemma {:induction false} NullableKept(g: Grammar, t: Tree, left: nat, nb: bool)
    requires VerifyRule(true, g, t, left, nb).Answer? && nb
    ensures VerifyRule(true, g, t, left, nb).nullable
    decreases left, t
  {
    match t
    case Not(p) => NullableKept(g, p, left, nb);
    case And(p) => NullableKept(g, p, left, nb);
    case Rep(p) => NullableKept(g, p, left, nb);
    case Capture(_, _, p) => NullableKept(g, p, left, nb);
    case Call(n) => NullableKept(g, g[n], left - 1, nb);
    case Seq(p1, p2) => if VerifyRule(true, g, p1, left, false).nullable { NullableKept(g, p2, left, nb); }
    case Choice(p1, p2) =>
      NullableKept(g, p1, left, nb);
      NullableKept(g, p2, left, nb);
    case _ =>
  }

  /** The text accepts all that the strict check accepts. */
  lemma {:induction false} StrictAccepted(t: Tree)
    requires GrammarsAccepted(true, t)
    ensures GrammarsAccepted(false, t)
    decreases t
  {
    match t
    case Rep(p) => StrictAccepted(p);
    case Not(p) => StrictAccepted(p);
    case And(p) => StrictAccepted(p);
    case Behind(_, p) => StrictAccepted(p);
    case Capture(_, _, p) => StrictAccepted(p);
    case Seq(p1, p2) => StrictAccepted(p1); StrictAccepted(p2);
    case Choice(p1, p2) => StrictAccepted(p1); StrictAccepted(p2);
    case Rules(rs) =>
      forall n: nat | n < |rs|
        ensures (Used(rs, n) ==> RuleAccepted(false, rs, n)) && GrammarsAccepted(false, rs[n])
      {
        if Used(rs, n) {
          assert RuleAccepted(true, rs, n);
          StrictAnswers(rs, rs[n], MAX_RULES, false, false);
        }
        StrictAccepted(rs[n]);
      }
    case _ =>
  }

  /** A pattern that passes the strict check is one that the library accepts, and it ends. */
  lemma AcceptedAsWrittenEnds(m: Mode, t: Tree, s: Subject, i: nat)
    requires i <= |s| && Accepted(true, t)
    ensures Accepted(false, t) && Ends(m, [], t, s, i)
  {
    StrictAccepted(t);
    AcceptedEnds(m, t, s, i);
  }

  /** What the library accepts passes the strict check, and ends, unless a grammar is masked or a
      rule leads back to itself through a look-behind. */
  lemma UnmaskedEnds(m: Mode, t: Tree, s: Subject, i: nat)
    requires i <= |s| && Accepted(false, t) && Unmasked(t) && BackFree(t)
    ensures Accepted(true, t) && Ends(m, [], t, s, i)
  {
    UnmaskedAccepted(t);
    AcceptedEnds(m, t, s, i);
  }

  /** The answer "not nullable" of the text can be relied on where no grammar is masked. */
  lemma VerifyAsWritten(m: Mode, g: Grammar, t: Tree, s: Subject, i: nat, f: nat, left: nat, nb: bool)
    requires i <= |s| && !Masked(g, t, left, nb) && VerifyRule(false, g, t, left, nb) == Answer(false)
    ensures !nb && var r := Run(m, g, t, s, i, f); r.Ok? ==> r.pos > i
  {
    UnmaskedSame(g, t, left, nb);
    VerifySound(m, g, t, s, i, f, left, nb);
  }

  // ---------- patterns with a masked grammar ----------

  /** A <- !{ 'a' } 'x': masked, but not left recursive. */
  function MaskedYetFine(): Tree {
    Rules([Seq(Not(Rules([Char(97)])), Char(120))])
  }

  /** Both checks accept it. */
  lemma MaskedYetFineAccepted()
    ensures Accepted(true, MaskedYetFine()) && Accepted(false, MaskedYetFine()) && !Unmasked(MaskedYetFine())
  {
    var t := MaskedYetFine();
    MaskedYetFineBody(t.rules[0]);
    OneRule(true, t.rules[0]);
    MaskedYetFineBack(t);
    StrictAccepted(t);
    assert Used(t.rules, 0);
  }

  lemma MaskedYetFineBack(t: Tree)
    requires t == MaskedYetFine()
    ensures BackFree(t)
  {
    var body := t.rules[0];
    assert BehindCalls(body.p1) == {} && BehindCalls(body) == {};
    assert BackFree(body.p1.p.rules[0]) && BackFree(body.p1.p) && BackFree(body.p2);
  }

  lemma MaskedYetFineBody(body: Tree)
    requires body == MaskedYetFine().rules[0]
    ensures RuleAccepted(true, [body], 0) && GrammarsAccepted(true, body) && WellFormed([body], body)
    ensures Masked([body], body, MAX_RULES, false)
  {
    var g := [body];
    InnerAccepted(true, g, Char(97));
    assert GrammarsAccepted(true, body.p2);
    assert VerifyRule(true, g, body.p1, MAX_RULES, false) == Answer(true);
    assert Masked(g, body.p1, MAX_RULES, false);
  }

  /** A pattern that fails wherever no character is left, and is not nullable. */
  predicate Plain(p: Tree) {
    p.Char? || p.False?
  }

  lemma InnerAccepted(strict: bool, g: Grammar, p: Tree)
    requires Plain(p)
    ensures var t := Not(Rules([p]));
            && !Check(g, t.p, Nullable) && GrammarsAccepted(strict, t) && !CheckLoops(g, t) && WellFormed(g, t)
  {
    var inner := Rules([p]);
    assert !Check([p], p, Nullable);
    assert !Check(g, inner, Nullable);
    assert RuleAccepted(strict, inner.rules, 0);
    assert GrammarsAccepted(strict, p) && GrammarsAccepted(strict, inner);
    assert inner.rules[0] in inner.rules;
    assert WellFormed(g, inner);
    assert !CheckLoops(g, inner);
  }

  /** A <- !{ p } A: the initial rule is left recursive behind a predicate on a grammar. */
  function HiddenRecursion(p: Tree): Tree {
    Rules([Seq(Not(Rules([p])), Call(0))])
  }

  /** The text of `verifyrule` accepts it, the strict check does not, and it never ends on
      the empty subject. */
  lemma HiddenRecursionAccepted(p: Tree)
    requires Plain(p)
    ensures Accepted(false, HiddenRecursion(p)) && !Accepted(true, HiddenRecursion(p))
    ensures forall m: Mode :: !Ends(m, [], HiddenRecursion(p), [], 0)
  {
    var t := HiddenRecursion(p);
    HiddenRecursionRule(p);
    assert Used(t.rules, 0);
    forall m: Mode ensures !Ends(m, [], t, [], 0) {
      forall f: nat ensures !RunEnds(m, [], t, [], 0, f) {
        if f > 0 {
          RunCases(m, [], t, [], 0, f);
          HiddenRecursionRuns(m, p, f - 1);
        }
      }
    }
  }

  lemma HiddenRecursionRule(p: Tree)
    requires Plain(p)
    ensures var g := HiddenRecursion(p).rules;
            && RuleAccepted(false, g, 0) && !RuleAccepted(true, g, 0)
            && GrammarsAccepted(false, g[0]) && WellFormed(g, g[0])
  {
    var inner := Rules([p]);
    var g := [Seq(Not(inner), Call(0))];
    InnerAccepted(false, g, p);
    assert VerifyRule(false, g, Not(inner), MAX_RULES, false) == Answer(false);
    var call := Call(0);
    assert !CheckLoops(g, call);
    HiddenRecursionRejected(p, MAX_RULES);
    assert GrammarsAccepted(false, Call(0));
  }

  lemma {:induction false} HiddenRecursionRejected(p: Tree, left: nat)
    requires Plain(p)
    ensures var body := Seq(Not(Rules([p])), Call(0)); VerifyRule(true, [body], body, left, false) == Error
    decreases left
  {
    var inner := Rules([p]);
    var body := Seq(Not(inner), Call(0));
    assert VerifyRule(true, [body], Not(inner), left, false) == Answer(true);
    if left > 0 { HiddenRecursionRejected(p, left - 1); }
  }

  lemma {:induction false} HiddenRecursionRuns(m: Mode, p: Tree, f: nat)
    requires Plain(p)
    ensures var body := Seq(Not(Rules([p])), Call(0)); Run(m, [body], body, [], 0, f) == Diverge
    decreases f
  {
    var inner := Rules([p]);
    var body := Seq(Not(inner), Call(0));
    var g := [body];
    if f > 0 {
      RunCases(m, g, body, [], 0, f);
      if f > 1 {
        RunCases(m, g, Not(inner), [], 0, f - 1);
        RunCases(m, g, Call(0), [], 0, f - 1);
        HiddenRecursionRuns(m, p, f - 2);
        if f > 2 {
          RunCases(m, g, inner, [], 0, f - 2);
          if f > 3 { RunCases(m, [p], p, [], 0, f - 3); }
        }
      }
    }
  }

  // ---------- a call inside a look-behind ----------

  /** B(&p .): the length of the predicate counts as 0, so the body has length 1. */
  function Look(p: Tree): Tree {
    Behind(1, Seq(And(p), Any))
  }

  /** The constructors allow it, and the checks do not look into it. */
  lemma LookShape(g: Grammar, p: Tree)
    requires WellFormed(g, p) && !HasCaptures(p)
    ensures WellFormed(g, Look(p)) && Calls(Look(p)) == Calls(p) == BehindCalls(Look(p))
  {
    var body := Look(p).p;
    var first, second := body.p1, body.p2;
    assert FixedLenNode(g, first, 0, 0) == 0 && FixedLenNode(g, second, 0, 0) == 1;
    assert FixedLenX(g, first, 0, 0) == 0 && FixedLenX(g, second, 0, 0) == 1;
    assert FixedLenX(g, body, 0, 0) == FixedLenNode(g, body, 0, 0) == 1;
    assert HasCaptures(body.p1) == HasCaptures(p);
    assert Calls(body) == Calls(body.p1) + Calls(body.p2) && Calls(body.p1) == Calls(p);
  }

  lemma LookChecks(strict: bool, g: Grammar, p: Tree, left: nat)
    requires !CheckLoops(g, p) && GrammarsAccepted(strict, p)
    ensures VerifyRule(strict, g, Look(p), left, false) == Answer(true) && !CheckLoops(g, Look(p))
    ensures GrammarsAccepted(strict, Look(p)) && !Masked(g, Look(p), left, false)
    ensures Unmasked(p) ==> Unmasked(Look(p))
    ensures BackFree(p) ==> BackFree(Look(p))
  {
    var body := Look(p).p;
    assert !CheckLoops(g, body.p1) && GrammarsAccepted(strict, body.p1);
    assert !CheckLoops(g, body.p2) && GrammarsAccepted(strict, body.p2);
    assert !CheckLoops(g, body) && GrammarsAccepted(strict, body);
    LookInside(p);
  }

  lemma LookInside(p: Tree)
    ensures Unmasked(p) ==> Unmasked(Look(p))
    ensures BackFree(p) ==> BackFree(Look(p))
  {
    var body := Look(p).p;
    assert Unmasked(body.p2) && BackFree(body.p2);
    assert Unmasked(body.p1) == Unmasked(p) && BackFree(body.p1) == BackFree(p);
    assert Unmasked(body) == Unmasked(p);
    assert BackFree(body) == BackFree(p);
  }

  /** A <- B(&(. A) .) */
  function LookBack(): Tree {
    Rules([Look(Seq(Any, Call(0)))])
  }

  lemma OneRule(strict: bool, r: Tree)
    requires WellFormed([r], r) && RuleAccepted(strict, [r], 0) && GrammarsAccepted(strict, r)
    ensures GrammarsAccepted(strict, Rules([r])) && WellFormed([], Rules([r])) && CallFree(Rules([r]))
    ensures !CheckLoops([], Rules([r]))
    ensures !Masked([r], r, MAX_RULES, false) && Unmasked(r) ==> Unmasked(Rules([r]))
  {}

  /** Both forms of `verifyrule` accept it, but A leads back to itself at the same place: a match
      ends from the start of the subject only. */
  lemma LookBackAccepted(m: Mode, s: Subject, i: nat)
    requires i <= |s|
    ensures Accepted(false, LookBack()) && GrammarsAccepted(true, LookBack()) && Unmasked(LookBack())
    ensures !BackFree(LookBack()) && !Accepted(true, LookBack())
    ensures Ends(m, [], LookBack(), s, i) <==> i == 0
  {
    LookBackChecks(true);
    LookBackChecks(false);
    LookBackReturns();
    if i == 0 { LookBackStart(m, s); } else { LookBackDiverges(m, s, i); }
  }

  lemma LookBackDiverges(m: Mode, s: Subject, i: nat)
    requires 0 < i <= |s|
    ensures !Ends(m, [], LookBack(), s, i)
  {
    forall f: nat ensures !RunEnds(m, [], LookBack(), s, i, f) {
      if f > 0 {
        RunCases(m, [], LookBack(), s, i, f);
        LookBackRuns(m, s, i, f - 1);
      }
    }
  }

  lemma LookBackChecks(strict: bool)
    ensures var t := LookBack();
            && GrammarsAccepted(strict, t) && WellFormed([], t) && CallFree(t) && !CheckLoops([], t) && Unmasked(t)
  {
    var p := Seq(Any, Call(0));
    var g := [Look(p)];
    var call := Call(0);
    assert WellFormed(g, call) && !HasCaptures(call) && !CheckLoops(g, call) && GrammarsAccepted(strict, call)
           && Unmasked(call);
    assert WellFormed(g, p) && !HasCaptures(p) && !CheckLoops(g, p) && GrammarsAccepted(strict, p) && Unmasked(p);
    LookShape(g, p);
    LookChecks(strict, g, p, MAX_RULES);
    OneRule(strict, Look(p));
  }

  lemma LookBackReturns()
    ensures !BackFree(LookBack())
  {
    var g, p := LookBack().rules, Seq(Any, Call(0));
    var call := Call(0);
    assert WellFormed(g, call) && WellFormed(g, p) && !HasCaptures(call) && !HasCaptures(p);
    assert Calls(call) == {0} && Calls(p) == {0};
    LookShape(g, p);
    assert 0 in Reach(g, {0});
    assert Used(g, 0) && !NoWayBack(g, 0);
  }

  lemma LookBackStart(m: Mode, s: Subject)
    ensures Ends(m, [], LookBack(), s, 0)
  {
    var g := LookBack().rules;
    RunCases(m, g, g[0], s, 0, 1);
    RunCases(m, [], LookBack(), s, 0, 2);
    assert RunEnds(m, [], LookBack(), s, 0, 2);
  }

  lemma {:induction false} LookBackRuns(m: Mode, s: Subject, i: nat, f: nat)
    requires 0 < i <= |s|
    ensures Run(m, LookBack().rules, LookBack().rules[0], s, i, f) == Diverge
    decreases f
  {
    var g, p := LookBack().rules, Seq(Any, Call(0));
    if f > 5 { LookBackRuns(m, s, i, f - 5); }
    if f > 3 { AnyThenCall(m, g, s, i - 1, f - 3); }
    LookDiverges(m, g, p, s, i, f);
  }

  lemma AnyThenCall(m: Mode, g: Grammar, s: Subject, i: nat, f: nat)
    requires i < |s| && |g| > 0 && (f > 2 ==> Run(m, g, g[0], s, i + 1, f - 2) == Diverge)
    ensures Run(m, g, Seq(Any, Call(0)), s, i, f) == Diverge
  {
    if f > 0 { RunCases(m, g, Seq(Any, Call(0)), s, i, f); }
    if f > 1 {
      RunCases(m, g, Any, s, i, f - 1);
      RunCases(m, g, Call(0), s, i + 1, f - 1);
    }
  }

  lemma LookDiverges(m: Mode, g: Grammar, p: Tree, s: Subject, i: nat, f: nat)
    requires 0 < i <= |s| && (f > 3 ==> Run(m, g, p, s, i - 1, f - 3) == Diverge)
    ensures Run(m, g, Look(p), s, i, f) == Diverge
  {
    var body := Look(p).p;
    if f > 2 { RunCases(m, g, body.p1, s, i - 1, f - 2); }
    if f > 1 { RunCases(m, g, body, s, i - 1, f - 1); }
    if f > 0 { RunCases(m, g, Look(p), s, i, f); }
  }

  /** A <- B(&C .), C <- 'a': a call inside a look-behind that does no harm. */
  function LookBackFine(): Tree {
    Rules([Look(Call(1)), Char(97)])
  }

  lemma LookBackFineEnds(m: Mode, s: Subject, i: nat)
    requires i <= |s|
    ensures Accepted(true, LookBackFine()) && Ends(m, [], LookBackFine(), s, i)
  {
    LookBackFineRules(LookBackFine().rules, Call(1));
    TwoRules(LookBackFine().rules);
    AcceptedEnds(m, LookBackFine(), s, i);
  }

  lemma LookBackFineRules(g: Grammar, p: Tree)
    requires p == Call(1) && g == [Look(p), Char(97)]
    ensures forall n: nat | n < 2 :: WellFormed(g, g[n]) && RuleSafe(g, n)
  {
    var c := g[1];
    LookShape(g, p);
    LookChecks(true, g, p, MAX_RULES);
    assert Calls(p) == {1} && Calls(c) == {} && BehindCalls(c) == {};
    assert Next(g, {1}) == {};
    assert Reach(g, {1}) == {1};
    assert RuleSafe(g, 0);
    assert RuleSafe(g, 1);
  }

  lemma TwoRules(g: Grammar)
    requires |g| == 2 && forall n: nat | n < 2 :: WellFormed(g, g[n]) && RuleSafe(g, n)
    ensures Accepted(true, Rules(g))
  {
    forall r | r in g ensures WellFormed(g, r) {
      var n: nat :| n < 2 && g[n] == r;
    }
    forall n: nat | n < |g| ensures RuleAccepted(true, g, n) && GrammarsAccepted(true, g[n]) && NoWayBack(g, n)
      && BackFree(g[n]) {
      assert RuleSafe(g, n);
    }
  }
}
