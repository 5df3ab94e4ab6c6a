/**
 What the checks of a grammar reject (`verifygrammar`, `verifyrule` and `checkloops` of nmap/lpeg.c):
 exactly the patterns with a loop that need not consume anything, and the ones with a rule that
 calls itself, or that leads to one that does, before anything is consumed.
 */
module PegAccepted {
  import opened Wrappers
  import opened PegTree
  import opened PegVerify
  import opened PegTermination
  import opened PegExact

  // ---------- loops ----------

  /** The bodies of the loops of a tree, outside nested grammars. */
  function LoopBodies(t: Tree): set<Tree> {
    match t
    case Rep(p) => {p} + LoopBodies(p)
    case Not(p) => LoopBodies(p)
    case And(p) => LoopBodies(p)
    case Behind(_, p) => LoopBodies(p)
    case Capture(_, _, p) => LoopBodies(p)
    case Seq(p1, p2) => LoopBodies(p1) + LoopBodies(p2)
    case Choice(p1, p2) => LoopBodies(p1) + LoopBodies(p2)
    case _ => {}
  }

  /** Some loop has a body whose shortest match is empty. */
  predicate EmptyLoop(g: Grammar, t: Tree) {
    exists p | p in LoopBodies(t) :: Shortest(g, p, 200) == Some(0)
  }

  /** `checkloops` reports exactly the trees with a loop that may go on without consuming anything. */
  lemma {:induction false} CheckLoopsExact(g: Grammar, t: Tree)
    ensures CheckLoops(g, t) <==> EmptyLoop(g, t)
    decreases t
  {
    match t
    case Rep(p) => NullableExact(g, p, 200); CheckLoopsExact(g, p);
    case Not(p) => CheckLoopsExact(g, p);
    case And(p) => CheckLoopsExact(g, p);
    case Behind(_, p) => CheckLoopsExact(g, p);
    case Capture(_, _, p) => CheckLoopsExact(g, p);
    case Seq(p1, p2) => CheckLoopsExact(g, p1); CheckLoopsExact(g, p2);
    case Choice(p1, p2) => CheckLoopsExact(g, p1); CheckLoopsExact(g, p2);
    case _ =>
  }

  // ---------- left calls ----------

  /** The pattern can be passed without consuming anything, through at most `d` nested calls; a
      predicate or a loop can always be passed. */
  predicate Passed(g: Grammar, t: Tree, d: nat)
    decreases d, t
  {
    match t
    case True => true
    case Behind(_, _) => true
    case Not(_) => true
    case And(_) => true
    case Rep(_) => true
    case Capture(_, _, p) => Passed(g, p, d)
    case Seq(p1, p2) => Passed(g, p1, d) && Passed(g, p2, d)
    case Choice(p1, p2) => Passed(g, p1, d) || Passed(g, p2, d)
    case Rules(_) => Shortest(g, t, 200) == Some(0)
    case Call(n) => d > 0 && n < |g| && Passed(g, g[n], d - 1)
    case _ => false
  }

  ghost predicate Passable(g: Grammar, t: Tree) {
    exists d: nat :: Passed(g, t, d)
  }

  /** The pattern may call rule `n` before anything is consumed; predicates and loops are looked
      into, look-behinds and nested grammars are not. */
  ghost predicate LeftCall(g: Grammar, t: Tree, n: nat) {
    match t
    case Call(k) => k == n
    case Not(p) => LeftCall(g, p, n)
    case And(p) => LeftCall(g, p, n)
    case Rep(p) => LeftCall(g, p, n)
    case Capture(_, _, p) => LeftCall(g, p, n)
    case Seq(p1, p2) => LeftCall(g, p1, n) || (Passable(g, p1) && LeftCall(g, p2, n))
    case Choice(p1, p2) => LeftCall(g, p1, n) || LeftCall(g, p2, n)
    case _ => false
  }

  /** The pattern may call the first of these rules, that one the next, and so on, before anything
      is consumed. */
  ghost predicate LeftCalls(g: Grammar, t: Tree, ns: seq<nat>)
    decreases |ns|
  {
    ns != [] ==> ns[0] < |g| && LeftCall(g, t, ns[0]) && LeftCalls(g, g[ns[0]], ns[1..])
  }

  lemma {:induction false} PassedMore(g: Grammar, t: Tree, d: nat, d': nat)
    requires Passed(g, t, d) && d <= d'
    ensures Passed(g, t, d')
    decreases d, t
  {
    match t
    case Capture(_, _, p) => PassedMore(g, p, d, d');
    case Seq(p1, p2) => PassedMore(g, p1, d, d'); PassedMore(g, p2, d, d');
    case Choice(p1, p2) => if Passed(g, p1, d) { PassedMore(g, p1, d, d'); } else { PassedMore(g, p2, d, d'); }
    case Call(n) => PassedMore(g, g[n], d - 1, d' - 1);
    case _ =>
  }

  /** When the check gives an answer, it says whether the pattern can be passed within the rules
      that were left, */
  lemma {:induction false} AnswerPassed(g: Grammar, t: Tree, left: nat, nb: bool)
    requires VerifyRule(true, g, t, left, nb).Answer?
    ensures VerifyRule(true, g, t, left, nb).nullable <==> nb || Passed(g, t, left)
    decreases left, t
  {
    match t
    case Not(p) => AnswerPassed(g, p, left, true);
    case And(p) => AnswerPassed(g, p, left, true);
    case Rep(p) => AnswerPassed(g, p, left, true);
    case Capture(_, _, p) => AnswerPassed(g, p, left, nb);
    case Seq(p1, p2) =>
      AnswerPassed(g, p1, left, false);
      if Passed(g, p1, left) { AnswerPassed(g, p2, left, nb); }
    case Choice(p1, p2) =>
      AnswerPassed(g, p1, left, nb);
      AnswerPassed(g, p2, left, VerifyRule(true, g, p1, left, nb).nullable);
    case Call(n) => AnswerPassed(g, g[n], left - 1, nb);
    case Rules(_) => NullableExact(g, t, 200);
    case _ =>
  }

  /** and more rules would not help. */
  lemma {:induction false} PassedEnough(g: Grammar, t: Tree, left: nat, nb: bool, d: nat)
    requires VerifyRule(true, g, t, left, nb).Answer? && Passed(g, t, d)
    ensures Passed(g, t, left)
    decreases left, t
  {
    match t
    case Capture(_, _, p) => PassedEnough(g, p, left, nb, d);
    case Seq(p1, p2) =>
      PassedEnough(g, p1, left, false, d);
      AnswerPassed(g, p1, left, false);
      PassedEnough(g, p2, left, nb, d);
    case Choice(p1, p2) =>
      if Passed(g, p1, d) { PassedEnough(g, p1, left, nb, d); }
      else { PassedEnough(g, p2, left, VerifyRule(true, g, p1, left, nb).nullable, d); }
    case Call(n) => PassedEnough(g, g[n], left - 1, nb, d - 1);
    case _ =>
  }

  /** The answer is that the pattern can be passed, or that what comes before could. */
  lemma AnswerExact(g: Grammar, t: Tree, left: nat, nb: bool)
    requires VerifyRule(true, g, t, left, nb).Answer?
    ensures VerifyRule(true, g, t, left, nb).nullable <==> nb || Passable(g, t)
  {
    AnswerPassed(g, t, left, nb);
    if d: nat :| Passed(g, t, d) { PassedEnough(g, t, left, nb, d); }
  }

  /** An error comes from a chain of left calls that passes more rules than were left. */
  lemma {:induction false} ErrorChain(g: Grammar, t: Tree, left: nat, nb: bool) returns (ns: seq<nat>)
    requires WellFormed(g, t) && WellFormedRules(g) && VerifyRule(true, g, t, left, nb).Error?
    ensures |ns| == left + 1 && LeftCalls(g, t, ns)
    decreases left, t
  {
    match t
    case Not(p) => ns := ErrorChain(g, p, left, true);
    case And(p) => ns := ErrorChain(g, p, left, true);
    case Rep(p) => ns := ErrorChain(g, p, left, true);
    case Capture(_, _, p) => ns := ErrorChain(g, p, left, nb);
    case Seq(p1, p2) =>
      if VerifyRule(true, g, p1, left, false).Error? { ns := ErrorChain(g, p1, left, false); }
      else {
        AnswerExact(g, p1, left, false);
        ns := ErrorChain(g, p2, left, nb);
      }
    case Choice(p1, p2) =>
      if VerifyRule(true, g, p1, left, nb).Error? { ns := ErrorChain(g, p1, left, nb); }
      else { ns := ErrorChain(g, p2, left, VerifyRule(true, g, p1, left, nb).nullable); }
    case Call(n) =>
      ns := [];
      if left > 0 { ns := ErrorChain(g, g[n], left - 1, nb); }
      assert ([n] + ns)[1..] == ns;
      ns := [n] + ns;
  }

  /** Every such chain leads to an error. */
  lemma {:induction false} ChainError(g: Grammar, t: Tree, left: nat, nb: bool, ns: seq<nat>)
    requires |ns| == left + 1 && LeftCalls(g, t, ns)
    ensures VerifyRule(true, g, t, left, nb).Error?
    decreases left, t
  {
    match t
    case Not(p) => ChainError(g, p, left, true, ns);
    case And(p) => ChainError(g, p, left, true, ns);
    case Rep(p) => ChainError(g, p, left, true, ns);
    case Capture(_, _, p) => ChainError(g, p, left, nb, ns);
    case Seq(p1, p2) =>
      if LeftCall(g, p1, ns[0]) { ChainError(g, p1, left, false, ns); }
      else if VerifyRule(true, g, p1, left, false).Answer? {
        AnswerExact(g, p1, left, false);
        ChainError(g, p2, left, nb, ns);
      }
    case Choice(p1, p2) =>
      if LeftCall(g, p1, ns[0]) { ChainError(g, p1, left, nb, ns); }
      else if VerifyRule(true, g, p1, left, nb).Answer? {
        ChainError(g, p2, left, VerifyRule(true, g, p1, left, nb).nullable, ns);
      }
    case Call(n) => if left > 0 { ChainError(g, g[n], left - 1, nb, ns[1..]); }
    case _ =>
  }

  /** The check of a rule with `left` more rules to pass. */
  lemma VerifyExact(g: Grammar, t: Tree, left: nat, nb: bool)
    requires WellFormed(g, t) && WellFormedRules(g)
    ensures VerifyRule(true, g, t, left, nb).Error? <==> exists ns: seq<nat> :: |ns| == left + 1 && LeftCalls(g, t, ns)
  {
    if VerifyRule(true, g, t, left, nb).Error? { var ns := ErrorChain(g, t, left, nb); }
    if ns: seq<nat> :| |ns| == left + 1 && LeftCalls(g, t, ns) { ChainError(g, t, left, nb, ns); }
  }

  // ---------- left recursion ----------

  predicate RepeatsAt(ns: seq<nat>, i: nat, j: nat) {
    i < j < |ns| && ns[i] == ns[j]
  }

  /** Some chain of left calls comes to the same rule twice. */
  ghost predicate LeftRecursive(g: Grammar, t: Tree) {
    exists ns: seq<nat>, i: nat, j: nat :: LeftCalls(g, t, ns) && RepeatsAt(ns, i, j)
  }

  lemma {:induction false} ChainPrefix(g: Grammar, t: Tree, ns: seq<nat>, n: nat)
    requires LeftCalls(g, t, ns) && n <= |ns|
    ensures LeftCalls(g, t, ns[..n])
    decreases n
  {
    if n > 0 {
      ChainPrefix(g, g[ns[0]], ns[1..], n - 1);
      assert ns[..n][1..] == ns[1..][..n - 1];
    }
  }

  lemma {:induction false} ChainAt(g: Grammar, t: Tree, ns: seq<nat>, i: nat)
    requires LeftCalls(g, t, ns) && i < |ns|
    ensures ns[i] < |g| && (i + 1 < |ns| ==> LeftCall(g, g[ns[i]], ns[i + 1]))
    decreases i
  {
    if i > 0 { ChainAt(g, g[ns[0]], ns[1..], i - 1); }
  }

  lemma {:induction false} ChainLonger(g: Grammar, t: Tree, ns: seq<nat>, n: nat)
    requires LeftCalls(g, t, ns) && ns != [] && n < |g|
    requires ns[|ns| - 1] < |g| && LeftCall(g, g[ns[|ns| - 1]], n)
    ensures LeftCalls(g, t, ns + [n])
    decreases |ns|
  {
    var ms := ns + [n];
    assert ms[1..] == ns[1..] + [n];
    if |ns| == 1 {
      assert [n][1..] == [];
      assert LeftCalls(g, g[ns[0]], [n]);
    } else {
      ChainLonger(g, g[ns[0]], ns[1..], n);
    }
  }

  /** A chain that ends where it was before goes on for ever. */
  lemma {:induction false} ChainGoesOn(g: Grammar, t: Tree, ns: seq<nat>, i: nat, len: nat) returns (ms: seq<nat>)
    requires LeftCalls(g, t, ns) && ns != [] && RepeatsAt(ns, i, |ns| - 1) && |ns| <= len
    ensures |ms| == len && LeftCalls(g, t, ms)
    decreases len - |ns|
  {
    if |ns| == len { return ns; }
    ChainAt(g, t, ns, i);
    ChainAt(g, t, ns, i + 1);
    ChainLonger(g, t, ns, ns[i + 1]);
    ms := ChainGoesOn(g, t, ns + [ns[i + 1]], i + 1, len);
  }

  predicate AllBelow(ns: seq<nat>, n: nat) {
    forall i: nat | i < |ns| :: ns[i] < n
  }

  /** More numbers than there are below `n` repeat one. */
  lemma {:induction false} Crowded(ns: seq<nat>, n: nat) returns (i: nat, j: nat)
    requires AllBelow(ns, n) && |ns| > n
    ensures RepeatsAt(ns, i, j)
    decreases n
  {
    var last := |ns| - 1;
    if k: nat :| k < last && ns[k] == ns[last] { return k, last; }
    assert ns[last] < n;
    // the greatest number gives its places to the last one, which has no other place
    var m := ns[last];
    var ms := seq(last, k requires 0 <= k < last => if ns[k] == n - 1 then m else ns[k]);
    forall k: nat | k < |ms| ensures ms[k] < n - 1 { assert ns[k] < n && ns[k] != m; }
    i, j := Crowded(ms, n - 1);
    assert ns[i] != m && ns[j] != m;
  }

  /** In a grammar of at most 200 rules, the check reports exactly the left recursive patterns. */
  lemma LeftRecursiveExact(g: Grammar, t: Tree, nb: bool)
    requires WellFormed(g, t) && WellFormedRules(g) && |g| <= 200
    ensures VerifyRule(true, g, t, MAX_RULES, nb).Error? <==> LeftRecursive(g, t)
  {
    if VerifyRule(true, g, t, MAX_RULES, nb).Error? {
      var ns := ErrorChain(g, t, 200, nb);
      forall i: nat | i < |ns| ensures ns[i] < |g| { ChainAt(g, t, ns, i); }
      var i, j := Crowded(ns, |g|);
    }
    if ns: seq<nat>, i: nat, j: nat :| LeftCalls(g, t, ns) && RepeatsAt(ns, i, j) {
      var ms := ns[..j + 1];
      ChainPrefix(g, t, ns, j + 1);
      if |ms| <= 201 { ms := ChainGoesOn(g, t, ms, i, 201); }
      ChainPrefix(g, t, ms, 201);
      ChainError(g, t, 200, nb, ms[..201]);
    }
  }

  // ---------- what is accepted ----------

  /** The rule has no empty loop and does not lead to left recursion. */
  ghost predicate RuleGood(g: Grammar, n: nat)
    requires n < |g|
  {
    !LeftRecursive(g, g[n]) && !EmptyLoop(g, g[n])
  }

  lemma RuleAcceptedExact(g: Grammar, n: nat)
    requires WellFormedRules(g) && n < |g| <= 200
    ensures RuleAccepted(true, g, n) <==> RuleGood(g, n)
    ensures !Masked(g, g[n], 200, false) ==> (RuleAccepted(false, g, n) <==> RuleGood(g, n))
  {
    LeftRecursiveExact(g, g[n], false);
    CheckLoopsExact(g, g[n]);
    if !Masked(g, g[n], 200, false) { UnmaskedSame(g, g[n], 200, false); }
  }

  /** The tree has a call of rule `n` of the grammar around it. */
  predicate HasCall(t: Tree, n: nat) {
    match t
    case Call(k) => k == n
    case Rep(p) => HasCall(p, n)
    case Not(p) => HasCall(p, n)
    case And(p) => HasCall(p, n)
    case Behind(_, p) => HasCall(p, n)
    case Capture(_, _, p) => HasCall(p, n)
    case Seq(p1, p2) => HasCall(p1, n) || HasCall(p2, n)
    case Choice(p1, p2) => HasCall(p1, n) || HasCall(p2, n)
    case _ => false
  }

  lemma {:induction false} CallsExact(t: Tree, n: nat)
    ensures n in Calls(t) <==> HasCall(t, n)
    decreases t
  {
    match t
    case Rep(p) => CallsExact(p, n);
    case Not(p) => CallsExact(p, n);
    case And(p) => CallsExact(p, n);
    case Behind(_, p) => CallsExact(p, n);
    case Capture(_, _, p) => CallsExact(p, n);
    case Seq(p1, p2) => CallsExact(p1, n); CallsExact(p2, n);
    case Choice(p1, p2) => CallsExact(p1, n); CallsExact(p2, n);
    case _ =>
  }

  /** The grammars inside a tree, at any depth. */
  function Grammars(t: Tree): set<Grammar> {
    match t
    case Rep(p) => Grammars(p)
    case Not(p) => Grammars(p)
    case And(p) => Grammars(p)
    case Behind(_, p) => Grammars(p)
    case Capture(_, _, p) => Grammars(p)
    case Seq(p1, p2) => Grammars(p1) + Grammars(p2)
    case Choice(p1, p2) => Grammars(p1) + Grammars(p2)
    case Rules(rs) => {rs} + set n, rs' | 0 <= n < |rs| && rs' in Grammars(rs[n]) :: rs'
    case _ => {}
  }

  /** The initial rule and the ones that some rule calls are good. */
  ghost predicate GrammarGood(rs: Grammar) {
    forall n: nat | n < |rs| && (n == 0 || exists r | r in rs :: HasCall(r, n)) :: RuleGood(rs, n)
  }

  ghost predicate GrammarsGood(t: Tree) {
    forall rs | rs in Grammars(t) :: GrammarGood(rs)
  }

  /** No grammar has more rules than the library takes. */
  predicate SmallGrammars(t: Tree) {
    forall rs | rs in Grammars(t) :: |rs| <= 200
  }

  lemma GrammarExact(rs: Grammar)
    requires WellFormedRules(rs) && |rs| <= 200
    ensures GrammarGood(rs) <==> forall n: nat | n < |rs| && Used(rs, n) :: RuleAccepted(true, rs, n)
  {
    forall n: nat | n < |rs|
      ensures RuleAccepted(true, rs, n) <==> RuleGood(rs, n)
      ensures Used(rs, n) <==> n == 0 || exists r | r in rs :: HasCall(r, n)
    {
      RuleAcceptedExact(rs, n);
      forall r | r in rs ensures n in Calls(r) <==> HasCall(r, n) { CallsExact(r, n); }
    }
  }

  lemma {:induction false} GrammarsExact(g: Grammar, t: Tree)
    requires WellFormed(g, t) && SmallGrammars(t)
    ensures GrammarsAccepted(true, t) <==> GrammarsGood(t)
    decreases t
  {
    match t
    case Rep(p) => GrammarsExact(g, p);
    case Not(p) => GrammarsExact(g, p);
    case And(p) => GrammarsExact(g, p);
    case Behind(_, p) => GrammarsExact(g, p);
    case Capture(_, _, p) => GrammarsExact(g, p);
    case Seq(p1, p2) => GrammarsExact(g, p1); GrammarsExact(g, p2);
    case Choice(p1, p2) => GrammarsExact(g, p1); GrammarsExact(g, p2);
    case Rules(rs) =>
      assert rs in Grammars(t);
      GrammarExact(rs);
      forall n: nat | n < |rs| ensures GrammarsAccepted(true, rs[n]) <==> GrammarsGood(rs[n]) {
        assert rs[n] in rs;
        forall rs' | rs' in Grammars(rs[n]) ensures rs' in Grammars(t) {}
        GrammarsExact(rs, rs[n]);
      }
    case _ =>
  }

  /** A pattern is accepted exactly if no loop of it is empty, all its grammars are good, and no rule
      leads back to itself through a look-behind; where no grammar is masked, the library accepts
      it exactly if the first two hold. */
  lemma AcceptedExact(t: Tree)
    requires WellFormed([], t) && CallFree(t) && SmallGrammars(t)
    ensures Accepted(true, t) <==> !EmptyLoop([], t) && GrammarsGood(t) && BackFree(t)
    ensures Unmasked(t) ==> (Accepted(false, t) <==> !EmptyLoop([], t) && GrammarsGood(t))
  {
    CheckLoopsExact([], t);
    GrammarsExact([], t);
    if Unmasked(t) { UnmaskedAccepted(t); }
  }
}
