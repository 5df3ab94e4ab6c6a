/**
 The checks that a grammar has to pass (`verifyrule`, `checkloops` and `verifygrammar` of
 nmap/lpeg.c) and what they are for: matching ends, from every position of every subject.
 */
module PegVerify {
  import opened PegTree
  import opened PegSemantics
  import opened PegAnalysis

  datatype Check3 = Error | Answer(nullable: bool)

  /**
   `verifyrule` with `left` more rules to pass: an error stands for "may be left
   recursive".  `strict` repairs the case of a nested grammar, where the text forgets that
   the pattern around it may already be nullable.
   */
  function VerifyRule(strict: bool, g: Grammar, t: Tree, left: nat, nb: bool): Check3
    decreases left, t
  {
    match t
    case Char(_) => Answer(nb)
    case Set(_) => Answer(nb)
    case Any => Answer(nb)
    case False => Answer(nb)
    case True => Answer(true)
    case Behind(_, _) => Answer(true)
    case Not(p) => VerifyRule(strict, g, p, left, true)
    case And(p) => VerifyRule(strict, g, p, left, true)
    case Rep(p) => VerifyRule(strict, g, p, left, true)
    case Capture(_, _, p) => VerifyRule(strict, g, p, left, nb)
    case Call(n) =>
      if left == 0 || n >= |g| then Error else VerifyRule(strict, g, g[n], left - 1, nb)
    case Seq(p1, p2) =>
      (match VerifyRule(strict, g, p1, left, false)
       case Error => Error
       case Answer(b) => if b then VerifyRule(strict, g, p2, left, nb) else Answer(nb))
    case Choice(p1, p2) =>
      (match VerifyRule(strict, g, p1, left, nb)
       case Error => Error
       case Answer(b) => VerifyRule(strict, g, p2, left, b))
    case Rules(rs) => Answer((strict && nb) || Check(g, t, Nullable))
  }

  /** `checkloops`: some loop of the tree, outside nested grammars, has a nullable body. */
  predicate CheckLoops(g: Grammar, t: Tree) {
    match t
    case Rep(p) => Check(g, p, Nullable) || CheckLoops(g, p)
    case Not(p) => CheckLoops(g, p)
    case And(p) => CheckLoops(g, p)
    case Behind(_, p) => CheckLoops(g, p)
    case Capture(_, _, p) => CheckLoops(g, p)
    case Seq(p1, p2) => CheckLoops(g, p1) || CheckLoops(g, p2)
    case Choice(p1, p2) => CheckLoops(g, p1) || CheckLoops(g, p2)
    case _ => false
  }

  /** The rules that a tree calls by itself. */
  function Calls(t: Tree): set<nat> {
    match t
    case Call(n) => {n}
    case Rep(p) => Calls(p)
    case Not(p) => Calls(p)
    case And(p) => Calls(p)
    case Behind(_, p) => Calls(p)
    case Capture(_, _, p) => Calls(p)
    case Seq(p1, p2) => Calls(p1) + Calls(p2)
    case Choice(p1, p2) => Calls(p1) + Calls(p2)
    case _ => {}
  }

  /** The initial rule and the rules that some rule calls; the others are not checked. */
  predicate Used(g: Grammar, n: nat) {
    n == 0 || exists r | r in g :: n in Calls(r)
  }

  /** `verifygrammar` accepts rule `n`. */
  predicate RuleAccepted(strict: bool, g: Grammar, n: nat)
    requires n < |g|
  {
    VerifyRule(strict, g, g[n], MAX_RULES, false).Answer? && !CheckLoops(g, g[n])
  }

  /** Every grammar inside the tree was accepted when it was built. */
  predicate GrammarsAccepted(strict: bool, t: Tree) {
    match t
    case Rep(p) => GrammarsAccepted(strict, p)
    case Not(p) => GrammarsAccepted(strict, p)
    case And(p) => GrammarsAccepted(strict, p)
    case Behind(_, p) => GrammarsAccepted(strict, p)
    case Capture(_, _, p) => GrammarsAccepted(strict, p)
    case Seq(p1, p2) => GrammarsAccepted(strict, p1) && GrammarsAccepted(strict, p2)
    case Choice(p1, p2) => GrammarsAccepted(strict, p1) && GrammarsAccepted(strict, p2)
    case Rules(rs) =>
      forall n: nat | n < |rs| ::
        (Used(rs, n) ==> RuleAccepted(strict, rs, n)) && GrammarsAccepted(strict, rs[n])
    case _ => true
  }

  // ---------- calls inside look-behinds ----------

  /** The rules that a tree calls inside a look-behind. */
  function BehindCalls(t: Tree): set<nat> {
    match t
    case Rep(p) => BehindCalls(p)
    case Not(p) => BehindCalls(p)
    case And(p) => BehindCalls(p)
    case Behind(_, p) => Calls(p)
    case Capture(_, _, p) => BehindCalls(p)
    case Seq(p1, p2) => BehindCalls(p1) + BehindCalls(p2)
    case Choice(p1, p2) => BehindCalls(p1) + BehindCalls(p2)
    case _ => {}
  }

  function Below(n: nat): (r: set<nat>)
    ensures forall k: nat :: k in r <==> k < n
  {
    if n == 0 then {} else Below(n - 1) + {n - 1}
  }

  /** The rules that some rule of `from` calls. */
  function Next(g: Grammar, from: set<nat>): set<nat>
    requires from <= Below(|g|)
  {
    set r, k | r in from && k in Calls(g[r]) && k < |g| :: k
  }

  /** The rules that can be reached from some rules by calls. */
  function Reach(g: Grammar, from: set<nat>): (r: set<nat>)
    requires from <= Below(|g|)
    ensures from <= r <= Below(|g|) && Next(g, r) <= r
    decreases Below(|g|) - from
  {
    var more := Next(g, from);
    if more <= from then from else Reach(g, from + more)
  }

  /** Rule `n` does not lead back to itself through a call inside a look-behind. */
  predicate NoWayBack(g: Grammar, n: nat)
    requires n < |g|
  {
    forall k | k in BehindCalls(g[n]) :: k < |g| && n !in Reach(g, {k})
  }

  /** No used rule of a grammar inside the tree leads back to itself like that. */
  predicate BackFree(t: Tree) {
    match t
    case Rep(p) => BackFree(p)
    case Not(p) => BackFree(p)
    case And(p) => BackFree(p)
    case Behind(_, p) => BackFree(p)
    case Capture(_, _, p) => BackFree(p)
    case Seq(p1, p2) => BackFree(p1) && BackFree(p2)
    case Choice(p1, p2) => BackFree(p1) && BackFree(p2)
    case Rules(rs) => forall n: nat | n < |rs| :: (Used(rs, n) ==> NoWayBack(rs, n)) && BackFree(rs[n])
    case _ => true
  }

  /**
   A complete pattern that the library accepts: no empty loops, no left recursion.  The strict
   form also asks that no rule leads back to itself through a look-behind; the text takes it for
   granted that look-behinds have no calls.
   */
  predicate Accepted(strict: bool, t: Tree) {
    && WellFormed([], t) && CallFree(t) && !CheckLoops([], t) && GrammarsAccepted(strict, t)
    && (strict ==> BackFree(t))
  }

  // ---------- what the answers mean ----------

  /** When the strict check answers "not nullable", the pattern consumes a character. */
  lemma {:induction false} VerifySound(m: Mode, g: Grammar, t: Tree, s: Subject, i: nat, f: nat, left: nat, nb: bool)
    requires i <= |s| && VerifyRule(true, g, t, left, nb) == Answer(false)
    ensures !nb && var r := Run(m, g, t, s, i, f); r.Ok? ==> r.pos > i
    decreases left, t
  {
    if f > 0 { RunCases(m, g, t, s, i, f); }
    match t
    case Seq(p1, p2) => VerifySoundSeq(m, g, t, s, i, f, left, nb);
    case Choice(p1, p2) =>
      var b := VerifyRule(true, g, p1, left, nb).nullable;
      var f' := if f == 0 then 0 else f - 1;
      VerifySound(m, g, p2, s, i, f', left, b);
      VerifySound(m, g, p1, s, i, f', left, nb);
    case Capture(_, _, p) => VerifySound(m, g, p, s, i, if f == 0 then 0 else f - 1, left, nb);
    case Call(n) => VerifySound(m, g, g[n], s, i, if f == 0 then 0 else f - 1, left - 1, nb);
    case Rules(rs) => NullableSound(m, g, t, s, i, f, MAX_RULES);
    case Not(p) => VerifySound(m, g, p, s, i, f, left, true);
    case And(p) => VerifySound(m, g, p, s, i, f, left, true);
    case Rep(p) => VerifySound(m, g, p, s, i, f, left, true);
    case _ =>
  }

  lemma {:induction false} VerifySoundSeq(m: Mode, g: Grammar, t: Tree, s: Subject, i: nat, f: nat, left: nat, nb: bool)
    requires t.Seq? && i <= |s| && VerifyRule(true, g, t, left, nb) == Answer(false)
    ensures !nb && var r := Run(m, g, t, s, i, f); r.Ok? ==> r.pos > i
    decreases left, t, 0
  {
    var b := VerifyRule(true, g, t.p1, left, false).nullable;
    if f == 0 {
      if b { VerifySound(m, g, t.p2, s, i, 0, left, nb); }
    } else {
      RunCases(m, g, t, s, i, f);
      var r := Run(m, g, t.p1, s, i, f - 1);
      if !b {
        VerifySound(m, g, t.p1, s, i, f - 1, left, false);
      } else {
        VerifySound(m, g, t.p2, s, if r.Ok? then r.pos else i, f - 1, left, nb);
      }
    }
  }

  // ---------- a tree whose calls lead to accepted rules ----------

  /** The rules that can be reached were accepted. */
  ghost predicate RulesSafe(g: Grammar) {
    forall n: nat {:trigger RuleSafe(g, n)} | n < |g| && Used(g, n) :: RuleSafe(g, n)
  }

  predicate RuleSafe(g: Grammar, n: nat)
    requires n < |g|
  {
    RuleAccepted(true, g, n) && GrammarsAccepted(true, g[n]) && NoWayBack(g, n) && BackFree(g[n])
  }

  predicate CallsUsed(g: Grammar, t: Tree) {
    forall n | n in Calls(t) :: n < |g| && Used(g, n)
  }

  /** One more rule to pass is enough for any tree that calls accepted rules. */
  lemma {:induction false} VerifyRestart(g: Grammar, t: Tree, nb: bool)
    requires RulesSafe(g) && CallsUsed(g, t)
    ensures VerifyRule(true, g, t, MAX_RULES + 1, nb).Answer?
    decreases t
  {
    match t
    case Not(p) => assert Calls(t) == Calls(p); VerifyRestart(g, p, true);
    case And(p) => assert Calls(t) == Calls(p); VerifyRestart(g, p, true);
    case Rep(p) => assert Calls(t) == Calls(p); VerifyRestart(g, p, true);
    case Capture(_, _, p) => assert Calls(t) == Calls(p); VerifyRestart(g, p, nb);
    case Seq(p1, p2) =>
      assert Calls(t) == Calls(p1) + Calls(p2);
      VerifyRestart(g, p1, false);
      VerifyRestart(g, p2, nb);
    case Choice(p1, p2) =>
      assert Calls(t) == Calls(p1) + Calls(p2);
      VerifyRestart(g, p1, nb);
      VerifyRestart(g, p2, VerifyRule(true, g, p1, MAX_RULES + 1, nb).nullable);
    case Call(n) => assert n in Calls(t); assert RuleSafe(g, n); VerifyNb(g, g[n], MAX_RULES, false, nb);
    case _ =>
  }

  /** Whether the check fails does not depend on what is known to be nullable before. */
  lemma {:induction false} VerifyNb(g: Grammar, t: Tree, left: nat, nb1: bool, nb2: bool)
    requires VerifyRule(true, g, t, left, nb1).Answer?
    ensures VerifyRule(true, g, t, left, nb2).Answer?
    decreases left, t
  {
    match t
    case Capture(_, _, p) => VerifyNb(g, p, left, nb1, nb2);
    case Seq(p1, p2) => if VerifyRule(true, g, p1, left, false).nullable { VerifyNb(g, p2, left, nb1, nb2); }
    case Choice(p1, p2) =>
      VerifyNb(g, p1, left, nb1, nb2);
      VerifyNb(g, p2, left, VerifyRule(true, g, p1, left, nb1).nullable, VerifyRule(true, g, p1, left, nb2).nullable);
    case Call(n) => VerifyNb(g, g[n], left - 1, nb1, nb2);
    case _ =>
  }
}
