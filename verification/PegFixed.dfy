/** Matching a pattern as the user built it: `lp_match` of nmap/lpeg.c first makes the final
    adjustment of the tree, which keeps the pattern acceptable and its meaning the same. */
module PegFixed {
  import opened PegTree
  import opened PegSemantics
  import opened PegVerify
  import opened PegJumps
  import opened PegTermination
  import opened PegCaptures
  import opened PegLoopOpt
  import opened PegLibrary
  import opened PegAssoc

  // ---------- the analyses do not see the adjustment ----------

  lemma CheckParts(g: Grammar, a: Tree, c: Tree, pred: Pred, k: nat)
    ensures Check(g, Seq(a, c), pred, k) == (Check(g, a, pred, k) && Check(g, c, pred, k))
    ensures Check(g, Choice(a, c), pred, k) == (Check(g, a, pred, k) || Check(g, c, pred, k))
  {
    var t, u := Seq(a, c), Choice(a, c);
    assert CheckNode(g, t, pred, k) == (Check(g, a, pred, k) && Check(g, c, pred, k));
    assert CheckNode(g, u, pred, k) == (Check(g, a, pred, k) || Check(g, c, pred, k));
  }

  lemma {:induction false} JoinSeqCheck(g: Grammar, a: Tree, c: Tree, pred: Pred, k: nat)
    ensures Check(g, JoinSeq(a, c), pred, k) == (Check(g, a, pred, k) && Check(g, c, pred, k))
    decreases a
  {
    if a.Seq? {
      JoinSeqCheck(g, a.p2, c, pred, k);
      CheckParts(g, a.p1, JoinSeq(a.p2, c), pred, k);
      CheckParts(g, a.p1, a.p2, pred, k);
    } else {
      CheckParts(g, a, c, pred, k);
    }
  }

  lemma {:induction false} JoinChoiceCheck(g: Grammar, a: Tree, c: Tree, pred: Pred, k: nat)
    ensures Check(g, JoinChoice(a, c), pred, k) == (Check(g, a, pred, k) || Check(g, c, pred, k))
    decreases a
  {
    if a.Choice? {
      JoinChoiceCheck(g, a.p2, c, pred, k);
      CheckParts(g, a.p1, JoinChoice(a.p2, c), pred, k);
      CheckParts(g, a.p1, a.p2, pred, k);
    } else {
      CheckParts(g, a, c, pred, k);
    }
  }

  lemma {:induction false} FixedCheck(g: Grammar, t: Tree, pred: Pred, k: nat)
    ensures Check(g, Fixed(t), pred, k) == Check(g, t, pred, k)
    decreases t
  {
    match t
    case Seq(p1, p2) =>
      FixedJoins(t);
      FixedCheck(g, p1, pred, k);
      FixedCheck(g, p2, pred, k);
      JoinSeqCheck(g, Fixed(p1), Fixed(p2), pred, k);
      CheckParts(g, p1, p2, pred, k);
    case Choice(p1, p2) =>
      FixedJoins(t);
      FixedCheck(g, p1, pred, k);
      FixedCheck(g, p2, pred, k);
      JoinChoiceCheck(g, Fixed(p1), Fixed(p2), pred, k);
      CheckParts(g, p1, p2, pred, k);
    case And(p) => FixedCheck(g, p, pred, k);
    case Capture(_, _, p) => FixedCheck(g, p, pred, k);
    case _ =>
  }

  /** The length of a sequence and of a choice, from the lengths of their parts. */
  function SeqLen(g: Grammar, a: Tree, c: Tree, count: nat, len: nat): int {
    var n := FixedLenX(g, a, count, len);
    if n < 0 then -1 else FixedLenX(g, c, count, n)
  }

  function SameLen(n1: int, n2: int): int {
    if n1 < 0 || n1 != n2 then -1 else n1
  }

  lemma LenParts(g: Grammar, a: Tree, c: Tree, count: nat, len: nat)
    ensures FixedLenX(g, Seq(a, c), count, len) == SeqLen(g, a, c, count, len)
    ensures FixedLenX(g, Choice(a, c), count, len) == SameLen(FixedLenX(g, a, count, len), FixedLenX(g, c, count, len))
  {
    var t, u := Seq(a, c), Choice(a, c);
    assert FixedLenX(g, t, count, len) == FixedLenNode(g, t, count, len);
    assert FixedLenX(g, u, count, len) == FixedLenNode(g, u, count, len);
  }

  lemma {:induction false} JoinSeqLen(g: Grammar, a: Tree, c: Tree, count: nat, len: nat)
    ensures FixedLenX(g, JoinSeq(a, c), count, len) == SeqLen(g, a, c, count, len)
    decreases a
  {
    if a.Seq? {
      LenParts(g, a.p1, JoinSeq(a.p2, c), count, len);
      LenParts(g, a.p1, a.p2, count, len);
      var n := FixedLenX(g, a.p1, count, len);
      if n >= 0 { JoinSeqLen(g, a.p2, c, count, n); }
    } else {
      LenParts(g, a, c, count, len);
    }
  }

  lemma {:induction false} JoinChoiceLen(g: Grammar, a: Tree, c: Tree, count: nat, len: nat)
    ensures FixedLenX(g, JoinChoice(a, c), count, len)
              == SameLen(FixedLenX(g, a, count, len), FixedLenX(g, c, count, len))
    decreases a
  {
    if a.Choice? {
      JoinChoiceLen(g, a.p2, c, count, len);
      LenParts(g, a.p1, JoinChoice(a.p2, c), count, len);
      LenParts(g, a.p1, a.p2, count, len);
    } else {
      LenParts(g, a, c, count, len);
    }
  }

  lemma {:induction false} FixedLenSame(g: Grammar, t: Tree, count: nat, len: nat)
    ensures FixedLenX(g, Fixed(t), count, len) == FixedLenX(g, t, count, len)
    decreases t, 1
  {
    match t
    case Seq(_, _) => FixedLenSeq(g, t, count, len);
    case Choice(_, _) => FixedLenChoice(g, t, count, len);
    case Capture(_, _, p) => FixedLenSame(g, p, count, len);
    case _ =>
  }

  lemma {:induction false} FixedLenSeq(g: Grammar, t: Tree, count: nat, len: nat)
    requires t.Seq?
    ensures FixedLenX(g, Fixed(t), count, len) == FixedLenX(g, t, count, len)
    decreases t, 0
  {
    FixedJoins(t);
    FixedLenSame(g, t.p1, count, len);
    var n := FixedLenX(g, t.p1, count, len);
    if n >= 0 { FixedLenSame(g, t.p2, count, n); }
    JoinSeqLen(g, Fixed(t.p1), Fixed(t.p2), count, len);
    LenParts(g, t.p1, t.p2, count, len);
  }

  lemma {:induction false} FixedLenChoice(g: Grammar, t: Tree, count: nat, len: nat)
    requires t.Choice?
    ensures FixedLenX(g, Fixed(t), count, len) == FixedLenX(g, t, count, len)
    decreases t, 0
  {
    FixedJoins(t);
    FixedLenSame(g, t.p1, count, len);
    FixedLenSame(g, t.p2, count, len);
    JoinChoiceLen(g, Fixed(t.p1), Fixed(t.p2), count, len);
    LenParts(g, t.p1, t.p2, count, len);
  }

  lemma {:induction false} JoinCaptures(a: Tree, c: Tree)
    ensures HasCaptures(JoinSeq(a, c)) == HasCaptures(JoinChoice(a, c)) == (HasCaptures(a) || HasCaptures(c))
    ensures CallFree(JoinSeq(a, c)) == CallFree(JoinChoice(a, c)) == (CallFree(a) && CallFree(c))
    decreases a
  {
    if a.Seq? { JoinCaptures(a.p2, c); }
    if a.Choice? { JoinCaptures(a.p2, c); }
  }

  lemma {:induction false} FixedCaptures(t: Tree)
    ensures HasCaptures(Fixed(t)) == HasCaptures(t) && CallFree(Fixed(t)) == CallFree(t)
    decreases t
  {
    match t
    case Seq(p1, p2) =>
      FixedJoins(t);
      FixedCaptures(p1);
      FixedCaptures(p2);
      JoinCaptures(Fixed(p1), Fixed(p2));
    case Choice(p1, p2) =>
      FixedJoins(t);
      FixedCaptures(p1);
      FixedCaptures(p2);
      JoinCaptures(Fixed(p1), Fixed(p2));
    case Rep(p) => FixedCaptures(p);
    case Not(p) => FixedCaptures(p);
    case And(p) => FixedCaptures(p);
    case Behind(_, p) => FixedCaptures(p);
    case Capture(_, _, p) => FixedCaptures(p);
    case _ =>
  }

  // ---------- what is accepted stays accepted ----------

  /** The parts of acceptance that are found by a walk over the tree, or (`all` is false) the first. */
  predicate Good(all: bool, g: Grammar, t: Tree) {
    WellFormed(g, t) && (all ==> GrammarsAccepted(true, t) && !CheckLoops(g, t) && BackFree(t))
  }

  lemma {:induction false} JoinGood(all: bool, g: Grammar, a: Tree, c: Tree)
    requires Good(all, g, a) && Good(all, g, c)
    ensures Good(all, g, JoinSeq(a, c)) && Good(all, g, JoinChoice(a, c))
    decreases a
  {
    if a.Seq? { JoinGood(all, g, a.p2, c); }
    if a.Choice? { JoinGood(all, g, a.p2, c); }
  }

  lemma {:induction false} FixedGood(all: bool, g: Grammar, t: Tree)
    requires Good(all, g, t)
    ensures Good(all, g, Fixed(t))
    decreases t
  {
    match t
    case Seq(p1, p2) =>
      FixedJoins(t);
      FixedGood(all, g, p1);
      FixedGood(all, g, p2);
      JoinGood(all, g, Fixed(p1), Fixed(p2));
    case Choice(p1, p2) =>
      FixedJoins(t);
      FixedGood(all, g, p1);
      FixedGood(all, g, p2);
      JoinGood(all, g, Fixed(p1), Fixed(p2));
    case Rep(p) =>
      FixedGood(all, g, p);
      FixedCheck(g, p, Nullable, MAX_RULES);
    case Not(p) => FixedGood(all, g, p);
    case And(p) => FixedGood(all, g, p);
    case Behind(_, p) =>
      FixedGood(all, g, p);
      FixedLenSame(g, p, 0, 0);
      FixedCaptures(p);
    case Capture(_, _, p) => FixedGood(all, g, p);
    case _ =>
  }

  lemma {:induction false} JoinBuilds(lo: bool, a: Tree, c: Tree)
    requires GrammarsEnd(lo, a) && GrammarsEnd(lo, c)
    ensures GrammarsEnd(lo, JoinSeq(a, c)) && GrammarsEnd(lo, JoinChoice(a, c))
    decreases a
  {
    if a.Seq? { JoinBuilds(lo, a.p2, c); }
    if a.Choice? { JoinBuilds(lo, a.p2, c); }
  }

  lemma {:induction false} FixedBuilds(lo: bool, t: Tree)
    requires GrammarsEnd(lo, t)
    ensures GrammarsEnd(lo, Fixed(t))
    decreases t
  {
    match t
    case Seq(p1, p2) =>
      FixedJoins(t);
      FixedBuilds(lo, p1);
      FixedBuilds(lo, p2);
      JoinBuilds(lo, Fixed(p1), Fixed(p2));
    case Choice(p1, p2) =>
      FixedJoins(t);
      FixedBuilds(lo, p1);
      FixedBuilds(lo, p2);
      JoinBuilds(lo, Fixed(p1), Fixed(p2));
    case Rep(p) => FixedBuilds(lo, p);
    case Not(p) => FixedBuilds(lo, p);
    case And(p) => FixedBuilds(lo, p);
    case Behind(_, p) => FixedBuilds(lo, p);
    case Capture(_, _, p) => FixedBuilds(lo, p);
    case _ =>
  }

  /** The adjustment keeps a pattern acceptable. */
  lemma FixedAccepted(t: Tree)
    requires Accepted(true, t)
    ensures Accepted(true, Fixed(t))
  {
    FixedGood(true, [], t);
    FixedCaptures(t);
  }

  /** It keeps a pattern buildable. */
  lemma FixedBuildable(lo: bool, t: Tree)
    requires Buildable(lo, t)
    ensures Buildable(lo, Fixed(t))
  {
    FixedGood(false, [], t);
    FixedBuilds(lo, t);
    FixedCaptures(t);
  }

  // ---------- captures ----------

  /** What a tree passes on. */
  predicate SameLists(g: Grammar, t: Tree, u: Tree) {
    Lists(g, t) == Lists(g, u) && ListedCalls(g, t) == ListedCalls(g, u)
  }

  lemma {:induction false} JoinLists(g: Grammar, a: Tree, c: Tree)
    ensures SameLists(g, JoinSeq(a, c), Seq(a, c)) && SameLists(g, JoinChoice(a, c), Choice(a, c))
    decreases a
  {
    if a.Seq? { JoinLists(g, a.p2, c); }
    if a.Choice? { JoinLists(g, a.p2, c); }
  }

  lemma {:induction false} FixedLists(g: Grammar, t: Tree)
    ensures SameLists(g, Fixed(t), t)
    decreases t
  {
    match t
    case Seq(p1, p2) =>
      FixedJoins(t);
      FixedLists(g, p1);
      FixedLists(g, p2);
      JoinLists(g, Fixed(p1), Fixed(p2));
    case Choice(p1, p2) =>
      FixedJoins(t);
      FixedLists(g, p1);
      FixedLists(g, p2);
      JoinLists(g, Fixed(p1), Fixed(p2));
    case Rep(p) => FixedLists(g, p);
    case And(p) =>
      FixedLists(g, p);
      FixedShort(g, p);
    case Behind(_, p) => FixedLists(g, p);
    case Capture(_, _, p) => FixedLists(g, p);
    case _ =>
  }

  /** The same captures and predicates are coded short. */
  lemma FixedShort(g: Grammar, p: Tree)
    ensures ShortAnd(g, Fixed(p)) == ShortAnd(g, p) && ShortCapture(g, Fixed(p)) == ShortCapture(g, p)
  {
    FixedLenSame(g, p, 0, 0);
    FixedCaptures(p);
  }

  lemma {:induction false} JoinSeen(g: Grammar, a: Tree, c: Tree)
    requires AllSeen(g, a) && AllSeen(g, c)
    ensures AllSeen(g, JoinSeq(a, c)) && AllSeen(g, JoinChoice(a, c))
    decreases a
  {
    if a.Seq? { JoinSeen(g, a.p2, c); }
    if a.Choice? { JoinSeen(g, a.p2, c); }
  }

  lemma {:induction false} FixedSeen(g: Grammar, t: Tree)
    requires AllSeen(g, t)
    ensures AllSeen(g, Fixed(t))
    decreases t
  {
    match t
    case Seq(p1, p2) =>
      FixedJoins(t);
      FixedSeen(g, p1);
      FixedSeen(g, p2);
      JoinSeen(g, Fixed(p1), Fixed(p2));
    case Choice(p1, p2) =>
      FixedJoins(t);
      FixedSeen(g, p1);
      FixedSeen(g, p2);
      JoinSeen(g, Fixed(p1), Fixed(p2));
    case Rep(p) => FixedSeen(g, p);
    case And(p) =>
      FixedShort(g, p);
      FixedLists(g, p);
    case Behind(_, p) => FixedSeen(g, p);
    case Capture(_, _, p) =>
      FixedShort(g, p);
      FixedLists(g, p);
      if !ShortCapture(g, p) { FixedSeen(g, p); }
    case _ =>
  }

  // ---------- from the pattern as built to the result ----------

  /** What a result for the adjusted tree says about the tree as it was built. */
  lemma FixedMeans(t: Tree, s: Subject, i: nat, r: Outcome)
    requires i <= |s| && Parses(Compiled, [], Fixed(t), s, i, r)
    ensures exists d :: SameEnd(r, d) && Parses(Reference, [], t, s, i, d)
    ensures AllSeen([], t) ==> Parses(Reference, [], t, s, i, r)
  {
    var u := Fixed(t);
    var f: nat :| Run(Compiled, [], u, s, i, f) == r;
    PositionsAgree(Compiled, Reference, [], u, s, i, f);
    var d := Run(Reference, [], u, s, i, f);
    assert Parses(Reference, [], u, s, i, d);
    assert FixedAll([]) == [];
    FixedSame([], t, s, i, d);
    assert Parses(Reference, [], t, s, i, d);
    if AllSeen([], t) {
      FixedSeen([], t);
      PatternCapsAgree(u, s, i, f);
    }
  }

  /** The adjusted pattern has a result where the pattern as it was built has one. */
  lemma FixedEnds(t: Tree, s: Subject, i: nat)
    requires i <= |s| && Ends(Reference, [], t, s, i)
    ensures Ends(Compiled, [], Fixed(t), s, i)
  {
    var f: nat :| RunEnds(Reference, [], t, s, i, f);
    var d := Run(Reference, [], t, s, i, f);
    assert FixedAll([]) == [];
    assert Parses(Reference, [], t, s, i, d);
    FixedSame([], t, s, i, d);
    var k: nat :| Run(Reference, [], Fixed(t), s, i, k) == d;
    PositionsAgree(Compiled, Reference, [], Fixed(t), s, i, k);
    assert RunEnds(Compiled, [], Fixed(t), s, i, k);
  }

  /** `lp_match` with `prepcompile`: adjusting, compiling and running a pattern gives the documented
      positions and failures of the pattern as it was built, wherever it has a result, and its
      captures unless one hides behind a call. */
  method MatchPattern(lo: bool, t: Tree, s: Subject, i: nat) returns (r: Outcome)
    requires Buildable(lo, t) && i <= |s| && Ends(Reference, [], t, s, i)
    requires lo ==> !Clash([], Fixed(t), false, FULL)
    ensures exists d :: SameEnd(r, d) && Parses(Reference, [], t, s, i, d)
    ensures AllSeen([], t) ==> Parses(Reference, [], t, s, i, r)
    ensures r.Ok? ==> i <= r.pos <= |s| && Balanced(r.caps)
  {
    FixedBuildable(lo, t);
    FixedEnds(t, s, i);
    r := LpMatch(lo, Fixed(t), s, i);
    FixedMeans(t, s, i, r);
  }
}
