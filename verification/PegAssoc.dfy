/**
 Final adjustment of a pattern tree (`correctassociativity` and `finalfix` of nmap/lpeg.c):
 sequences and choices are made right associative, in place, in the array of cells that
 holds the tree.
 */
module PegAssoc {
  import opened PegTree
  import opened PegSemantics

  // ---------- right-associative trees ----------

  predicate SameOp(t: Tree) {
    (t.Seq? && t.p1.Seq?) || (t.Choice? && t.p1.Choice?)
  }

  /** The first child gives up its second part, which joins the second child. */
  function Rotate(t: Tree): (r: Tree)
    requires SameOp(t)
    ensures (r.Seq? <==> t.Seq?) && (r.Choice? <==> t.Choice?)
    ensures Cells(r) == Cells(t) && Cells(r.p1) < Cells(t.p1)
  {
    if t.Seq? then Seq(t.p1.p1, Seq(t.p1.p2, t.p2)) else Choice(t.p1.p1, Choice(t.p1.p2, t.p2))
  }

  /** The number of cells of a tree. */
  function Cells(t: Tree): (n: nat)
    ensures n > 0
  {
    match t
    case Rep(p) => 1 + Cells(p)
    case Not(p) => 1 + Cells(p)
    case And(p) => 1 + Cells(p)
    case Behind(_, p) => 1 + Cells(p)
    case Capture(_, _, p) => 1 + Cells(p)
    case Seq(p1, p2) => 1 + Cells(p1) + Cells(p2)
    case Choice(p1, p2) => 1 + Cells(p1) + Cells(p2)
    case Rules(rs) => 1 + RuleCells(rs)
    case _ => 1
  }

  /** The cells of a list of rules: one more for each rule, and one that ends the list. */
  function RuleCells(rs: seq<Tree>): (n: nat)
    ensures n > 0
  {
    if rs == [] then 1 else 1 + Cells(rs[0]) + RuleCells(rs[1..])
  }

  /** What `finalfix` makes of a tree; grammars inside it are fixed already. */
  function Fixed(t: Tree): (r: Tree)
    ensures Cells(r) == Cells(t)
    decreases Cells(t), if t.Seq? || t.Choice? then Cells(t.p1) else 0
  {
    if SameOp(t) then Fixed(Rotate(t))
    else
      match t
      case Rep(p) => Rep(Fixed(p))
      case Not(p) => Not(Fixed(p))
      case And(p) => And(Fixed(p))
      case Behind(n, p) => Behind(n, Fixed(p))
      case Capture(k, key, p) => Capture(k, key, Fixed(p))
      case Seq(p1, p2) => Seq(Fixed(p1), Fixed(p2))
      case Choice(p1, p2) => Choice(Fixed(p1), Fixed(p2))
      case _ => t
  }

  function FixedAll(rs: seq<Tree>): (r: seq<Tree>)
    ensures |r| == |rs| && forall n: nat | n < |rs| :: r[n] == Fixed(rs[n])
  {
    if rs == [] then [] else [Fixed(rs[0])] + FixedAll(rs[1..])
  }

  /** No sequence or choice outside nested grammars has a first child of its own kind. */
  predicate RightNested(t: Tree) {
    match t
    case Rep(p) => RightNested(p)
    case Not(p) => RightNested(p)
    case And(p) => RightNested(p)
    case Behind(_, p) => RightNested(p)
    case Capture(_, _, p) => RightNested(p)
    case Seq(p1, p2) => !p1.Seq? && RightNested(p1) && RightNested(p2)
    case Choice(p1, p2) => !p1.Choice? && RightNested(p1) && RightNested(p2)
    case _ => true
  }

  lemma {:induction false} FixedRightNested(t: Tree)
    ensures RightNested(Fixed(t))
    ensures !t.Seq? ==> !Fixed(t).Seq?
    ensures !t.Choice? ==> !Fixed(t).Choice?
    decreases Cells(t), if t.Seq? || t.Choice? then Cells(t.p1) else 0
  {
    if SameOp(t) {
      FixedRightNested(Rotate(t));
    } else {
      match t
      case Rep(p) => FixedRightNested(p);
      case Not(p) => FixedRightNested(p);
      case And(p) => FixedRightNested(p);
      case Behind(_, p) => FixedRightNested(p);
      case Capture(_, _, p) => FixedRightNested(p);
      case Seq(p1, p2) => FixedRightNested(p1); FixedRightNested(p2);
      case Choice(p1, p2) => FixedRightNested(p1); FixedRightNested(p2);
      case _ =>
    }
  }

  // ---------- the same, from the leaves up ----------

  /** The sequence of a fixed tree and another. */
  function JoinSeq(a: Tree, c: Tree): Tree {
    if a.Seq? then Seq(a.p1, JoinSeq(a.p2, c)) else Seq(a, c)
  }

  function JoinChoice(a: Tree, c: Tree): Tree {
    if a.Choice? then Choice(a.p1, JoinChoice(a.p2, c)) else Choice(a, c)
  }

  /** Fixing a sequence or a choice joins its fixed parts. */
  lemma {:induction false} FixedJoins(t: Tree)
    requires t.Seq? || t.Choice?
    ensures t.Seq? ==> Fixed(t) == JoinSeq(Fixed(t.p1), Fixed(t.p2))
    ensures t.Choice? ==> Fixed(t) == JoinChoice(Fixed(t.p1), Fixed(t.p2))
    decreases Cells(t), Cells(t.p1)
  {
    if SameOp(t) {
      var r := Rotate(t);
      FixedJoins(r);
      FixedJoins(r.p2);
      FixedJoins(t.p1);
      if t.Seq? {
        JoinSeqAssoc(Fixed(t.p1.p1), Fixed(t.p1.p2), Fixed(t.p2));
      } else {
        JoinChoiceAssoc(Fixed(t.p1.p1), Fixed(t.p1.p2), Fixed(t.p2));
      }
    } else {
      FixedRightNested(t.p1);
    }
  }

  lemma {:induction false} JoinSeqAssoc(a: Tree, b: Tree, c: Tree)
    ensures JoinSeq(a, JoinSeq(b, c)) == JoinSeq(JoinSeq(a, b), c)
  {
    if a.Seq? { JoinSeqAssoc(a.p2, b, c); }
  }

  lemma {:induction false} JoinChoiceAssoc(a: Tree, b: Tree, c: Tree)
    ensures JoinChoice(a, JoinChoice(b, c)) == JoinChoice(JoinChoice(a, b), c)
  {
    if a.Choice? { JoinChoiceAssoc(a.p2, b, c); }
  }

  // ---------- the meaning stays ----------

  /** The pattern has the outcome `r`, in the documented mode. */
  ghost predicate Gives(g: Grammar, t: Tree, s: Subject, i: nat, r: Outcome)
    requires i <= |s|
  {
    Parses(Reference, g, t, s, i, r)
  }

  /** The outcome that `f` units of fuel suffice for. */
  function Do(g: Grammar, t: Tree, s: Subject, i: nat, f: nat): (r: Outcome)
    requires i <= |s|
    ensures r.Ok? ==> i <= r.pos <= |s|
  {
    Run(Reference, g, t, s, i, f)
  }

  /** Enough fuel for an outcome. */
  lemma Fuel(g: Grammar, t: Tree, s: Subject, i: nat, r: Outcome) returns (f: nat)
    requires i <= |s| && Gives(g, t, s, i, r)
    ensures forall k: nat | k >= f :: Do(g, t, s, i, k) == r
    ensures r != Diverge && (r.Ok? ==> i <= r.pos <= |s|)
  {
    f :| Run(Reference, g, t, s, i, f) == r;
    forall k: nat | k >= f ensures Do(g, t, s, i, k) == r { RunMono(Reference, g, t, s, i, f, k); }
  }

  lemma GivesSeq(g: Grammar, t: Tree, s: Subject, i: nat, r1: Outcome, r2: Outcome)
    requires i <= |s| && t.Seq? && Gives(g, t.p1, s, i, r1)
    requires r1.Ok? ==> r1.pos <= |s| && Gives(g, t.p2, s, r1.pos, r2)
    ensures Gives(g, t, s, i, SeqOutcome(r1, r2))
  {
    var f := Fuel(g, t.p1, s, i, r1);
    if r1.Ok? {
      var f2 := Fuel(g, t.p2, s, r1.pos, r2);
      f := if f < f2 then f2 else f;
      assert Do(g, t.p2, s, r1.pos, f) == r2;
    }
    RunCases(Reference, g, t, s, i, f + 1);
    assert Do(g, t.p1, s, i, f) == r1;
  }

  function ChoiceOutcome(r1: Outcome, r2: Outcome): Outcome {
    if r1.Fail? then r2 else r1
  }

  lemma GivesChoice(g: Grammar, t: Tree, s: Subject, i: nat, r1: Outcome, r2: Outcome)
    requires i <= |s| && t.Choice? && Gives(g, t.p1, s, i, r1)
    requires r1.Fail? ==> Gives(g, t.p2, s, i, r2)
    ensures Gives(g, t, s, i, ChoiceOutcome(r1, r2))
  {
    var f := Fuel(g, t.p1, s, i, r1);
    if r1.Fail? {
      var f2 := Fuel(g, t.p2, s, i, r2);
      f := if f < f2 then f2 else f;
      assert Do(g, t.p2, s, i, f) == r2;
    }
    RunCases(Reference, g, t, s, i, f + 1);
    assert Do(g, t.p1, s, i, f) == r1;
  }

  lemma GivesRep(g: Grammar, t: Tree, s: Subject, i: nat, r1: Outcome, r2: Outcome)
    requires i <= |s| && t.Rep? && Gives(g, t.p, s, i, r1)
    requires r1.Ok? ==> r1.pos <= |s| && Gives(g, t, s, r1.pos, r2)
    ensures Gives(g, t, s, i, if r1.Ok? then AddCaps(r1.caps, r2) else Ok(i, []))
  {
    var f := Fuel(g, t.p, s, i, r1);
    if r1.Ok? {
      var f2 := Fuel(g, t, s, r1.pos, r2);
      f := if f < f2 then f2 else f;
      assert Do(g, t, s, r1.pos, f) == r2;
    }
    RunCases(Reference, g, t, s, i, f + 1);
    assert Do(g, t.p, s, i, f) == r1;
  }

  /** The only child of a tree, and where it starts. */
  predicate Unary(t: Tree) {
    t.Not? || t.And? || t.Behind? || t.Capture?
  }

  function ChildAt(t: Tree, i: nat): int {
    if t.Behind? then i - t.n else i
  }

  function UnaryOutcome(t: Tree, i: nat, r1: Outcome): Outcome
    requires Unary(t) && (t.Capture? && r1.Ok? ==> i <= r1.pos)
  {
    match t
    case Not(_) => if r1.Ok? then Fail else Ok(i, [])
    case And(_) => if r1.Ok? then Ok(i, []) else r1
    case Behind(_, _) => if r1.Ok? then Ok(i, r1.caps) else r1
    case Capture(_, _, _) => if r1.Ok? then Ok(r1.pos, CaptureCaps(Reference, [], t, i, r1.pos, r1.caps)) else r1
  }

  lemma RunUnary(g: Grammar, t: Tree, s: Subject, i: nat, f: nat)
    requires i <= |s| && Unary(t) && ChildAt(t, i) >= 0 && f > 0
    ensures var r1 := Do(g, t.p, s, ChildAt(t, i), f - 1);
            Do(g, t, s, i, f) == if r1.Diverge? then r1 else UnaryOutcome(t, i, r1)
  {
    RunCases(Reference, g, t, s, i, f);
  }

  lemma GivesUnary(g: Grammar, t: Tree, s: Subject, i: nat, r1: Outcome)
    requires i <= |s| && Unary(t) && ChildAt(t, i) >= 0 && Gives(g, t.p, s, ChildAt(t, i), r1)
    requires r1.Ok? ==> ChildAt(t, i) <= r1.pos
    ensures Gives(g, t, s, i, UnaryOutcome(t, i, r1))
  {
    var f := Fuel(g, t.p, s, ChildAt(t, i), r1);
    assert Do(g, t.p, s, ChildAt(t, i), f) == r1;
    RunUnary(g, t, s, i, f + 1);
    assert Do(g, t, s, i, f + 1) != Diverge;
  }

  /** An outcome reached with some fuel. */
  lemma GivesNow(g: Grammar, t: Tree, s: Subject, i: nat, f: nat)
    requires i <= |s| && Do(g, t, s, i, f) != Diverge
    ensures Gives(g, t, s, i, Do(g, t, s, i, f))
  {}

  // ---------- joined trees ----------

  lemma {:induction false} JoinSeqGives(g: Grammar, a: Tree, c: Tree, s: Subject, i: nat, r1: Outcome, r2: Outcome)
    requires i <= |s| && Gives(g, a, s, i, r1) && (r1.Ok? ==> r1.pos <= |s| && Gives(g, c, s, r1.pos, r2))
    ensures Gives(g, JoinSeq(a, c), s, i, SeqOutcome(r1, r2))
    decreases a
  {
    if a.Seq? {
      var f := Fuel(g, a, s, i, r1);
      assert Do(g, a, s, i, f + 1) == r1;
      RunCases(Reference, g, a, s, i, f + 1);
      var q1 := Do(g, a.p1, s, i, f);
      GivesNow(g, a.p1, s, i, f);
      if q1.Ok? {
        var q2 := Do(g, a.p2, s, q1.pos, f);
        GivesNow(g, a.p2, s, q1.pos, f);
        JoinSeqGives(g, a.p2, c, s, q1.pos, q2, r2);
        GivesSeq(g, JoinSeq(a, c), s, i, q1, SeqOutcome(q2, r2));
        if q2.Ok? && r2.Ok? { assert q1.caps + q2.caps + r2.caps == q1.caps + (q2.caps + r2.caps); }
      } else {
        GivesSeq(g, JoinSeq(a, c), s, i, q1, q1);
      }
    } else {
      GivesSeq(g, JoinSeq(a, c), s, i, r1, r2);
    }
  }

  lemma {:induction false} JoinChoiceGives(g: Grammar, a: Tree, c: Tree, s: Subject, i: nat, r1: Outcome, r2: Outcome)
    requires i <= |s| && Gives(g, a, s, i, r1) && (r1.Fail? ==> Gives(g, c, s, i, r2))
    ensures Gives(g, JoinChoice(a, c), s, i, ChoiceOutcome(r1, r2))
    decreases a
  {
    if a.Choice? {
      var f := Fuel(g, a, s, i, r1);
      assert Do(g, a, s, i, f + 1) == r1;
      RunCases(Reference, g, a, s, i, f + 1);
      var q1 := Do(g, a.p1, s, i, f);
      GivesNow(g, a.p1, s, i, f);
      if q1.Fail? {
        var q2 := Do(g, a.p2, s, i, f);
        GivesNow(g, a.p2, s, i, f);
        JoinChoiceGives(g, a.p2, c, s, i, q2, r2);
        GivesChoice(g, JoinChoice(a, c), s, i, q1, ChoiceOutcome(q2, r2));
      } else {
        GivesChoice(g, JoinChoice(a, c), s, i, q1, q1);
      }
    } else {
      GivesChoice(g, JoinChoice(a, c), s, i, r1, r2);
    }
  }

  /** A joined sequence runs its two parts. */
  lemma {:induction false} JoinSeqSplits(g: Grammar, a: Tree, c: Tree, s: Subject, i: nat, f: nat)
    requires i <= |s| && Do(g, JoinSeq(a, c), s, i, f) != Diverge
    ensures var r1 := Do(g, a, s, i, f);
            && r1 != Diverge
            && (r1.Ok? ==> Do(g, c, s, r1.pos, f) != Diverge)
            && Do(g, JoinSeq(a, c), s, i, f) == SeqOutcome(r1, if r1.Ok? then Do(g, c, s, r1.pos, f) else r1)
    decreases a
  {
    RunCases(Reference, g, JoinSeq(a, c), s, i, f);
    if a.Seq? {
      RunCases(Reference, g, a, s, i, f);
      var q1 := Do(g, a.p1, s, i, f - 1);
      if q1.Ok? {
        JoinSeqSplits(g, a.p2, c, s, q1.pos, f - 1);
        var q2 := Do(g, a.p2, s, q1.pos, f - 1);
        if q2.Ok? {
          RunMono(Reference, g, c, s, q2.pos, f - 1, f);
          var r2 := Do(g, c, s, q2.pos, f);
          if r2.Ok? { assert q1.caps + q2.caps + r2.caps == q1.caps + (q2.caps + r2.caps); }
        }
      }
    } else {
      RunMono(Reference, g, a, s, i, f - 1, f);
      var r1 := Do(g, a, s, i, f);
      if r1.Ok? { RunMono(Reference, g, c, s, r1.pos, f - 1, f); }
    }
  }

  lemma {:induction false} JoinChoiceSplits(g: Grammar, a: Tree, c: Tree, s: Subject, i: nat, f: nat)
    requires i <= |s| && Do(g, JoinChoice(a, c), s, i, f) != Diverge
    ensures var r1 := Do(g, a, s, i, f);
            && r1 != Diverge
            && (r1.Fail? ==> Do(g, c, s, i, f) != Diverge)
            && Do(g, JoinChoice(a, c), s, i, f) == ChoiceOutcome(r1, if r1.Fail? then Do(g, c, s, i, f) else r1)
    decreases a
  {
    RunCases(Reference, g, JoinChoice(a, c), s, i, f);
    if a.Choice? {
      RunCases(Reference, g, a, s, i, f);
      var q1 := Do(g, a.p1, s, i, f - 1);
      if q1.Fail? {
        JoinChoiceSplits(g, a.p2, c, s, i, f - 1);
        if Do(g, a.p2, s, i, f - 1).Fail? { RunMono(Reference, g, c, s, i, f - 1, f); }
      }
    } else {
      RunMono(Reference, g, a, s, i, f - 1, f);
      if Do(g, a, s, i, f).Fail? { RunMono(Reference, g, c, s, i, f - 1, f); }
    }
  }

  // ---------- fixed trees mean the same ----------

  /** What the fixed tree gives in the fixed grammar. */
  lemma {:induction false} FixedForward(g: Grammar, t: Tree, s: Subject, i: nat, f: nat)
    requires i <= |s| && Do(g, t, s, i, f) != Diverge
    ensures Gives(FixedAll(g), Fixed(t), s, i, Do(g, t, s, i, f))
    decreases f, 1
  {
    RunCases(Reference, g, t, s, i, f);
    var g' := FixedAll(g);
    match t
    case Seq(p1, p2) =>
      FixedForward(g, p1, s, i, f - 1);
      var r1 := Do(g, p1, s, i, f - 1);
      var r2 := r1;
      if r1.Ok? {
        r2 := Do(g, p2, s, r1.pos, f - 1);
        FixedForward(g, p2, s, r1.pos, f - 1);
      }
      FixedJoins(t);
      JoinSeqGives(g', Fixed(p1), Fixed(p2), s, i, r1, r2);
    case Choice(p1, p2) =>
      FixedForward(g, p1, s, i, f - 1);
      var r1 := Do(g, p1, s, i, f - 1);
      var r2 := r1;
      if r1.Fail? {
        r2 := Do(g, p2, s, i, f - 1);
        FixedForward(g, p2, s, i, f - 1);
      }
      FixedJoins(t);
      JoinChoiceGives(g', Fixed(p1), Fixed(p2), s, i, r1, r2);
    case Rep(p) =>
      FixedForward(g, p, s, i, f - 1);
      var r1 := Do(g, p, s, i, f - 1);
      var r2 := r1;
      if r1.Ok? {
        r2 := Do(g, t, s, r1.pos, f - 1);
        FixedForward(g, t, s, r1.pos, f - 1);
      }
      GivesRep(g', Fixed(t), s, i, r1, r2);
    case _ => FixedForwardSimple(g, t, s, i, f);
  }

  lemma {:induction false} FixedForwardSimple(g: Grammar, t: Tree, s: Subject, i: nat, f: nat)
    requires i <= |s| && !t.Seq? && !t.Choice? && !t.Rep? && Do(g, t, s, i, f) != Diverge
    ensures Gives(FixedAll(g), Fixed(t), s, i, Do(g, t, s, i, f))
    decreases f, 0
  {
    RunCases(Reference, g, t, s, i, f);
    var g', t' := FixedAll(g), Fixed(t);
    if Unary(t) && ChildAt(t, i) >= 0 {
      var j := ChildAt(t, i);
      RunUnary(g, t, s, i, f);
      FixedForward(g, t.p, s, j, f - 1);
      GivesUnary(g', t', s, i, Do(g, t.p, s, j, f - 1));
    } else if t.Call? && t.rule < |g| {
      FixedForward(g, g[t.rule], s, i, f - 1);
      var r := Do(g, g[t.rule], s, i, f - 1);
      var f' := Fuel(g', g'[t.rule], s, i, r);
      assert Do(g', g'[t.rule], s, i, f') == r;
      RunCases(Reference, g', t', s, i, f' + 1);
    } else {
      RunCases(Reference, g', t', s, i, f);
      GivesNow(g', t', s, i, f);
    }
  }

  /** What the fixed tree gives, the tree itself gives. */
  lemma {:induction false} FixedBackward(g: Grammar, t: Tree, s: Subject, i: nat, f: nat)
    requires i <= |s| && Do(FixedAll(g), Fixed(t), s, i, f) != Diverge
    ensures Gives(g, t, s, i, Do(FixedAll(g), Fixed(t), s, i, f))
    decreases f, t, 1
  {
    var g', t' := FixedAll(g), Fixed(t);
    match t
    case Seq(p1, p2) =>
      FixedJoins(t);
      JoinSeqSplits(g', Fixed(p1), Fixed(p2), s, i, f);
      FixedBackward(g, p1, s, i, f);
      var r1 := Do(g', Fixed(p1), s, i, f);
      if r1.Ok? { FixedBackward(g, p2, s, r1.pos, f); }
      GivesSeq(g, t, s, i, r1, if r1.Ok? then Do(g', Fixed(p2), s, r1.pos, f) else r1);
    case Choice(p1, p2) =>
      FixedJoins(t);
      JoinChoiceSplits(g', Fixed(p1), Fixed(p2), s, i, f);
      FixedBackward(g, p1, s, i, f);
      var r1 := Do(g', Fixed(p1), s, i, f);
      if r1.Fail? { FixedBackward(g, p2, s, i, f); }
      GivesChoice(g, t, s, i, r1, if r1.Fail? then Do(g', Fixed(p2), s, i, f) else r1);
    case Rep(p) =>
      RunCases(Reference, g', t', s, i, f);
      FixedBackward(g, p, s, i, f - 1);
      var r1 := Do(g', Fixed(p), s, i, f - 1);
      if r1.Ok? { FixedBackward(g, t, s, r1.pos, f - 1); }
      GivesRep(g, t, s, i, r1, if r1.Ok? then Do(g', t', s, r1.pos, f - 1) else r1);
    case _ => FixedBackwardSimple(g, t, s, i, f);
  }

  lemma {:induction false} FixedBackwardSimple(g: Grammar, t: Tree, s: Subject, i: nat, f: nat)
    requires i <= |s| && !t.Seq? && !t.Choice? && !t.Rep? && Do(FixedAll(g), Fixed(t), s, i, f) != Diverge
    ensures Gives(g, t, s, i, Do(FixedAll(g), Fixed(t), s, i, f))
    decreases f, t, 0
  {
    var g', t' := FixedAll(g), Fixed(t);
    RunCases(Reference, g', t', s, i, f);
    if Unary(t) && ChildAt(t, i) >= 0 {
      var j := ChildAt(t, i);
      RunUnary(g', t', s, i, f);
      FixedBackward(g, t.p, s, j, f - 1);
      GivesUnary(g, t, s, i, Do(g', Fixed(t.p), s, j, f - 1));
    } else if t.Call? && t.rule < |g| {
      FixedBackward(g, g[t.rule], s, i, f - 1);
      var r := Do(g', g'[t.rule], s, i, f - 1);
      var f2 := Fuel(g, g[t.rule], s, i, r);
      assert Do(g, g[t.rule], s, i, f2) == r;
      RunCases(Reference, g, t, s, i, f2 + 1);
    } else {
      RunCases(Reference, g, t, s, i, f);
      GivesNow(g, t, s, i, f);
    }
  }

  /** `finalfix` keeps the meaning of every rule and every pattern. */
  lemma FixedSame(g: Grammar, t: Tree, s: Subject, i: nat, r: Outcome)
    requires i <= |s|
    ensures Gives(g, t, s, i, r) <==> Gives(FixedAll(g), Fixed(t), s, i, r)
  {
    if Gives(g, t, s, i, r) {
      var f := Fuel(g, t, s, i, r);
      assert Do(g, t, s, i, f) == r;
      FixedForward(g, t, s, i, f);
    }
    if Gives(FixedAll(g), Fixed(t), s, i, r) {
      var f := Fuel(FixedAll(g), Fixed(t), s, i, r);
      assert Do(FixedAll(g), Fixed(t), s, i, f) == r;
      FixedBackward(g, t, s, i, f);
    }
  }
}
