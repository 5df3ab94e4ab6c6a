/**
 The text at nmap/lpeg.c:1656 generates the body of a loop with a test under the `opt` of
 the loop, although the body does not end where the enclosing choice ends.  This module
 shows a pattern for which that code is wrong, and that the code is right for every
 pattern without such a body that makes use of `opt`.
 */
module PegLoopOpt {
  import opened PegTree
  import opened PegSemantics
  import opened PegMachine
  import opened PegCode
  import opened PegVerify
  import opened PegTermination
  import opened PegTheorem

  /** The code of the tree depends on `opt`. */
  predicate UsesOpt(g: Grammar, t: Tree, fl: Charset) {
    match t
    case Seq(_, p2) => UsesOpt(g, p2, fl)
    case Choice(p1, p2) =>
      if !TestSuffices(g, p1, First(g, p2, fl).cs) && p2.True? then true else UsesOpt(g, p2, fl)
    case Rep(p) => !IsCharset(p) && (!TestSuffices(g, p, fl) || UsesOpt(g, p, FULL))
    case _ => false
  }

  /** Some loop with a test, under `opt`, has a body whose code depends on `opt`. */
  predicate Clash(g: Grammar, t: Tree, opt: bool, fl: Charset)
    decreases t
  {
    match t
    case Seq(p1, p2) => Clash(g, p1, false, SeqFollow(g, t, fl)) || Clash(g, p2, opt, fl)
    case Choice(p1, p2) =>
      if TestSuffices(g, p1, First(g, p2, fl).cs) then Clash(g, p1, false, fl) || Clash(g, p2, opt, fl)
      else if opt && p2.True? then Clash(g, p1, true, FULL)
      else Clash(g, p1, p2.True?, FULL) || Clash(g, p2, opt, fl)
    case Rep(p) =>
      !IsCharset(p) &&
      ((TestSuffices(g, p, fl) && opt && UsesOpt(g, p, FULL)) || Clash(g, p, false, FULL))
    case Not(p) => !HeadFail(g, p) && Clash(g, p, false, FULL)
    case And(p) => Clash(g, p, false, FULL)
    case Behind(_, p) => Clash(g, p, false, FULL)
    case Capture(_, _, p) => Clash(g, p, false, fl)
    case Rules(rs) => exists r | r in rs :: Clash(rs, r, false, FULL)
    case _ => false
  }

  /** Code that does not depend on `opt`. */
  lemma {:induction false} OptIrrelevant(g: Grammar, t: Tree, tt: Guard, fl: Charset, base: nat)
    requires !UsesOpt(g, t, fl)
    ensures Gen(true, g, t, true, tt, fl, base) == Gen(true, g, t, false, tt, fl, base)
    decreases t
  {
    GenCases(true, g, t, true, tt, fl, base);
    GenCases(true, g, t, false, tt, fl, base);
    match t
    case Seq(p1, p2) =>
      var c1 := Gen(true, g, p1, false, tt, SeqFollow(g, t, fl), base);
      OptIrrelevant(g, p2, SeqGuard(g, t, tt), fl, Past(base, |c1|));
    case Choice(p1, p2) =>
      var l1 := ChoiceSecond(true, g, t, fl, base);
      OptIrrelevant(g, p2, NoTest, fl, l1);
    case Rep(p) =>
      if !IsCharset(p) {
        var head := First(g, p, FULL).(empty := false);
        OptIrrelevant(g, p, TestGuard(head), FULL, Past(base, 1));
      }
    case _ =>
  }

  /** The address of the second alternative. */
  ghost function ChoiceSecond(lo: bool, g: Grammar, t: Tree, fl: Charset, base: nat): nat
    requires t.Choice?
  {
    var first := First(g, t.p1, FULL);
    if TestSuffices(g, t.p1, First(g, t.p2, fl).cs) then
      var b1 := Past(base, 1);
      var c1 := Gen(lo, g, t.p1, false, TestGuard(first.(empty := false)), fl, b1);
      Past(Past(b1, |c1|), SkipSize(t.p2))
    else
      var b1 := Past(Past(base, TestSize(first)), 1);
      var c1 := Gen(lo, g, t.p1, t.p2.True?, TestGuard(first), FULL, b1);
      Past(Past(b1, |c1|), 1)
  }

  /** Without a clash, the text generates the intended code. */
  lemma {:induction false} NoClashSame(g: Grammar, t: Tree, opt: bool, tt: Guard, fl: Charset, base: nat)
    requires !Clash(g, t, opt, fl)
    ensures Gen(true, g, t, opt, tt, fl, base) == Gen(false, g, t, opt, tt, fl, base)
    decreases t, 1
  {
    GenCases(true, g, t, opt, tt, fl, base);
    GenCases(false, g, t, opt, tt, fl, base);
    match t
    case Seq(p1, p2) =>
      var c1 := Gen(true, g, p1, false, tt, SeqFollow(g, t, fl), base);
      NoClashSame(g, p1, false, tt, SeqFollow(g, t, fl), base);
      NoClashSame(g, p2, opt, SeqGuard(g, t, tt), fl, Past(base, |c1|));
    case Choice(_, _) => NoClashChoice(g, t, opt, fl, base);
    case Rep(_) => NoClashRep(g, t, opt, fl, base);
    case Not(p) =>
      if !HeadFail(g, p) {
        NoClashSame(g, p, false, NoTest, FULL, Past(Past(base, TestSize(First(g, p, FULL))), 1));
      }
    case And(p) =>
      NoClashSame(g, p, false, tt, FULL, base);
      NoClashSame(g, p, false, tt, FULL, Past(base, 1));
    case Behind(n, p) =>
      NoClashSame(g, p, false, NoTest, FULL, base);
      NoClashSame(g, p, false, NoTest, FULL, Past(base, 1));
    case Capture(_, _, p) =>
      NoClashSame(g, p, false, tt, fl, base);
      NoClashSame(g, p, false, tt, fl, Past(base, 1));
    case Rules(rs) => NoClashRules(rs, rs, Past(base, 2));
    case _ =>
  }

  lemma {:induction false} NoClashChoice(g: Grammar, t: Tree, opt: bool, fl: Charset, base: nat)
    requires t.Choice? && !Clash(g, t, opt, fl)
    ensures GenChoice(true, g, t, opt, fl, base) == GenChoice(false, g, t, opt, fl, base)
    decreases t, 0
  {
    var first := First(g, t.p1, FULL);
    var l1 := ChoiceSecond(true, g, t, fl, base);
    if TestSuffices(g, t.p1, First(g, t.p2, fl).cs) {
      NoClashSame(g, t.p1, false, TestGuard(first.(empty := false)), fl, Past(base, 1));
      NoClashSame(g, t.p2, opt, NoTest, fl, l1);
      assert GenChoiceTest(true, g, t, opt, fl, base) == GenChoiceTest(false, g, t, opt, fl, base);
    } else if opt && t.p2.True? {
      NoClashSame(g, t.p1, true, NoTest, FULL, Past(base, 1));
      assert GenChoiceReuse(true, g, t, base) == GenChoiceReuse(false, g, t, base);
    } else {
      NoClashSame(g, t.p1, t.p2.True?, TestGuard(first), FULL, Past(Past(base, TestSize(first)), 1));
      NoClashSame(g, t.p2, opt, NoTest, fl, l1);
      assert GenChoicePush(true, g, t, opt, fl, base) == GenChoicePush(false, g, t, opt, fl, base);
    }
  }

  lemma {:induction false} NoClashRep(g: Grammar, t: Tree, opt: bool, fl: Charset, base: nat)
    requires t.Rep? && !Clash(g, t, opt, fl)
    ensures GenRep(true, g, t, opt, fl, base) == GenRep(false, g, t, opt, fl, base)
    decreases t, 0
  {
    var first := First(g, t.p, FULL);
    if IsCharset(t.p) {
    } else if TestSuffices(g, t.p, fl) {
      var tt := TestGuard(first.(empty := false));
      if opt { OptIrrelevant(g, t.p, tt, FULL, Past(base, 1)); }
      NoClashSame(g, t.p, false, tt, FULL, Past(base, 1));
      assert GenRepTest(true, g, t, opt, base) == GenRepTest(false, g, t, opt, base);
    } else {
      NoClashSame(g, t.p, false, NoTest, FULL, Past(Past(base, TestSize(first)), 1));
      assert GenRepPush(true, g, t, opt, base) == GenRepPush(false, g, t, opt, base);
    }
  }

  lemma {:induction false} NoClashRules(g: Grammar, todo: seq<Tree>, base: nat)
    requires forall r | r in todo :: !Clash(g, r, false, FULL)
    ensures GenRules(true, g, todo, base) == GenRules(false, g, todo, base)
    ensures RulePositions(true, g, todo, base) == RulePositions(false, g, todo, base)
    decreases todo, 0
  {
    if todo != [] {
      var c := Gen(true, g, todo[0], false, NoTest, FULL, base) + [IRet];
      NoClashSame(g, todo[0], false, NoTest, FULL, base);
      NoClashRules(g, todo[1..], Past(base, |c|));
    }
  }

  /** The code that the text generates is exact for every pattern without a clash, on the subjects
      on which the pattern has a result (all subjects, if it passes the strict check). */
  lemma AsWrittenExact(t: Tree, s: Subject, i: nat, r: Outcome)
    requires WellFormed([], t) && i <= |s| && Ends(Compiled, [], t, s, i) && r != Diverge
    requires !Clash([], t, false, FULL)
    ensures Halts(WholeProgram(true, t), s, Start(i), Verdict(r)) <==> Parses(Compiled, [], t, s, i, r)
  {
    NoClashSame([], t, false, NoTest, FULL, 0);
    ExactWhereItEnds(t, s, i, r);
  }

  // ---------- a pattern for which the text is wrong ----------

  const X: Byte := 120
  const Y: Byte := 121
  const A: Byte := 97
  const C: Byte := 99

  /** (ac)? */
  function Tail(): Tree { Choice(Seq(Char(A), Char(C)), True) }

  /** a(ac)? */
  function Body(): Tree { Seq(Char(A), Tail()) }

  /** (xy(a(ac)?)*)? */
  function OptTree(): Tree { Choice(Inner(), True) }

  /** The code that the text generates for it. */
  function OptCode(): Program {
    [ITestChar(X, 11), IChoice(11), IAny, IChar(Y),
     ITestChar(A, 10), IAny, IPartialCommit(7), IChar(A), IChar(C), IJmp(4),
     ICommit(11), IEnd]
  }

  lemma OneCharTest(c: Byte, to: nat)
    ensures TestCode(FirstInfo({c}, false), to) == [ITestChar(c, to)]
    ensures TestGuard(FirstInfo({c}, false)) == CharTest(c)
  {
    assert |{c}| == 1;
    assert {TheElement({c})} == {c};
  }

  lemma NotFull(c: Byte)
    ensures !({c} !! FULL)
  {
    assert c in FULL;
  }

  lemma TailCode()
    ensures Gen(true, [], Tail(), true, NoTest, FULL, 6) == [IPartialCommit(7), IChar(A), IChar(C)]
  {
    var ac := Seq(Char(A), Char(C));
    assert First([], ac, FULL).cs == {A};
    NotFull(A);
    assert !TestSuffices([], ac, First([], True, FULL).cs);
    GenCases(true, [], Tail(), true, NoTest, FULL, 6);
    GenCases(true, [], ac, true, NoTest, FULL, 7);
    GenCases(true, [], Char(A), false, NoTest, FULL, 7);
    GenCases(true, [], Char(C), true, NoTest, FULL, 8);
  }

  lemma LoopFacts()
    ensures TestSuffices([], Body(), FULL) && First([], Body(), FULL) == FirstInfo({A}, false)
    ensures SeqGuard([], Body(), CharTest(A)) == NoTest
  {
    assert Check([], Tail(), NoFail);
    assert HeadFail([], Body());
  }

  lemma BodyCode()
    ensures Gen(true, [], Body(), true, CharTest(A), FULL, 5) == [IAny, IPartialCommit(7), IChar(A), IChar(C)]
  {
    LoopFacts();
    TailCode();
    GenCases(true, [], Body(), true, CharTest(A), FULL, 5);
    GenCases(true, [], Char(A), false, CharTest(A), FULL, 5);
  }

  lemma LoopCode()
    ensures Gen(true, [], Rep(Body()), true, NoTest, FULL, 4)
            == [ITestChar(A, 10), IAny, IPartialCommit(7), IChar(A), IChar(C), IJmp(4)]
  {
    LoopFacts();
    BodyCode();
    OneCharTest(A, 10);
    var t := Rep(Body());
    GenCases(true, [], t, true, NoTest, FULL, 4);
    assert GenRep(true, [], t, true, FULL, 4) == GenRepTest(true, [], t, true, 4);
  }

  /** xy(a(ac)?)* */
  function Inner(): Tree { Seq(Char(X), Seq(Char(Y), Rep(Body()))) }

  lemma InnerFacts()
    ensures !TestSuffices([], Inner(), First([], True, FULL).cs)
    ensures First([], Inner(), FULL) == FirstInfo({X}, false)
    ensures SeqGuard([], Inner(), CharTest(X)) == NoTest
  {
    var rest := Inner().p2;
    assert !Check([], rest, NoFail);
    assert !HeadFail([], Inner());
    NotFull(X);
  }

  lemma RestCode()
    ensures Gen(true, [], Inner().p2, true, NoTest, FULL, 3)
            == [IChar(Y)] + [ITestChar(A, 10), IAny, IPartialCommit(7), IChar(A), IChar(C), IJmp(4)]
  {
    LoopCode();
    var rest := Inner().p2;
    GenCases(true, [], rest, true, NoTest, FULL, 3);
    GenCases(true, [], Char(Y), false, NoTest, SeqFollow([], rest, FULL), 3);
  }

  lemma InnerCode()
    ensures Gen(true, [], Inner(), true, CharTest(X), FULL, 2)
            == [IAny] + Gen(true, [], Inner().p2, true, NoTest, FULL, 3)
  {
    InnerFacts();
    GenCases(true, [], Inner(), true, CharTest(X), FULL, 2);
    GenCases(true, [], Char(X), false, CharTest(X), SeqFollow([], Inner(), FULL), 2);
  }

  /** An optional pattern at address 0, coded with a test and a choice. */
  lemma OptionalCode(p: Tree, c: Byte)
    requires !TestSuffices([], p, First([], True, FULL).cs) && First([], p, FULL) == FirstInfo({c}, false)
    ensures var c1 := Gen(true, [], p, true, CharTest(c), FULL, 2);
            Gen(true, [], Choice(p, True), false, NoTest, FULL, 0)
            == [ITestChar(c, |c1| + 3), IChoice(|c1| + 3)] + c1 + [ICommit(|c1| + 3)]
  {
    var t := Choice(p, True);
    var c1 := Gen(true, [], p, true, CharTest(c), FULL, 2);
    OneCharTest(c, |c1| + 3);
    GenCases(true, [], t, false, NoTest, FULL, 0);
    GenCases(true, [], True, false, NoTest, FULL, |c1| + 3);
    assert GenChoice(true, [], t, false, FULL, 0) == GenChoicePush(true, [], t, false, FULL, 0);
  }

  lemma OptTreeCode()
    ensures WholeProgram(true, OptTree()) == OptCode()
  {
    InnerFacts();
    InnerCode();
    RestCode();
    OptionalCode(Inner(), X);
    OptCodeParts();
  }

  lemma OptCodeParts()
    ensures var loop := [ITestChar(A, 10), IAny, IPartialCommit(7), IChar(A), IChar(C), IJmp(4)];
            var c1 := [IAny] + ([IChar(Y)] + loop);
            |c1| == 8 && [ITestChar(X, 11), IChoice(11)] + c1 + [ICommit(11)] + [IEnd] == OptCode()
  {}

  /** On "xyaa" the code stops after three characters. */
  lemma OptCodeRuns()
    ensures Halts(OptCode(), [X, Y, A, A], Start(0), Matched(3, []))
  {
    var p, s := OptCode(), [X, Y, A, A];
    var b0 := Back(11, 0, 0, Base);
    var states := [St(0, 0, Base, []), St(1, 0, Base, []), St(2, 0, b0, []), St(3, 1, b0, []),
                   St(4, 2, b0, []), St(5, 2, b0, []), St(6, 3, b0, []), St(7, 3, Back(11, 3, 0, Base), []),
                   St(8, 4, Back(11, 3, 0, Base), []), St(11, 3, Base, []), Matched(3, [])];
    RunStates(p, s, states, 0);
  }

  /** A list of consecutive states is a run. */
  lemma {:induction false} RunStates(p: Program, s: Subject, states: seq<State>, k: nat)
    requires k < |states| && !states[|states| - 1].St?
    requires forall j: nat | k <= j < |states| - 1 :: Step(p, s, states[j]) == states[j + 1]
    ensures Halts(p, s, states[k], states[|states| - 1])
    decreases |states| - k
  {
    if k == |states| - 1 {
      assert StepN(p, s, states[k], 0) == states[k];
    } else {
      RunStates(p, s, states, k + 1);
      var n: nat :| StepN(p, s, states[k + 1], n) == states[|states| - 1];
      assert StepN(p, s, states[k], n + 1) == states[|states| - 1];
    }
  }

  /** On "xyaa" the pattern matches four characters. */
  lemma OptTreeMatches()
    ensures Parses(Compiled, [], OptTree(), [X, Y, A, A], 0, Ok(4, []))
  {
    var s := [X, Y, A, A];
    BodyMatches(s, 2);
    BodyMatches(s, 3);
    BodyFails(s, 5);
    var loop := Rep(Body());
    RunCases(Compiled, [], loop, s, 4, 6);
    RunCases(Compiled, [], loop, s, 3, 7);
    RunCases(Compiled, [], loop, s, 2, 8);
    var rest := Inner().p2;
    RunCases(Compiled, [], rest, s, 1, 9);
    RunCases(Compiled, [], Char(Y), s, 1, 8);
    RunCases(Compiled, [], Inner(), s, 0, 10);
    RunCases(Compiled, [], Char(X), s, 0, 9);
    RunCases(Compiled, [], OptTree(), s, 0, 11);
  }

  lemma BodyMatches(s: Subject, i: nat)
    requires s == [X, Y, A, A] && 2 <= i <= 3
    ensures forall f: nat | f >= 5 :: Run(Compiled, [], Body(), s, i, f) == Ok(i + 1, [])
  {
    forall f: nat | f >= 5 ensures Run(Compiled, [], Body(), s, i, f) == Ok(i + 1, []) {
      var ac := Seq(Char(A), Char(C));
      RunCases(Compiled, [], Body(), s, i, f);
      RunCases(Compiled, [], Char(A), s, i, f - 1);
      RunCases(Compiled, [], Tail(), s, i + 1, f - 1);
      RunCases(Compiled, [], ac, s, i + 1, f - 2);
      RunCases(Compiled, [], True, s, i + 1, f - 2);
      RunCases(Compiled, [], Char(A), s, i + 1, f - 3);
      if i == 2 { RunCases(Compiled, [], Char(C), s, 4, f - 3); }
    }
  }

  lemma BodyFails(s: Subject, f: nat)
    requires |s| == 4 && f >= 2
    ensures Run(Compiled, [], Body(), s, 4, f) == Fail
  {
    RunCases(Compiled, [], Body(), s, 4, f);
    RunCases(Compiled, [], Char(A), s, 4, f - 1);
  }

  /** The text of the code generator is wrong for (xy(a(ac)?)*)?, which does have a clash. */
  lemma AsWrittenWrong()
    ensures Accepted(true, OptTree()) && Clash([], OptTree(), false, FULL)
    ensures Parses(Compiled, [], OptTree(), [X, Y, A, A], 0, Ok(4, []))
    ensures !Halts(WholeProgram(true, OptTree()), [X, Y, A, A], Start(0), Verdict(Ok(4, [])))
  {
    OptTreeMatches();
    OptTreeClash();
    OptTreeAccepted();
    OptCodeWrong();
  }

  lemma OptCodeWrong()
    ensures !Halts(WholeProgram(true, OptTree()), [X, Y, A, A], Start(0), Matched(4, []))
  {
    OptTreeCode();
    OptCodeRuns();
    var s := [X, Y, A, A];
    if Halts(OptCode(), s, Start(0), Matched(4, [])) {
      HaltsUnique(OptCode(), s, Start(0), Matched(4, []), Matched(3, []));
    }
  }

  lemma OptTreeAccepted()
    ensures Accepted(true, OptTree())
  {
    OptTreeLoops();
    OptTreeShape();
    OptTreeGrammars();
  }

  lemma OptTreeShape()
    ensures WellFormed([], OptTree()) && CallFree(OptTree())
  {
    var ac, rest := Seq(Char(A), Char(C)), Inner().p2;
    assert WellFormed([], ac) && CallFree(ac);
    assert WellFormed([], Body()) && CallFree(Body());
    assert WellFormed([], rest) && CallFree(rest);
  }

  lemma OptTreeLoops()
    ensures !CheckLoops([], OptTree())
  {
    assert !Check([], Body(), Nullable);
    var ac, rest := Seq(Char(A), Char(C)), Inner().p2;
    assert !CheckLoops([], ac);
    assert !CheckLoops([], Body());
    assert !CheckLoops([], rest);
  }

  lemma OptTreeGrammars()
    ensures GrammarsAccepted(true, OptTree()) && BackFree(OptTree())
  {
    var ac, rest := Seq(Char(A), Char(C)), Inner().p2;
    assert GrammarsAccepted(true, ac) && BackFree(ac);
    assert GrammarsAccepted(true, Body()) && BackFree(Body());
    assert GrammarsAccepted(true, rest) && BackFree(rest);
  }

  lemma OptTreeClash()
    ensures Clash([], OptTree(), false, FULL)
  {
    InnerFacts();
    LoopFacts();
    var ac := Seq(Char(A), Char(C));
    assert First([], ac, FULL).cs == {A};
    NotFull(A);
    assert UsesOpt([], Tail(), FULL);
    assert UsesOpt([], Body(), FULL);
    assert Clash([], Rep(Body()), true, FULL);
    assert Clash([], Inner().p2, true, FULL);
    assert Clash([], Inner(), true, FULL);
  }
}
