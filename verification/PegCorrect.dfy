/** Code agrees with its pattern: the induction over runs of the PEG semantics. */
module PegCorrect {
  import opened PegTree
  import opened PegSemantics
  import opened PegAnalysis
  import opened PegMachine
  import opened PegCode
  import opened PegSimulation
  import opened PegSimCases
  import opened PegLink
  import opened PegCaptures

  /**
   The contract of `codegen`, for every tree, every `opt`, `tt` and `fl`, every state
   and every run of the pattern.
   */
  lemma {:induction false} Sim(x: Ctx, t: Tree, opt: bool, tt: Guard, fl: Charset, st: State, f: nat)
    requires Ready(x, t, tt, st)
    requires InPlace(x, opt, fl, st, Gen(false, x.g, t, opt, tt, fl, st.pc))
    ensures Agrees(x, opt, fl, Past(st.pc, |Gen(false, x.g, t, opt, tt, fl, st.pc)|), st, Meaning(x, t, st.pos, f))
    decreases f, 1
  {
    if f == 0 {
    } else if t.Seq? || t.Choice? || t.Rep? {
      SimCompound(x, t, opt, tt, fl, st, f);
    } else if t.Not? || t.And? || t.Behind? {
      SimPredicate(x, t, opt, tt, fl, st, f);
    } else if t.Capture? || t.Rules? || t.Call? {
      SimNamed(x, t, opt, tt, fl, st, f);
    } else {
      SimLeaf(x, t, opt, tt, fl, st, f);
    }
  }

  lemma {:induction false} SimCompound(x: Ctx, t: Tree, opt: bool, tt: Guard, fl: Charset, st: State, f: nat)
    requires Ready(x, t, tt, st) && f > 0 && (t.Seq? || t.Choice? || t.Rep?)
    requires InPlace(x, opt, fl, st, Gen(false, x.g, t, opt, tt, fl, st.pc))
    ensures Agrees(x, opt, fl, Past(st.pc, |Gen(false, x.g, t, opt, tt, fl, st.pc)|), st, Meaning(x, t, st.pos, f))
    decreases f, 0, 4
  {
    GenCases(false, x.g, t, opt, tt, fl, st.pc);
    RunCases(Compiled, x.g, t, x.s, st.pos, f);
    match t
    case Seq(_, _) => SimSeq(x, t, opt, tt, fl, st, f);
    case Choice(_, _) => SimChoice(x, t, opt, tt, fl, st, f);
    case Rep(_) => SimRep(x, t, opt, tt, fl, st, f);
  }

  lemma {:induction false} SimPredicate(x: Ctx, t: Tree, opt: bool, tt: Guard, fl: Charset, st: State, f: nat)
    requires Ready(x, t, tt, st) && f > 0 && (t.Not? || t.And? || t.Behind?)
    requires InPlace(x, opt, fl, st, Gen(false, x.g, t, opt, tt, fl, st.pc))
    ensures Agrees(x, opt, fl, Past(st.pc, |Gen(false, x.g, t, opt, tt, fl, st.pc)|), st, Meaning(x, t, st.pos, f))
    decreases f, 0, 4
  {
    GenCases(false, x.g, t, opt, tt, fl, st.pc);
    RunCases(Compiled, x.g, t, x.s, st.pos, f);
    match t
    case Not(_) => SimNot(x, t, opt, tt, fl, st, f);
    case And(_) => SimAnd(x, t, opt, tt, fl, st, f);
    case Behind(_, _) => SimBehind(x, t, opt, tt, fl, st, f);
  }

  lemma {:induction false} SimNamed(x: Ctx, t: Tree, opt: bool, tt: Guard, fl: Charset, st: State, f: nat)
    requires Ready(x, t, tt, st) && f > 0 && (t.Capture? || t.Rules? || t.Call?)
    requires InPlace(x, opt, fl, st, Gen(false, x.g, t, opt, tt, fl, st.pc))
    ensures Agrees(x, opt, fl, Past(st.pc, |Gen(false, x.g, t, opt, tt, fl, st.pc)|), st, Meaning(x, t, st.pos, f))
    decreases f, 0, 4
  {
    GenCases(false, x.g, t, opt, tt, fl, st.pc);
    RunCases(Compiled, x.g, t, x.s, st.pos, f);
    match t
    case Capture(_, _, _) => SimCapture(x, t, opt, tt, fl, st, f);
    case Rules(_) => SimGrammar(x, t, opt, tt, fl, st, f);
    case Call(_) => SimCall(x, t, opt, tt, fl, st, f);
  }

  lemma SimLeaf(x: Ctx, t: Tree, opt: bool, tt: Guard, fl: Charset, st: State, f: nat)
    requires Ready(x, t, tt, st) && f > 0 && (IsCharset(t) || t.True? || t.False?)
    requires InPlace(x, opt, fl, st, Gen(false, x.g, t, opt, tt, fl, st.pc))
    ensures Agrees(x, opt, fl, Past(st.pc, |Gen(false, x.g, t, opt, tt, fl, st.pc)|), st, Meaning(x, t, st.pos, f))
  {
    GenCases(false, x.g, t, opt, tt, fl, st.pc);
    RunCases(Compiled, x.g, t, x.s, st.pos, f);
    match t
    case Char(c) => SimCharset(x, ToCharset(t), opt, tt, fl, st, CharInstr(c, tt));
    case Set(cs) => SimCharset(x, cs, opt, tt, fl, st, CharsetInstr(cs, tt));
    case Any => SimCharset(x, FULL, opt, tt, fl, st, IAny);
    case True => SimTrue(x, opt, fl, st);
    case False => SimFalse(x, opt, fl, st);
  }

  // ---------- sequence ----------

  /** A test still holds after a pattern that consumes nothing. */
  lemma GuardStays(x: Ctx, t: Tree, tt: Guard, i: nat, f: nat)
    requires t.Seq? && i <= |x.s| && GuardHolds(tt, x.s, i)
    ensures var r := Meaning(x, t.p1, i, f); r.Ok? ==> GuardHolds(SeqGuard(x.g, t, tt), x.s, r.pos)
  {
    if FixedLen(x.g, t.p1) == 0 { FixedLenSound(Compiled, x.g, t.p1, x.s, i, f, 0, 0); }
  }

  /** The first part of a sequence may fail before a character outside its follow set. */
  lemma FollowMeans(x: Ctx, t: Tree, fl: Charset, k: nat, f: nat)
    requires t.Seq? && k <= |x.s|
    ensures var r := Meaning(x, t.p2, k, f);
            r.Ok? && k < |x.s| && x.s[k] !in SeqFollow(x.g, t, fl) ==> r.pos == k && x.s[k] !in fl
  {
    if Meaning(x, t.p2, k, f).Ok? { FirstSound(Compiled, x.g, t.p2, x.s, k, f, fl, MAX_RULES); }
  }

  lemma {:induction false} SimSeq(x: Ctx, t: Tree, opt: bool, tt: Guard, fl: Charset, st: State, f: nat)
    requires Ready(x, t, tt, st) && t.Seq? && f > 0
    requires InPlace(x, opt, fl, st, GenSeq(false, x.g, t, opt, tt, fl, st.pc))
    ensures Agrees(x, opt, fl, Past(st.pc, |GenSeq(false, x.g, t, opt, tt, fl, st.pc)|), st,
                   RunSeq(Compiled, x.g, t, x.s, st.pos, f))
    decreases f, 0, 0
  {
    var fl1, tt2 := SeqFollow(x.g, t, fl), SeqGuard(x.g, t, tt);
    var c1 := Gen(false, x.g, t.p1, false, tt, fl1, st.pc);
    var mid := Past(st.pc, |c1|);
    var c2 := Gen(false, x.g, t.p2, opt, tt2, fl, mid);
    assert Past(st.pc, |GenSeq(false, x.g, t, opt, tt, fl, st.pc)|) == Past(mid, |c2|);
    LinkedSplit(x, st.pc, c1, c2);
    var r1 := Meaning(x, t.p1, st.pos, f - 1);
    var r2 := if r1.Ok? then Meaning(x, t.p2, r1.pos, f - 1) else Diverge;
    Sim(x, t.p1, false, tt, fl1, st, f - 1);
    if r1.Ok? {
      var st2 := St(mid, r1.pos, st.stk, st.caps + r1.caps);
      StackOkMono(st.stk, |st.caps|, |st2.caps|);
      GuardStays(x, t, tt, st.pos, f - 1);
      Sim(x, t.p2, opt, tt2, fl, st2, f - 1);
      FollowMeans(x, t, fl, r1.pos, f - 1);
    }
    SeqAgrees(x, opt, fl, fl1, mid, Past(mid, |c2|), st, r1, r2);
    assert RunSeq(Compiled, x.g, t, x.s, st.pos, f) == SeqOutcome(r1, r2);
  }

  // ---------- what the tests mean ----------

  /** A pattern does not match where the test on its first set fails. */
  lemma TestFailsMeans(x: Ctx, p: Tree, i: nat, f: nat)
    requires i <= |x.s| && !Test(x.s, i, First(x.g, p, FULL).cs)
    requires !First(x.g, p, FULL).empty || HeadFail(x.g, p)
    ensures !Meaning(x, p, i, f).Ok?
  {
    if HeadFail(x.g, p) { HeadFailNotEmpty(x.g, p, FULL, MAX_RULES); }
    if Meaning(x, p, i, f).Ok? { FirstSound(Compiled, x.g, p, x.s, i, f, FULL, MAX_RULES); }
  }

  /** Where a test suffices, a pattern that fails after the test does so before a character
      that cannot follow. */
  lemma TestSufficesMeans(x: Ctx, p: Tree, follow: Charset, i: nat, f: nat)
    requires i <= |x.s| && Test(x.s, i, First(x.g, p, FULL).cs)
    requires TestSuffices(x.g, p, follow) && Meaning(x, p, i, f) == Fail
    ensures x.s[i] !in follow
  {
    if HeadFail(x.g, p) { HeadFailOnFirst(Compiled, x.g, p, x.s, i, f, MAX_RULES); }
  }

  // ---------- choice ----------

  lemma {:induction false} SimChoice(x: Ctx, t: Tree, opt: bool, tt: Guard, fl: Charset, st: State, f: nat)
    requires Ready(x, t, tt, st) && t.Choice? && f > 0
    requires InPlace(x, opt, fl, st, GenChoice(false, x.g, t, opt, fl, st.pc))
    ensures Agrees(x, opt, fl, Past(st.pc, |GenChoice(false, x.g, t, opt, fl, st.pc)|), st,
                   RunChoice(Compiled, x.g, t, x.s, st.pos, f))
    decreases f, 0, 1
  {
    if TestSuffices(x.g, t.p1, First(x.g, t.p2, fl).cs) {
      SimChoiceTest(x, t, opt, tt, fl, st, f);
    } else if opt && t.p2.True? {
      SimChoiceReuse(x, t, opt, tt, fl, st, f);
    } else {
      SimChoicePush(x, t, opt, tt, fl, st, f);
    }
  }

  lemma {:induction false} SimChoiceTest(x: Ctx, t: Tree, opt: bool, tt: Guard, fl: Charset, st: State, f: nat)
    requires Ready(x, t, tt, st) && t.Choice? && f > 0
    requires InPlace(x, opt, fl, st, GenChoiceTest(false, x.g, t, opt, fl, st.pc))
    requires TestSuffices(x.g, t.p1, First(x.g, t.p2, fl).cs)
    ensures Agrees(x, opt, fl, Past(st.pc, |GenChoiceTest(false, x.g, t, opt, fl, st.pc)|), st,
                   RunChoice(Compiled, x.g, t, x.s, st.pos, f))
    decreases f, 0, 0
  {
    var head := First(x.g, t.p1, FULL).(empty := false);
    var b1 := Past(st.pc, 1);
    var c1 := Gen(false, x.g, t.p1, false, TestGuard(head), fl, b1);
    var e1 := Past(b1, |c1|);
    var l1 := Past(e1, SkipSize(t.p2));
    var c2 := Gen(false, x.g, t.p2, opt, NoTest, fl, l1);
    var end := Past(l1, |c2|);
    var jmp := SkipCode(t.p2, end);
    assert Past(st.pc, |GenChoiceTest(false, x.g, t, opt, fl, st.pc)|) == end;
    TestLayout(x, st.pc, TestCode(head, l1), c1, jmp, c2);
    if jmp != [] { LinkedOne(x, e1, IJmp(end)); }
    var r1, r2 := Meaning(x, t.p1, st.pos, f - 1), Meaning(x, t.p2, st.pos, f - 1);
    assert RunChoice(Compiled, x.g, t, x.s, st.pos, f) == if r1.Fail? then r2 else r1;
    TestOrSkip(x, head, l1, st);
    if Test(x.s, st.pos, head.cs) {
      var st1 := st.(pc := b1);
      Sim(x, t.p1, false, TestGuard(head), fl, st1, f - 1);
      if r1.Fail? && r2.Ok? {
        TestSufficesMeans(x, t.p1, First(x.g, t.p2, fl).cs, st.pos, f - 1);
        FirstSound(Compiled, x.g, t.p2, x.s, st.pos, f - 1, fl, MAX_RULES);
      }
      ChoiceTested(x, opt, fl, e1, end, st1, r1, r2);
      AgreesAfter(x, opt, fl, end, st, st1, if r1.Fail? then r2 else r1);
    } else {
      TestFailsMeans(x, t.p1, st.pos, f - 1);
      Sim(x, t.p2, opt, NoTest, fl, st.(pc := l1), f - 1);
      AgreesAfter(x, opt, fl, end, st, st.(pc := l1), r2);
    }
  }

  lemma {:induction false} SimChoiceReuse(x: Ctx, t: Tree, opt: bool, tt: Guard, fl: Charset, st: State, f: nat)
    requires Ready(x, t, tt, st) && t.Choice? && f > 0 && opt && t.p2.True?
    requires InPlace(x, opt, fl, st, GenChoiceReuse(false, x.g, t, st.pc))
    ensures Agrees(x, opt, fl, Past(st.pc, |GenChoiceReuse(false, x.g, t, st.pc)|), st,
                   RunChoice(Compiled, x.g, t, x.s, st.pos, f))
    decreases f, 0, 0
  {
    var b1 := Past(st.pc, 1);
    var c1 := Gen(false, x.g, t.p1, true, NoTest, FULL, b1);
    assert Past(st.pc, |GenChoiceReuse(false, x.g, t, st.pc)|) == Past(b1, |c1|);
    LinkedHead(x, st.pc, IPartialCommit(b1), c1);
    var st1 := St(b1, st.pos, Back(st.stk.pc, st.pos, |st.caps|, st.stk.rest), st.caps);
    StackOkMono(st.stk.rest, st.stk.level, |st.caps|);
    Sim(x, t.p1, true, NoTest, FULL, st1, f - 1);
    var r1 := Meaning(x, t.p1, st.pos, f - 1);
    OptionalReuses(x, fl, Past(b1, |c1|), st, r1);
    if f > 1 { RunCases(Compiled, x.g, t.p2, x.s, st.pos, f - 1); }
  }

  lemma {:induction false} SimChoicePush(x: Ctx, t: Tree, opt: bool, tt: Guard, fl: Charset, st: State, f: nat)
    requires Ready(x, t, tt, st) && t.Choice? && f > 0
    requires InPlace(x, opt, fl, st, GenChoicePush(false, x.g, t, opt, fl, st.pc))
    ensures Agrees(x, opt, fl, Past(st.pc, |GenChoicePush(false, x.g, t, opt, fl, st.pc)|), st,
                   RunChoice(Compiled, x.g, t, x.s, st.pos, f))
    decreases f, 0, 0
  {
    var first := First(x.g, t.p1, FULL);
    var b0 := Past(st.pc, TestSize(first));
    var c1 := Gen(false, x.g, t.p1, t.p2.True?, TestGuard(first), FULL, Past(b0, 1));
    var e1 := Past(Past(b0, 1), |c1|);
    var l1 := Past(e1, 1);
    var c2 := Gen(false, x.g, t.p2, opt, NoTest, fl, l1);
    var end := Past(l1, |c2|);
    assert Past(st.pc, |GenChoicePush(false, x.g, t, opt, fl, st.pc)|) == end;
    PushLayout(x, st.pc, TestCode(first, l1), IChoice(l1), c1, ICommit(end), c2);
    var r1, r2 := Meaning(x, t.p1, st.pos, f - 1), Meaning(x, t.p2, st.pos, f - 1);
    SimAlternatives(x, t, opt, first, fl, st, b0, l1, f);
    TestOrSkip(x, first, l1, st);
    var enter := first.empty || Test(x.s, st.pos, first.cs);
    PushAgrees(x, opt, t.p2.True?, fl, enter, b0, e1, l1, end, st, r1, r2);
  }

  /** Both alternatives of a choice, the first one under the choice pushed at `b0`. */
  lemma {:induction false} SimAlternatives(x: Ctx, t: Tree, opt: bool, first: FirstInfo, fl: Charset, st: State,
                                           b0: nat, l1: nat, f: nat)
    requires t.Choice? && f > 0 && Ready(x, t.p1, NoTest, st) && WellFormed(x.g, t.p2)
    requires first == First(x.g, t.p1, FULL)
    requires InPlace(x, opt, fl, st.(pc := l1), Gen(false, x.g, t.p2, opt, NoTest, fl, l1))
    requires InPlace(x, t.p2.True?, FULL, Pushed(st.(pc := b0), l1),
                     Gen(false, x.g, t.p1, t.p2.True?, TestGuard(first), FULL, Past(b0, 1)))
    ensures Agrees(x, opt, fl, Past(l1, |Gen(false, x.g, t.p2, opt, NoTest, fl, l1)|), st.(pc := l1),
                   Meaning(x, t.p2, st.pos, f - 1))
    ensures var e1 := Past(Past(b0, 1), |Gen(false, x.g, t.p1, t.p2.True?, TestGuard(first), FULL, Past(b0, 1))|);
            if first.empty || Test(x.s, st.pos, first.cs)
            then Agrees(x, t.p2.True?, FULL, e1, Pushed(st.(pc := b0), l1), Meaning(x, t.p1, st.pos, f - 1))
            else !Meaning(x, t.p1, st.pos, f - 1).Ok?
    decreases f - 1, 2
  {
    Sim(x, t.p2, opt, NoTest, fl, st.(pc := l1), f - 1);
    if first.empty || Test(x.s, st.pos, first.cs) {
      GuardFromTest(x.s, st.pos, first);
      Sim(x, t.p1, t.p2.True?, TestGuard(first), FULL, Pushed(st.(pc := b0), l1), f - 1);
    } else {
      TestFailsMeans(x, t.p1, st.pos, f - 1);
    }
  }

  // ---------- repetition ----------

  lemma {:induction false} SimRep(x: Ctx, t: Tree, opt: bool, tt: Guard, fl: Charset, st: State, f: nat)
    requires Ready(x, t, tt, st) && t.Rep? && f > 0
    requires InPlace(x, opt, fl, st, GenRep(false, x.g, t, opt, fl, st.pc))
    ensures Agrees(x, opt, fl, Past(st.pc, |GenRep(false, x.g, t, opt, fl, st.pc)|), st,
                   RunRep(Compiled, x.g, t, x.s, st.pos, f))
    decreases f, 0, 3
  {
    if IsCharset(t.p) {
      SimSpan(x, t, opt, tt, fl, st, f);
    } else if TestSuffices(x.g, t.p, fl) {
      SimRepTest(x, t, opt, tt, fl, st, f);
    } else {
      SimRepPush(x, t, opt, tt, fl, st, f);
    }
  }

  lemma SimSpan(x: Ctx, t: Tree, opt: bool, tt: Guard, fl: Charset, st: State, f: nat)
    requires Ready(x, t, tt, st) && t.Rep? && IsCharset(t.p) && f > 0
    requires InPlace(x, opt, fl, st, GenRep(false, x.g, t, opt, fl, st.pc))
    ensures Agrees(x, opt, fl, Past(st.pc, |GenRep(false, x.g, t, opt, fl, st.pc)|), st,
                   RunRep(Compiled, x.g, t, x.s, st.pos, f))
  {
    SpanMeaning(x, t, st.pos, f);
    RunCases(Compiled, x.g, t, x.s, st.pos, f);
    LinkedOne(x, st.pc, ISpan(ToCharset(t.p)));
    var j := Span(x.s, st.pos, ToCharset(t.p));
    Steps1(x, st, St(Past(st.pc, 1), j, st.stk, st.caps + []));
    ReachEnd(x, opt, fl, Past(st.pc, 1), st, j, []);
  }

  lemma {:induction false} SimRepTest(x: Ctx, t: Tree, opt: bool, tt: Guard, fl: Charset, st: State, f: nat)
    requires Ready(x, t, tt, st) && t.Rep? && f > 0
    requires InPlace(x, opt, fl, st, GenRepTest(false, x.g, t, opt, st.pc))
    requires !IsCharset(t.p) && TestSuffices(x.g, t.p, fl)
    ensures Agrees(x, opt, fl, Past(st.pc, |GenRepTest(false, x.g, t, opt, st.pc)|), st,
                   RunRep(Compiled, x.g, t, x.s, st.pos, f))
    decreases f, 0, 1
  {
    var head := First(x.g, t.p, FULL).(empty := false);
    var c := Gen(false, x.g, t.p, false, TestGuard(head), FULL, Past(st.pc, 1));
    var e := Past(Past(st.pc, 1), |c|);
    var test := TestCode(head, Past(e, 1));
    assert Past(st.pc, |GenRepTest(false, x.g, t, opt, st.pc)|) == Past(e, 1);
    LoopLayout(x, st.pc, test, c, IJmp(st.pc));
    var r1 := Meaning(x, t.p, st.pos, f - 1);
    var r2 := if r1.Ok? then Meaning(x, t, r1.pos, f - 1) else Diverge;
    TestOrSkip(x, head, Past(e, 1), st);
    if r1.Ok? { SimRepRest(x, t, opt, fl, st, r1.pos, r1.caps, f); }
    SimTested(x, t.p, head, st, f - 1);
    if r1.Fail? && Test(x.s, st.pos, head.cs) { TestSufficesMeans(x, t.p, fl, st.pos, f - 1); }
    assert RunRep(Compiled, x.g, t, x.s, st.pos, f) == LoopOutcome(st.pos, r1, r2);
    LoopRound(x, opt, fl, Test(x.s, st.pos, head.cs), e, st, r1, r2);
  }

  /** The rounds that follow the first one. */
  lemma {:induction false} SimRepRest(x: Ctx, t: Tree, opt: bool, fl: Charset, st: State, j: nat, l: seq<Cap>, f: nat)
    requires Ready(x, t, NoTest, st) && t.Rep? && f > 0 && j <= |x.s|
    requires InPlace(x, opt, fl, st, GenRepTest(false, x.g, t, opt, st.pc))
    requires !IsCharset(t.p) && TestSuffices(x.g, t.p, fl)
    ensures Agrees(x, opt, fl, Past(st.pc, |GenRepTest(false, x.g, t, opt, st.pc)|), St(st.pc, j, st.stk, st.caps + l),
                   Meaning(x, t, j, f - 1))
    decreases f, 0, 0
  {
    if f > 1 {
      StackOkMono(st.stk, |st.caps|, |st.caps + l|);
      RunCases(Compiled, x.g, t, x.s, j, f - 1);
      SimRepTest(x, t, opt, NoTest, fl, St(st.pc, j, st.stk, st.caps + l), f - 1);
    }
  }

  /** A pattern behind a test on its first set: it runs, or it cannot match. */
  lemma {:induction false} SimTested(x: Ctx, p: Tree, head: FirstInfo, st: State, f: nat)
    requires Ready(x, p, NoTest, st) && head == First(x.g, p, FULL).(empty := false)
    requires !First(x.g, p, FULL).empty || HeadFail(x.g, p)
    requires Linked(x, Past(st.pc, 1), Gen(false, x.g, p, false, TestGuard(head), FULL, Past(st.pc, 1)))
    ensures if Test(x.s, st.pos, head.cs)
            then Agrees(x, false, FULL,
                        Past(Past(st.pc, 1), |Gen(false, x.g, p, false, TestGuard(head), FULL, Past(st.pc, 1))|),
                        st.(pc := Past(st.pc, 1)), Meaning(x, p, st.pos, f))
            else !Meaning(x, p, st.pos, f).Ok?
    decreases f, 2
  {
    if Test(x.s, st.pos, head.cs) {
      GuardFromTest(x.s, st.pos, head);
      Sim(x, p, false, TestGuard(head), FULL, st.(pc := Past(st.pc, 1)), f);
    } else {
      TestFailsMeans(x, p, st.pos, f);
    }
  }

  /** A loop body is coded at `l1` and ends in a partial commit back to its start. */
  ghost predicate BodyAt(x: Ctx, p: Tree, l1: nat) {
    var c := Gen(false, x.g, p, false, NoTest, FULL, l1);
    && Linked(x, l1, c)
    && Past(l1, |c|) < |x.prog| && x.prog[Past(l1, |c|)] == IPartialCommit(l1)
  }

  /** A loop with a choice on the stack leaves to `out` at the position the repetition ends. */
  lemma {:induction false} SimLoop(x: Ctx, t: Tree, l1: nat, out: nat, i: nat, rest: Stack, caps: seq<Cap>, f: nat)
    requires t.Rep? && i <= |x.s| && StackOk(rest, |caps|) && f > 0
    requires WellFormed(x.g, t.p) && RulesAt(x) && !x.lo
    requires BodyAt(x, t.p, l1)
    ensures var r := RunRep(Compiled, x.g, t, x.s, i, f);
            r.Ok? ==> Conv(x.prog, x.s, LoopHead(l1, out, i, rest, caps), St(out, r.pos, rest, caps + r.caps))
    decreases f, 0, 0
  {
    var c := Gen(false, x.g, t.p, false, NoTest, FULL, l1);
    var r1 := Meaning(x, t.p, i, f - 1);
    Sim(x, t.p, false, NoTest, FULL, LoopHead(l1, out, i, rest, caps), f - 1);
    var r2 := Diverge;
    if r1.Ok? {
      r2 := Meaning(x, t, r1.pos, f - 1);
      StackOkMono(rest, |caps|, |caps + r1.caps|);
      if f > 1 {
        SimLoop(x, t, l1, out, r1.pos, rest, caps + r1.caps, f - 1);
        RunCases(Compiled, x.g, t, x.s, r1.pos, f - 1);
      }
    }
    LoopCommits(x, l1, out, Past(l1, |c|), i, rest, caps, r1, r2);
  }

  lemma {:induction false} SimRepPush(x: Ctx, t: Tree, opt: bool, tt: Guard, fl: Charset, st: State, f: nat)
    requires Ready(x, t, tt, st) && t.Rep? && f > 0
    requires InPlace(x, opt, fl, st, GenRepPush(false, x.g, t, opt, st.pc))
    ensures Agrees(x, opt, fl, Past(st.pc, |GenRepPush(false, x.g, t, opt, st.pc)|), st,
                   RunRep(Compiled, x.g, t, x.s, st.pos, f))
    decreases f, 0, 2
  {
    var first := First(x.g, t.p, FULL);
    var b0 := Past(st.pc, TestSize(first));
    var l1 := Past(b0, 1);
    var c := Gen(false, x.g, t.p, false, NoTest, FULL, l1);
    var end := Past(Past(l1, |c|), 1);
    var enter := if opt then IPartialCommit(l1) else IChoice(end);
    var test := TestCode(first, end);
    assert Past(st.pc, |GenRepPush(false, x.g, t, opt, st.pc)|) == end;
    LoopLayout(x, st.pc, test + [enter], c, IPartialCommit(l1));
    LinkedLast(x, st.pc, test, enter);
    assert Past(st.pc, |test + [enter]|) == l1;
    TestOrSkip(x, first, end, st);
    if first.empty || Test(x.s, st.pos, first.cs) {
      var st0 := st.(pc := b0);
      var r := RunRep(Compiled, x.g, t, x.s, st.pos, f);
      RepNeverFails(Compiled, x.g, t, x.s, st.pos, f);
      EnterLoop(x, t, opt, fl, end, st0, enter, f);
      AgreesAfter(x, opt, fl, end, st, st0, r);
    } else {
      TestFailsMeans(x, t.p, st.pos, f - 1);
      assert st.caps + [] == st.caps;
      ReachEnd(x, opt, fl, end, st, st.pos, []);
    }
  }

  /** Entering the loop pushes a choice that leaves to the end, or reuses the enclosing one. */
  lemma {:induction false} EnterLoop(x: Ctx, t: Tree, opt: bool, fl: Charset, end: nat, st: State, enter: Instr, f: nat)
    requires t.Rep? && st.St? && st.pos <= |x.s| && StackOk(st.stk, |st.caps|) && f > 0
    requires WellFormed(x.g, t.p) && RulesAt(x) && !x.lo
    requires st.pc < |x.prog| && x.prog[st.pc] == enter
    requires enter == if opt then IPartialCommit(Past(st.pc, 1)) else IChoice(end)
    requires BodyAt(x, t.p, Past(st.pc, 1))
    requires opt ==> UnderChoice(x, fl, end, st)
    ensures var r := RunRep(Compiled, x.g, t, x.s, st.pos, f); r.Ok? ==> Agrees(x, opt, fl, end, st, r)
    decreases f, 0, 1
  {
    var out, rest := if opt then st.stk.pc else end, if opt then st.stk.rest else st.stk;
    var head := LoopHead(Past(st.pc, 1), out, st.pos, rest, st.caps);
    if opt { StackOkMono(rest, st.stk.level, |st.caps|); }
    SimLoop(x, t, Past(st.pc, 1), out, st.pos, rest, st.caps, f);
    var r := RunRep(Compiled, x.g, t, x.s, st.pos, f);
    if r.Ok? {
      Steps1(x, st, head);
      ConvTrans(x.prog, x.s, st, head, St(out, r.pos, rest, st.caps + r.caps));
    }
  }

  // ---------- predicates ----------

  lemma {:induction false} SimNot(x: Ctx, t: Tree, opt: bool, tt: Guard, fl: Charset, st: State, f: nat)
    requires Ready(x, t, tt, st) && t.Not? && f > 0
    requires InPlace(x, opt, fl, st, GenNot(false, x.g, t, st.pc))
    ensures Agrees(x, opt, fl, Past(st.pc, |GenNot(false, x.g, t, st.pc)|), st,
                   RunPredicate(Compiled, x.g, t, x.s, st.pos, f))
    decreases f, 0, 1
  {
    if HeadFail(x.g, t.p) {
      SimNotHead(x, t, opt, tt, fl, st, f);
    } else {
      SimNotPush(x, t, opt, tt, fl, st, f);
    }
  }

  lemma SimNotHead(x: Ctx, t: Tree, opt: bool, tt: Guard, fl: Charset, st: State, f: nat)
    requires Ready(x, t, tt, st) && t.Not? && f > 0 && HeadFail(x.g, t.p)
    requires InPlace(x, opt, fl, st, GenNot(false, x.g, t, st.pc))
    ensures Agrees(x, opt, fl, Past(st.pc, |GenNot(false, x.g, t, st.pc)|), st,
                   RunPredicate(Compiled, x.g, t, x.s, st.pos, f))
  {
    var first := First(x.g, t.p, FULL);
    HeadFailNotEmpty(x.g, t.p, FULL, MAX_RULES);
    var b0 := Past(st.pc, TestSize(first));
    var end := Past(b0, 1);
    assert Past(st.pc, |GenNot(false, x.g, t, st.pc)|) == end;
    LinkedLast(x, st.pc, TestCode(first, end), IFail);
    TestOrSkip(x, first, end, st);
    if Test(x.s, st.pos, first.cs) {
      HeadFailOnFirst(Compiled, x.g, t.p, x.s, st.pos, f - 1, MAX_RULES);
      Steps1(x, st.(pc := b0), Backtrack(st.stk, st.caps));
      AgreesAfter(x, opt, fl, end, st, st.(pc := b0), Fail);
    } else {
      TestFailsMeans(x, t.p, st.pos, f - 1);
      assert st.caps + [] == st.caps;
      ReachEnd(x, opt, fl, end, st, st.pos, []);
    }
  }

  lemma {:induction false} SimNotPush(x: Ctx, t: Tree, opt: bool, tt: Guard, fl: Charset, st: State, f: nat)
    requires Ready(x, t, tt, st) && t.Not? && f > 0
    requires InPlace(x, opt, fl, st, GenNotPush(false, x.g, t, st.pc))
    ensures Agrees(x, opt, fl, Past(st.pc, |GenNotPush(false, x.g, t, st.pc)|), st,
                   RunPredicate(Compiled, x.g, t, x.s, st.pos, f))
    decreases f, 0, 0
  {
    var first := First(x.g, t.p, FULL);
    var b0 := Past(st.pc, TestSize(first));
    var c := Gen(false, x.g, t.p, false, NoTest, FULL, Past(b0, 1));
    var e := Past(Past(b0, 1), |c|);
    var end := Past(e, 1);
    var test := TestCode(first, end);
    assert Past(st.pc, |GenNotPush(false, x.g, t, st.pc)|) == end;
    LoopLayout(x, st.pc, test + [IChoice(end)], c, IFailTwice);
    LinkedLast(x, st.pc, test, IChoice(end));
    assert Past(st.pc, |test + [IChoice(end)]|) == Past(b0, 1);
    var r1 := Meaning(x, t.p, st.pos, f - 1);
    TestOrSkip(x, first, end, st);
    if first.empty || Test(x.s, st.pos, first.cs) {
      var st0 := st.(pc := b0);
      Sim(x, t.p, false, NoTest, FULL, Pushed(st0, end), f - 1);
      NotInverts(x, opt, fl, e, end, st0, r1);
      AgreesAfter(x, opt, fl, end, st, st0, if r1.Fail? then Ok(st.pos, []) else if r1.Ok? then Fail else Diverge);
    } else {
      TestFailsMeans(x, t.p, st.pos, f - 1);
      assert st.caps + [] == st.caps;
      ReachEnd(x, opt, fl, end, st, st.pos, []);
    }
  }

  lemma {:induction false} SimAnd(x: Ctx, t: Tree, opt: bool, tt: Guard, fl: Charset, st: State, f: nat)
    requires Ready(x, t, tt, st) && t.And? && f > 0
    requires InPlace(x, opt, fl, st, GenAnd(false, x.g, t, tt, st.pc))
    ensures Agrees(x, opt, fl, Past(st.pc, |GenAnd(false, x.g, t, tt, st.pc)|), st,
                   RunPredicate(Compiled, x.g, t, x.s, st.pos, f))
    decreases f, 0, 1
  {
    if ShortAnd(x.g, t.p) {
      SimAndShort(x, t, opt, tt, fl, st, f);
    } else {
      SimAndPush(x, t, opt, tt, fl, st, f);
    }
  }

  lemma {:induction false} SimAndShort(x: Ctx, t: Tree, opt: bool, tt: Guard, fl: Charset, st: State, f: nat)
    requires Ready(x, t, tt, st) && t.And? && f > 0 && ShortAnd(x.g, t.p)
    requires InPlace(x, opt, fl, st, GenAnd(false, x.g, t, tt, st.pc))
    ensures Agrees(x, opt, fl, Past(st.pc, |GenAnd(false, x.g, t, tt, st.pc)|), st,
                   RunPredicate(Compiled, x.g, t, x.s, st.pos, f))
    decreases f, 0, 0
  {
    var c := Gen(false, x.g, t.p, false, tt, FULL, st.pc);
    var n := FixedLen(x.g, t.p);
    LinkedSplit(x, st.pc, c, BackCode(n));
    assert Past(st.pc, |GenAnd(false, x.g, t, tt, st.pc)|) == Past(Past(st.pc, |c|), if n > 0 then 1 else 0);
    Sim(x, t.p, false, tt, FULL, st, f - 1);
    FixedLenSound(Compiled, x.g, t.p, x.s, st.pos, f - 1, 0, 0);
    var r1 := Meaning(x, t.p, st.pos, f - 1);
    if n > 0 { LinkedOne(x, Past(st.pc, |c|), IBehind(n)); }
    AndSteps(x, opt, fl, Past(st.pc, |c|), st, n, r1, if r1.Ok? then r1.caps else []);
  }

  lemma {:induction false} SimAndPush(x: Ctx, t: Tree, opt: bool, tt: Guard, fl: Charset, st: State, f: nat)
    requires Ready(x, t, tt, st) && t.And? && f > 0 && !ShortAnd(x.g, t.p)
    requires InPlace(x, opt, fl, st, GenAndPush(false, x.g, t, tt, st.pc))
    ensures Agrees(x, opt, fl, Past(st.pc, |GenAndPush(false, x.g, t, tt, st.pc)|), st,
                   RunPredicate(Compiled, x.g, t, x.s, st.pos, f))
    decreases f, 0, 0
  {
    var c := Gen(false, x.g, t.p, false, tt, FULL, Past(st.pc, 1));
    var e := Past(Past(st.pc, 1), |c|);
    var l1 := Past(e, 1);
    var end := Past(l1, 1);
    assert Past(st.pc, |GenAndPush(false, x.g, t, tt, st.pc)|) == end;
    assert [IBackCommit(end), IFail] == [IBackCommit(end)] + [IFail];
    LinkedSplit(x, st.pc, [IChoice(l1)] + c, [IBackCommit(end), IFail]);
    assert Past(st.pc, |[IChoice(l1)] + c|) == e;
    LinkedHead(x, e, IBackCommit(end), [IFail]);
    LinkedOne(x, l1, IFail);
    LinkedHead(x, st.pc, IChoice(l1), c);
    Sim(x, t.p, false, tt, FULL, Pushed(st, l1), f - 1);
    AndRestores(x, opt, fl, e, l1, end, st, Meaning(x, t.p, st.pos, f - 1));
  }

  lemma {:induction false} SimBehind(x: Ctx, t: Tree, opt: bool, tt: Guard, fl: Charset, st: State, f: nat)
    requires t.Behind? && Ready(x, t.p, NoTest, st) && 0 < t.n == FixedLen(x.g, t.p) && f > 0
    requires InPlace(x, opt, fl, st, GenBehind(false, x.g, t, st.pc))
    ensures Agrees(x, opt, fl, Past(st.pc, |GenBehind(false, x.g, t, st.pc)|), st,
                   RunBehind(Compiled, x.g, t, x.s, st.pos, f))
    decreases f, 0, 1
  {
    var b := Past(st.pc, 1);
    var c := Gen(false, x.g, t.p, false, NoTest, FULL, b);
    assert Past(st.pc, |GenBehind(false, x.g, t, st.pc)|) == Past(b, |c|);
    LinkedHead(x, st.pc, IBehind(t.n), c);
    BehindMeaning(x, t, st.pos, f);
    if st.pos < t.n {
      BehindSteps(x, opt, fl, t.n, Past(b, |c|), st, 0, Fail);
    } else {
      var k := st.pos - t.n;
      SimBehindBody(x, t, st.(pc := b, pos := k), f);
      BehindSteps(x, opt, fl, t.n, Past(b, |c|), st, k, Meaning(x, t.p, k, f - 1));
    }
  }

  lemma {:induction false} SimBehindBody(x: Ctx, t: Tree, st: State, f: nat)
    requires t.Behind? && Ready(x, t.p, NoTest, st) && f > 0
    requires Linked(x, st.pc, Gen(false, x.g, t.p, false, NoTest, FULL, st.pc))
    ensures Agrees(x, false, FULL, Past(st.pc, |Gen(false, x.g, t.p, false, NoTest, FULL, st.pc)|), st,
                   Meaning(x, t.p, st.pos, f - 1))
    decreases f, 0, 0
  {
    Sim(x, t.p, false, NoTest, FULL, st, f - 1);
  }

  /** A look-behind ends where it started, because its body has a fixed length. */
  lemma BehindMeaning(x: Ctx, t: Tree, i: nat, f: nat)
    requires t.Behind? && FixedLen(x.g, t.p) == t.n && i <= |x.s| && f > 0
    ensures RunBehind(Compiled, x.g, t, x.s, i, f) == if i < t.n then Fail else Meaning(x, t.p, i - t.n, f - 1)
  {
    if i >= t.n { FixedLenSound(Compiled, x.g, t.p, x.s, i - t.n, f - 1, 0, 0); }
  }

  // ---------- captures ----------

  lemma {:induction false} SimCapture(x: Ctx, t: Tree, opt: bool, tt: Guard, fl: Charset, st: State, f: nat)
    requires Ready(x, t, tt, st) && t.Capture? && f > 0
    requires InPlace(x, opt, fl, st, GenCapture(false, x.g, t, tt, fl, st.pc))
    ensures Agrees(x, opt, fl, Past(st.pc, |GenCapture(false, x.g, t, tt, fl, st.pc)|), st,
                   RunCapture(Compiled, x.g, t, x.s, st.pos, f))
    decreases f, 0, 1
  {
    if ShortCapture(x.g, t.p) {
      SimCaptureShort(x, t, opt, tt, fl, st, f);
    } else {
      SimCaptureLong(x, t, opt, tt, fl, st, f);
    }
  }

  lemma {:induction false} SimCaptureShort(x: Ctx, t: Tree, opt: bool, tt: Guard, fl: Charset, st: State, f: nat)
    requires Ready(x, t, tt, st) && t.Capture? && f > 0 && ShortCapture(x.g, t.p)
    requires InPlace(x, opt, fl, st, GenCapture(false, x.g, t, tt, fl, st.pc))
    ensures Agrees(x, opt, fl, Past(st.pc, |GenCapture(false, x.g, t, tt, fl, st.pc)|), st,
                   RunCapture(Compiled, x.g, t, x.s, st.pos, f))
    decreases f, 0, 0
  {
    var c := Gen(false, x.g, t.p, false, tt, fl, st.pc);
    var n := FixedLen(x.g, t.p);
    LinkedLast(x, st.pc, c, IFullCapture(t.kind, t.key, n));
    assert Past(st.pc, |GenCapture(false, x.g, t, tt, fl, st.pc)|) == Past(Past(st.pc, |c|), 1);
    Sim(x, t.p, false, tt, fl, st, f - 1);
    FixedLenSound(Compiled, x.g, t.p, x.s, st.pos, f - 1, 0, 0);
    var r1 := Meaning(x, t.p, st.pos, f - 1);
    var r := RunCapture(Compiled, x.g, t, x.s, st.pos, f);
    if r1.Ok? {
      var cap := [Cap(st.pos, t.key, t.kind, n + 1)];
      assert st.caps + r1.caps + cap == st.caps + (r1.caps + cap);
    }
    ThenStep(x, opt, fl, fl, Past(st.pc, |c|), st, r1, r);
  }

  /** Closing a capture turns it into one entry when it is short and encloses nothing. */
  lemma CloseCapsMeaning(caps: seq<Cap>, o: Cap, l: seq<Cap>, j: nat)
    requires o.siz == 0 && o.pos <= j && LastClosed(l)
    ensures CloseCaps(caps + ([o] + l), j) ==
            caps + if l == [] && j - o.pos < UCHAR_MAX then [o.(siz := j - o.pos + 1)]
                   else [o] + l + [Cap(j, 0, CLOSE, 1)]
  {
    var all := caps + ([o] + l);
    if l == [] {
      assert all == caps + [o] && all[..|all| - 1] == caps;
      assert [o] + l == [o];
    } else {
      assert all[|all| - 1] == l[|l| - 1];
    }
  }

  lemma CloseStep(x: Ctx, t: Tree, e: nat, st: State, f: nat)
    requires t.Capture? && !ShortCapture(x.g, t.p) && st.St? && st.pos <= |x.s| && f > 0
    requires e < |x.prog| && x.prog[e] == ICloseCapture
    requires Meaning(x, t.p, st.pos, f - 1).Ok?
    ensures var r1 := Meaning(x, t.p, st.pos, f - 1);
            var r := RunCapture(Compiled, x.g, t, x.s, st.pos, f);
            && r.Ok? && r.pos == r1.pos
            && Step(x.prog, x.s, St(e, r1.pos, st.stk, st.caps + ([Cap(st.pos, t.key, t.kind, 0)] + r1.caps)))
               == St(Past(e, 1), r.pos, st.stk, st.caps + r.caps)
  {
    var r1 := Meaning(x, t.p, st.pos, f - 1);
    CapsLastClosed(Compiled, x.g, t.p, x.s, st.pos, f - 1);
    CloseCapsMeaning(st.caps, Cap(st.pos, t.key, t.kind, 0), r1.caps, r1.pos);
  }

  lemma {:induction false} SimCaptureLong(x: Ctx, t: Tree, opt: bool, tt: Guard, fl: Charset, st: State, f: nat)
    requires Ready(x, t, tt, st) && t.Capture? && f > 0 && !ShortCapture(x.g, t.p)
    requires InPlace(x, opt, fl, st, GenCapture(false, x.g, t, tt, fl, st.pc))
    ensures Agrees(x, opt, fl, Past(st.pc, |GenCapture(false, x.g, t, tt, fl, st.pc)|), st,
                   RunCapture(Compiled, x.g, t, x.s, st.pos, f))
    decreases f, 0, 0
  {
    var c := Gen(false, x.g, t.p, false, tt, fl, Past(st.pc, 1));
    var e := Past(Past(st.pc, 1), |c|);
    assert Past(st.pc, |GenCapture(false, x.g, t, tt, fl, st.pc)|) == Past(e, 1);
    LinkedLast(x, st.pc, [IOpenCapture(t.kind, t.key)] + c, ICloseCapture);
    assert Past(st.pc, |[IOpenCapture(t.kind, t.key)] + c|) == e;
    LinkedHead(x, st.pc, IOpenCapture(t.kind, t.key), c);
    var o := Cap(st.pos, t.key, t.kind, 0);
    var st1 := St(Past(st.pc, 1), st.pos, st.stk, st.caps + [o]);
    StackOkMono(st.stk, |st.caps|, |st1.caps|);
    Steps1(x, st, st1);
    Sim(x, t.p, false, tt, fl, st1, f - 1);
    var r1 := Meaning(x, t.p, st.pos, f - 1);
    Continue(x, false, fl, e, st, st1, [o], r1);
    var r := RunCapture(Compiled, x.g, t, x.s, st.pos, f);
    if r1.Ok? { CloseStep(x, t, e, st, f); }
    ThenStep(x, opt, fl, fl, e, st, AddCaps([o], r1), r);
  }

  // ---------- grammars and calls ----------

  /** Code that agrees without a follow set agrees under any `opt` and `fl`. */
  lemma Weaken(x: Ctx, opt: bool, fl: Charset, end: nat, st: State, r: Outcome)
    requires st.St? && (opt ==> UnderChoice(x, fl, end, st)) && (r.Ok? ==> r.pos <= |x.s|)
    requires Agrees(x, false, FULL, end, st, r)
    ensures Agrees(x, opt, fl, end, st, r)
  {
    if r.Ok? { ReachEnd(x, opt, fl, end, st, r.pos, r.caps); }
  }

  /** A rule, run from its position. */
  lemma {:induction false} SimRule(x: Ctx, n: nat, st: State, f: nat)
    requires RulesAt(x) && !x.lo && n < |x.g| && st.St? && st.pos <= |x.s| && st.pc == x.pos[n]
    requires StackOk(st.stk, |st.caps|)
    ensures var e := Past(st.pc, |Gen(false, x.g, x.g[n], false, NoTest, FULL, st.pc)|);
            && e < |x.prog| && x.prog[e] == IRet
            && Agrees(x, false, FULL, e, st, Meaning(x, x.g[n], st.pos, f))
    decreases f, 2
  {
    assert RuleAt(x, n);
    LinkedLast(x, st.pc, Gen(false, x.g, x.g[n], false, NoTest, FULL, st.pc), IRet);
    Sim(x, x.g[n], false, NoTest, FULL, st, f);
  }

  lemma {:induction false} SimCall(x: Ctx, t: Tree, opt: bool, tt: Guard, fl: Charset, st: State, f: nat)
    requires Ready(x, t, tt, st) && t.Call? && f > 0
    requires InPlace(x, opt, fl, st, [IOpenCall(t.rule)])
    ensures Agrees(x, opt, fl, Past(st.pc, |[IOpenCall(t.rule)]|), st, RunRule(Compiled, x.g, t.rule, x.s, st.pos, f))
    decreases f, 0, 0
  {
    var n, r := t.rule, RunRule(Compiled, x.g, t.rule, x.s, st.pos, f);
    assert LinkedAt(x, st.pc, [IOpenCall(n)], 0);
    var to := x.pos[n];
    var e := Past(to, |Gen(false, x.g, x.g[n], false, NoTest, FULL, to)|);
    if x.prog[st.pc] == ICall(to) {
      SimRule(x, n, St(to, st.pos, Ret(Past(st.pc, 1), st.stk), st.caps), f - 1);
      CallReturns(x, st, to, e, r);
    } else {
      SimRule(x, n, st.(pc := to), f - 1);
      TailCallReturns(x, st, to, e, r);
    }
    Weaken(x, opt, fl, Past(st.pc, 1), st, r);
  }

  lemma {:induction false} SimGrammar(x: Ctx, t: Tree, opt: bool, tt: Guard, fl: Charset, st: State, f: nat)
    requires Ready(x, t, tt, st) && t.Rules? && f > 0
    requires InPlace(x, opt, fl, st, GenGrammar(false, t, st.pc))
    ensures Agrees(x, opt, fl, Past(st.pc, |GenGrammar(false, t, st.pc)|), st,
                   RunRule(Compiled, t.rules, 0, x.s, st.pos, f))
    decreases f, 0, 0
  {
    var y, r := Inner(x, t, st.pc), RunRule(Compiled, t.rules, 0, x.s, st.pos, f);
    var end := Past(st.pc, |GenGrammar(false, t, st.pc)|);
    GrammarRulesAt(x, t, st.pc);
    var to := Past(st.pc, 2);
    SimRule(y, 0, St(to, st.pos, Ret(Past(st.pc, 1), st.stk), st.caps), f - 1);
    var e := Past(to, |Gen(false, y.g, y.g[0], false, NoTest, FULL, to)|);
    CallReturns(y, st, to, e, r);
    if r.Ok? {
      var mid := St(Past(st.pc, 1), r.pos, st.stk, st.caps + r.caps);
      Steps1(x, mid, mid.(pc := end));
      ConvTrans(x.prog, x.s, st, mid, mid.(pc := end));
    }
    Weaken(x, opt, fl, end, st, r);
  }
}
