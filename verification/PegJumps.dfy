/**
 Chains of jumps in compiled programs are finite (`finaltarget` of nmap/lpeg.c).  Jumps go
 forward, except the one that closes a loop and tail calls; the former meets the test of its
 loop, and a chain of tail calls would be a left recursion.
 */
module PegJumps {
  import opened PegTree
  import opened PegSemantics
  import opened PegMachine
  import opened PegCode
  import opened PegSimulation
  import opened PegSimCases
  import opened PegLink
  import opened PegVerify
  import opened PegTermination

  predicate JumpAt(prog: Program, pc: nat) {
    pc < |prog| && prog[pc].IJmp?
  }

  /** The chain of jumps from `pc` ends. */
  ghost predicate Lands(prog: Program, pc: nat) {
    exists n: nat :: !JumpAt(prog, JumpN(prog, 0, pc, n))
  }

  lemma LandsHere(prog: Program, pc: nat)
    requires !JumpAt(prog, pc)
    ensures Lands(prog, pc)
  {
    assert JumpN(prog, 0, pc, 0) == pc;
  }

  lemma LandsThere(prog: Program, pc: nat)
    requires JumpAt(prog, pc) && Lands(prog, prog[pc].to)
    ensures Lands(prog, pc)
  {
    var n: nat :| !JumpAt(prog, JumpN(prog, 0, prog[pc].to, n));
    assert JumpN(prog, 0, pc, n + 1) == JumpN(prog, 0, prog[pc].to, n);
  }

  // ---------- chains from the start of some code ----------

  lemma TestLands(x: Ctx, first: FirstInfo, to: nat, base: nat)
    requires !first.empty && Linked(x, base, TestCode(first, to)) && Lands(x.prog, to)
    ensures Lands(x.prog, base)
  {
    LinkedOne(x, base, TestInstr(first.cs, to));
    if x.prog[base].IJmp? { LandsThere(x.prog, base); } else { LandsHere(x.prog, base); }
  }

  /** A test or another instruction that is not a jump. */
  lemma TestOrStopLands(x: Ctx, first: FirstInfo, to: nat, base: nat)
    requires Linked(x, base, TestCode(first, to))
    requires if first.empty then !JumpAt(x.prog, base) else Lands(x.prog, to)
    ensures Lands(x.prog, base)
  {
    if first.empty { LandsHere(x.prog, base); } else { TestLands(x, first, to, base); }
  }

  /** What `verifyrule` has found out about the tree, and that the chain from the end of its
      code lands where it can be reached without consuming. */
  ghost predicate LeftSafe(x: Ctx, t: Tree, left: nat, nb: bool, end: nat) {
    && RulesAt(x) && WellFormed(x.g, t)
    && VerifyRule(true, x.g, t, left, nb).Answer?
    && (VerifyRule(true, x.g, t, left, nb).nullable ==> Lands(x.prog, end))
  }

  /** The chain of jumps from the start of the code of a tree lands: it passes left calls
      only, and `verifyrule` has bounded those. */
  lemma {:induction false} LeftLands(x: Ctx, t: Tree, opt: bool, tt: Guard, fl: Charset, base: nat, left: nat, nb: bool)
    requires Linked(x, base, Gen(x.lo, x.g, t, opt, tt, fl, base))
    requires LeftSafe(x, t, left, nb, Past(base, |Gen(x.lo, x.g, t, opt, tt, fl, base)|))
    ensures Lands(x.prog, base)
    decreases left, t, 2
  {
    GenCases(x.lo, x.g, t, opt, tt, fl, base);
    match t
    case Seq(p1, p2) =>
      var c1 := Gen(x.lo, x.g, p1, false, tt, SeqFollow(x.g, t, fl), base);
      var mid := Past(base, |c1|);
      var c2 := Gen(x.lo, x.g, p2, opt, SeqGuard(x.g, t, tt), fl, mid);
      assert Past(mid, |c2|) == Past(base, |c1 + c2|);
      LinkedSplit(x, base, c1, c2);
      if VerifyRule(true, x.g, p1, left, false).nullable {
        LeftLands(x, p2, opt, SeqGuard(x.g, t, tt), fl, mid, left, nb);
      }
      LeftLands(x, p1, false, tt, SeqFollow(x.g, t, fl), base, left, false);
    case Choice(_, _) => LeftLandsChoice(x, t, opt, fl, base, left, nb);
    case Rep(_) => LeftLandsRep(x, t, opt, fl, base, left, nb);
    case Not(_) => LeftLandsNot(x, t, base, left, nb);
    case And(_) => LeftLandsAnd(x, t, tt, base, left, nb);
    case Behind(n, p) => LinkedHead(x, base, IBehind(n), Gen(x.lo, x.g, p, false, NoTest, FULL, Past(base, 1)));
      LandsHere(x.prog, base);
    case Capture(_, _, _) => LeftLandsCapture(x, t, tt, fl, base, left, nb);
    case Rules(_) => GrammarBody(x, t, base); LandsHere(x.prog, base);
    case Call(_) => LeftLandsCall(x, t, base, left, nb);
    case True => assert Past(base, 0) == base;
    case _ =>
      assert LinkedAt(x, base, Gen(x.lo, x.g, t, opt, tt, fl, base), 0);
      LandsHere(x.prog, base);
  }

  lemma {:induction false} LeftLandsCall(x: Ctx, t: Tree, base: nat, left: nat, nb: bool)
    requires t.Call? && Linked(x, base, [IOpenCall(t.rule)]) && LeftSafe(x, t, left, nb, Past(base, 1))
    ensures Lands(x.prog, base)
    decreases left, t, 1
  {
    var n := t.rule;
    assert LinkedAt(x, base, [IOpenCall(n)], 0);
    if x.prog[base].IJmp? {
      var to := x.pos[n];
      assert RuleAt(x, n);
      var c := Gen(x.lo, x.g, x.g[n], false, NoTest, FULL, to);
      LinkedLast(x, to, c, IRet);
      LandsHere(x.prog, Past(to, |c|));
      LeftLands(x, x.g[n], false, NoTest, FULL, to, left - 1, nb);
      LandsThere(x.prog, base);
    } else {
      LandsHere(x.prog, base);
    }
  }

  lemma {:induction false} LeftLandsChoice(x: Ctx, t: Tree, opt: bool, fl: Charset, base: nat, left: nat, nb: bool)
    requires t.Choice? && Linked(x, base, GenChoice(x.lo, x.g, t, opt, fl, base))
    requires LeftSafe(x, t, left, nb, Past(base, |GenChoice(x.lo, x.g, t, opt, fl, base)|))
    ensures Lands(x.prog, base)
    decreases left, t, 1
  {
    if TestSuffices(x.g, t.p1, First(x.g, t.p2, fl).cs) {
      LeftLandsChoiceTest(x, t, opt, fl, base, left, nb);
    } else if opt && t.p2.True? {
      assert GenChoice(x.lo, x.g, t, opt, fl, base) == GenChoiceReuse(x.lo, x.g, t, base);
      LinkedHead(x, base, IPartialCommit(Past(base, 1)), Gen(x.lo, x.g, t.p1, true, NoTest, FULL, Past(base, 1)));
      LandsHere(x.prog, base);
    } else {
      LeftLandsChoicePush(x, t, opt, fl, base, left, nb);
    }
  }

  lemma {:induction false} LeftLandsChoiceTest(x: Ctx, t: Tree, opt: bool, fl: Charset, base: nat, left: nat, nb: bool)
    requires t.Choice? && Linked(x, base, GenChoiceTest(x.lo, x.g, t, opt, fl, base))
    requires LeftSafe(x, t, left, nb, Past(base, |GenChoiceTest(x.lo, x.g, t, opt, fl, base)|))
    ensures Lands(x.prog, base)
    decreases left, t, 0
  {
    var head := First(x.g, t.p1, FULL).(empty := false);
    var b1 := Past(base, 1);
    var c1 := Gen(x.lo, x.g, t.p1, false, TestGuard(head), fl, b1);
    var l1 := Past(Past(b1, |c1|), SkipSize(t.p2));
    var c2 := Gen(x.lo, x.g, t.p2, opt, NoTest, fl, l1);
    var skip := SkipCode(t.p2, Past(l1, |c2|));
    TestLayout(x, base, TestCode(head, l1), c1, skip, c2);
    assert Past(l1, |c2|) == Past(base, |TestCode(head, l1) + c1 + skip + c2|);
    LeftLands(x, t.p2, opt, NoTest, fl, l1, left, VerifyRule(true, x.g, t.p1, left, nb).nullable);
    TestLands(x, head, l1, base);
  }

  lemma {:induction false} LeftLandsChoicePush(x: Ctx, t: Tree, opt: bool, fl: Charset, base: nat, left: nat, nb: bool)
    requires t.Choice? && Linked(x, base, GenChoicePush(x.lo, x.g, t, opt, fl, base))
    requires LeftSafe(x, t, left, nb, Past(base, |GenChoicePush(x.lo, x.g, t, opt, fl, base)|))
    ensures Lands(x.prog, base)
    decreases left, t, 0
  {
    var first := First(x.g, t.p1, FULL);
    var b0 := Past(base, TestSize(first));
    var c1 := Gen(x.lo, x.g, t.p1, t.p2.True?, TestGuard(first), FULL, Past(b0, 1));
    var l1 := Past(Past(Past(b0, 1), |c1|), 1);
    var c2 := Gen(x.lo, x.g, t.p2, opt, NoTest, fl, l1);
    PushLayout(x, base, TestCode(first, l1), IChoice(l1), c1, ICommit(Past(l1, |c2|)), c2);
    assert Past(l1, |c2|) == Past(base, |TestCode(first, l1) + [IChoice(l1)] + c1 + [ICommit(Past(l1, |c2|))] + c2|);
    LeftLands(x, t.p2, opt, NoTest, fl, l1, left, VerifyRule(true, x.g, t.p1, left, nb).nullable);
    TestOrStopLands(x, first, l1, base);
  }

  lemma {:induction false} LeftLandsRep(x: Ctx, t: Tree, opt: bool, fl: Charset, base: nat, left: nat, nb: bool)
    requires t.Rep? && Linked(x, base, GenRep(x.lo, x.g, t, opt, fl, base))
    requires LeftSafe(x, t, left, nb, Past(base, |GenRep(x.lo, x.g, t, opt, fl, base)|))
    ensures Lands(x.prog, base)
    decreases left, t, 1
  {
    NullableKept(x.g, t.p, left, true);
    if IsCharset(t.p) {
      LinkedOne(x, base, ISpan(ToCharset(t.p)));
      LandsHere(x.prog, base);
    } else if TestSuffices(x.g, t.p, fl) {
      var head := First(x.g, t.p, FULL).(empty := false);
      var c := Gen(x.lo, x.g, t.p, x.lo && opt, TestGuard(head), FULL, Past(base, 1));
      var l2 := Past(Past(Past(base, 1), |c|), 1);
      assert GenRepTest(x.lo, x.g, t, opt, base) == TestCode(head, l2) + c + [IJmp(base)];
      LoopLayout(x, base, TestCode(head, l2), c, IJmp(base));
      assert l2 == Past(base, |TestCode(head, l2) + c + [IJmp(base)]|);
      TestLands(x, head, l2, base);
    } else {
      var first := First(x.g, t.p, FULL);
      var l1 := Past(Past(base, TestSize(first)), 1);
      var c := Gen(x.lo, x.g, t.p, false, NoTest, FULL, l1);
      var l2 := Past(Past(l1, |c|), 1);
      var enter := if opt then IPartialCommit(l1) else IChoice(l2);
      assert GenRepPush(x.lo, x.g, t, opt, base) == TestCode(first, l2) + [enter] + c + [IPartialCommit(l1)];
      LoopLayout(x, base, TestCode(first, l2) + [enter], c, IPartialCommit(l1));
      LinkedLast(x, base, TestCode(first, l2), enter);
      assert l2 == Past(base, |TestCode(first, l2) + [enter] + c + [IPartialCommit(l1)]|);
      TestOrStopLands(x, first, l2, base);
    }
  }

  lemma {:induction false} LeftLandsNot(x: Ctx, t: Tree, base: nat, left: nat, nb: bool)
    requires t.Not? && Linked(x, base, GenNot(x.lo, x.g, t, base))
    requires LeftSafe(x, t, left, nb, Past(base, |GenNot(x.lo, x.g, t, base)|))
    ensures Lands(x.prog, base)
    decreases left, t, 1
  {
    NullableKept(x.g, t.p, left, true);
    var first := First(x.g, t.p, FULL);
    var b := Past(Past(base, TestSize(first)), 1);
    if HeadFail(x.g, t.p) {
      LinkedLast(x, base, TestCode(first, b), IFail);
      assert b == Past(base, |TestCode(first, b) + [IFail]|);
      TestOrStopLands(x, first, b, base);
    } else {
      var c := Gen(x.lo, x.g, t.p, false, NoTest, FULL, b);
      var l1 := Past(Past(b, |c|), 1);
      assert GenNotPush(x.lo, x.g, t, base) == TestCode(first, l1) + [IChoice(l1)] + c + [IFailTwice];
      LoopLayout(x, base, TestCode(first, l1) + [IChoice(l1)], c, IFailTwice);
      LinkedLast(x, base, TestCode(first, l1), IChoice(l1));
      assert l1 == Past(base, |TestCode(first, l1) + [IChoice(l1)] + c + [IFailTwice]|);
      TestOrStopLands(x, first, l1, base);
    }
  }

  lemma {:induction false} LeftLandsAnd(x: Ctx, t: Tree, tt: Guard, base: nat, left: nat, nb: bool)
    requires t.And? && Linked(x, base, GenAnd(x.lo, x.g, t, tt, base))
    requires LeftSafe(x, t, left, nb, Past(base, |GenAnd(x.lo, x.g, t, tt, base)|))
    ensures Lands(x.prog, base)
    decreases left, t, 1
  {
    NullableKept(x.g, t.p, left, true);
    if ShortAnd(x.g, t.p) {
      var n := FixedLen(x.g, t.p);
      var c := Gen(x.lo, x.g, t.p, false, tt, FULL, base);
      var e := Past(base, |c|);
      LinkedSplit(x, base, c, BackCode(n));
      if n > 0 {
        LinkedOne(x, e, IBehind(n));
        LandsHere(x.prog, e);
      } else {
        assert c + BackCode(n) == c;
      }
      LeftLands(x, t.p, false, tt, FULL, base, left, true);
    } else {
      var c := Gen(x.lo, x.g, t.p, false, tt, FULL, Past(base, 1));
      var l1 := Past(Past(Past(base, 1), |c|), 1);
      var last := [IBackCommit(Past(l1, 1)), IFail];
      assert GenAndPush(x.lo, x.g, t, tt, base) == [IChoice(l1)] + c + last == [IChoice(l1)] + (c + last);
      LinkedHead(x, base, IChoice(l1), c + last);
      LandsHere(x.prog, base);
    }
  }

  lemma {:induction false} LeftLandsCapture(x: Ctx, t: Tree, tt: Guard, fl: Charset, base: nat, left: nat, nb: bool)
    requires t.Capture? && Linked(x, base, GenCapture(x.lo, x.g, t, tt, fl, base))
    requires LeftSafe(x, t, left, nb, Past(base, |GenCapture(x.lo, x.g, t, tt, fl, base)|))
    ensures Lands(x.prog, base)
    decreases left, t, 1
  {
    if ShortCapture(x.g, t.p) {
      var c := Gen(x.lo, x.g, t.p, false, tt, fl, base);
      LinkedLast(x, base, c, IFullCapture(t.kind, t.key, FixedLen(x.g, t.p)));
      LandsHere(x.prog, Past(base, |c|));
      LeftLands(x, t.p, false, tt, fl, base, left, nb);
    } else {
      var c := Gen(x.lo, x.g, t.p, false, tt, fl, Past(base, 1));
      var open := IOpenCapture(t.kind, t.key);
      assert [open] + c + [ICloseCapture] == [open] + (c + [ICloseCapture]);
      LinkedHead(x, base, open, c + [ICloseCapture]);
      LandsHere(x.prog, base);
    }
  }

  // ---------- every jump of a program ----------

  predicate HasLabel(ins: Instr) {
    || ins.ITestAny? || ins.ITestChar? || ins.ITestSet? || ins.IChoice? || ins.IJmp? || ins.ICall?
    || ins.ICommit? || ins.IPartialCommit? || ins.IBackCommit?
  }

  /** The label of the instruction at `q` is an address from `floor` on, and a jump there goes
      forward, or to where the chain is known to land, or back to a jump that goes forward. */
  ghost predicate JumpOk(prog: Program, floor: nat, q: nat)
    requires q < |prog|
  {
    && (HasLabel(prog[q]) ==> floor <= prog[q].to < |prog|)
    && (prog[q].IJmp? ==>
          || prog[q].to > q
          || Lands(prog, prog[q].to)
          || (JumpAt(prog, prog[q].to) && prog[prog[q].to].to > q))
  }

  ghost predicate JumpsOk(prog: Program, floor: nat, lo: nat, hi: nat) {
    hi <= |prog| && forall q: nat | lo <= q < hi :: JumpOk(prog, floor, q)
  }

  /** Where all jumps are of these kinds, every chain lands. */
  lemma {:induction false} AllLand(prog: Program, floor: nat, pc: nat)
    requires JumpsOk(prog, floor, floor, |prog|) && pc >= floor
    ensures Lands(prog, pc)
    decreases if pc < |prog| then |prog| - pc else 0
  {
    if JumpAt(prog, pc) {
      assert JumpOk(prog, floor, pc);
      var to := prog[pc].to;
      if to > pc {
        AllLand(prog, floor, to);
      } else if !Lands(prog, to) {
        assert JumpOk(prog, floor, to);
        AllLand(prog, floor, prog[to].to);
        LandsThere(prog, to);
      }
      LandsThere(prog, pc);
    } else {
      LandsHere(prog, pc);
    }
  }

  /** The rules that may be called start at addresses from which the chain lands. */
  ghost predicate RulesLand(x: Ctx, floor: nat) {
    forall n: nat {:trigger RuleAt(x, n)} | n < |x.g| && n < |x.pos| && Used(x.g, n) ::
      floor <= x.pos[n] < |x.prog| && Lands(x.prog, x.pos[n])
  }

  // ---------- patterns whose chains of jumps end ----------

  /** The chain of jumps from `pc`, in code placed at `org`, ends inside the code. */
  ghost predicate EndsInside(code: seq<Instr>, org: nat, pc: nat) {
    exists n: nat :: StopsAt(code, org, JumpN(code, org, pc, n))
  }

  predicate StopsAt(code: seq<Instr>, org: nat, pc: nat) {
    org <= pc < org + |code| && !code[pc - org].IJmp?
  }

  /** In the code of a grammar placed at `base`, the chain from every rule that is used ends. */
  ghost predicate RulesEnd(lo: bool, rs: Grammar, base: nat) {
    var org := Past(base, 2);
    var body, pos := GenRules(lo, rs, rs, org), RulePositions(lo, rs, rs, org);
    forall n: nat | n < |rs| && Used(rs, n) :: EndsInside(Link(body, org, pos, 0), org, pos[n])
  }

  /** That is so of every grammar inside the tree. */
  ghost predicate GrammarsEnd(lo: bool, t: Tree) {
    match t
    case Rep(p) => GrammarsEnd(lo, p)
    case Not(p) => GrammarsEnd(lo, p)
    case And(p) => GrammarsEnd(lo, p)
    case Behind(_, p) => GrammarsEnd(lo, p)
    case Capture(_, _, p) => GrammarsEnd(lo, p)
    case Seq(p1, p2) => GrammarsEnd(lo, p1) && GrammarsEnd(lo, p2)
    case Choice(p1, p2) => GrammarsEnd(lo, p1) && GrammarsEnd(lo, p2)
    case Rules(rs) =>
      (forall base: nat :: RulesEnd(lo, rs, base)) && forall n: nat | n < |rs| :: GrammarsEnd(lo, rs[n])
    case _ => true
  }

  /** A complete pattern for which code can be generated and its jumps be threaded. */
  ghost predicate Buildable(lo: bool, t: Tree) {
    WellFormed([], t) && CallFree(t) && GrammarsEnd(lo, t)
  }

  lemma {:induction false} PlacedEnds(prog: Program, org: nat, r: seq<Instr>, pc: nat, n: nat)
    requires Placed(prog, org, r) && StopsAt(r, org, JumpN(r, org, pc, n))
    ensures Lands(prog, pc)
    decreases n
  {
    if n > 0 && org <= pc < org + |r| && r[pc - org].IJmp? {
      PlacedEnds(prog, org, r, r[pc - org].to, n - 1);
      assert prog[org + (pc - org)] == r[pc - org];
      LandsThere(prog, pc);
    } else {
      assert prog[org + (pc - org)] == r[pc - org];
      LandsHere(prog, pc);
    }
  }

  /** What is known about a tree of a buildable pattern and its grammar. */
  ghost predicate Sound(x: Ctx, floor: nat, t: Tree) {
    && RulesAt(x) && RulesLand(x, floor) && WellFormed(x.g, t) && CallsUsed(x.g, t) && GrammarsEnd(x.lo, t)
  }

  lemma TestJumps(x: Ctx, floor: nat, first: FirstInfo, to: nat, base: nat)
    requires floor <= base && Linked(x, base, TestCode(first, to)) && Past(base, TestSize(first)) <= to < |x.prog|
    ensures JumpsOk(x.prog, floor, base, Past(base, TestSize(first)))
  {
    if !first.empty { LinkedOne(x, base, TestInstr(first.cs, to)); }
  }

  lemma JumpsJoin(prog: Program, floor: nat, a: nat, b: nat, c: nat)
    requires JumpsOk(prog, floor, a, b) && JumpsOk(prog, floor, b, c)
    ensures JumpsOk(prog, floor, a, c)
  {}

  lemma JumpsOne(prog: Program, floor: nat, q: nat)
    requires q < |prog| && JumpOk(prog, floor, q)
    ensures JumpsOk(prog, floor, q, Past(q, 1))
  {}

  /** Some code between two instructions. */
  lemma JumpsAround(prog: Program, floor: nat, base: nat, e: nat)
    requires base < |prog| && e < |prog| && JumpOk(prog, floor, base) && JumpOk(prog, floor, e)
    requires JumpsOk(prog, floor, Past(base, 1), e)
    ensures JumpsOk(prog, floor, base, Past(e, 1))
  {
    JumpsOne(prog, floor, base);
    JumpsOne(prog, floor, e);
    JumpsJoin(prog, floor, base, Past(base, 1), e);
    JumpsJoin(prog, floor, base, e, Past(e, 1));
  }

  lemma {:induction false} CodeJumps(x: Ctx, floor: nat, t: Tree, opt: bool, tt: Guard, fl: Charset, base: nat)
    requires Sound(x, floor, t) && floor <= base && Linked(x, base, Gen(x.lo, x.g, t, opt, tt, fl, base))
    requires Past(base, |Gen(x.lo, x.g, t, opt, tt, fl, base)|) < |x.prog|
    ensures JumpsOk(x.prog, floor, base, Past(base, |Gen(x.lo, x.g, t, opt, tt, fl, base)|))
    decreases t, 2
  {
    GenCases(x.lo, x.g, t, opt, tt, fl, base);
    match t
    case Seq(_, _) => CodeJumpsSeq(x, floor, t, opt, tt, fl, base);
    case Choice(_, _) => CodeJumpsChoice(x, floor, t, opt, fl, base);
    case Rep(_) => CodeJumpsRep(x, floor, t, opt, fl, base);
    case Not(_) => CodeJumpsNot(x, floor, t, base);
    case And(_) => CodeJumpsAnd(x, floor, t, tt, base);
    case Behind(_, _) => CodeJumpsBehind(x, floor, t, base);
    case Capture(_, _, _) => CodeJumpsCapture(x, floor, t, tt, fl, base);
    case Rules(_) => CodeJumpsGrammar(x, floor, t, base);
    case Call(_) => CodeJumpsCall(x, floor, t, base);
    case True =>
    case _ => CodeJumpsLeaf(x, floor, Gen(x.lo, x.g, t, opt, tt, fl, base), base);
  }

  lemma CodeJumpsCall(x: Ctx, floor: nat, t: Tree, base: nat)
    requires t.Call? && Sound(x, floor, t) && Linked(x, base, [IOpenCall(t.rule)])
    ensures JumpsOk(x.prog, floor, base, Past(base, 1))
  {
    assert LinkedAt(x, base, [IOpenCall(t.rule)], 0);
    assert t.rule in Calls(t) && RuleAt(x, t.rule);
    JumpsOne(x.prog, floor, base);
  }

  lemma CodeJumpsLeaf(x: Ctx, floor: nat, c: seq<Instr>, base: nat)
    requires |c| == 1 && !HasLabel(c[0]) && !c[0].IOpenCall? && Linked(x, base, c)
    ensures JumpsOk(x.prog, floor, base, Past(base, 1))
  {
    assert LinkedAt(x, base, c, 0);
    JumpsOne(x.prog, floor, base);
  }

  lemma {:induction false} CodeJumpsSeq(x: Ctx, floor: nat, t: Tree, opt: bool, tt: Guard, fl: Charset, base: nat)
    requires t.Seq? && floor <= base && Sound(x, floor, t) && Linked(x, base, GenSeq(x.lo, x.g, t, opt, tt, fl, base))
    requires Past(base, |GenSeq(x.lo, x.g, t, opt, tt, fl, base)|) < |x.prog|
    ensures JumpsOk(x.prog, floor, base, Past(base, |GenSeq(x.lo, x.g, t, opt, tt, fl, base)|))
    decreases t, 1
  {
    assert Calls(t) == Calls(t.p1) + Calls(t.p2);
    var c1 := Gen(x.lo, x.g, t.p1, false, tt, SeqFollow(x.g, t, fl), base);
    var mid := Past(base, |c1|);
    var c2 := Gen(x.lo, x.g, t.p2, opt, SeqGuard(x.g, t, tt), fl, mid);
    assert Past(mid, |c2|) == Past(base, |c1 + c2|);
    LinkedSplit(x, base, c1, c2);
    CodeJumps(x, floor, t.p1, false, tt, SeqFollow(x.g, t, fl), base);
    CodeJumps(x, floor, t.p2, opt, SeqGuard(x.g, t, tt), fl, mid);
    JumpsJoin(x.prog, floor, base, mid, Past(mid, |c2|));
  }

  lemma {:induction false} CodeJumpsBehind(x: Ctx, floor: nat, t: Tree, base: nat)
    requires t.Behind? && floor <= base && Sound(x, floor, t) && Linked(x, base, GenBehind(x.lo, x.g, t, base))
    requires Past(base, |GenBehind(x.lo, x.g, t, base)|) < |x.prog|
    ensures JumpsOk(x.prog, floor, base, Past(base, |GenBehind(x.lo, x.g, t, base)|))
    decreases t, 1
  {
    assert Calls(t) == Calls(t.p);
    var c := Gen(x.lo, x.g, t.p, false, NoTest, FULL, Past(base, 1));
    assert Past(Past(base, 1), |c|) == Past(base, |[IBehind(t.n)] + c|);
    LinkedHead(x, base, IBehind(t.n), c);
    CodeJumps(x, floor, t.p, false, NoTest, FULL, Past(base, 1));
  }

  lemma {:induction false} CodeJumpsChoice(x: Ctx, floor: nat, t: Tree, opt: bool, fl: Charset, base: nat)
    requires t.Choice? && floor <= base && Sound(x, floor, t) && Linked(x, base, GenChoice(x.lo, x.g, t, opt, fl, base))
    requires Past(base, |GenChoice(x.lo, x.g, t, opt, fl, base)|) < |x.prog|
    ensures JumpsOk(x.prog, floor, base, Past(base, |GenChoice(x.lo, x.g, t, opt, fl, base)|))
    decreases t, 1
  {
    assert Calls(t) == Calls(t.p1) + Calls(t.p2);
    if TestSuffices(x.g, t.p1, First(x.g, t.p2, fl).cs) {
      CodeJumpsChoiceTest(x, floor, t, opt, fl, base);
    } else if opt && t.p2.True? {
      var c1 := Gen(x.lo, x.g, t.p1, true, NoTest, FULL, Past(base, 1));
      assert GenChoice(x.lo, x.g, t, opt, fl, base) == GenChoiceReuse(x.lo, x.g, t, base);
      assert Past(Past(base, 1), |c1|) == Past(base, |[IPartialCommit(Past(base, 1))] + c1|);
      LinkedHead(x, base, IPartialCommit(Past(base, 1)), c1);
      CodeJumps(x, floor, t.p1, true, NoTest, FULL, Past(base, 1));
    } else {
      CodeJumpsChoicePush(x, floor, t, opt, fl, base);
    }
  }

  lemma {:induction false} CodeJumpsChoiceTest(x: Ctx, floor: nat, t: Tree, opt: bool, fl: Charset, base: nat)
    requires t.Choice? && floor <= base && Sound(x, floor, t.p1) && Sound(x, floor, t.p2)
    requires Linked(x, base, GenChoiceTest(x.lo, x.g, t, opt, fl, base))
    requires Past(base, |GenChoiceTest(x.lo, x.g, t, opt, fl, base)|) < |x.prog|
    ensures JumpsOk(x.prog, floor, base, Past(base, |GenChoiceTest(x.lo, x.g, t, opt, fl, base)|))
    decreases t, 0
  {
    var head := First(x.g, t.p1, FULL).(empty := false);
    var b1 := Past(base, 1);
    var c1 := Gen(x.lo, x.g, t.p1, false, TestGuard(head), fl, b1);
    var l1 := Past(Past(b1, |c1|), SkipSize(t.p2));
    var c2 := Gen(x.lo, x.g, t.p2, opt, NoTest, fl, l1);
    var skip := SkipCode(t.p2, Past(l1, |c2|));
    TestLayout(x, base, TestCode(head, l1), c1, skip, c2);
    assert Past(l1, |c2|) == Past(base, |TestCode(head, l1) + c1 + skip + c2|);
    CodeJumps(x, floor, t.p1, false, TestGuard(head), fl, b1);
    CodeJumps(x, floor, t.p2, opt, NoTest, fl, l1);
    TestJumps(x, floor, head, l1, base);
    var e, end := Past(b1, |c1|), Past(l1, |c2|);
    if !t.p2.True? {
      LinkedOne(x, e, IJmp(end));
      JumpsOne(x.prog, floor, e);
    }
    JumpsJoin(x.prog, floor, base, b1, e);
    JumpsJoin(x.prog, floor, base, e, l1);
    JumpsJoin(x.prog, floor, base, l1, end);
  }

  lemma {:induction false} CodeJumpsChoicePush(x: Ctx, floor: nat, t: Tree, opt: bool, fl: Charset, base: nat)
    requires t.Choice? && floor <= base && Sound(x, floor, t.p1) && Sound(x, floor, t.p2)
    requires Linked(x, base, GenChoicePush(x.lo, x.g, t, opt, fl, base))
    requires Past(base, |GenChoicePush(x.lo, x.g, t, opt, fl, base)|) < |x.prog|
    ensures JumpsOk(x.prog, floor, base, Past(base, |GenChoicePush(x.lo, x.g, t, opt, fl, base)|))
    decreases t, 0
  {
    var first := First(x.g, t.p1, FULL);
    var b0 := Past(base, TestSize(first));
    var c1 := Gen(x.lo, x.g, t.p1, t.p2.True?, TestGuard(first), FULL, Past(b0, 1));
    var l1 := Past(Past(Past(b0, 1), |c1|), 1);
    var c2 := Gen(x.lo, x.g, t.p2, opt, NoTest, fl, l1);
    PushLayout(x, base, TestCode(first, l1), IChoice(l1), c1, ICommit(Past(l1, |c2|)), c2);
    assert Past(l1, |c2|) == Past(base, |TestCode(first, l1) + [IChoice(l1)] + c1 + [ICommit(Past(l1, |c2|))] + c2|);
    CodeJumps(x, floor, t.p1, t.p2.True?, TestGuard(first), FULL, Past(b0, 1));
    CodeJumps(x, floor, t.p2, opt, NoTest, fl, l1);
    TestJumps(x, floor, first, l1, base);
    var e, end := Past(Past(b0, 1), |c1|), Past(l1, |c2|);
    JumpsAround(x.prog, floor, b0, e);
    JumpsJoin(x.prog, floor, base, b0, l1);
    JumpsJoin(x.prog, floor, base, l1, end);
  }

  lemma {:induction false} CodeJumpsRep(x: Ctx, floor: nat, t: Tree, opt: bool, fl: Charset, base: nat)
    requires t.Rep? && floor <= base && Sound(x, floor, t) && Linked(x, base, GenRep(x.lo, x.g, t, opt, fl, base))
    requires Past(base, |GenRep(x.lo, x.g, t, opt, fl, base)|) < |x.prog|
    ensures JumpsOk(x.prog, floor, base, Past(base, |GenRep(x.lo, x.g, t, opt, fl, base)|))
    decreases t, 1
  {
    assert Calls(t) == Calls(t.p);
    if IsCharset(t.p) {
      LinkedOne(x, base, ISpan(ToCharset(t.p)));
    } else if TestSuffices(x.g, t.p, fl) {
      CodeJumpsRepTest(x, floor, t, opt, base);
    } else {
      CodeJumpsRepPush(x, floor, t, opt, base);
    }
  }

  lemma {:induction false} CodeJumpsRepPush(x: Ctx, floor: nat, t: Tree, opt: bool, base: nat)
    requires t.Rep? && floor <= base && Sound(x, floor, t.p) && Linked(x, base, GenRepPush(x.lo, x.g, t, opt, base))
    requires Past(base, |GenRepPush(x.lo, x.g, t, opt, base)|) < |x.prog|
    ensures JumpsOk(x.prog, floor, base, Past(base, |GenRepPush(x.lo, x.g, t, opt, base)|))
    decreases t, 0
  {
    var first := First(x.g, t.p, FULL);
    var b := Past(base, TestSize(first));
    var l1 := Past(b, 1);
    var c := Gen(x.lo, x.g, t.p, false, NoTest, FULL, l1);
    var e := Past(l1, |c|);
    var l2 := Past(e, 1);
    var enter := if opt then IPartialCommit(l1) else IChoice(l2);
    assert GenRepPush(x.lo, x.g, t, opt, base) == TestCode(first, l2) + [enter] + c + [IPartialCommit(l1)];
    LoopLayout(x, base, TestCode(first, l2) + [enter], c, IPartialCommit(l1));
    LinkedLast(x, base, TestCode(first, l2), enter);
    assert l2 == Past(base, |TestCode(first, l2) + [enter] + c + [IPartialCommit(l1)]|);
    CodeJumps(x, floor, t.p, false, NoTest, FULL, l1);
    TestJumps(x, floor, first, l2, base);
    JumpsAround(x.prog, floor, b, e);
    JumpsJoin(x.prog, floor, base, b, l2);
  }

  lemma {:induction false} CodeJumpsRepTest(x: Ctx, floor: nat, t: Tree, opt: bool, base: nat)
    requires t.Rep? && floor <= base && Sound(x, floor, t.p) && Linked(x, base, GenRepTest(x.lo, x.g, t, opt, base))
    requires Past(base, |GenRepTest(x.lo, x.g, t, opt, base)|) < |x.prog|
    ensures JumpsOk(x.prog, floor, base, Past(base, |GenRepTest(x.lo, x.g, t, opt, base)|))
    decreases t, 0
  {
    var head := First(x.g, t.p, FULL).(empty := false);
    var c := Gen(x.lo, x.g, t.p, x.lo && opt, TestGuard(head), FULL, Past(base, 1));
    var e := Past(Past(base, 1), |c|);
    var l2 := Past(e, 1);
    LoopLayout(x, base, TestCode(head, l2), c, IJmp(base));
    assert l2 == Past(base, |TestCode(head, l2) + c + [IJmp(base)]|);
    CodeJumps(x, floor, t.p, x.lo && opt, TestGuard(head), FULL, Past(base, 1));
    TestJumps(x, floor, head, l2, base);
    LinkedOne(x, base, TestInstr(head.cs, l2));
    if !JumpAt(x.prog, base) { LandsHere(x.prog, base); }
    assert JumpOk(x.prog, floor, e);
  }

  lemma {:induction false} CodeJumpsNot(x: Ctx, floor: nat, t: Tree, base: nat)
    requires t.Not? && floor <= base && Sound(x, floor, t) && Linked(x, base, GenNot(x.lo, x.g, t, base))
    requires Past(base, |GenNot(x.lo, x.g, t, base)|) < |x.prog|
    ensures JumpsOk(x.prog, floor, base, Past(base, |GenNot(x.lo, x.g, t, base)|))
    decreases t, 1
  {
    assert Calls(t) == Calls(t.p);
    var first := First(x.g, t.p, FULL);
    var b := Past(Past(base, TestSize(first)), 1);
    if HeadFail(x.g, t.p) {
      LinkedLast(x, base, TestCode(first, b), IFail);
      assert b == Past(base, |TestCode(first, b) + [IFail]|);
      TestJumps(x, floor, first, b, base);
    } else {
      CodeJumpsNotPush(x, floor, t, base);
    }
  }

  lemma {:induction false} CodeJumpsNotPush(x: Ctx, floor: nat, t: Tree, base: nat)
    requires t.Not? && floor <= base && Sound(x, floor, t.p) && Linked(x, base, GenNotPush(x.lo, x.g, t, base))
    requires Past(base, |GenNotPush(x.lo, x.g, t, base)|) < |x.prog|
    ensures JumpsOk(x.prog, floor, base, Past(base, |GenNotPush(x.lo, x.g, t, base)|))
    decreases t, 0
  {
    var first := First(x.g, t.p, FULL);
    var b := Past(base, TestSize(first));
    var c := Gen(x.lo, x.g, t.p, false, NoTest, FULL, Past(b, 1));
    var e := Past(Past(b, 1), |c|);
    var l1 := Past(e, 1);
    var test := TestCode(first, l1);
    var head := test + [IChoice(l1)];
    assert |test| == TestSize(first) && Past(base, |head|) == Past(b, 1);
    assert GenNotPush(x.lo, x.g, t, base) == head + c + [IFailTwice];
    assert l1 == Past(base, |head + c + [IFailTwice]|);
    LoopLayout(x, base, head, c, IFailTwice);
    LinkedLast(x, base, test, IChoice(l1));
    CodeJumps(x, floor, t.p, false, NoTest, FULL, Past(b, 1));
    TestJumps(x, floor, first, l1, base);
    JumpsAround(x.prog, floor, b, e);
    JumpsJoin(x.prog, floor, base, b, l1);
  }

  lemma {:induction false} CodeJumpsAnd(x: Ctx, floor: nat, t: Tree, tt: Guard, base: nat)
    requires t.And? && floor <= base && Sound(x, floor, t) && Linked(x, base, GenAnd(x.lo, x.g, t, tt, base))
    requires Past(base, |GenAnd(x.lo, x.g, t, tt, base)|) < |x.prog|
    ensures JumpsOk(x.prog, floor, base, Past(base, |GenAnd(x.lo, x.g, t, tt, base)|))
    decreases t, 1
  {
    assert Calls(t) == Calls(t.p);
    if ShortAnd(x.g, t.p) {
      var n := FixedLen(x.g, t.p);
      var c := Gen(x.lo, x.g, t.p, false, tt, FULL, base);
      LinkedSplit(x, base, c, BackCode(n));
      if n > 0 { LinkedOne(x, Past(base, |c|), IBehind(n)); }
      CodeJumps(x, floor, t.p, false, tt, FULL, base);
    } else {
      CodeJumpsAndPush(x, floor, t, tt, base);
    }
  }

  lemma {:induction false} CodeJumpsAndPush(x: Ctx, floor: nat, t: Tree, tt: Guard, base: nat)
    requires t.And? && floor <= base && Sound(x, floor, t.p) && Linked(x, base, GenAndPush(x.lo, x.g, t, tt, base))
    requires Past(base, |GenAndPush(x.lo, x.g, t, tt, base)|) < |x.prog|
    ensures JumpsOk(x.prog, floor, base, Past(base, |GenAndPush(x.lo, x.g, t, tt, base)|))
    decreases t, 0
  {
    var b := Past(base, 1);
    var c := Gen(x.lo, x.g, t.p, false, tt, FULL, b);
    var e := Past(b, |c|);
    var l1 := Past(e, 1);
    var end := Past(l1, 1);
    var last := [IBackCommit(end), IFail];
    assert GenAndPush(x.lo, x.g, t, tt, base) == [IChoice(l1)] + c + last == [IChoice(l1)] + (c + last);
    assert end == Past(base, |[IChoice(l1)] + c + last|);
    LinkedHead(x, base, IChoice(l1), c + last);
    LinkedSplit(x, b, c, last);
    assert last == [IBackCommit(end)] + [IFail];
    LinkedHead(x, e, IBackCommit(end), [IFail]);
    LinkedOne(x, l1, IFail);
    CodeJumps(x, floor, t.p, false, tt, FULL, b);
    JumpsAround(x.prog, floor, base, e);
    JumpsOne(x.prog, floor, l1);
    JumpsJoin(x.prog, floor, base, l1, end);
  }

  lemma {:induction false} CodeJumpsCapture(x: Ctx, floor: nat, t: Tree, tt: Guard, fl: Charset, base: nat)
    requires t.Capture? && floor <= base && Sound(x, floor, t)
             && Linked(x, base, GenCapture(x.lo, x.g, t, tt, fl, base))
    requires Past(base, |GenCapture(x.lo, x.g, t, tt, fl, base)|) < |x.prog|
    ensures JumpsOk(x.prog, floor, base, Past(base, |GenCapture(x.lo, x.g, t, tt, fl, base)|))
    decreases t, 1
  {
    assert Calls(t) == Calls(t.p);
    if ShortCapture(x.g, t.p) {
      var c := Gen(x.lo, x.g, t.p, false, tt, fl, base);
      var full := IFullCapture(t.kind, t.key, FixedLen(x.g, t.p));
      var e := Past(base, |c|);
      assert Past(e, 1) == Past(base, |c + [full]|);
      LinkedLast(x, base, c, full);
      CodeJumps(x, floor, t.p, false, tt, fl, base);
      JumpsOne(x.prog, floor, e);
      JumpsJoin(x.prog, floor, base, e, Past(e, 1));
    } else {
      CodeJumpsCaptureLong(x, floor, t, tt, fl, base);
    }
  }

  lemma {:induction false} CodeJumpsCaptureLong(x: Ctx, floor: nat, t: Tree, tt: Guard, fl: Charset, base: nat)
    requires t.Capture? && floor <= base && Sound(x, floor, t.p) && !ShortCapture(x.g, t.p)
    requires Linked(x, base, GenCapture(x.lo, x.g, t, tt, fl, base))
    requires Past(base, |GenCapture(x.lo, x.g, t, tt, fl, base)|) < |x.prog|
    ensures JumpsOk(x.prog, floor, base, Past(base, |GenCapture(x.lo, x.g, t, tt, fl, base)|))
    decreases t, 0
  {
    var b := Past(base, 1);
    var c := Gen(x.lo, x.g, t.p, false, tt, fl, b);
    var e := Past(b, |c|);
    var open := IOpenCapture(t.kind, t.key);
    assert GenCapture(x.lo, x.g, t, tt, fl, base) == [open] + c + [ICloseCapture] == [open] + (c + [ICloseCapture]);
    assert Past(e, 1) == Past(base, |[open] + c + [ICloseCapture]|);
    LinkedHead(x, base, open, c + [ICloseCapture]);
    LinkedLast(x, b, c, ICloseCapture);
    CodeJumps(x, floor, t.p, false, tt, fl, b);
    JumpsAround(x.prog, floor, base, e);
  }

  /** In a buildable grammar, the chain of jumps from the start of a rule lands. */
  lemma GrammarLands(x: Ctx, floor: nat, t: Tree, base: nat)
    requires t.Rules? && floor <= base + 2 && WellFormed(x.g, t) && GrammarsEnd(x.lo, t)
    requires Linked(x, base, GenGrammar(x.lo, t, base))
    ensures RulesAt(Inner(x, t, base)) && RulesLand(Inner(x, t, base), floor)
  {
    var y, rs, org := Inner(x, t, base), t.rules, Past(base, 2);
    GrammarRulesAt(x, t, base);
    GrammarPlaced(x, t, base);
    assert RulesEnd(x.lo, rs, base);
    var r := Link(GenRules(x.lo, rs, rs, org), org, y.pos, 0);
    forall n: nat | n < |rs| && Used(rs, n)
      ensures floor <= y.pos[n] < |y.prog| && Lands(y.prog, y.pos[n])
    {
      assert RuleAt(y, n);
      RuleOccurs(x.lo, rs, rs, org, n);
      var c := Gen(y.lo, rs, rs[n], false, NoTest, FULL, y.pos[n]);
      LinkedLast(y, y.pos[n], c, IRet);
      assert EndsInside(r, org, y.pos[n]);
      var k: nat :| StopsAt(r, org, JumpN(r, org, y.pos[n], k));
      PlacedEnds(y.prog, org, r, y.pos[n], k);
    }
  }

  /** The corrected code of a grammar stands in the program as it is. */
  lemma GrammarPlaced(x: Ctx, t: Tree, base: nat)
    requires t.Rules? && WellFormed(x.g, t) && Linked(x, base, GenGrammar(x.lo, t, base))
    ensures var org := Past(base, 2);
            Placed(x.prog, org, Link(GenRules(x.lo, t.rules, t.rules, org), org, Inner(x, t, base).pos, 0))
  {
    var rs, org, y := t.rules, Past(base, 2), Inner(x, t, base);
    var body := GenRules(x.lo, rs, rs, org);
    var r := Link(body, org, y.pos, 0);
    GenCallsRules(x.lo, rs, rs, org);
    LinkedSplit(x, base, [ICall(org), IJmp(Past(org, |body|))], r);
    LinkLeavesNoCalls(body, org, y.pos, 0);
    RuleOccurs(x.lo, rs, rs, org, 0);
    PlacedFromLinked(x, org, r);
  }

  lemma {:induction false} CodeJumpsGrammar(x: Ctx, floor: nat, t: Tree, base: nat)
    requires t.Rules? && floor <= base && Sound(x, floor, t) && Linked(x, base, GenGrammar(x.lo, t, base))
    requires Past(base, |GenGrammar(x.lo, t, base)|) < |x.prog|
    ensures JumpsOk(x.prog, floor, base, Past(base, |GenGrammar(x.lo, t, base)|))
    decreases t, 1
  {
    var y, rs, org := Inner(x, t, base), t.rules, Past(base, 2);
    GrammarLands(x, floor, t, base);
    GrammarBody(x, t, base);
    CodeJumpsRules(y, floor, rs, org);
    assert Past(org, |GenRules(x.lo, rs, rs, org)|) == Past(base, |GenGrammar(x.lo, t, base)|);
  }

  lemma {:induction false} CodeJumpsRules(y: Ctx, floor: nat, todo: seq<Tree>, base: nat)
    requires RulesAt(y) && RulesLand(y, floor) && Linked(y, base, GenRules(y.lo, y.g, todo, base))
    requires forall r | r in todo :: r in y.g && GrammarsEnd(y.lo, r)
    requires floor <= base && Past(base, |GenRules(y.lo, y.g, todo, base)|) <= |y.prog|
    ensures JumpsOk(y.prog, floor, base, Past(base, |GenRules(y.lo, y.g, todo, base)|))
    decreases todo, 0
  {
    if todo != [] {
      var c := Gen(y.lo, y.g, todo[0], false, NoTest, FULL, base);
      var next := Past(base, |c + [IRet]|);
      var rest := GenRules(y.lo, y.g, todo[1..], next);
      assert Past(next, |rest|) == Past(base, |c + [IRet] + rest|);
      LinkedSplit(y, base, c + [IRet], rest);
      LinkedLast(y, base, c, IRet);
      RuleSound(y, floor, todo[0]);
      CodeJumps(y, floor, todo[0], false, NoTest, FULL, base);
      CodeJumpsRules(y, floor, todo[1..], next);
    }
  }

  lemma RuleSound(y: Ctx, floor: nat, r: Tree)
    requires RulesAt(y) && RulesLand(y, floor) && r in y.g && GrammarsEnd(y.lo, r)
    ensures Sound(y, floor, r)
  {
    var n: nat :| n < |y.g| && y.g[n] == r;
    assert RuleAt(y, n);
    forall k: nat | k < |y.g| ensures WellFormed(y.g, y.g[k]) { assert RuleAt(y, k); }
    RuleCallsUsed(y.g, n);
  }

  /** Labels stay inside a compiled program and every chain of jumps in it is finite. */
  lemma ProgramLands(lo: bool, t: Tree)
    requires Buildable(lo, t)
    ensures JumpsOk(WholeProgram(lo, t), 0, 0, |WholeProgram(lo, t)|)
    ensures forall pc: nat :: Lands(WholeProgram(lo, t), pc)
  {
    var prog := WholeProgram(lo, t);
    var x := Ctx(prog, [], [], [], lo);
    WholeProgramInPlace(lo, t, []);
    CallFreeCalls(t);
    CodeJumps(x, 0, t, false, NoTest, FULL, 0);
    forall pc: nat ensures Lands(prog, pc) { AllLand(prog, 0, pc); }
  }

  // ---------- accepted patterns are buildable ----------

  /** In a grammar whose rules `verifyrule` accepts, the chain from the start of a rule passes left calls
      only, and lands. */
  lemma AcceptedRulesLand(x: Ctx, floor: nat, t: Tree, base: nat)
    requires t.Rules? && floor <= base + 2 && WellFormed(x.g, t) && GrammarsAccepted(true, t)
    requires Linked(x, base, GenGrammar(x.lo, t, base))
    ensures RulesAt(Inner(x, t, base)) && RulesLand(Inner(x, t, base), floor)
  {
    var y, rs := Inner(x, t, base), t.rules;
    GrammarRulesAt(x, t, base);
    forall n: nat | n < |rs| && Used(rs, n)
      ensures floor <= y.pos[n] < |y.prog| && Lands(y.prog, y.pos[n])
    {
      assert RuleAt(y, n) && RuleAccepted(true, rs, n);
      RuleOccurs(x.lo, rs, rs, Past(base, 2), n);
      var to := y.pos[n];
      var c := Gen(y.lo, rs, rs[n], false, NoTest, FULL, to);
      LinkedLast(y, to, c, IRet);
      LandsHere(y.prog, Past(to, |c|));
      LeftLands(y, rs[n], false, NoTest, FULL, to, MAX_RULES, false);
    }
  }

  /** Where labels stay inside, a chain that lands stays inside. */
  lemma {:induction false} LandsInside(prog: Program, org: nat, r: seq<Instr>, pc: nat, n: nat)
    requires Placed(prog, org, r) && |prog| == org + |r| && JumpsOk(prog, org, org, |prog|)
    requires org <= pc < |prog| && !JumpAt(prog, JumpN(prog, 0, pc, n))
    ensures EndsInside(r, org, pc)
    decreases n
  {
    assert prog[org + (pc - org)] == r[pc - org];
    if JumpAt(prog, pc) {
      assert JumpOk(prog, org, pc);
      LandsInside(prog, org, r, prog[pc].to, n - 1);
      var k: nat :| StopsAt(r, org, JumpN(r, org, prog[pc].to, k));
      assert JumpN(r, org, pc, k + 1) == JumpN(r, org, prog[pc].to, k);
    } else {
      assert JumpN(r, org, pc, 0) == pc;
    }
  }

  /** A grammar by itself, after `base` instructions. */
  ghost function Alone(lo: bool, t: Tree, base: nat): Ctx
    requires t.Rules?
  {
    Ctx(seq(base, _ => IFail) + GenGrammar(lo, t, base), [], [], [], lo)
  }

  lemma AloneLinked(lo: bool, t: Tree, base: nat)
    requires t.Rules? && WellFormed([], t)
    ensures Linked(Alone(lo, t, base), base, GenGrammar(lo, t, base))
    ensures |Alone(lo, t, base).prog| == Past(Past(base, 2), |GenRules(lo, t.rules, t.rules, Past(base, 2))|)
  {
    var x, code := Alone(lo, t, base), GenGrammar(lo, t, base);
    GenCallsGrammar(lo, [], t, base);
    forall k: nat ensures LinkedAt(x, base, code, k) {
      assert CallBelow(code, 0, k);
      if k < |code| { assert x.prog[base + k] == code[k]; }
    }
  }

  lemma AcceptedRulesEnd(lo: bool, t: Tree, base: nat)
    requires t.Rules? && WellFormed([], t) && GrammarsAccepted(true, t)
    requires forall n: nat | n < |t.rules| :: GrammarsEnd(lo, t.rules[n])
    ensures RulesEnd(lo, t.rules, base)
  {
    var x, rs, org := Alone(lo, t, base), t.rules, Past(base, 2);
    AloneLinked(lo, t, base);
    AcceptedRulesLand(x, org, t, base);
    GrammarBody(x, t, base);
    GrammarPlaced(x, t, base);
    var y := Inner(x, t, base);
    forall r | r in rs ensures GrammarsEnd(lo, r) {
      var n: nat :| n < |rs| && rs[n] == r;
    }
    CodeJumpsRules(y, org, rs, org);
    var r := Link(GenRules(lo, rs, rs, org), org, y.pos, 0);
    forall n: nat | n < |rs| && Used(rs, n) ensures EndsInside(r, org, y.pos[n]) {
      assert RuleAt(y, n);
      var k: nat :| !JumpAt(y.prog, JumpN(y.prog, 0, y.pos[n], k));
      LandsInside(y.prog, org, r, y.pos[n], k);
    }
  }

  /** Every pattern whose grammars pass the repaired check is buildable. */
  lemma {:induction false} AcceptedEnd(lo: bool, g: Grammar, t: Tree)
    requires WellFormed(g, t) && GrammarsAccepted(true, t)
    ensures GrammarsEnd(lo, t)
    decreases t
  {
    match t
    case Rep(p) => AcceptedEnd(lo, g, p);
    case Not(p) => AcceptedEnd(lo, g, p);
    case And(p) => AcceptedEnd(lo, g, p);
    case Behind(_, p) => AcceptedEnd(lo, g, p);
    case Capture(_, _, p) => AcceptedEnd(lo, g, p);
    case Seq(p1, p2) => AcceptedEnd(lo, g, p1); AcceptedEnd(lo, g, p2);
    case Choice(p1, p2) => AcceptedEnd(lo, g, p1); AcceptedEnd(lo, g, p2);
    case Rules(rs) =>
      forall n: nat | n < |rs| ensures GrammarsEnd(lo, rs[n]) {
        assert rs[n] in rs;
        AcceptedEnd(lo, rs, rs[n]);
      }
      forall base: nat ensures RulesEnd(lo, rs, base) { AcceptedRulesEnd(lo, t, base); }
    case _ =>
  }

  lemma AcceptedBuildable(lo: bool, t: Tree)
    requires Accepted(true, t)
    ensures Buildable(lo, t)
  {
    AcceptedEnd(lo, [], t);
  }

  // ---------- a program with a ring of jumps ----------

  /** The code of A <- !{ false } A: the test on the empty set and the tail call of A are
      jumps to each other. */
  function RingCode(): Program {
    [ICall(2), IJmp(6), IJmp(4), IFail, IJmp(2), IRet, IEnd]
  }

  /** Without the strict check a chain need not be finite: the text of `verifyrule` accepts a
      pattern for which the search for a final target goes round for ever. */
  lemma RingOfJumps(lo: bool)
    ensures Accepted(false, HiddenRecursion(False)) && WholeProgram(lo, HiddenRecursion(False)) == RingCode()
    ensures !Lands(RingCode(), 2) && !Buildable(lo, HiddenRecursion(False))
  {
    HiddenRecursionAccepted(False);
    RingProgram(lo);
    forall n: nat ensures JumpAt(RingCode(), JumpN(RingCode(), 0, 2, n)) { RingGoesOn(n); }
    if Buildable(lo, HiddenRecursion(False)) { ProgramLands(lo, HiddenRecursion(False)); }
  }

  // ---------- a pattern that is rejected and buildable ----------

  /** A grammar of one rule, whose code does not start with a jump or a call. */
  lemma OneRuleEnds(lo: bool, r: Tree, base: nat)
    requires var c := Gen(lo, [r], r, false, NoTest, FULL, Past(base, 2));
             c != [] && !c[0].IJmp? && !c[0].IOpenCall?
    ensures RulesEnd(lo, [r], base)
  {
    var rs, org := [r], Past(base, 2);
    var c := Gen(lo, rs, r, false, NoTest, FULL, org);
    var body, pos := GenRules(lo, rs, rs, org), RulePositions(lo, rs, rs, org);
    assert body[0] == c[0] && pos[0] == org;
    LinkCorrects(body, org, pos, 0);
    assert JumpN(Link(body, org, pos, 0), org, org, 0) == org;
    assert StopsAt(Link(body, org, pos, 0), org, org);
  }

  /** A <- !{ c } A is left recursive and never ends on the empty subject, but it can be compiled. */
  lemma HiddenRecursionBuilds(lo: bool, c: Byte)
    ensures !Accepted(true, HiddenRecursion(Char(c))) && Buildable(lo, HiddenRecursion(Char(c)))
  {
    var p := Char(c);
    var inner := Rules([p]);
    var r := Seq(Not(inner), Call(0));
    HiddenRecursionAccepted(p);
    forall base: nat ensures RulesEnd(lo, [p], base) {
      GenCases(lo, [p], p, false, NoTest, FULL, Past(base, 2));
      OneRuleEnds(lo, p, base);
    }
    assert GrammarsEnd(lo, p);
    assert GrammarsEnd(lo, inner);
    assert GrammarsEnd(lo, Not(inner)) && GrammarsEnd(lo, Call(0));
    forall base: nat ensures RulesEnd(lo, [r], base) {
      HiddenRecursionStarts(lo, c, r, Past(base, 2));
      OneRuleEnds(lo, r, base);
    }
    assert GrammarsEnd(lo, r);
  }

  lemma HiddenRecursionStarts(lo: bool, c: Byte, r: Tree, base: nat)
    requires r == Seq(Not(Rules([Char(c)])), Call(0))
    ensures var code := Gen(lo, [r], r, false, NoTest, FULL, base);
            code != [] && !code[0].IJmp? && !code[0].IOpenCall?
  {
    var g, inner := [r], Rules([Char(c)]);
    assert First([Char(c)], Char(c), FULL) == FirstInfo({c}, false);
    assert First(g, inner, FULL) == FirstInfo({c}, false);
    var p := inner.rules[0];
    assert HeadFailNode(inner.rules, p, MAX_RULES);
    assert HeadFailNode(g, inner, MAX_RULES) == HeadFail(inner.rules, p, MAX_RULES);
    GenCases(lo, g, r, false, NoTest, FULL, base);
    GenCases(lo, g, r.p1, false, NoTest, SeqFollow(g, r, FULL), base);
    assert TheElement({c}) in {c};
    assert TestInstr({c}, Past(Past(base, 1), 1)).ITestChar?;
  }

  lemma {:induction false} RingGoesOn(n: nat)
    ensures JumpN(RingCode(), 0, 2, n) == if n % 2 == 0 then 2 else 4
    decreases n
  {
    if n >= 2 {
      RingGoesOn(n - 2);
      assert JumpN(RingCode(), 0, 2, n) == JumpN(RingCode(), 0, 4, n - 1) == JumpN(RingCode(), 0, 2, n - 2);
    } else if n == 1 {
      assert JumpN(RingCode(), 0, 2, 1) == JumpN(RingCode(), 0, 4, 0);
    }
  }

  lemma RingRule(lo: bool, g: Grammar, body: Tree)
    requires body == HiddenRecursion(False).rules[0] && g == [body]
    ensures Gen(lo, g, body, false, NoTest, FULL, 2) == [IJmp(4), IFail, IOpenCall(0)]
  {
    var inner := body.p1.p;
    assert First(inner.rules, False, FULL) == FirstInfo({}, false);
    assert First(g, inner, FULL) == FirstInfo({}, false);
    assert HeadFail(inner.rules, False) && HeadFail(g, inner);
    GenCases(lo, g, body, false, NoTest, FULL, 2);
    GenCases(lo, g, body.p1, false, NoTest, SeqFollow(g, body, FULL), 2);
    GenCases(lo, g, body.p2, false, SeqGuard(g, body, NoTest), FULL, 4);
    assert TestCode(FirstInfo({}, false), 4) == [IJmp(4)];
  }

  lemma RingRules(lo: bool, g: Grammar, code: seq<Instr>)
    requires |g| == 1 && code == Gen(lo, g, g[0], false, NoTest, FULL, 2) + [IRet]
    ensures GenRules(lo, g, g, 2) == code && RulePositions(lo, g, g, 2) == [2]
  {
    var rest := g[1..];
    assert GenRules(lo, g, rest, Past(2, |code|)) == [];
  }

  lemma RingProgram(lo: bool)
    ensures WholeProgram(lo, HiddenRecursion(False)) == RingCode()
  {
    var t := HiddenRecursion(False);
    var code := [IJmp(4), IFail, IOpenCall(0), IRet];
    RingRule(lo, t.rules, t.rules[0]);
    RingRules(lo, t.rules, code);
    RingLinked(code);
    GenCases(lo, [], t, false, NoTest, FULL, 0);
    RingGrammar(lo, t, code);
  }

  lemma RingGrammar(lo: bool, t: Tree, code: seq<Instr>)
    requires t.Rules? && GenRules(lo, t.rules, t.rules, 2) == code && RulePositions(lo, t.rules, t.rules, 2) == [2]
    requires |code| == 4
    ensures GenGrammar(lo, t, 0) == [ICall(2), IJmp(6)] + Link(code, 2, [2], 0)
  {
  }

  lemma RingLinked(code: seq<Instr>)
    requires code == [IJmp(4), IFail, IOpenCall(0), IRet]
    ensures Link(code, 2, [2], 0) == [IJmp(4), IFail, IJmp(2), IRet]
  {
    assert RetAt(code, 2, JumpN(code, 2, 5, 0));
    var done := [IJmp(4), IFail, IJmp(2), IRet];
    assert LinkOne(code, 2, [2], 2) == done;
    assert Link(done, 2, [2], 3) == Link(done, 2, [2], 4) == done;
    assert Link(code, 2, [2], 0) == Link(code, 2, [2], 1) == Link(code, 2, [2], 2) == Link(done, 2, [2], 3);
  }
}
