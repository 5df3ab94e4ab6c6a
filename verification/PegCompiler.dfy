/**
 The code generator of nmap/lpeg.c, which appends instructions to the code of a pattern and
 fills in labels once it knows them.  Each method adds exactly the code that module PegCode
 specifies for its tree.
 */
module PegCompiler {
  import opened PegTree
  import opened PegMachine
  import opened PegCode
  import opened PegSimulation
  import opened PegLink
  import opened PegJumps

  /** No instruction. */
  const NOINST: int := -1

  /** The test at index `tt` of the code. */
  function GuardAt(code: seq<Instr>, tt: int): Guard {
    if 0 <= tt < |code| then GuardOf(code[tt]) else NoTest
  }

  /** The code after the label of the instruction at `i`, if there is one, is set. */
  function Patch(code: seq<Instr>, i: int, to: nat): (r: seq<Instr>)
    requires CanPatch(code, i)
    ensures |r| == |code|
  {
    if i >= 0 then code[i := code[i].(to := to)] else code
  }

  /** Setting the label of one instruction among others. */
  lemma PatchOne(a: seq<Instr>, ins: Instr, b: seq<Instr>, to: nat)
    requires HasLabel(ins)
    ensures Patch(a + [ins] + b, |a|, to) == a + [ins.(to := to)] + b
  {}

  /** Setting the label of a test, if there is one. */
  lemma PatchTest(a: seq<Instr>, first: FirstInfo, b: seq<Instr>, to: nat)
    ensures var i := if first.empty then NOINST else |a|;
            var code := a + TestCode(first, 0) + b;
            && i < |code| && (i >= 0 ==> HasLabel(code[i]))
            && Patch(code, i, to) == a + TestCode(first, to) + b
  {
    if !first.empty {
      var ins := TestInstr(first.cs, 0);
      PatchOne(a, ins, b, to);
      assert ins.(to := to) == TestInstr(first.cs, to);
    }
  }

  /** Setting the labels of an instruction and of the test in front of it. */
  lemma PatchBoth(a: seq<Instr>, first: FirstInfo, ins: Instr, b: seq<Instr>, to: nat)
    requires HasLabel(ins)
    ensures var code := a + TestCode(first, 0) + [ins] + b;
            var i := if first.empty then NOINST else |a|;
            var k := |a| + TestSize(first);
            && k < |code| && code[k] == ins
            && (i >= 0 ==> HasLabel(Patch(code, k, to)[i]))
            && Patch(Patch(code, k, to), i, to) == a + (TestCode(first, to) + [ins.(to := to)] + b)
  {
    var ins' := ins.(to := to);
    PatchOne(a + TestCode(first, 0), ins, b, to);
    FourPieces(a, TestCode(first, 0), [ins'], b);
    PatchTest(a, first, [ins'] + b, to);
    FourPieces(a, TestCode(first, to), [ins'], b);
  }

  lemma FourPieces(a: seq<Instr>, t: seq<Instr>, i: seq<Instr>, b: seq<Instr>)
    ensures a + t + i + b == a + t + (i + b) == a + (t + i + b)
  {}

  /** Setting the label of an instruction that stands between two pieces of code. */
  lemma PatchBetween(a: seq<Instr>, c1: seq<Instr>, ins: Instr, c2: seq<Instr>, to: nat)
    requires HasLabel(ins)
    ensures var code := a + (c1 + [ins]) + c2;
            var k := |a| + |c1|;
            k < |code| && code[k] == ins && Patch(code, k, to) == a + c1 + [ins.(to := to)] + c2
  {
    assert a + (c1 + [ins]) + c2 == (a + c1) + [ins] + c2;
    PatchOne(a + c1, ins, c2, to);
  }

  /** Code generation appends `piece` to the code. */
  ghost predicate Adds(before: seq<Instr>, piece: seq<Instr>, after: seq<Instr>) {
    after == before + piece
  }

  lemma SeqAdds(pre: seq<Instr>, c1: seq<Instr>, c2: seq<Instr>, code: seq<Instr>)
    requires Adds(pre + c1, c2, code)
    ensures Adds(pre, c1 + c2, code)
  {}

  /** The label can be set. */
  predicate CanPatch(code: seq<Instr>, i: int) {
    i < |code| && (i >= 0 ==> HasLabel(code[i]))
  }

  /** The patches of a choice with a test: the label of the test leads to `l1`, and that of the
      jump over the second alternative, if there is one, leads to `end`. */
  lemma AssembleTest(pre: seq<Instr>, head: FirstInfo, p2: Tree, c1: seq<Instr>, c2: seq<Instr>,
                     test: int, jmp: int, l1: nat, end: nat, s3: seq<Instr>)
    requires !head.empty && s3 == pre + TestCode(head, 0) + c1 + SkipCode(p2, 0)
    requires l1 == |s3| && end == l1 + |c2| && test == |pre|
    requires jmp == if p2.True? then NOINST else |pre| + 1 + |c1|
    ensures CanPatch(s3, test) && CanPatch(Patch(s3, test, l1) + c2, jmp)
    ensures Adds(pre, TestCode(head, l1) + c1 + SkipCode(p2, end) + c2, Patch(Patch(s3, test, l1) + c2, jmp, end))
  {
    var j0 := SkipCode(p2, 0);
    assert s3 == pre + TestCode(head, 0) + (c1 + j0);
    PatchTest(pre, head, c1 + j0, l1);
    var s4 := pre + TestCode(head, l1) + (c1 + j0);
    if p2.True? {
      assert s4 + c2 == pre + (TestCode(head, l1) + c1 + j0 + c2);
    } else {
      PatchBetween(pre + TestCode(head, l1), c1, IJmp(0), c2, end);
    }
  }

  /** The patches of a choice with a choice point: the labels of the choice and of the test
      lead to `l1`, and that of the commit leads to `end`. */
  lemma AssemblePush(pre: seq<Instr>, first: FirstInfo, c1: seq<Instr>, c2: seq<Instr>,
                     test: int, pchoice: int, pcommit: int, l1: nat, end: nat,
                     s3: seq<Instr>)
    requires s3 == pre + TestCode(first, 0) + [IChoice(0)] + c1 + [ICommit(0)]
    requires l1 == |s3| && end == l1 + |c2|
    requires test == (if first.empty then NOINST else |pre|)
    requires pchoice == |pre| + TestSize(first) && pcommit == l1 - 1
    ensures CanPatch(s3, pchoice) && CanPatch(Patch(s3, pchoice, l1), test)
    ensures var s5 := Patch(Patch(s3, pchoice, l1), test, l1) + c2;
            && CanPatch(s5, pcommit)
            && Adds(pre, TestCode(first, l1) + [IChoice(l1)] + c1 + [ICommit(end)] + c2, Patch(s5, pcommit, end))
  {
    Reassoc(pre + TestCode(first, 0), [IChoice(0)], c1, [ICommit(0)]);
    PatchBoth(pre, first, IChoice(0), c1 + [ICommit(0)], l1);
    var head := TestCode(first, l1) + [IChoice(l1)];
    assert pre + (head + (c1 + [ICommit(0)])) + c2 == (pre + head) + (c1 + [ICommit(0)]) + c2;
    PatchBetween(pre + head, c1, ICommit(0), c2, end);
    Reassoc(pre, head + c1, [ICommit(end)], c2);
    assert pre + (head + c1) == pre + head + c1;
  }

  /** The patches of a loop with a test. */
  lemma AssembleRound(pre: seq<Instr>, head: FirstInfo, c: seq<Instr>, test: int, jmp: int, l2: nat, s3: seq<Instr>)
    requires !head.empty && s3 == pre + TestCode(head, 0) + c + [IJmp(0)]
    requires l2 == |s3| && test == |pre| && jmp == l2 - 1
    ensures CanPatch(s3, test) && CanPatch(Patch(s3, test, l2), jmp)
    ensures Adds(pre, TestCode(head, l2) + c + [IJmp(|pre|)], Patch(Patch(s3, test, l2), jmp, |pre|))
  {
    assert s3 == pre + TestCode(head, 0) + (c + [IJmp(0)]);
    PatchTest(pre, head, c + [IJmp(0)], l2);
    var pre2 := pre + TestCode(head, l2) + c;
    assert pre + TestCode(head, l2) + (c + [IJmp(0)]) == pre2 + [IJmp(0)] + [];
    PatchOne(pre2, IJmp(0), [], test);
  }

  /** The patches of a loop with a choice point. */
  lemma AssembleLoop(pre: seq<Instr>, first: FirstInfo, opt: bool, c: seq<Instr>,
                     test: int, pchoice: int, commit: int, l1: nat, l2: nat, s3: seq<Instr>)
    requires l1 == |pre| + TestSize(first) + 1
    requires s3 == pre + TestCode(first, 0) + [if opt then IPartialCommit(l1) else IChoice(0)] + c + [IPartialCommit(0)]
    requires test == (if first.empty then NOINST else |pre|)
    requires pchoice == (if opt then NOINST else l1 - 1) && l2 == |s3| && commit == l2 - 1
    ensures CanPatch(s3, commit)
    ensures var s4 := Patch(s3, commit, l1);
            && CanPatch(s4, pchoice) && CanPatch(Patch(s4, pchoice, l2), test)
            && Adds(pre, TestCode(first,
                                  l2) + [if opt then IPartialCommit(l1) else IChoice(l2)] + c + [IPartialCommit(l1)],
                    Patch(Patch(s4, pchoice, l2), test, l2))
  {
    var enter := if opt then IPartialCommit(l1) else IChoice(0);
    var tail := c + [IPartialCommit(l1)];
    var s4 := pre + TestCode(first, 0) + [enter] + tail;
    AssembleCommit(pre + TestCode(first, 0) + [enter], c, l1);
    if opt {
      AssembleOpt(pre, first, enter, tail, l2);
    } else {
      PatchBoth(pre, first, enter, tail, l2);
    }
    var enter2 := if opt then enter else IChoice(l2);
    assert TestCode(first, l2) + [enter2] + tail == TestCode(first, l2) + [enter2] + c + [IPartialCommit(l1)];
  }

  lemma AssembleCommit(a: seq<Instr>, c: seq<Instr>, l1: nat)
    ensures var s3 := a + c + [IPartialCommit(0)];
            CanPatch(s3, |s3| - 1) && Patch(s3, |s3| - 1, l1) == a + (c + [IPartialCommit(l1)])
  {
    assert a + c + [IPartialCommit(0)] == a + (c + [IPartialCommit(0)]) + [];
    PatchBetween(a, c, IPartialCommit(0), [], l1);
    assert a + c + [IPartialCommit(l1)] + [] == a + (c + [IPartialCommit(l1)]);
  }

  lemma AssembleOpt(pre: seq<Instr>, first: FirstInfo, enter: Instr, tail: seq<Instr>, l2: nat)
    ensures var s4 := pre + TestCode(first, 0) + [enter] + tail;
            var test := if first.empty then NOINST else |pre|;
            CanPatch(s4, test) && Patch(s4, test, l2) == pre + (TestCode(first, l2) + [enter] + tail)
  {
    assert pre + TestCode(first, 0) + [enter] + tail == pre + TestCode(first, 0) + ([enter] + tail);
    PatchTest(pre, first, [enter] + tail, l2);
    assert pre + TestCode(first, l2) + ([enter] + tail) == pre + (TestCode(first, l2) + [enter] + tail);
  }

  /** The patches of a negative predicate with a choice point. */
  lemma AssembleNot(pre: seq<Instr>, first: FirstInfo, c: seq<Instr>, test: int, pchoice: int, l1: nat, s3: seq<Instr>)
    requires s3 == pre + TestCode(first, 0) + [IChoice(0)] + c + [IFailTwice]
    requires test == (if first.empty then NOINST else |pre|)
    requires pchoice == |pre| + TestSize(first) && l1 == |s3|
    ensures CanPatch(s3, pchoice) && CanPatch(Patch(s3, pchoice, l1), test)
    ensures Adds(pre, TestCode(first, l1) + [IChoice(l1)] + c + [IFailTwice], Patch(Patch(s3, pchoice, l1), test, l1))
  {
    Reassoc(pre + TestCode(first, 0), [IChoice(0)], c, [IFailTwice]);
    PatchBoth(pre, first, IChoice(0), c + [IFailTwice], l1);
    Reassoc(TestCode(first, l1), [IChoice(l1)], c, [IFailTwice]);
  }

  /** The patches of a positive predicate with a choice point. */
  lemma AssembleAnd(pre: seq<Instr>, c: seq<Instr>, pchoice: int, pcommit: int, l1: nat, end: nat, s3: seq<Instr>)
    requires s3 == pre + [IChoice(0)] + c + [IBackCommit(0)]
    requires pchoice == |pre| && l1 == |s3| && pcommit == l1 - 1 && end == l1 + 1
    ensures CanPatch(s3, pchoice) && CanPatch(Patch(s3, pchoice, l1) + [IFail], pcommit)
    ensures Adds(pre, [IChoice(l1)] + c + [IBackCommit(end), IFail],
                 Patch(Patch(s3, pchoice, l1) + [IFail], pcommit, end))
  {
    assert s3 == pre + [IChoice(0)] + (c + [IBackCommit(0)]);
    PatchOne(pre, IChoice(0), c + [IBackCommit(0)], l1);
    PatchBetween(pre + [IChoice(l1)], c, IBackCommit(0), [IFail], end);
  }

  lemma Reassoc(a: seq<Instr>, b: seq<Instr>, c: seq<Instr>, d: seq<Instr>)
    ensures a + b + c + d == a + (b + c + d) && a + b + c + d == a + b + (c + d)
  {}

  // ---------- correcting calls ----------

  /** The last rule, like every other, ends in a return. */
  lemma {:induction false} RulesEndInRet(lo: bool, g: Grammar, todo: seq<Tree>, base: nat)
    requires todo != []
    ensures var body := GenRules(lo, g, todo, base); body != [] && body[|body| - 1] == IRet
    decreases todo
  {
    var c := Gen(lo, g, todo[0], false, NoTest, FULL, base) + [IRet];
    if |todo| > 1 {
      RulesEndInRet(lo, g, todo[1..], Past(base, |c|));
    } else {
      assert GenRules(lo, g, todo[1..], Past(base, |c|)) == [];
    }
  }

  /** `done` and `pos` are the code and the positions of the first `k` rules, and the code of
      the next rule belongs at `here`. */
  ghost predicate RulesDone(lo: bool, g: Grammar, k: nat, base: nat, here: nat, done: seq<Instr>, pos: seq<nat>)
    requires k <= |g|
  {
    && GenRules(lo, g, g, base) == done + GenRules(lo, g, g[k..], here)
    && RulePositions(lo, g, g, base) == pos + RulePositions(lo, g, g[k..], here)
  }

  lemma RulesNext(lo: bool, g: Grammar, k: nat, base: nat, here: nat, done: seq<Instr>, pos: seq<nat>, c: seq<Instr>)
    requires k < |g| && RulesDone(lo, g, k, base, here, done, pos)
    requires c == Gen(lo, g, g[k], false, NoTest, FULL, here) + [IRet]
    ensures RulesDone(lo, g, k + 1, base, Past(here, |c|), done + c, pos + [here])
  {
    var rest, last := GenRules(lo, g, g[k + 1..], Past(here, |c|)), RulePositions(lo, g, g[k + 1..], Past(here, |c|));
    assert g[k..][0] == g[k] && g[k..][1..] == g[k + 1..];
    assert done + (c + rest) == done + c + rest;
    assert pos + ([here] + last) == pos + [here] + last;
  }

  predicate JumpIn(code: seq<Instr>, org: nat, pc: nat) {
    org <= pc < org + |code| && code[pc - org].IJmp?
  }

  /** The chain of jumps from `pc` ends, and it does not leave the code. */
  ghost predicate LandsIn(code: seq<Instr>, org: nat, pc: nat) {
    exists n: nat :: !JumpIn(code, org, JumpN(code, org, pc, n))
  }

  ghost predicate JumpsInside(code: seq<Instr>, org: nat) {
    forall q: nat | q < |code| && code[q].IJmp? :: org <= code[q].to < org + |code|
  }

  lemma {:induction false} LandingUnique(code: seq<Instr>, org: nat, pc: nat, n: nat, m: nat)
    requires !JumpIn(code, org, JumpN(code, org, pc, n)) && !JumpIn(code, org, JumpN(code, org, pc, m))
    ensures JumpN(code, org, pc, n) == JumpN(code, org, pc, m)
    decreases n
  {
    if JumpIn(code, org, pc) { LandingUnique(code, org, code[pc - org].to, n - 1, m - 1); }
  }

  /** While calls are being corrected, chains are no longer than in the corrected code. */
  lemma {:induction false} PartialLands(pre: seq<Instr>, code: seq<Instr>, r: seq<Instr>, pc: nat, n: nat)
    requires Refines(code, r) && !JumpAt(pre + r, JumpN(pre + r, 0, pc, n))
    ensures LandsIn(code, |pre|, pc)
    decreases n
  {
    var org := |pre|;
    if JumpIn(code, org, pc) {
      assert (pre + r)[pc] == code[pc - org];
      var to := code[pc - org].to;
      PartialLands(pre, code, r, to, n - 1);
      var k: nat :| !JumpIn(code, org, JumpN(code, org, to, k));
      assert JumpN(code, org, pc, k + 1) == JumpN(code, org, to, k);
    } else {
      assert JumpN(code, org, pc, 0) == pc;
    }
  }

  /** Partially corrected code has finite chains, because the corrected code does. */
  lemma PartialSafe(pre: seq<Instr>, code: seq<Instr>, r: seq<Instr>)
    requires Refines(code, r) && JumpsOk(pre + r, |pre|, |pre|, |pre + r|)
    ensures JumpsInside(code, |pre|) && forall pc: nat | pc >= |pre| :: LandsIn(code, |pre|, pc)
  {
    var org, prog := |pre|, pre + r;
    forall q: nat | q < |code| && code[q].IJmp? ensures org <= code[q].to < org + |code| {
      assert prog[org + q] == code[q] && JumpOk(prog, org, org + q);
    }
    forall pc: nat | pc >= org ensures LandsIn(code, org, pc) {
      AllLand(prog, org, pc);
      var n: nat :| !JumpAt(prog, JumpN(prog, 0, pc, n));
      PartialLands(pre, code, r, pc, n);
    }
  }

  /** The corrected code of a buildable grammar, appended to any code, has finite chains. */
  lemma GrammarSafe(lo: bool, t: Tree, pre: seq<Instr>)
    requires t.Rules? && WellFormed([], t) && GrammarsEnd(lo, t)
    ensures var org := Past(|pre|, 2);
            var prog := pre + GenGrammar(lo, t, |pre|);
            && |prog| >= org
            && JumpsOk(prog, org, org, |prog|)
  {
    var base := |pre|;
    var org := Past(base, 2);
    var code := GenGrammar(lo, t, base);
    var prog := pre + code;
    var x := Ctx(prog, [], [], [], lo);
    GenCallsGrammar(lo, [], t, base);
    forall k: nat ensures LinkedAt(x, base, code, k) {
      assert CallBelow(code, 0, k);
      if k < |code| { assert prog[base + k] == code[k]; }
    }
    GrammarLands(x, org, t, base);
    GrammarBody(x, t, base);
    var y := Inner(x, t, base);
    forall r | r in t.rules ensures GrammarsEnd(lo, r) {
      var n: nat :| n < |t.rules| && t.rules[n] == r;
    }
    CodeJumpsRules(y, org, t.rules, org);
  }

  /** The code of the rules of a grammar is ready for `correctcalls`. */
  lemma GrammarLinks(lo: bool, t: Tree, pre: seq<Instr>)
    requires t.Rules? && WellFormed([], t) && GrammarsEnd(lo, t)
    ensures var org := Past(|pre|, 2);
            var body := GenRules(lo, t.rules, t.rules, org);
            var pos := RulePositions(lo, t.rules, t.rules, org);
            var linked := pre + [ICall(org), IJmp(Past(org, |body|))] + Link(body, org, pos, 0);
            && body != [] && body[|body| - 1] == IRet && CallsBelow(body, |pos|)
            && linked == pre + GenGrammar(lo, t, |pre|)
            && JumpsOk(linked, org, org, |linked|)
  {
    var org := Past(|pre|, 2);
    RulesEndInRet(lo, t.rules, t.rules, org);
    GenCallsRules(lo, t.rules, t.rules, org);
    GrammarSafe(lo, t, pre);
    var body := GenRules(lo, t.rules, t.rules, org);
    var head, r := [ICall(org), IJmp(Past(org, |body|))], Link(body, org, RulePositions(lo, t.rules, t.rules, org), 0);
    SameText(pre, head, r, GenGrammar(lo, t, |pre|), org);
  }

  lemma SameText(pre: seq<Instr>, head: seq<Instr>, r: seq<Instr>, code: seq<Instr>, org: nat)
    requires code == head + r && JumpsOk(pre + code, org, org, |pre + code|)
    ensures pre + head + r == pre + code && JumpsOk(pre + head + r, org, org, |pre + head + r|)
  {
    assert pre + head + r == pre + (head + r);
  }

  lemma UpdateTail(pre: seq<Instr>, body: seq<Instr>, k: nat, ins: Instr)
    requires k < |body|
    ensures (pre + body)[|pre| + k := ins] == pre + body[k := ins]
  {}

  lemma LinkOneKeeps(code: seq<Instr>, org: nat, pos: seq<nat>, k: nat)
    requires k < |code| && CallsBelow(code, |pos|) && code[|code| - 1].IRet?
    ensures var r := LinkOne(code, org, pos, k); CallsBelow(r, |pos|) && r[|r| - 1].IRet?
  {
    var r := LinkOne(code, org, pos, k);
    forall q: nat ensures CallBelow(r, |pos|, q) {
      assert CallBelow(code, |pos|, q);
    }
  }

  // ---------- the compiler ----------

  /** What compilation relies on: the pattern was built by the library, and the chains of jumps in the
      code of its grammars end. */
  ghost predicate Compilable(lo: bool, g: Grammar, t: Tree) {
    WellFormed(g, t) && GrammarsEnd(lo, t)
  }

  lemma CompilableParts(lo: bool, g: Grammar, t: Tree)
    requires Compilable(lo, g, t)
    ensures t.Seq? || t.Choice? ==> Compilable(lo, g, t.p1) && Compilable(lo, g, t.p2)
    ensures t.Rep? || t.Not? || t.And? || t.Behind? || t.Capture? ==> Compilable(lo, g, t.p)
    ensures t.Rules? ==> |t.rules| > 0 && Compilable(lo, [], t)
    ensures t.Rules? ==> forall n: nat | n < |t.rules| :: Compilable(lo, t.rules, t.rules[n])
  {
    if t.Rules? {
      forall n: nat | n < |t.rules| ensures Compilable(lo, t.rules, t.rules[n]) {
        assert t.rules[n] in t.rules;
      }
    }
  }

  class CompileState {
    var code: seq<Instr>

    /** Whether a loop body inherits `opt`, as the text of `coderep` has it. */
    const lo: bool

    constructor (lo: bool)
      ensures code == [] && this.lo == lo
    {
      code := [];
      this.lo := lo;
    }

    method AddInstruction(ins: Instr) returns (i: int)
      modifies this
      ensures i == |old(code)| && code == old(code) + [ins]
    {
      i := |code|;
      code := code + [ins];
    }

    method JumpToThere(i: int, to: nat)
      requires CanPatch(code, i)
      modifies this
      ensures code == Patch(old(code), i, to)
    {
      if i >= 0 { code := code[i := code[i].(to := to)]; }
    }

    method JumpToHere(i: int)
      requires CanPatch(code, i)
      modifies this
      ensures code == Patch(old(code), i, |old(code)|)
    {
      JumpToThere(i, |code|);
    }

    method CodeChar(c: Byte, tt: int)
      requires tt < |code|
      modifies this
      ensures code == old(code) + [CharInstr(c, GuardAt(old(code), tt))]
    {
      if tt >= 0 && code[tt].ITestChar? && code[tt].c == c {
        var _ := AddInstruction(IAny);
      } else {
        var _ := AddInstruction(IChar(c));
      }
    }

    method CodeCharset(cs: Charset, tt: int)
      requires tt < |code|
      modifies this
      ensures code == old(code) + [CharsetInstr(cs, GuardAt(old(code), tt))]
    {
      match Classify(cs) {
        case OneChar(c) => CodeChar(c, tt);
        case OtherSet =>
          if tt >= 0 && code[tt].ITestSet? && code[tt].cs == cs {
            var _ := AddInstruction(IAny);
          } else {
            var _ := AddInstruction(ISet(cs));
          }
        case EmptySet => var _ := AddInstruction(IFail);
        case AllChars => var _ := AddInstruction(IAny);
      }
    }

    method CodeTestSet(cs: Charset, e: bool) returns (test: int)
      modifies this
      ensures code == old(code) + TestCode(FirstInfo(cs, e), 0)
      ensures test == if e then NOINST else |old(code)|
    {
      if e { return NOINST; }
      match Classify(cs) {
        case EmptySet => test := AddInstruction(IJmp(0));
        case AllChars => test := AddInstruction(ITestAny(0));
        case OneChar(c) => test := AddInstruction(ITestChar(c, 0));
        case OtherSet => test := AddInstruction(ITestSet(cs, 0));
      }
    }

    /** `codegen` */
    method CodeGen(g: Grammar, t: Tree, opt: bool, tt: int, fl: Charset)
      requires tt < |code| && Compilable(lo, g, t)
      modifies this
      ensures Adds(old(code), Gen(lo, g, t, opt, GuardAt(old(code), tt), fl, |old(code)|), code)
      decreases t, 2
    {
      GenCases(lo, g, t, opt, GuardAt(code, tt), fl, |code|);
      CompilableParts(lo, g, t);
      match t {
        case Char(c) => CodeChar(c, tt);
        case Any => var _ := AddInstruction(IAny);
        case Set(cs) => CodeCharset(cs, tt);
        case True =>
        case False => var _ := AddInstruction(IFail);
        case Choice(_, _) => CodeChoice(g, t, opt, fl);
        case Rep(_) => CodeRep(g, t, opt, fl);
        case Behind(_, _) => CodeBehind(g, t);
        case Not(_) => CodeNot(g, t);
        case And(_) => CodeAnd(g, t, tt);
        case Capture(_, _, _) => CodeCapture(g, t, tt, fl);
        case Rules(_) => CodeGrammar(t);
        case Call(n) => var _ := AddInstruction(IOpenCall(n));
        case Seq(_, _) => CodeSeq(g, t, opt, tt, fl);
      }
    }

    /** `codeseq1`, and the second child */
    method CodeSeq(g: Grammar, t: Tree, opt: bool, tt: int, fl: Charset)
      requires t.Seq? && tt < |code| && Compilable(lo, g, t.p1) && Compilable(lo, g, t.p2)
      modifies this
      ensures Adds(old(code), GenSeq(lo, g, t, opt, GuardAt(old(code), tt), fl, |old(code)|), code)
      decreases t, 1
    {
      ghost var pre, guard := code, GuardAt(code, tt);
      var follow := if NeedFollow(t.p1) then First(g, t.p2, fl).cs else FULL;
      CodeGen(g, t.p1, false, tt, follow);
      var tt2 := if FixedLen(g, t.p1) != 0 then NOINST else tt;
      ghost var c1 := Gen(lo, g, t.p1, false, guard, SeqFollow(g, t, fl), |pre|);
      assert |code| == Past(|pre|, |c1|);
      assert GuardAt(code, tt2) == SeqGuard(g, t, guard);
      CodeGen(g, t.p2, opt, tt2, fl);
      ghost var c2 := Gen(lo, g, t.p2, opt, SeqGuard(g, t, guard), fl, Past(|pre|, |c1|));
      SeqAdds(pre, c1, c2, code);
    }

    method CodeBehind(g: Grammar, t: Tree)
      requires t.Behind? && Compilable(lo, g, t.p)
      modifies this
      ensures Adds(old(code), GenBehind(lo, g, t, |old(code)|), code)
      decreases t, 1
    {
      ghost var pre := code;
      if t.n > 0 { var _ := AddInstruction(IBehind(t.n)); }
      CodeGen(g, t.p, false, NOINST, FULL);
      assert |pre| + 1 == Past(|pre|, 1);
    }

    method CodeCapture(g: Grammar, t: Tree, tt: int, fl: Charset)
      requires t.Capture? && tt < |code| && Compilable(lo, g, t.p)
      modifies this
      ensures Adds(old(code), GenCapture(lo, g, t, GuardAt(old(code), tt), fl, |old(code)|), code)
      decreases t, 1
    {
      ghost var pre, guard := code, GuardAt(code, tt);
      var len := FixedLen(g, t.p);
      if 0 <= len <= MAX_OFF && !HasCaptures(t.p) {
        CodeGen(g, t.p, false, tt, fl);
        var _ := AddInstruction(IFullCapture(t.kind, t.key, len));
      } else {
        var _ := AddInstruction(IOpenCapture(t.kind, t.key));
        assert GuardAt(code, tt) == guard && |code| == Past(|pre|, 1);
        CodeGen(g, t.p, false, tt, fl);
        var _ := AddInstruction(ICloseCapture);
        ghost var c := Gen(lo, g, t.p, false, guard, fl, Past(|pre|, 1));
        assert code == pre + ([IOpenCapture(t.kind, t.key)] + c + [ICloseCapture]);
      }
    }

    method CodeAnd(g: Grammar, t: Tree, tt: int)
      requires t.And? && tt < |code| && Compilable(lo, g, t.p)
      modifies this
      ensures Adds(old(code), GenAnd(lo, g, t, GuardAt(old(code), tt), |old(code)|), code)
      decreases t, 1
    {
      var n := FixedLen(g, t.p);
      if 0 <= n <= MAX_BEHIND && !HasCaptures(t.p) {
        CodeGen(g, t.p, false, tt, FULL);
        if n > 0 { var _ := AddInstruction(IBehind(n)); }
      } else {
        CodeAndPush(g, t, tt);
      }
    }

    method CodeAndPush(g: Grammar, t: Tree, tt: int)
      requires t.And? && tt < |code| && Compilable(lo, g, t.p)
      modifies this
      ensures Adds(old(code), GenAndPush(lo, g, t, GuardAt(old(code), tt), |old(code)|), code)
      decreases t, 0
    {
      ghost var pre, guard := code, GuardAt(code, tt);
      ghost var c := Gen(lo, g, t.p, false, guard, FULL, Past(|pre|, 1));
      ghost var l1 := Past(Past(Past(|pre|, 1), |c|), 1);
      ghost var end := Past(l1, 1);
      assert GenAndPush(lo, g, t, guard, |pre|) == [IChoice(l1)] + c + [IBackCommit(end), IFail];
      var pchoice := AddInstruction(IChoice(0));
      assert GuardAt(code, tt) == guard && |code| == Past(|pre|, 1);
      CodeGen(g, t.p, false, tt, FULL);
      assert code == pre + [IChoice(0)] + c;
      var pcommit := AddInstruction(IBackCommit(0));
      ghost var s3 := code;
      assert |s3| == l1;
      AssembleAnd(pre, c, pchoice, pcommit, l1, end, s3);
      JumpToHere(pchoice);
      var _ := AddInstruction(IFail);
      assert |code| == end;
      JumpToHere(pcommit);
    }

    method CodeNot(g: Grammar, t: Tree)
      requires t.Not? && Compilable(lo, g, t.p)
      modifies this
      ensures Adds(old(code), GenNot(lo, g, t, |old(code)|), code)
      decreases t, 1
    {
      ghost var pre := code;
      var first := First(g, t.p, FULL);
      var test := CodeTestSet(first.cs, first.empty);
      if HeadFail(g, t.p) {
        var _ := AddInstruction(IFail);
        PatchTest(pre, first, [IFail], |code|);
        assert |code| == Past(Past(|pre|, TestSize(first)), 1);
        ghost var piece := TestCode(first, |code|) + [IFail];
        assert GenNot(lo, g, t, |pre|) == piece;
        JumpToHere(test);
        assert code == pre + piece;
      } else {
        CodeNotPush(g, t, first, test, pre);
      }
    }

    method CodeNotPush(g: Grammar, t: Tree, first: FirstInfo, test: int, ghost pre: seq<Instr>)
      requires t.Not? && Compilable(lo, g, t.p) && first == First(g, t.p, FULL)
      requires code == pre + TestCode(first, 0) && test == if first.empty then NOINST else |pre|
      modifies this
      ensures Adds(pre, GenNotPush(lo, g, t, |pre|), code)
      decreases t, 0
    {
      ghost var b := Past(Past(|pre|, TestSize(first)), 1);
      ghost var c := Gen(lo, g, t.p, false, NoTest, FULL, b);
      ghost var l1 := Past(Past(b, |c|), 1);
      assert GenNotPush(lo, g, t, |pre|) == TestCode(first, l1) + [IChoice(l1)] + c + [IFailTwice];
      var pchoice := AddInstruction(IChoice(0));
      assert |code| == b;
      CodeGen(g, t.p, false, NOINST, FULL);
      var _ := AddInstruction(IFailTwice);
      ghost var s3 := code;
      assert |s3| == l1;
      AssembleNot(pre, first, c, test, pchoice, l1, s3);
      JumpToHere(pchoice);
      JumpToHere(test);
    }

    method CodeChoice(g: Grammar, t: Tree, opt: bool, fl: Charset)
      requires t.Choice? && Compilable(lo, g, t.p1) && Compilable(lo, g, t.p2)
      modifies this
      ensures Adds(old(code), GenChoice(lo, g, t, opt, fl, |old(code)|), code)
      decreases t, 1
    {
      var first := First(g, t.p1, FULL);
      if HeadFail(g, t.p1) || (!first.empty && first.cs !! First(g, t.p2, fl).cs) {
        CodeChoiceTest(g, t, first, opt, fl);
      } else if opt && t.p2.True? {
        ghost var pre := code;
        CodePartialCommit();
        CodeGen(g, t.p1, true, NOINST, FULL);
        ghost var c1 := Gen(lo, g, t.p1, true, NoTest, FULL, Past(|pre|, 1));
        assert code == pre + ([IPartialCommit(Past(|pre|, 1))] + c1);
        assert GenChoiceReuse(lo, g, t, |pre|) == [IPartialCommit(Past(|pre|, 1))] + c1;
      } else {
        CodeChoicePush(g, t, first, opt, fl);
      }
    }

    method CodeChoiceTest(g: Grammar, t: Tree, first: FirstInfo, opt: bool, fl: Charset)
      requires t.Choice? && Compilable(lo, g, t.p1) && Compilable(lo, g, t.p2) && first == First(g, t.p1, FULL)
      modifies this
      ensures Adds(old(code), GenChoiceTest(lo, g, t, opt, fl, |old(code)|), code)
      decreases t, 0
    {
      ghost var pre, head := code, first.(empty := false);
      ghost var b1 := Past(|pre|, 1);
      ghost var c1 := Gen(lo, g, t.p1, false, TestGuard(head), fl, b1);
      ghost var l1 := Past(Past(b1, |c1|), SkipSize(t.p2));
      ghost var c2 := Gen(lo, g, t.p2, opt, NoTest, fl, l1);
      ghost var end := Past(l1, |c2|);
      assert GenChoiceTest(lo, g, t, opt, fl, |pre|) == TestCode(head, l1) + c1 + SkipCode(t.p2, end) + c2;
      var test := CodeTestSet(first.cs, false);
      var jmp := NOINST;
      assert GuardAt(code, test) == TestGuard(head);
      assert |code| == b1;
      CodeGen(g, t.p1, false, test, fl);
      assert code == pre + TestCode(head, 0) + c1;
      if !t.p2.True? { jmp := AddInstruction(IJmp(0)); }
      ghost var s3 := code;
      assert s3 == pre + TestCode(head, 0) + c1 + SkipCode(t.p2, 0) && |s3| == l1;
      AssembleTest(pre, head, t.p2, c1, c2, test, jmp, l1, end, s3);
      JumpToHere(test);
      ghost var s4 := code;
      assert |s4| == l1;
      CodeGen(g, t.p2, opt, NOINST, fl);
      assert code == s4 + c2 && |code| == end;
      JumpToHere(jmp);
    }

    method CodeChoicePush(g: Grammar, t: Tree, first: FirstInfo, opt: bool, fl: Charset)
      requires t.Choice? && Compilable(lo, g, t.p1) && Compilable(lo, g, t.p2) && first == First(g, t.p1, FULL)
      modifies this
      ensures Adds(old(code), GenChoicePush(lo, g, t, opt, fl, |old(code)|), code)
      decreases t, 0
    {
      ghost var pre := code;
      ghost var b1 := Past(Past(|pre|, TestSize(first)), 1);
      ghost var c1 := Gen(lo, g, t.p1, t.p2.True?, TestGuard(first), FULL, b1);
      ghost var l1 := Past(Past(b1, |c1|), 1);
      ghost var c2 := Gen(lo, g, t.p2, opt, NoTest, fl, l1);
      ghost var end := Past(l1, |c2|);
      assert GenChoicePush(lo, g, t, opt, fl, |pre|) == TestCode(first, l1) + [IChoice(l1)] + c1 + [ICommit(end)] + c2;
      var test := CodeTestSet(first.cs, first.empty);
      var pchoice := AddInstruction(IChoice(0));
      assert GuardAt(code, test) == TestGuard(first);
      assert |code| == b1;
      CodeGen(g, t.p1, t.p2.True?, test, FULL);
      assert code == pre + TestCode(first, 0) + [IChoice(0)] + c1;
      var pcommit := AddInstruction(ICommit(0));
      ghost var s3 := code;
      assert |s3| == l1;
      AssemblePush(pre, first, c1, c2, test, pchoice, pcommit, l1, end, s3);
      JumpToHere(pchoice);
      JumpToHere(test);
      ghost var s4 := code;
      assert |s4| == l1;
      CodeGen(g, t.p2, opt, NOINST, fl);
      assert code == s4 + c2;
      assert |code| == end && pcommit == l1 - 1;
      JumpToHere(pcommit);
    }

    method CodeRep(g: Grammar, t: Tree, opt: bool, fl: Charset)
      requires t.Rep? && Compilable(lo, g, t.p)
      modifies this
      ensures Adds(old(code), GenRep(lo, g, t, opt, fl, |old(code)|), code)
      decreases t, 1
    {
      if IsCharset(t.p) {
        var _ := AddInstruction(ISpan(ToCharset(t.p)));
      } else {
        var first := First(g, t.p, FULL);
        if HeadFail(g, t.p) || (!first.empty && first.cs !! fl) {
          CodeRepTest(g, t, first, opt);
        } else {
          CodeRepPush(g, t, first, opt);
        }
      }
    }

    method CodeRepTest(g: Grammar, t: Tree, first: FirstInfo, opt: bool)
      requires t.Rep? && Compilable(lo, g, t.p) && first == First(g, t.p, FULL)
      modifies this
      ensures Adds(old(code), GenRepTest(lo, g, t, opt, |old(code)|), code)
      decreases t, 0
    {
      ghost var pre, head := code, first.(empty := false);
      ghost var c := Gen(lo, g, t.p, lo && opt, TestGuard(head), FULL, Past(|pre|, 1));
      ghost var l2 := Past(Past(Past(|pre|, 1), |c|), 1);
      assert GenRepTest(lo, g, t, opt, |pre|) == TestCode(head, l2) + c + [IJmp(|pre|)];
      var test := CodeTestSet(first.cs, false);
      assert GuardAt(code, test) == TestGuard(head);
      assert |code| == Past(|pre|, 1);
      CodeGen(g, t.p, lo && opt, test, FULL);
      ghost var s2 := code;
      assert s2 == pre + TestCode(head, 0) + c;
      var jmp := AddInstruction(IJmp(0));
      ghost var s3 := code;
      assert |s3| == l2;
      AssembleRound(pre, head, c, test, jmp, l2, s3);
      JumpToHere(test);
      JumpToThere(jmp, test);
    }

    method CodeRepPush(g: Grammar, t: Tree, first: FirstInfo, opt: bool)
      requires t.Rep? && Compilable(lo, g, t.p) && first == First(g, t.p, FULL)
      modifies this
      ensures Adds(old(code), GenRepPush(lo, g, t, opt, |old(code)|), code)
      decreases t, 0
    {
      ghost var pre := code;
      ghost var l1 := Past(Past(|pre|, TestSize(first)), 1);
      ghost var c := Gen(lo, g, t.p, false, NoTest, FULL, l1);
      ghost var l2 := Past(Past(l1, |c|), 1);
      assert GenRepPush(lo, g, t, opt, |pre|)
          == TestCode(first, l2) + [if opt then IPartialCommit(l1) else IChoice(l2)] + c + [IPartialCommit(l1)];
      var test := CodeTestSet(first.cs, first.empty);
      var pchoice := NOINST;
      if opt {
        CodePartialCommit();
      } else {
        pchoice := AddInstruction(IChoice(0));
      }
      var l := |code|;
      assert l == l1;
      CodeGen(g, t.p, false, NOINST, FULL);
      var commit := AddInstruction(IPartialCommit(0));
      ghost var s3 := code;
      assert |s3| == l2;
      AssembleLoop(pre, first, opt, c, test, pchoice, commit, l1, l2, s3);
      JumpToThere(commit, l);
      JumpToHere(pchoice);
      JumpToHere(test);
    }

    /** A partial commit that goes on to the next instruction */
    method CodePartialCommit()
      modifies this
      ensures code == old(code) + [IPartialCommit(|old(code)| + 1)]
    {
      ghost var pre := code;
      var i := AddInstruction(IPartialCommit(0));
      PatchOne(pre, IPartialCommit(0), [], |pre| + 1);
      JumpToHere(i);
    }

    /** `finaltarget` in the code `body`, which starts after `pre` */
    method FinalTargetFrom(i: nat, ghost pre: seq<Instr>, ghost body: seq<Instr>) returns (ft: nat)
      requires code == pre + body && |pre| <= i < |code|
      requires JumpsInside(body, |pre|) && LandsIn(body, |pre|, i)
      ensures ft < |code| && (code[ft].IRet? <==> JumpsToRet(body, |pre|, i))
    {
      ghost var org := |pre|;
      ghost var left: nat :| !JumpIn(body, org, JumpN(body, org, i, left));
      ghost var n := left;
      ft := i;
      while code[ft].IJmp?
        invariant org <= ft < |code|
        invariant !JumpIn(body, org, JumpN(body, org, ft, left))
        invariant JumpN(body, org, ft, left) == JumpN(body, org, i, n)
        decreases left
      {
        assert body[ft - org] == code[ft];
        ft := code[ft].to;
        left := left - 1;
      }
      assert body[ft - org] == code[ft];
      assert JumpN(body, org, ft, left) == ft;
      if JumpsToRet(body, org, i) {
        var m: nat :| RetAt(body, org, JumpN(body, org, i, m));
        LandingUnique(body, org, i, n, m);
      }
      if code[ft].IRet? { assert RetAt(body, org, JumpN(body, org, i, n)); }
    }

    /** `correctcalls` on the code `body`, which starts after `pre` and goes to the end */
    method CorrectCalls(positions: seq<nat>, from: nat, ghost pre: seq<Instr>, ghost body: seq<Instr>)
      requires code == pre + body && |pre| == from
      requires body != [] && body[|body| - 1].IRet? && CallsBelow(body, |positions|)
      requires var linked := pre + Link(body, from, positions, 0); JumpsOk(linked, from, from, |linked|)
      modifies this
      ensures code == pre + Link(body, from, positions, 0)
    {
      ghost var r, cur := Link(body, from, positions, 0), body;
      var i := from;
      while i < |code|
        invariant |cur| == |body| && code == pre + cur && from <= i <= |code|
        invariant cur[|cur| - 1].IRet? && CallsBelow(cur, |positions|)
        invariant Link(cur, from, positions, i - from) == r
      {
        ghost var k: nat := i - from;
        assert cur[k] == code[i] && CallBelow(cur, |positions|, k);
        LinkOneKeeps(cur, from, positions, k);
        if code[i].IOpenCall? {
          CorrectOne(positions, i, pre, cur, r);
        }
        cur := LinkOne(cur, from, positions, k);
        i := i + 1;
      }
    }

    /** The body of the loop of `correctcalls` */
    method CorrectOne(positions: seq<nat>, i: nat, ghost pre: seq<Instr>, ghost body: seq<Instr>, ghost r: seq<Instr>)
      requires code == pre + body && |pre| <= i < |code| - 1
      requires code[i].IOpenCall? && code[i].rule < |positions|
      requires r == Link(body, |pre|, positions, i - |pre|) && JumpsOk(pre + r, |pre|, |pre|, |pre + r|)
      modifies this
      ensures code == pre + LinkOne(body, |pre|, positions, i - |pre|)
    {
      ghost var k: nat := i - |pre|;
      assert body[k] == code[i];
      LinkCorrects(body, |pre|, positions, k);
      PartialSafe(pre, body, r);
      var rule := positions[code[i].rule];
      var ft := FinalTargetFrom(i + 1, pre, body);
      if code[ft].IRet? {
        code := code[i := IJmp(rule)];
      } else {
        code := code[i := ICall(rule)];
      }
      UpdateTail(pre, body, k, code[i]);
    }

    method CodeGrammar(t: Tree)
      requires t.Rules? && Compilable(lo, [], t)
      modifies this
      ensures Adds(old(code), GenGrammar(lo, t, |old(code)|), code)
      decreases t, 1
    {
      ghost var pre, rs := code, t.rules;
      var firstcall := AddInstruction(ICall(0));
      var jumptoend := AddInstruction(IJmp(0));
      var start := |code|;
      PatchOne(pre, ICall(0), [IJmp(0)], start);
      JumpToHere(firstcall);
      var positions := CodeRules(t);
      ghost var org := Past(|pre|, 2);
      ghost var body := GenRules(lo, rs, rs, org);
      PatchOne(pre + [ICall(org)], IJmp(0), body, Past(org, |body|));
      JumpToHere(jumptoend);
      ghost var head := [ICall(org), IJmp(Past(org, |body|))];
      assert code == pre + head + body;
      GrammarLinks(lo, t, pre);
      CorrectCalls(positions, start, pre + head, body);
    }

    /** The loop of `codegrammar` over the rules */
    method CodeRules(t: Tree) returns (positions: seq<nat>)
      requires t.Rules? && Compilable(lo, [], t)
      modifies this
      ensures Adds(old(code), GenRules(lo, t.rules, t.rules, |old(code)|), code)
      ensures positions == RulePositions(lo, t.rules, t.rules, |old(code)|)
      decreases t, 0
    {
      ghost var rs, base, pre, done := t.rules, |code|, code, [];
      CompilableParts(lo, [], t);
      positions := [];
      var k := 0;
      assert rs[0..] == rs;
      while k < |t.rules|
        invariant k <= |t.rules| && Adds(pre, done, code)
        invariant RulesDone(lo, rs, k, base, |code|, done, positions)
      {
        ghost var here, before := |code|, positions;
        positions := positions + [|code|];
        CodeGen(t.rules, t.rules[k], false, NOINST, FULL);
        var _ := AddInstruction(IRet);
        ghost var c := Gen(lo, rs, rs[k], false, NoTest, FULL, here) + [IRet];
        assert Adds(pre + done, c, code) && |code| == Past(here, |c|);
        SeqAdds(pre, done, c, code);
        RulesNext(lo, rs, k, base, here, done, before, c);
        done := done + c;
        k := k + 1;
      }
    }
  }
}
