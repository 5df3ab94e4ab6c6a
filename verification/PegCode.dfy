/**
 The code that LPeg generates for a tree, as a function: what `codegen` and its helpers of
 nmap/lpeg.c append at address `base`.  Module PegCompiler proves that the in-place code
 generator builds exactly this code.

 `opt` says that the code runs under a choice that jumps to its end, `tt` is a test that
 dominates the code, `fl` is the follow set.  With `lo` the body of a loop with a test is
 generated under the caller's `opt`, as the text at nmap/lpeg.c:1656 does; without it the
 body gets `opt` = 0, which is what the meaning of `opt` asks for.
 */
module PegCode {
  import opened PegTree
  import opened PegSemantics
  import opened PegMachine

  /** What the code generator asks about the instruction `tt`. */
  datatype Guard = NoTest | CharTest(c: Byte) | SetTest(cs: Charset)

  datatype CharsetKind = EmptySet | OneChar(c: Byte) | AllChars | OtherSet

  lemma SameElement(cs: Charset, a: Byte, b: Byte)
    requires |cs| == 1 && a in cs && b in cs
    ensures a == b
  {
    assert |cs - {a}| == 0;
    assert b !in cs - {a};
  }

  /** The only element of a set. */
  function TheElement(cs: Charset): (c: Byte)
    requires |cs| == 1
    ensures cs == {c}
  {
    assert cs != {};
    assert forall a, b | a in cs && b in cs :: a == b by {
      forall a, b | a in cs && b in cs ensures a == b { SameElement(cs, a, b); }
    }
    var c :| c in cs; c
  }

  /** The kinds of sets that `charsettype` tells apart. */
  function Classify(cs: Charset): CharsetKind {
    if |cs| == 0 then EmptySet
    else if |cs| == 1 then OneChar(TheElement(cs))
    else if cs == FULL then AllChars
    else OtherSet
  }

  /** `codetestset` for a set that is to be tested. */
  function TestInstr(cs: Charset, to: nat): Instr {
    match Classify(cs)
    case EmptySet => IJmp(to)
    case AllChars => ITestAny(to)
    case OneChar(c) => ITestChar(c, to)
    case OtherSet => ITestSet(cs, to)
  }

  /** `codetestset`: no test at all when the pattern may accept the empty string. */
  function TestCode(first: FirstInfo, to: nat): seq<Instr> {
    if first.empty then [] else [TestInstr(first.cs, to)]
  }

  function TestSize(first: FirstInfo): nat {
    if first.empty then 0 else 1
  }

  function GuardOf(ins: Instr): Guard {
    match ins
    case ITestChar(c, _) => CharTest(c)
    case ITestSet(cs, _) => SetTest(cs)
    case _ => NoTest
  }

  /** The guard that `codetestset` leaves for the code it protects. */
  function TestGuard(first: FirstInfo): Guard {
    if first.empty then NoTest else GuardOf(TestInstr(first.cs, 0))
  }

  function CharInstr(c: Byte, tt: Guard): Instr {
    if tt == CharTest(c) then IAny else IChar(c)
  }

  function CharsetInstr(cs: Charset, tt: Guard): Instr {
    match Classify(cs)
    case OneChar(c) => CharInstr(c, tt)
    case OtherSet => if tt == SetTest(cs) then IAny else ISet(cs)
    case EmptySet => IFail
    case AllChars => IAny
  }

  /** `codechoice` and `coderep` can do with a test instead of a choice point. */
  predicate TestSuffices(g: Grammar, p: Tree, follow: Charset) {
    HeadFail(g, p) || (!First(g, p, FULL).empty && First(g, p, FULL).cs !! follow)
  }

  /** The address `n` instructions after `a`. */
  function Past(a: nat, n: nat): nat {
    a + n
  }

  ghost function Gen(lo: bool, g: Grammar, t: Tree, opt: bool, tt: Guard, fl: Charset, base: nat): seq<Instr>
    decreases t, 2
  {
    GenNode(lo, g, t, opt, tt, fl, base)
  }

  ghost function GenNode(lo: bool, g: Grammar, t: Tree, opt: bool, tt: Guard, fl: Charset, base: nat): seq<Instr>
    decreases t, 1
  {
    match t
    case Char(c) => [CharInstr(c, tt)]
    case Any => [IAny]
    case Set(cs) => [CharsetInstr(cs, tt)]
    case True => []
    case False => [IFail]
    case Choice(_, _) => GenChoice(lo, g, t, opt, fl, base)
    case Rep(_) => GenRep(lo, g, t, opt, fl, base)
    case Behind(_, _) => GenBehind(lo, g, t, base)
    case Not(_) => GenNot(lo, g, t, base)
    case And(_) => GenAnd(lo, g, t, tt, base)
    case Capture(_, _, _) => GenCapture(lo, g, t, tt, fl, base)
    case Rules(_) => GenGrammar(lo, t, base)
    case Call(n) => [IOpenCall(n)]
    case Seq(_, _) => GenSeq(lo, g, t, opt, tt, fl, base)
  }

  ghost function GenSeq(lo: bool, g: Grammar, t: Tree, opt: bool, tt: Guard, fl: Charset, base: nat): seq<Instr>
    requires t.Seq?
    decreases t, 0
  {
    var c1 := Gen(lo, g, t.p1, false, tt, SeqFollow(g, t, fl), base);
    c1 + Gen(lo, g, t.p2, opt, SeqGuard(g, t, tt), fl, Past(base, |c1|))
  }

  /** A step back by the length of the body, then the body. */
  ghost function GenBehind(lo: bool, g: Grammar, t: Tree, base: nat): seq<Instr>
    requires t.Behind?
    decreases t, 0
  {
    if t.n > 0 then [IBehind(t.n)] + Gen(lo, g, t.p, false, NoTest, FULL, Past(base, 1))
    else Gen(lo, g, t.p, false, NoTest, FULL, base)
  }

  /** What `Gen` does on each kind of tree. */
  lemma GenCases(lo: bool, g: Grammar, t: Tree, opt: bool, tt: Guard, fl: Charset, base: nat)
    ensures t.Char? ==> Gen(lo, g, t, opt, tt, fl, base) == [CharInstr(t.c, tt)]
    ensures t.Any? ==> Gen(lo, g, t, opt, tt, fl, base) == [IAny]
    ensures t.Set? ==> Gen(lo, g, t, opt, tt, fl, base) == [CharsetInstr(t.cs, tt)]
    ensures t.True? ==> Gen(lo, g, t, opt, tt, fl, base) == []
    ensures t.False? ==> Gen(lo, g, t, opt, tt, fl, base) == [IFail]
    ensures t.Seq? ==> Gen(lo, g, t, opt, tt, fl, base) == GenSeq(lo, g, t, opt, tt, fl, base)
    ensures t.Choice? ==> Gen(lo, g, t, opt, tt, fl, base) == GenChoice(lo, g, t, opt, fl, base)
    ensures t.Rep? ==> Gen(lo, g, t, opt, tt, fl, base) == GenRep(lo, g, t, opt, fl, base)
    ensures t.Not? ==> Gen(lo, g, t, opt, tt, fl, base) == GenNot(lo, g, t, base)
    ensures t.And? ==> Gen(lo, g, t, opt, tt, fl, base) == GenAnd(lo, g, t, tt, base)
    ensures t.Behind? ==> Gen(lo, g, t, opt, tt, fl, base) == GenBehind(lo, g, t, base)
    ensures t.Capture? ==> Gen(lo, g, t, opt, tt, fl, base) == GenCapture(lo, g, t, tt, fl, base)
    ensures t.Rules? ==> Gen(lo, g, t, opt, tt, fl, base) == GenGrammar(lo, t, base)
    ensures t.Call? ==> Gen(lo, g, t, opt, tt, fl, base) == [IOpenCall(t.rule)]
  {}

  /** The follow set of the first part of a sequence. */
  function SeqFollow(g: Grammar, t: Tree, fl: Charset): Charset
    requires t.Seq?
  {
    if NeedFollow(t.p1) then First(g, t.p2, fl).cs else FULL
  }

  /** The test still protects the second part when the first one consumes nothing. */
  function SeqGuard(g: Grammar, t: Tree, tt: Guard): Guard
    requires t.Seq?
  {
    if FixedLen(g, t.p1) != 0 then NoTest else tt
  }

  ghost function GenChoice(lo: bool, g: Grammar, t: Tree, opt: bool, fl: Charset, base: nat): seq<Instr>
    requires t.Choice?
    decreases t, 0, 1
  {
    if TestSuffices(g, t.p1, First(g, t.p2, fl).cs) then GenChoiceTest(lo, g, t, opt, fl, base)
    else if opt && t.p2.True? then GenChoiceReuse(lo, g, t, base)
    else GenChoicePush(lo, g, t, opt, fl, base)
  }

  /** No entry is pushed: a next character outside the first set of the first alternative sends
      the machine to the second one, and a jump after the first skips the second. */
  ghost function GenChoiceTest(lo: bool, g: Grammar, t: Tree, opt: bool, fl: Charset, base: nat): seq<Instr>
    requires t.Choice?
    decreases t, 0, 0
  {
    var head := First(g, t.p1, FULL).(empty := false);
    var b1 := Past(base, 1);
    var c1 := Gen(lo, g, t.p1, false, TestGuard(head), fl, b1);
    var l1 := Past(Past(b1, |c1|), SkipSize(t.p2));
    var c2 := Gen(lo, g, t.p2, opt, NoTest, fl, l1);
    TestCode(head, l1) + c1 + SkipCode(t.p2, Past(l1, |c2|)) + c2
  }

  /** The jump over the second alternative, which an empty one does not need. */
  function SkipCode(p2: Tree, to: nat): seq<Instr> {
    if p2.True? then [] else [IJmp(to)]
  }

  function SkipSize(p2: Tree): nat {
    if p2.True? then 0 else 1
  }

  /** The entry of the choice around it is moved up and serves this choice as well. */
  ghost function GenChoiceReuse(lo: bool, g: Grammar, t: Tree, base: nat): seq<Instr>
    requires t.Choice?
    decreases t, 0, 0
  {
    [IPartialCommit(Past(base, 1))] + Gen(lo, g, t.p1, true, NoTest, FULL, Past(base, 1))
  }

  /** An entry protects the first alternative and resumes at the second one; the test in front saves
      pushing it where the first alternative is bound to fail. */
  ghost function GenChoicePush(lo: bool, g: Grammar, t: Tree, opt: bool, fl: Charset, base: nat): seq<Instr>
    requires t.Choice?
    decreases t, 0, 0
  {
    var first := First(g, t.p1, FULL);
    var b1 := Past(Past(base, TestSize(first)), 1);
    var c1 := Gen(lo, g, t.p1, t.p2.True?, TestGuard(first), FULL, b1);
    var l1 := Past(Past(b1, |c1|), 1);
    var c2 := Gen(lo, g, t.p2, opt, NoTest, fl, l1);
    TestCode(first, l1) + [IChoice(l1)] + c1 + [ICommit(Past(l1, |c2|))] + c2
  }

  ghost function GenRep(lo: bool, g: Grammar, t: Tree, opt: bool, fl: Charset, base: nat): seq<Instr>
    requires t.Rep?
    decreases t, 0, 1
  {
    if IsCharset(t.p) then [ISpan(ToCharset(t.p))]
    else if TestSuffices(g, t.p, fl) then GenRepTest(lo, g, t, opt, base)
    else GenRepPush(lo, g, t, opt, base)
  }

  /** The test decides whether there is another turn, so nothing is pushed; the body is followed by
      a jump back to the test. */
  ghost function GenRepTest(lo: bool, g: Grammar, t: Tree, opt: bool, base: nat): seq<Instr>
    requires t.Rep?
    decreases t, 0, 0
  {
    var head := First(g, t.p, FULL).(empty := false);
    var c := Gen(lo, g, t.p, lo && opt, TestGuard(head), FULL, Past(base, 1));
    TestCode(head, Past(Past(Past(base, 1), |c|), 1)) + c + [IJmp(base)]
  }

  /** One entry, pushed before the first turn or taken over from the choice around it under `opt`,
      serves all turns: each turn that succeeds moves it up to where the next one starts. */
  ghost function GenRepPush(lo: bool, g: Grammar, t: Tree, opt: bool, base: nat): seq<Instr>
    requires t.Rep?
    decreases t, 0, 0
  {
    var first := First(g, t.p, FULL);
    var l1 := Past(Past(base, TestSize(first)), 1);
    var c := Gen(lo, g, t.p, false, NoTest, FULL, l1);
    var l2 := Past(Past(l1, |c|), 1);
    TestCode(first, l2) + [if opt then IPartialCommit(l1) else IChoice(l2)] + c + [IPartialCommit(l1)]
  }

  ghost function GenNot(lo: bool, g: Grammar, t: Tree, base: nat): seq<Instr>
    requires t.Not?
    decreases t, 0, 1
  {
    if HeadFail(g, t.p) then
      // passing the test is failing; missing it leads past the end
      var first := First(g, t.p, FULL);
      TestCode(first, Past(Past(base, TestSize(first)), 1)) + [IFail]
    else
      GenNotPush(lo, g, t, base)
  }

  /** The entry resumes after the predicate when the body fails; when it succeeds, the entry is thrown
      away by failing twice. */
  ghost function GenNotPush(lo: bool, g: Grammar, t: Tree, base: nat): seq<Instr>
    requires t.Not?
    decreases t, 0, 0
  {
    var first := First(g, t.p, FULL);
    var b := Past(Past(base, TestSize(first)), 1);
    var c := Gen(lo, g, t.p, false, NoTest, FULL, b);
    var l1 := Past(Past(b, |c|), 1);
    TestCode(first, l1) + [IChoice(l1)] + c + [IFailTwice]
  }

  function BackCode(n: int): seq<Instr> {
    if n > 0 then [IBehind(n)] else []
  }

  ghost function GenAnd(lo: bool, g: Grammar, t: Tree, tt: Guard, base: nat): seq<Instr>
    requires t.And?
    decreases t, 0, 1
  {
    if ShortAnd(g, t.p) then
      // a step back undoes a match of known length
      Gen(lo, g, t.p, false, tt, FULL, base) + BackCode(FixedLen(g, t.p))
    else
      GenAndPush(lo, g, t, tt, base)
  }

  /** A body that succeeds restores the state of the entry and skips the failure that the entry
      resumes at. */
  ghost function GenAndPush(lo: bool, g: Grammar, t: Tree, tt: Guard, base: nat): seq<Instr>
    requires t.And?
    decreases t, 0, 0
  {
    var c := Gen(lo, g, t.p, false, tt, FULL, Past(base, 1));
    var l1 := Past(Past(Past(base, 1), |c|), 1);
    [IChoice(l1)] + c + [IBackCommit(Past(l1, 1)), IFail]
  }

  ghost function GenCapture(lo: bool, g: Grammar, t: Tree, tt: Guard, fl: Charset, base: nat): seq<Instr>
    requires t.Capture?
    decreases t, 0
  {
    if ShortCapture(g, t.p) then
      Gen(lo, g, t.p, false, tt, fl, base) + [IFullCapture(t.kind, t.key, FixedLen(g, t.p))]
    else
      [IOpenCapture(t.kind, t.key)] + Gen(lo, g, t.p, false, tt, fl, Past(base, 1)) + [ICloseCapture]
  }

  // ---------- grammars ----------

  /** A call of the initial rule and a jump behind the grammar, then the rules in order. */
  ghost function GenGrammar(lo: bool, t: Tree, base: nat): seq<Instr>
    requires t.Rules?
    decreases t, 0
  {
    var org := Past(base, 2);
    var body := GenRules(lo, t.rules, t.rules, org);
    var pos := RulePositions(lo, t.rules, t.rules, org);
    [ICall(org), IJmp(Past(org, |body|))] + Link(body, org, pos, 0)
  }

  /** The code of the rules `todo` of the grammar `g`, each followed by a return. */
  ghost function GenRules(lo: bool, g: Grammar, todo: seq<Tree>, base: nat): seq<Instr>
    decreases todo, 0
  {
    if todo == [] then []
    else
      var c := Gen(lo, g, todo[0], false, NoTest, FULL, base) + [IRet];
      c + GenRules(lo, g, todo[1..], Past(base, |c|))
  }

  ghost function RulePositions(lo: bool, g: Grammar, todo: seq<Tree>, base: nat): (pos: seq<nat>)
    ensures |pos| == |todo|
    decreases todo, 0
  {
    if todo == [] then []
    else
      var c := Gen(lo, g, todo[0], false, NoTest, FULL, base) + [IRet];
      [base] + RulePositions(lo, g, todo[1..], Past(base, |c|))
  }

  /** Follow at most `n` jumps from `pc` in the piece of code `code` placed at `org`. */
  function JumpN(code: seq<Instr>, org: nat, pc: nat, n: nat): nat
    decreases n
  {
    if n > 0 && org <= pc < org + |code| && code[pc - org].IJmp?
    then JumpN(code, org, code[pc - org].to, n - 1) else pc
  }

  /** A sequence of jumps leads from `pc` to a return. */
  ghost predicate JumpsToRet(code: seq<Instr>, org: nat, pc: nat) {
    exists n: nat :: RetAt(code, org, JumpN(code, org, pc, n))
  }

  predicate RetAt(code: seq<Instr>, org: nat, pc: nat) {
    org <= pc < org + |code| && code[pc - org].IRet?
  }

  /** `correctcalls` from index `k` on: open calls become calls, or jumps in tail position. */
  ghost function Link(code: seq<Instr>, org: nat, pos: seq<nat>, k: nat): (r: seq<Instr>)
    requires k <= |code|
    ensures |r| == |code|
    decreases |code| - k
  {
    if k == |code| then code
    else Link(LinkOne(code, org, pos, k), org, pos, k + 1)
  }

  ghost function LinkOne(code: seq<Instr>, org: nat, pos: seq<nat>, k: nat): (r: seq<Instr>)
    requires k < |code|
    ensures |r| == |code|
  {
    if code[k].IOpenCall? && code[k].rule < |pos| then
      var to := pos[code[k].rule];
      code[k := if JumpsToRet(code, org, org + k + 1) then IJmp(to) else ICall(to)]
    else code
  }

  /** The program for a complete pattern, before jumps are optimised. */
  ghost function WholeProgram(lo: bool, t: Tree): Program {
    Gen(lo, [], t, false, NoTest, FULL, 0) + [IEnd]
  }
}
