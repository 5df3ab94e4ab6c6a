/**
 The contract of `codegen`: for every tree, running its code agrees with the PEG meaning,
 under every follow set, protecting test and enclosing choice.
 */
module PegSimulation {
  import opened PegTree
  import opened PegSemantics
  import opened PegMachine
  import opened PegCode

  /** A program on a subject, the grammar whose rules start at the addresses `pos`, and
      the treatment of `opt` that the program was generated with. */
  datatype Ctx = Ctx(prog: Program, s: Subject, g: Grammar, pos: seq<nat>, lo: bool)

  // ---------- code in place ----------

  /** Address `a` of the program holds `ins`; an open call has become a call or a tail jump. */
  ghost predicate Linked1(x: Ctx, a: nat, ins: Instr) {
    && a < |x.prog|
    && if ins.IOpenCall?
       then ins.rule < |x.pos| && CallSite(x, a, x.pos[ins.rule])
       else x.prog[a] == ins
  }

  ghost predicate CallSite(x: Ctx, a: nat, to: nat)
    requires a < |x.prog|
  {
    x.prog[a] == ICall(to) || (x.prog[a] == IJmp(to) && JumpsToRet(x.prog, 0, a + 1))
  }

  ghost predicate LinkedAt(x: Ctx, base: nat, code: seq<Instr>, k: nat) {
    k < |code| ==> Linked1(x, base + k, code[k])
  }

  /** The program holds `code` at address `base`. */
  ghost predicate Linked(x: Ctx, base: nat, code: seq<Instr>) {
    forall k: nat :: LinkedAt(x, base, code, k)
  }

  lemma LinkedSplit(x: Ctx, base: nat, c1: seq<Instr>, c2: seq<Instr>)
    requires Linked(x, base, c1 + c2)
    ensures Linked(x, base, c1) && Linked(x, Past(base, |c1|), c2)
  {
    forall k: nat ensures LinkedAt(x, base, c1, k) {
      assert LinkedAt(x, base, c1 + c2, k);
    }
    var b2 := Past(base, |c1|);
    forall k: nat ensures LinkedAt(x, b2, c2, k) {
      assert LinkedAt(x, base, c1 + c2, |c1| + k);
    }
  }

  lemma LinkedOne(x: Ctx, base: nat, ins: Instr)
    requires Linked(x, base, [ins]) && !ins.IOpenCall?
    ensures base < |x.prog| && x.prog[base] == ins
  {
    assert LinkedAt(x, base, [ins], 0);
  }

  lemma LinkedHead(x: Ctx, base: nat, ins: Instr, rest: seq<Instr>)
    requires Linked(x, base, [ins] + rest) && !ins.IOpenCall?
    ensures base < |x.prog| && x.prog[base] == ins && Linked(x, Past(base, 1), rest)
  {
    LinkedSplit(x, base, [ins], rest);
    LinkedOne(x, base, ins);
  }

  lemma LinkedLast(x: Ctx, base: nat, code: seq<Instr>, ins: Instr)
    requires Linked(x, base, code + [ins]) && !ins.IOpenCall?
    ensures Linked(x, base, code)
    ensures Past(base, |code|) < |x.prog| && x.prog[Past(base, |code|)] == ins
  {
    LinkedSplit(x, base, code, [ins]);
    LinkedOne(x, Past(base, |code|), ins);
  }

  /** Rule `n` is coded at its position and ends in a return. */
  ghost predicate RuleAt(x: Ctx, n: nat)
    requires n < |x.g| && n < |x.pos|
  {
    Linked(x, x.pos[n], Gen(x.lo, x.g, x.g[n], false, NoTest, FULL, x.pos[n]) + [IRet])
  }

  ghost predicate RulesAt(x: Ctx) {
    && |x.pos| == |x.g|
    && forall n: nat {:trigger RuleAt(x, n)} | n < |x.g| :: RuleAt(x, n) && WellFormed(x.g, x.g[n])
  }

  // ---------- stacks ----------

  /** Every choice was pushed with no more captures than there are now. */
  predicate StackOk(stk: Stack, n: nat) {
    match stk
    case Base => true
    case Ret(_, rest) => StackOk(rest, n)
    case Back(_, _, level, rest) => level <= n && StackOk(rest, level)
  }

  lemma StackOkMono(stk: Stack, n: nat, m: nat)
    requires StackOk(stk, n) && n <= m
    ensures StackOk(stk, m)
  {}

  /** A failure forgets the captures made since the choice was pushed. */
  lemma {:induction false} BacktrackPrefix(stk: Stack, caps: seq<Cap>, more: seq<Cap>)
    requires StackOk(stk, |caps|)
    ensures Backtrack(stk, caps + more) == Backtrack(stk, caps)
  {
    match stk
    case Base =>
    case Ret(_, rest) => BacktrackPrefix(rest, caps, more);
    case Back(_, _, level, _) => assert (caps + more)[..level] == caps[..level];
  }

  // ---------- the contract ----------

  predicate GuardHolds(tt: Guard, s: Subject, i: nat) {
    match tt
    case NoTest => true
    case CharTest(c) => Test(s, i, {c})
    case SetTest(cs) => Test(s, i, cs)
  }

  /**
   From `st`, code that ends at `end` agrees with the outcome `r`.
   - Failure backtracks; success reaches `end` with the captures added.
   - Code with a follow set may fail where the pattern succeeds before a character
     outside that set.
   - Code under a choice (`opt`) commits that choice, either by running into the commit at
     `end` or by failing into the choice it has partially committed.
   */
  ghost predicate Agrees(x: Ctx, opt: bool, fl: Charset, end: nat, st: State, r: Outcome)
    requires st.St?
  {
    match r
    case Diverge => true
    case Fail => Conv(x.prog, x.s, st, Backtrack(st.stk, st.caps))
    case Ok(j, l) =>
      if opt then st.stk.Back? && Conv(x.prog, x.s, st, St(st.stk.pc, j, st.stk.rest, st.caps + l))
      else
        || Conv(x.prog, x.s, st, St(end, j, st.stk, st.caps + l))
        || (j < |x.s| && x.s[j] !in fl && Conv(x.prog, x.s, st, Backtrack(st.stk, st.caps)))
  }

  /** Under `opt`, the code ends at the commit of the choice on top of the stack. */
  predicate UnderChoice(x: Ctx, fl: Charset, end: nat, st: State)
    requires st.St?
  {
    fl == FULL && st.stk.Back? && end < |x.prog| && x.prog[end] == ICommit(st.stk.pc)
  }

  /** A state in which the code of `t` may start. */
  ghost predicate Ready(x: Ctx, t: Tree, tt: Guard, st: State) {
    && st.St? && st.pos <= |x.s|
    && WellFormed(x.g, t) && RulesAt(x) && !x.lo
    && GuardHolds(tt, x.s, st.pos)
    && StackOk(st.stk, |st.caps|)
  }

  /** The code stands at the program counter and, under `opt`, ends at the commit. */
  ghost predicate InPlace(x: Ctx, opt: bool, fl: Charset, st: State, code: seq<Instr>)
    requires st.St?
  {
    Linked(x, st.pc, code) && (opt ==> UnderChoice(x, fl, Past(st.pc, |code|), st))
  }

  function Meaning(x: Ctx, t: Tree, i: nat, f: nat): Outcome
    requires i <= |x.s|
  {
    Run(Compiled, x.g, t, x.s, i, f)
  }
}
