/**
 The matching machine of LPeg (function `match` of nmap/lpeg.c).  Instructions sit at
 abstract indices and carry absolute targets.  The bottom entry of the stack, which sends
 a failure to the give-up instruction, is `Base`; an assertion that would fail in the
 source leads to `Stuck`.
 */
module PegMachine {
  import opened PegTree
  import opened PegSemantics

  datatype Instr =
    | IAny
    | IChar(c: Byte)
    | ISet(cs: Charset)
    | ITestAny(to: nat)
    | ITestChar(c: Byte, to: nat)
    | ITestSet(cs: Charset, to: nat)
    | ISpan(cs: Charset)
    | IBehind(n: nat)
    | IRet
    | IEnd
    | IChoice(to: nat)
    | IJmp(to: nat)
    | ICall(to: nat)
    | IOpenCall(rule: nat)
    | ICommit(to: nat)
    | IPartialCommit(to: nat)
    | IBackCommit(to: nat)
    | IFailTwice
    | IFail
    | IFullCapture(kind: nat, key: nat, off: nat)
    | IOpenCapture(kind: nat, key: nat)
    | ICloseCapture

  type Program = seq<Instr>

  /** Pending choices (`Back`) and calls (`Ret`), the most recent one outermost. */
  datatype Stack =
    | Base
    | Back(pc: nat, pos: nat, level: nat, rest: Stack)
    | Ret(pc: nat, rest: Stack)

  datatype State =
    | St(pc: nat, pos: nat, stk: Stack, caps: seq<Cap>)
    | Matched(end: nat, list: seq<Cap>)
    | NoMatch
    | Stuck

  /** The state in which `match` starts. */
  function Start(i: nat): State {
    St(0, i, Base, [])
  }

  /** The label `fail`: drop pending calls and resume at the most recent choice. */
  function Backtrack(stk: Stack, caps: seq<Cap>): State {
    match stk
    case Base => NoMatch
    case Ret(_, rest) => Backtrack(rest, caps)
    case Back(pc, pos, level, rest) => if level <= |caps| then St(pc, pos, rest, caps[..level]) else Stuck
  }

  /** The position that a span over `cs` stops at. */
  function Span(s: Subject, i: nat, cs: Charset): (j: nat)
    requires i <= |s|
    ensures i <= j <= |s|
    decreases |s| - i
  {
    if i < |s| && s[i] in cs then Span(s, i + 1, cs) else i
  }

  /** The capture list after a close instruction at `pos`. */
  function CloseCaps(caps: seq<Cap>, pos: nat): seq<Cap>
    requires |caps| > 0
  {
    var last := caps[|caps| - 1];
    if last.siz == 0 && last.pos <= pos && pos - last.pos < UCHAR_MAX
    then caps[..|caps| - 1] + [last.(siz := pos - last.pos + 1)]
    else caps + [Cap(pos, 0, CLOSE, 1)]
  }

  function Test(s: Subject, pos: nat, cs: Charset): bool {
    pos < |s| && s[pos] in cs
  }

  /** One round of the loop in `match`. */
  function Step(prog: Program, s: Subject, st: State): State {
    if !st.St? then st
    else if st.pc >= |prog| || st.pos > |s| then Stuck
    else Execute(prog[st.pc], s, st)
  }

  function Execute(ins: Instr, s: Subject, st: State): State
    requires st.St? && st.pos <= |s|
  {
    var next := st.(pc := st.pc + 1);
    match ins
    case IEnd => if st.stk.Base? then Matched(st.pos, st.caps) else Stuck
    case IRet => if st.stk.Ret? then st.(pc := st.stk.pc, stk := st.stk.rest) else Stuck
    case IAny => Consume(s, st, FULL)
    case IChar(c) => Consume(s, st, {c})
    case ISet(cs) => Consume(s, st, cs)
    case ITestAny(to) => if Test(s, st.pos, FULL) then next else st.(pc := to)
    case ITestChar(c, to) => if Test(s, st.pos, {c}) then next else st.(pc := to)
    case ITestSet(cs, to) => if Test(s, st.pos, cs) then next else st.(pc := to)
    case IBehind(n) => if n > st.pos then Backtrack(st.stk, st.caps) else next.(pos := st.pos - n)
    case ISpan(cs) => next.(pos := Span(s, st.pos, cs))
    case IJmp(to) => st.(pc := to)
    case IChoice(to) => next.(stk := Back(to, st.pos, |st.caps|, st.stk))
    case ICall(to) => st.(pc := to, stk := Ret(st.pc + 1, st.stk))
    case IOpenCall(_) => Stuck
    case ICommit(to) => if st.stk.Back? then st.(pc := to, stk := st.stk.rest) else Stuck
    case IPartialCommit(to) =>
      if st.stk.Back?
      then st.(pc := to, stk := Back(st.stk.pc, st.pos, |st.caps|, st.stk.rest)) else Stuck
    case IBackCommit(to) =>
      if st.stk.Back? && st.stk.level <= |st.caps|
      then St(to, st.stk.pos, st.stk.rest, st.caps[..st.stk.level]) else Stuck
    case IFailTwice => if st.stk.Base? then Stuck else Backtrack(st.stk.rest, st.caps)
    case IFail => Backtrack(st.stk, st.caps)
    case IFullCapture(kind, key, off) =>
      if off > st.pos then Stuck else next.(caps := st.caps + [Cap(st.pos - off, key, kind, off + 1)])
    case IOpenCapture(kind, key) => next.(caps := st.caps + [Cap(st.pos, key, kind, 0)])
    case ICloseCapture => if st.caps == [] then Stuck else next.(caps := CloseCaps(st.caps, st.pos))
  }

  function Consume(s: Subject, st: State, cs: Charset): State
    requires st.St?
  {
    if Test(s, st.pos, cs) then st.(pc := st.pc + 1, pos := st.pos + 1)
    else Backtrack(st.stk, st.caps)
  }

  function StepN(prog: Program, s: Subject, st: State, n: nat): State
    decreases n
  {
    if n == 0 then st else StepN(prog, s, Step(prog, s, st), n - 1)
  }

  // ---------- two states with a common future ----------

  /** Both states reach one and the same state; as the machine is deterministic, they
      have the same result. */
  ghost predicate Conv(prog: Program, s: Subject, a: State, b: State) {
    exists n: nat, m: nat :: Meet(prog, s, a, b, n, m)
  }

  predicate Meet(prog: Program, s: Subject, a: State, b: State, n: nat, m: nat) {
    StepN(prog, s, a, n) == StepN(prog, s, b, m)
  }

  lemma {:induction false} StepNAdd(prog: Program, s: Subject, st: State, n: nat, m: nat)
    ensures StepN(prog, s, StepN(prog, s, st, n), m) == StepN(prog, s, st, n + m)
    decreases n
  {
    if n > 0 { StepNAdd(prog, s, Step(prog, s, st), n - 1, m); }
  }

  lemma ConvRefl(prog: Program, s: Subject, a: State)
    ensures Conv(prog, s, a, a)
  {
    assert Meet(prog, s, a, a, 0, 0);
  }

  lemma ConvSym(prog: Program, s: Subject, a: State, b: State)
    requires Conv(prog, s, a, b)
    ensures Conv(prog, s, b, a)
  {
    var n: nat, m: nat :| Meet(prog, s, a, b, n, m);
    assert Meet(prog, s, b, a, m, n);
  }

  lemma ConvTrans(prog: Program, s: Subject, a: State, b: State, c: State)
    requires Conv(prog, s, a, b) && Conv(prog, s, b, c)
    ensures Conv(prog, s, a, c)
  {
    var n: nat, m: nat :| Meet(prog, s, a, b, n, m);
    var k: nat, l: nat :| Meet(prog, s, b, c, k, l);
    if m <= k {
      StepNAdd(prog, s, b, m, k - m);
      StepNAdd(prog, s, a, n, k - m);
      assert Meet(prog, s, a, c, n + (k - m), l);
    } else {
      StepNAdd(prog, s, b, k, m - k);
      StepNAdd(prog, s, c, l, m - k);
      assert Meet(prog, s, a, c, n, l + (m - k));
    }
  }

  /** A step leads to a state with the same future. */
  lemma ConvStep(prog: Program, s: Subject, a: State, b: State)
    requires Conv(prog, s, Step(prog, s, a), b)
    ensures Conv(prog, s, a, b)
  {
    var n: nat, m: nat :| Meet(prog, s, Step(prog, s, a), b, n, m);
    assert Meet(prog, s, a, b, n + 1, m);
  }

  // ---------- results ----------

  /** Running the machine from `st` ends in the final state `r`. */
  ghost predicate Halts(prog: Program, s: Subject, st: State, r: State) {
    !r.St? && exists n: nat :: StepN(prog, s, st, n) == r
  }

  lemma {:induction false} StepNFinal(prog: Program, s: Subject, r: State, n: nat)
    requires !r.St?
    ensures StepN(prog, s, r, n) == r
    decreases n
  {
    if n > 0 { StepNFinal(prog, s, r, n - 1); }
  }

  lemma HaltsFromConv(prog: Program, s: Subject, a: State, r: State)
    requires !r.St? && Conv(prog, s, a, r)
    ensures Halts(prog, s, a, r)
  {
    var n: nat, m: nat :| Meet(prog, s, a, r, n, m);
    StepNFinal(prog, s, r, m);
  }

  /** The machine is deterministic: a state has at most one result. */
  lemma HaltsUnique(prog: Program, s: Subject, a: State, r1: State, r2: State)
    requires Halts(prog, s, a, r1) && Halts(prog, s, a, r2)
    ensures r1 == r2
  {
    var n: nat :| StepN(prog, s, a, n) == r1;
    var m: nat :| StepN(prog, s, a, m) == r2;
    StepNAdd(prog, s, a, n, m);
    StepNAdd(prog, s, a, m, n);
    StepNFinal(prog, s, r1, m);
    StepNFinal(prog, s, r2, n);
  }
}
