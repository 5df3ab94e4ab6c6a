/**
 The opcode interpreter `match` of nmap/lpeg.c: one loop over a position, a program counter,
 a stack of pending choices and calls, and a list of captures whose used part ends at
 `captop`.  The bottom entry of the stack, which leads to the give-up instruction, is left
 implicit: popping an empty stack gives up.
 */
module PegMatch {
  import opened PegTree
  import opened PegSemantics
  import opened PegMachine

  /** A pending choice, or a pending call when it has no position. */
  datatype Entry = Entry(pc: nat, pos: int, level: nat)

  const NOPOS: int := -1

  /** The stack that the entries stand for. */
  function Pending(stack: seq<Entry>): Stack {
    if stack == [] then Base
    else
      var e := stack[|stack| - 1];
      var rest := Pending(stack[..|stack| - 1]);
      if e.pos < 0 then Ret(e.pc, rest) else Back(e.pc, e.pos, e.level, rest)
  }

  lemma PendingPush(stack: seq<Entry>, e: Entry)
    ensures Pending(stack + [e])
            == if e.pos < 0 then Ret(e.pc, Pending(stack)) else Back(e.pc, e.pos, e.level, Pending(stack))
  {
    assert (stack + [e])[..|stack|] == stack;
  }

  /** The program ends on the subject without an assertion failing. */
  ghost predicate Runs(prog: Program, s: Subject, i: nat) {
    exists v :: v != Stuck && Halts(prog, s, Start(i), v)
  }

  lemma {:induction false} NotStuck(prog: Program, s: Subject, st: State, n: nat)
    requires st.St? && !StepN(prog, s, st, n).St? && StepN(prog, s, st, n) != Stuck
    ensures n > 0 && Step(prog, s, st) != Stuck
    ensures st.pc < |prog| && st.pos <= |s| && Step(prog, s, st) == Execute(prog[st.pc], s, st)
  {
    if Step(prog, s, st) == Stuck && n > 0 { StepNFinal(prog, s, Stuck, n - 1); }
  }

  predicate Looks(ins: Instr) {
    || ins.IAny? || ins.IChar? || ins.ISet? || ins.ITestAny? || ins.ITestChar? || ins.ITestSet?
    || ins.IBehind? || ins.ISpan?
  }

  predicate Goes(ins: Instr) {
    ins.IJmp? || ins.IChoice? || ins.ICall? || ins.IPartialCommit?
  }

  predicate Pops(ins: Instr) {
    ins.IRet? || ins.ICommit? || ins.IBackCommit?
  }

  predicate Lists(ins: Instr) {
    ins.IFullCapture? || ins.IOpenCapture? || ins.ICloseCapture?
  }

  class Matcher {
    const prog: seq<Instr>
    const s: seq<Byte>
    var p: nat
    var pos: nat
    var stack: seq<Entry>
    var capture: seq<Cap>
    var captop: nat

    constructor (prog: seq<Instr>, s: seq<Byte>, i: nat)
      ensures this.prog == prog && this.s == s && captop <= |capture| && Now() == Start(i)
    {
      this.prog, this.s := prog, s;
      p, pos, stack, capture, captop := 0, i, [], [], 0;
    }

    /** The state of the machine. */
    ghost function Now(): (st: State)
      reads this
      requires captop <= |capture|
      ensures st.St?
    {
      St(p, pos, Pending(stack), capture[..captop])
    }

    /** `pushcapture` */
    method PushCapture(c: Cap)
      requires captop <= |capture|
      modifies this
      ensures captop <= |capture|
              && Now() == St(old(p) + 1, old(pos), Pending(old(stack)), old(capture[..captop]) + [c])
    {
      if captop == |capture| {
        capture := capture + [c];
      } else {
        capture := capture[captop := c];
      }
      captop := captop + 1;
      p := p + 1;
    }

    /** The label `fail`: pending calls are removed. */
    method Fail() returns (giveup: bool)
      requires captop <= |capture| && Backtrack(Pending(stack), capture[..captop]) != Stuck
      modifies this
      ensures captop <= |capture|
      ensures var st := old(Backtrack(Pending(stack), capture[..captop]));
              if giveup then st == NoMatch else Now() == st
    {
      ghost var caps := capture[..captop];
      while |stack| > 0 && stack[|stack| - 1].pos < 0
        invariant Backtrack(Pending(stack), caps) == old(Backtrack(Pending(stack), capture[..captop]))
        invariant capture == old(capture) && captop == old(captop)
        decreases |stack|
      {
        stack := stack[..|stack| - 1];
      }
      giveup := stack == [];
      if !giveup {
        var e := stack[|stack| - 1];
        stack := stack[..|stack| - 1];
        assert caps[..e.level] == capture[..e.level];
        p, pos, captop := e.pc, e.pos, e.level;
      }
    }

    /** Instructions that look at the subject */
    method Look(ins: Instr) returns (failed: bool)
      requires captop <= |capture| && pos <= |s| && Looks(ins)
      modifies this
      ensures captop <= |capture| && capture == old(capture) && captop == old(captop) && stack == old(stack)
      ensures Execute(ins, s, old(Now())) == if failed then Backtrack(Now().stk, Now().caps) else Now()
    {
      failed := false;
      match ins {
        case IAny => failed := pos >= |s|;
        case IChar(c) => failed := !(pos < |s| && s[pos] == c);
        case ISet(cs) => failed := !(pos < |s| && s[pos] in cs);
        case ITestAny(to) => p := if pos < |s| then p + 1 else to; return;
        case ITestChar(c, to) => p := if pos < |s| && s[pos] == c then p + 1 else to; return;
        case ITestSet(cs, to) => p := if pos < |s| && s[pos] in cs then p + 1 else to; return;
        case IBehind(n) =>
          failed := n > pos;
          if !failed { pos, p := pos - n, p + 1; }
          return;
        case ISpan(cs) =>
          ghost var i := pos;
          while pos < |s| && s[pos] in cs
            invariant pos <= |s| && Span(s, pos, cs) == Span(s, i, cs)
            invariant p == old(p) && stack == old(stack) && capture == old(capture) && captop == old(captop)
            decreases |s| - pos
          {
            pos := pos + 1;
          }
          p := p + 1;
          return;
      }
      if !failed { p, pos := p + 1, pos + 1; }
    }

    /** Instructions that jump, and may push or change an entry of the stack */
    method Go(ins: Instr)
      requires captop <= |capture| && pos <= |s| && Goes(ins) && Execute(ins, s, Now()) != Stuck
      modifies this
      ensures captop <= |capture| && Execute(ins, s, old(Now())) == Now()
    {
      match ins {
        case IJmp(to) => p := to;
        case IChoice(to) =>
          PendingPush(stack, Entry(to, pos, captop));
          stack := stack + [Entry(to, pos, captop)];
          p := p + 1;
        case ICall(to) =>
          PendingPush(stack, Entry(p + 1, NOPOS, 0));
          stack := stack + [Entry(p + 1, NOPOS, 0)];
          p := to;
        case IPartialCommit(to) =>
          assert Pending(stack).Back? && stack != [] && stack[|stack| - 1].pos >= 0;
          var last, rest := stack[|stack| - 1], stack[..|stack| - 1];
          assert Pending(stack) == Back(last.pc, last.pos, last.level, Pending(rest));
          var e := last.(pos := pos, level := captop);
          PendingPush(rest, e);
          stack := rest + [e];
          p := to;
      }
    }

    /** Instructions that pop an entry of the stack */
    method Pop(ins: Instr)
      requires captop <= |capture| && pos <= |s| && Pops(ins) && Execute(ins, s, Now()) != Stuck
      modifies this
      ensures captop <= |capture| && Execute(ins, s, old(Now())) == Now()
    {
      var e := stack[|stack| - 1];
      stack := stack[..|stack| - 1];
      match ins {
        case IRet => p := e.pc;
        case ICommit(to) => p := to;
        case IBackCommit(to) =>
          assert capture[..captop][..e.level] == capture[..e.level];
          p, pos, captop := to, e.pos, e.level;
      }
    }

    /** Instructions that list captures */
    method List(ins: Instr)
      requires captop <= |capture| && pos <= |s| && Lists(ins) && Execute(ins, s, Now()) != Stuck
      modifies this
      ensures captop <= |capture| && Execute(ins, s, old(Now())) == Now()
    {
      match ins {
        case IFullCapture(kind, key, off) => PushCapture(Cap(pos - off, key, kind, off + 1));
        case IOpenCapture(kind, key) => PushCapture(Cap(pos, key, kind, 0));
        case ICloseCapture =>
          ghost var caps := capture[..captop];
          var last := capture[captop - 1];
          if last.siz == 0 && last.pos <= pos && pos - last.pos < UCHAR_MAX {
            capture := capture[captop - 1 := last.(siz := pos - last.pos + 1)];
            assert capture[..captop] == caps[..|caps| - 1] + [last.(siz := pos - last.pos + 1)];
            p := p + 1;
          } else {
            PushCapture(Cap(pos, 0, CLOSE, 1));
          }
      }
    }

    /** The main loop */
    method Match() returns (r: State)
      requires captop <= |capture| && Now() == Start(pos) && Runs(prog, s, pos)
      modifies this
      ensures r != Stuck && Halts(prog, s, Start(old(pos)), r)
    {
      ghost var v :| v != Stuck && Halts(prog, s, Start(pos), v);
      ghost var left: nat :| StepN(prog, s, Start(pos), left) == v;
      while true
        invariant captop <= |capture| && StepN(prog, s, Now(), left) == v
        decreases left
      {
        ghost var st := Now();
        NotStuck(prog, s, st, left);
        var ins := prog[p];
        var failed := false;
        if Looks(ins) {
          failed := Look(ins);
        } else if Goes(ins) {
          Go(ins);
        } else if Pops(ins) {
          Pop(ins);
        } else if Lists(ins) {
          List(ins);
        } else if ins.IEnd? {
          StepNFinal(prog, s, Step(prog, s, st), left - 1);
          return Matched(pos, capture[..captop]);
        } else {
          if ins.IFailTwice? { stack := stack[..|stack| - 1]; }
          failed := true;
        }
        if failed {
          assert Step(prog, s, st) == Backtrack(Pending(stack), capture[..captop]);
          var giveup := Fail();
          if giveup {
            StepNFinal(prog, s, NoMatch, left - 1);
            return NoMatch;
          }
        }
        left := left - 1;
      }
    }
  }
}
