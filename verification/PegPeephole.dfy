/**
 Jump threading (`peephole` of nmap/lpeg.c): labels are moved to the end of the chains of
 jumps behind them, and a jump to an instruction that leaves anyway becomes that
 instruction.  Each rewrite keeps the result of every state on every subject.
 */
module PegPeephole {
  import opened PegSemantics
  import opened PegMachine
  import opened PegCode
  import opened PegJumps

  // ---------- final targets ----------

  ghost predicate AllLands(prog: Program) {
    forall pc: nat :: Lands(prog, pc)
  }

  /** `finaltarget`: where the chain of jumps from `pc` ends. */
  ghost function Final(prog: Program, pc: nat): (ft: nat)
    requires Lands(prog, pc)
    ensures !JumpAt(prog, ft)
  {
    var n: nat :| !JumpAt(prog, JumpN(prog, 0, pc, n));
    JumpN(prog, 0, pc, n)
  }

  lemma {:induction false} JumpNStays(prog: Program, pc: nat, n: nat, m: nat)
    requires !JumpAt(prog, JumpN(prog, 0, pc, n)) && !JumpAt(prog, JumpN(prog, 0, pc, m))
    ensures JumpN(prog, 0, pc, n) == JumpN(prog, 0, pc, m)
    decreases n
  {
    if JumpAt(prog, pc) { JumpNStays(prog, prog[pc].to, n - 1, m - 1); }
  }

  lemma FinalIs(prog: Program, pc: nat, n: nat)
    requires !JumpAt(prog, JumpN(prog, 0, pc, n))
    ensures Lands(prog, pc) && Final(prog, pc) == JumpN(prog, 0, pc, n)
  {
    var m: nat :| !JumpAt(prog, JumpN(prog, 0, pc, m)) && Final(prog, pc) == JumpN(prog, 0, pc, m);
    JumpNStays(prog, pc, n, m);
  }

  lemma FinalHere(prog: Program, pc: nat)
    requires !JumpAt(prog, pc)
    ensures Lands(prog, pc) && Final(prog, pc) == pc
  {
    FinalIs(prog, pc, 0);
  }

  lemma FinalThere(prog: Program, pc: nat)
    requires JumpAt(prog, pc) && AllLands(prog)
    ensures Final(prog, pc) == Final(prog, prog[pc].to)
  {
    assert Lands(prog, prog[pc].to);
    var n: nat :| !JumpAt(prog, JumpN(prog, 0, prog[pc].to, n));
    FinalIs(prog, prog[pc].to, n);
    assert JumpN(prog, 0, pc, n + 1) == JumpN(prog, 0, prog[pc].to, n);
    FinalIs(prog, pc, n + 1);
  }

  /** Labels are addresses of the program. */
  ghost predicate LabelsInside(prog: Program) {
    forall q: nat | q < |prog| :: HasLabel(prog[q]) ==> prog[q].to < |prog|
  }

  lemma {:induction false} JumpNInside(prog: Program, pc: nat, n: nat)
    requires LabelsInside(prog) && pc < |prog|
    ensures JumpN(prog, 0, pc, n) < |prog|
    decreases n
  {
    if n > 0 && JumpAt(prog, pc) { JumpNInside(prog, prog[pc].to, n - 1); }
  }

  lemma FinalInside(prog: Program, pc: nat)
    requires LabelsInside(prog) && pc < |prog| && Lands(prog, pc)
    ensures Final(prog, pc) < |prog|
  {
    var n: nat :| !JumpAt(prog, JumpN(prog, 0, pc, n)) && Final(prog, pc) == JumpN(prog, 0, pc, n);
    JumpNInside(prog, pc, n);
  }

  // ---------- one rewrite ----------

  /** Unconditional implicit jumps. */
  predicate Leaves(ins: Instr) {
    ins.IRet? || ins.IFail? || ins.IFailTwice? || ins.IEnd?
  }

  /** Unconditional explicit jumps other than `IJmp`. */
  predicate Commits(ins: Instr) {
    ins.ICommit? || ins.IPartialCommit? || ins.IBackCommit?
  }

  ghost function FinalLabel(prog: Program, ins: Instr): (r: Instr)
    requires AllLands(prog)
  {
    if HasLabel(ins) then ins.(to := Final(prog, ins.to)) else ins
  }

  /** The instruction that replaces the one at `i`. */
  ghost function Rewritten(prog: Program, i: nat): Instr
    requires AllLands(prog) && i < |prog|
  {
    var ft := Final(prog, i);
    if !prog[i].IJmp? then FinalLabel(prog, prog[i])
    else if ft < |prog| && (Leaves(prog[ft]) || Commits(prog[ft])) then FinalLabel(prog, prog[ft])
    else IJmp(ft)
  }

  ghost function Rewrite(prog: Program, i: nat): (r: Program)
    requires AllLands(prog) && i < |prog|
    ensures |r| == |prog|
  {
    prog[i := Rewritten(prog, i)]
  }

  // ---------- states that differ in jumps only ----------

  ghost predicate SameFinal(prog: Program, a: nat, b: nat)
    requires AllLands(prog)
  {
    Final(prog, a) == Final(prog, b)
  }

  ghost predicate SameStack(prog: Program, a: Stack, b: Stack)
    requires AllLands(prog)
  {
    match a
    case Base => b.Base?
    case Ret(pc, rest) => b.Ret? && SameFinal(prog, pc, b.pc) && SameStack(prog, rest, b.rest)
    case Back(pc, pos, level, rest) =>
      && b.Back? && SameFinal(prog, pc, b.pc) && pos == b.pos && level == b.level
      && SameStack(prog, rest, b.rest)
  }

  ghost predicate Same(prog: Program, a: State, b: State)
    requires AllLands(prog)
  {
    if a.St? then
      && b.St? && SameFinal(prog, a.pc, b.pc) && a.pos == b.pos && a.caps == b.caps
      && SameStack(prog, a.stk, b.stk)
    else a == b
  }

  lemma {:induction false} SameStackRefl(prog: Program, a: Stack)
    requires AllLands(prog)
    ensures SameStack(prog, a, a)
  {
    match a
    case Base =>
    case Ret(_, rest) => SameStackRefl(prog, rest);
    case Back(_, _, _, rest) => SameStackRefl(prog, rest);
  }

  lemma {:induction false} SameBacktrack(prog: Program, a: Stack, b: Stack, caps: seq<Cap>)
    requires AllLands(prog) && SameStack(prog, a, b)
    ensures Same(prog, Backtrack(a, caps), Backtrack(b, caps))
    decreases a
  {
    match a
    case Base =>
    case Ret(_, rest) => SameBacktrack(prog, rest, b.rest, caps);
    case Back(_, _, _, _) =>
  }

  /** The copies of an instruction that the pass can make. */
  ghost predicate CopyOf(prog: Program, ins: Instr, copy: Instr)
    requires AllLands(prog)
  {
    copy == ins || copy == FinalLabel(prog, ins)
  }

  lemma SameLabel(prog: Program, ins: Instr, copy: Instr)
    requires AllLands(prog) && CopyOf(prog, ins, copy) && HasLabel(ins)
    ensures HasLabel(copy) && SameFinal(prog, ins.to, copy.to) && copy == ins.(to := copy.to)
  {
    FinalHere(prog, Final(prog, ins.to));
  }

  /** Tests, choices and calls */
  lemma SameBranch(prog: Program, ins: Instr, copy: Instr, s: Subject, a: State, b: State)
    requires AllLands(prog) && a.St? && b.St? && a.pos <= |s| && Same(prog, a, b)
    requires HasLabel(ins) && !Commits(ins) && !ins.IJmp? && CopyOf(prog, ins, copy) && a.pc == b.pc
    ensures Same(prog, Execute(ins, s, a), Execute(copy, s, b))
  {
    SameLabel(prog, ins, copy);
  }

  lemma SameCommit(prog: Program, ins: Instr, copy: Instr, s: Subject, a: State, b: State)
    requires AllLands(prog) && a.St? && b.St? && a.pos <= |s| && Same(prog, a, b)
    requires Commits(ins) && CopyOf(prog, ins, copy)
    ensures Same(prog, Execute(ins, s, a), Execute(copy, s, b))
  {
    SameLabel(prog, ins, copy);
  }

  lemma SameLeave(prog: Program, ins: Instr, s: Subject, a: State, b: State)
    requires AllLands(prog) && a.St? && b.St? && a.pos <= |s| && Same(prog, a, b) && Leaves(ins)
    ensures Same(prog, Execute(ins, s, a), Execute(ins, s, b))
  {
    SameBacktrack(prog, a.stk, b.stk, a.caps);
    if ins.IFailTwice? && !a.stk.Base? { SameBacktrack(prog, a.stk.rest, b.stk.rest, a.caps); }
  }

  /** Instructions that look at the subject or list captures */
  lemma SameGoOn(prog: Program, ins: Instr, s: Subject, a: State, b: State)
    requires AllLands(prog) && a.St? && b.St? && a.pos <= |s| && Same(prog, a, b)
    requires !HasLabel(ins) && !Leaves(ins) && a.pc == b.pc
    ensures Same(prog, Execute(ins, s, a), Execute(ins, s, b))
  {
    SameBacktrack(prog, a.stk, b.stk, a.caps);
  }

  /** An instruction and its copy with a final label do the same. */
  lemma SameExecute(prog: Program, ins: Instr, copy: Instr, s: Subject, a: State, b: State)
    requires AllLands(prog) && a.St? && b.St? && a.pos <= |s| && Same(prog, a, b) && !ins.IJmp?
    requires CopyOf(prog, ins, copy)
    requires a.pc == b.pc || Leaves(ins) || Commits(ins)
    ensures Same(prog, Execute(ins, s, a), Execute(copy, s, b))
  {
    if Commits(ins) {
      SameCommit(prog, ins, copy, s, a, b);
    } else if HasLabel(ins) {
      SameBranch(prog, ins, copy, s, a, b);
    } else if Leaves(ins) {
      SameLeave(prog, ins, s, a, b);
    } else {
      SameGoOn(prog, ins, s, a, b);
    }
  }

  /** One step from the end of a chain, in the old and in the new program. */
  lemma SameStep(prog: Program, i: nat, s: Subject, a: State, b: State)
    requires AllLands(prog) && i < |prog| && a.St? && b.St? && Same(prog, a, b)
    requires !JumpAt(prog, a.pc) && !JumpAt(Rewrite(prog, i), b.pc)
    ensures Same(prog, Step(prog, s, a), Step(Rewrite(prog, i), s, b))
  {
    FinalHere(prog, a.pc);
    if !JumpAt(prog, b.pc) { FinalHere(prog, b.pc); }
    if a.pc < |prog| && a.pos <= |s| {
      SameExecute(prog, prog[a.pc], Rewrite(prog, i)[b.pc], s, a, b);
    }
  }

  /** A jump of the new program leads to a state with the same final target. */
  lemma SameJump(prog: Program, i: nat, pc: nat)
    requires AllLands(prog) && i < |prog| && JumpAt(Rewrite(prog, i), pc)
    ensures JumpAt(prog, pc) && SameFinal(prog, pc, Rewrite(prog, i)[pc].to)
  {
    if pc == i {
      FinalHere(prog, Final(prog, i));
    } else {
      FinalThere(prog, pc);
    }
  }

  lemma HaltsStep(prog: Program, s: Subject, st: State, v: State)
    requires Halts(prog, s, Step(prog, s, st), v)
    ensures Halts(prog, s, st, v)
  {
    var n: nat :| StepN(prog, s, Step(prog, s, st), n) == v;
    assert StepN(prog, s, st, n + 1) == v;
  }

  lemma HaltsHere(prog: Program, s: Subject, v: State)
    requires !v.St?
    ensures Halts(prog, s, v, v)
  {
    assert StepN(prog, s, v, 0) == v;
  }

  // ---------- a rewrite keeps results ----------

  /** `d` bounds the chain of jumps from the state of the new program. */
  lemma {:induction false} Forward(prog: Program, i: nat, s: Subject, a: State, b: State, n: nat, d: nat)
    requires AllLands(prog) && i < |prog| && Same(prog, a, b) && !StepN(prog, s, a, n).St?
    requires b.St? ==> !JumpAt(prog, JumpN(prog, 0, b.pc, d))
    ensures Halts(Rewrite(prog, i), s, b, StepN(prog, s, a, n))
    decreases n, d
  {
    var r, v := Rewrite(prog, i), StepN(prog, s, a, n);
    if !a.St? {
      StepNFinal(prog, s, a, n);
      HaltsHere(r, s, v);
    } else if a.pos > |s| {
      StepNFinal(prog, s, Stuck, n - 1);
      HaltsHere(r, s, v);
      HaltsStep(r, s, b, v);
    } else if JumpAt(prog, a.pc) {
      FinalThere(prog, a.pc);
      Forward(prog, i, s, Step(prog, s, a), b, n - 1, d);
    } else if JumpAt(r, b.pc) {
      SameJump(prog, i, b.pc);
      var b' := Step(r, s, b);
      if b.pc == i {
        assert JumpN(prog, 0, b'.pc, 0) == b'.pc;
        Forward(prog, i, s, a, b', n, 0);
      } else {
        Forward(prog, i, s, a, b', n, d - 1);
      }
      HaltsStep(r, s, b, v);
    } else {
      SameStep(prog, i, s, a, b);
      var b' := Step(r, s, b);
      var d': nat := 0;
      if b'.St? {
        assert Lands(prog, b'.pc);
        d' :| !JumpAt(prog, JumpN(prog, 0, b'.pc, d'));
      }
      Forward(prog, i, s, Step(prog, s, a), b', n - 1, d');
      HaltsStep(r, s, b, v);
    }
  }

  /** The result from the end of a chain of jumps is the result from its start. */
  lemma {:induction false} HaltsChain(prog: Program, s: Subject, a: State, n: nat, v: State)
    requires a.St? && a.pos <= |s| && Halts(prog, s, a.(pc := JumpN(prog, 0, a.pc, n)), v)
    ensures Halts(prog, s, a, v)
    decreases n
  {
    if n > 0 && JumpAt(prog, a.pc) {
      HaltsChain(prog, s, a.(pc := prog[a.pc].to), n - 1, v);
      HaltsStep(prog, s, a, v);
    } else {
      assert a.(pc := a.pc) == a;
    }
  }

  lemma {:induction false} Backward(prog: Program, i: nat, s: Subject, a: State, b: State, n: nat)
    requires AllLands(prog) && i < |prog| && Same(prog, a, b) && !StepN(Rewrite(prog, i), s, b, n).St?
    ensures Halts(prog, s, a, StepN(Rewrite(prog, i), s, b, n))
    decreases n
  {
    var r, v := Rewrite(prog, i), StepN(Rewrite(prog, i), s, b, n);
    if !a.St? {
      StepNFinal(r, s, b, n);
      HaltsHere(prog, s, v);
    } else if a.pos > |s| {
      StepNFinal(r, s, Stuck, n - 1);
      HaltsHere(prog, s, v);
      HaltsStep(prog, s, a, v);
    } else if JumpAt(r, b.pc) {
      SameJump(prog, i, b.pc);
      Backward(prog, i, s, a, Step(r, s, b), n - 1);
    } else {
      assert Lands(prog, a.pc);
      var k: nat :| !JumpAt(prog, JumpN(prog, 0, a.pc, k));
      FinalIs(prog, a.pc, k);
      var a' := a.(pc := JumpN(prog, 0, a.pc, k));
      FinalHere(prog, a'.pc);
      SameStep(prog, i, s, a', b);
      Backward(prog, i, s, Step(prog, s, a'), Step(r, s, b), n - 1);
      HaltsStep(prog, s, a', v);
      HaltsChain(prog, s, a, k, v);
    }
  }

  /** Two programs give the same result from every state on every subject. */
  ghost predicate Equivalent(p: Program, q: Program) {
    forall s: Subject, st: State, v: State :: Halts(p, s, st, v) <==> Halts(q, s, st, v)
  }

  /** A rewrite changes no result. */
  lemma RewriteEquivalent(prog: Program, i: nat)
    requires AllLands(prog) && i < |prog|
    ensures Equivalent(prog, Rewrite(prog, i))
  {
    var r := Rewrite(prog, i);
    forall s: Subject, st: State, v: State ensures Halts(prog, s, st, v) <==> Halts(r, s, st, v) {
      if st.St? { SameStackRefl(prog, st.stk); }
      if Halts(prog, s, st, v) {
        var n: nat :| StepN(prog, s, st, n) == v;
        var d: nat := 0;
        if st.St? {
          assert Lands(prog, st.pc);
          d :| !JumpAt(prog, JumpN(prog, 0, st.pc, d));
        }
        Forward(prog, i, s, st, st, n, d);
      }
      if Halts(r, s, st, v) {
        var n: nat :| StepN(r, s, st, n) == v;
        Backward(prog, i, s, st, st, n);
      }
    }
  }

  // ---------- a rewrite keeps chains finite ----------

  lemma {:induction false} RewriteLandsFrom(prog: Program, i: nat, pc: nat, n: nat)
    requires AllLands(prog) && i < |prog| && !JumpAt(prog, JumpN(prog, 0, pc, n))
    ensures Lands(Rewrite(prog, i), pc)
    decreases n
  {
    var r := Rewrite(prog, i);
    if JumpAt(r, pc) {
      if pc == i {
        LandsHere(r, r[pc].to);
      } else {
        RewriteLandsFrom(prog, i, prog[pc].to, n - 1);
      }
      LandsThere(r, pc);
    } else {
      LandsHere(r, pc);
    }
  }

  lemma RewriteLands(prog: Program, i: nat)
    requires AllLands(prog) && i < |prog|
    ensures AllLands(Rewrite(prog, i))
  {
    forall pc: nat ensures Lands(Rewrite(prog, i), pc) {
      assert Lands(prog, pc);
      var n: nat :| !JumpAt(prog, JumpN(prog, 0, pc, n));
      RewriteLandsFrom(prog, i, pc, n);
    }
  }

  lemma RewriteInside(prog: Program, i: nat)
    requires AllLands(prog) && i < |prog| && LabelsInside(prog)
    ensures LabelsInside(Rewrite(prog, i))
  {
    if prog[i].IJmp? {
      FinalInside(prog, i);
      var ft := Final(prog, i);
      if HasLabel(prog[ft]) { FinalInside(prog, prog[ft].to); }
    } else if HasLabel(prog[i]) {
      FinalInside(prog, prog[i].to);
    }
  }

  // ---------- the pass ----------

  /** The label at `q` does not lead to a jump, and a jump there leads to an instruction that
      could not take its place. */
  predicate Threaded(prog: Program, q: nat) {
    q < |prog| && HasLabel(prog[q]) ==>
      && !JumpAt(prog, prog[q].to)
      && (prog[q].IJmp? && prog[q].to < |prog| ==> !Leaves(prog[prog[q].to]) && !Commits(prog[prog[q].to]))
  }

  lemma RewriteThreaded(prog: Program, i: nat)
    requires AllLands(prog) && i < |prog|
    ensures Threaded(Rewrite(prog, i), i)
    ensures forall q: nat | q != i && Threaded(prog, q) :: Threaded(Rewrite(prog, i), q)
  {
    var r := Rewrite(prog, i);
    assert !r[i].IJmp? || prog[i].IJmp?;
  }

  /** `finaltarget`. */
  method FinalTarget(code: array<Instr>, i: nat) returns (ft: nat)
    requires i < code.Length && AllLands(code[..]) && LabelsInside(code[..])
    ensures ft < code.Length && ft == Final(code[..], i)
  {
    ghost var prog := code[..];
    assert Lands(prog, i);
    ghost var left: nat :| !JumpAt(prog, JumpN(prog, 0, i, left));
    ft := i;
    while code[ft].IJmp?
      invariant ft < code.Length && Final(prog, ft) == Final(prog, i)
      invariant !JumpAt(prog, JumpN(prog, 0, ft, left))
      decreases left
    {
      FinalThere(prog, ft);
      ft := code[ft].to;
      left := left - 1;
    }
    FinalHere(prog, ft);
  }

  /** `peephole`: the new program has the results of the old one, its labels are final, and no
      jump is left that could be replaced by its target. */
  method Peephole(code: array<Instr>)
    requires AllLands(code[..]) && LabelsInside(code[..])
    modifies code
    ensures Equivalent(old(code[..]), code[..])
    ensures forall q: nat | q < code.Length :: Threaded(code[..], q)
    ensures AllLands(code[..]) && LabelsInside(code[..])
  {
    var i := 0;
    while i < code.Length
      invariant i <= code.Length
      invariant AllLands(code[..]) && LabelsInside(code[..])
      invariant Equivalent(old(code[..]), code[..])
      invariant forall q: nat | q < i :: Threaded(code[..], q)
      decreases code.Length - i, if i < code.Length && code[i].IJmp? then 1 else 0
    {
      ghost var before := code[..];
      var again := false;
      if code[i].IJmp? {
        var ft := FinalTarget(code, i);
        if Leaves(code[ft]) {
          code[i] := code[ft];
        } else if Commits(code[ft]) {
          var fft := FinalTarget(code, code[ft].to);
          code[i] := code[ft].(to := fft);
          again := true;
        } else {
          code[i] := IJmp(ft);
        }
      } else if HasLabel(code[i]) {
        var ft := FinalTarget(code, code[i].to);
        code[i] := code[i].(to := ft);
      }
      assert code[..] == Rewrite(before, i);
      RewriteEquivalent(before, i);
      RewriteLands(before, i);
      RewriteInside(before, i);
      RewriteThreaded(before, i);
      if !again { i := i + 1; }
    }
  }
}
