/** Compiling a pattern and matching it, as `compile` and `lp_match` of nmap/lpeg.c do. */
module PegLibrary {
  import opened PegTree
  import opened PegSemantics
  import opened PegMachine
  import opened PegCode
  import opened PegTermination
  import opened PegCaptures
  import opened PegJumps
  import opened PegPeephole
  import opened PegCompiler
  import opened PegMatch
  import opened PegTheorem
  import opened PegLoopOpt

  /** The part of `compile` before the jumps are optimised. */
  method Generate(lo: bool, t: Tree) returns (code: seq<Instr>)
    requires Buildable(lo, t)
    ensures code == WholeProgram(lo, t)
  {
    var compst := new CompileState(lo);
    assert Compilable(lo, [], t);
    compst.CodeGen([], t, false, NOINST, FULL);
    WholeOf(lo, t, compst.code);
    var _ := compst.AddInstruction(IEnd);
    code := compst.code;
  }

  lemma WholeOf(lo: bool, t: Tree, code: seq<Instr>)
    requires Adds([], Gen(lo, [], t, false, NoTest, FULL, 0), code)
    ensures code + [IEnd] == WholeProgram(lo, t)
  {}

  /** `compile`: the code of the tree, with its jumps optimised. */
  method Compile(lo: bool, t: Tree) returns (prog: array<Instr>)
    requires Buildable(lo, t)
    ensures fresh(prog) && Equivalent(WholeProgram(lo, t), prog[..])
    ensures forall q: nat | q < prog.Length :: Threaded(prog[..], q)
  {
    var code := Generate(lo, t);
    ProgramSafe(lo, t);
    prog := new Instr[|code|](k requires 0 <= k < |code| => code[k]);
    assert prog[..] == code;
    Peephole(prog);
  }

  lemma ProgramSafe(lo: bool, t: Tree)
    requires Buildable(lo, t)
    ensures AllLands(WholeProgram(lo, t)) && LabelsInside(WholeProgram(lo, t))
  {
    ProgramLands(lo, t);
    LabelsFromJumps(WholeProgram(lo, t));
  }

  lemma LabelsFromJumps(prog: Program)
    requires JumpsOk(prog, 0, 0, |prog|)
    ensures LabelsInside(prog)
  {
    forall q: nat | q < |prog| ensures HasLabel(prog[q]) ==> prog[q].to < |prog| {
      assert JumpOk(prog, 0, q);
    }
  }

  /** The outcome that a final state of the machine reports. */
  function OutcomeOf(v: State): Outcome {
    match v
    case Matched(end, list) => Ok(end, list)
    case _ => Fail
  }

  /**
   `lp_match`: compiling a pattern and running it gives the meaning of the pattern, on every
   subject and from every position where it has one; for a pattern that passes the strict check
   these are all (`AcceptedEnds`).  With the code generator of the text (`lo`), this takes a
   pattern without a loop that inherits an `opt` it must not use.
   */
  method LpMatch(lo: bool, t: Tree, s: Subject, i: nat) returns (r: Outcome)
    requires Buildable(lo, t) && i <= |s| && Ends(Compiled, [], t, s, i)
    requires lo ==> !Clash([], t, false, FULL)
    ensures Parses(Compiled, [], t, s, i, r)
    ensures AllSeen([], t) ==> Parses(Reference, [], t, s, i, r)
    ensures r.Ok? ==> i <= r.pos <= |s| && Balanced(r.caps)
  {
    ghost var whole := WholeProgram(lo, t);
    MatchExact(lo, t, s, i);
    var prog := Compile(lo, t);
    ghost var v :| v != Stuck && Halts(whole, s, Start(i), v);
    assert Halts(prog[..], s, Start(i), v);
    var matcher := new Matcher(prog[..], s, i);
    var end := matcher.Match();
    assert Halts(whole, s, Start(i), end);
    r := OutcomeOf(end);
    assert Verdict(r) == end;
    MatchMeans(lo, t, s, i, r);
  }

  /** The program ends without an assertion failing. */
  lemma MatchExact(lo: bool, t: Tree, s: Subject, i: nat)
    requires Buildable(lo, t) && i <= |s| && Ends(Compiled, [], t, s, i) && (lo ==> !Clash([], t, false, FULL))
    ensures Runs(WholeProgram(lo, t), s, i)
  {
    ExactWhereItEnds(t, s, i, Fail);
    if lo { NoClashSame([], t, false, NoTest, FULL, 0); }
  }

  /** What a result of the program says about the pattern. */
  lemma MatchMeans(lo: bool, t: Tree, s: Subject, i: nat, r: Outcome)
    requires Buildable(lo, t) && i <= |s| && Ends(Compiled, [], t, s, i) && (lo ==> !Clash([], t, false, FULL))
    requires r != Diverge && Halts(WholeProgram(lo, t), s, Start(i), Verdict(r))
    ensures Parses(Compiled, [], t, s, i, r)
    ensures AllSeen([], t) ==> Parses(Reference, [], t, s, i, r)
    ensures r.Ok? ==> i <= r.pos <= |s| && Balanced(r.caps)
  {
    if lo { NoClashSame([], t, false, NoTest, FULL, 0); }
    ExactWhereItEnds(t, s, i, r);
    CompiledDocumented(t, s, i, r);
    if r.Ok? { MatchBalanced(t, s, i, r.pos, r.caps); }
  }
}
