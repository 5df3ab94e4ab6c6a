/** Compiler correctness: the compiled program computes the PEG meaning of its tree. */
module PegTheorem {
  import opened PegTree
  import opened PegSemantics
  import opened PegMachine
  import opened PegCode
  import opened PegSimulation
  import opened PegSimCases
  import opened PegLink
  import opened PegCorrect
  import opened PegVerify
  import opened PegTermination
  import opened PegCaptures

  /** What `match` returns for an outcome of the semantics. */
  function Verdict(r: Outcome): State {
    match r
    case Ok(j, l) => Matched(j, l)
    case Fail => NoMatch
    case Diverge => Stuck
  }

  /**
   Whatever the semantics says about a complete pattern, on any subject and from any start
   position, the machine says too: the same end position and the same capture list, or no
   match.  The machine stops with nothing but the base entry on its stack.
   */
  lemma CompiledCorrect(t: Tree, s: Subject, i: nat, r: Outcome)
    requires WellFormed([], t) && i <= |s| && Parses(Compiled, [], t, s, i, r)
    ensures Halts(WholeProgram(false, t), s, Start(i), Verdict(r))
  {
    var f: nat :| Run(Compiled, [], t, s, i, f) == r;
    var x := Ctx(WholeProgram(false, t), s, [], [], false);
    WholeProgramInPlace(false, t, s);
    var end := Past(0, |Gen(false, [], t, false, NoTest, FULL, 0)|);
    Sim(x, t, false, NoTest, FULL, Start(i), f);
    if r.Ok? {
      var last := St(end, r.pos, Base, [] + r.caps);
      assert [] + r.caps == r.caps;
      Steps1(x, last, Verdict(r));
      ConvTrans(x.prog, s, Start(i), last, Verdict(r));
    }
    HaltsFromConv(x.prog, s, Start(i), Verdict(r));
  }

  /**
   On a subject on which the pattern has a result at all, the machine halts; it returns `j` with
   captures `l` exactly when the semantics succeeds with them, and no match exactly when it fails.
   */
  lemma ExactWhereItEnds(t: Tree, s: Subject, i: nat, r: Outcome)
    requires WellFormed([], t) && i <= |s| && Ends(Compiled, [], t, s, i) && r != Diverge
    ensures Halts(WholeProgram(false, t), s, Start(i), Verdict(r)) <==> Parses(Compiled, [], t, s, i, r)
    ensures exists v :: Halts(WholeProgram(false, t), s, Start(i), v) && (v == NoMatch || v.Matched?)
  {
    var q := Result(Compiled, [], t, s, i);
    var f := ResultAt(Compiled, [], t, s, i);
    assert Run(Compiled, [], t, s, i, f) == q;
    CompiledCorrect(t, s, i, q);
    if Halts(WholeProgram(false, t), s, Start(i), Verdict(r)) {
      HaltsUnique(WholeProgram(false, t), s, Start(i), Verdict(r), Verdict(q));
    }
    if Parses(Compiled, [], t, s, i, r) {
      ParsesUnique(Compiled, [], t, s, i, r, q);
    }
  }

  /** For patterns that pass the strict check, this is so on every subject, from every position. */
  lemma CompiledExact(t: Tree, s: Subject, i: nat, r: Outcome)
    requires Accepted(true, t) && i <= |s| && r != Diverge
    ensures Halts(WholeProgram(false, t), s, Start(i), Verdict(r)) <==> Parses(Compiled, [], t, s, i, r)
    ensures exists v :: Halts(WholeProgram(false, t), s, Start(i), v) && (v == NoMatch || v.Matched?)
  {
    AcceptedEnds(Compiled, t, s, i);
    ExactWhereItEnds(t, s, i, r);
  }

  /** The list of captures of every match is balanced. */
  lemma MatchBalanced(t: Tree, s: Subject, i: nat, j: nat, l: seq<Cap>)
    requires WellFormed([], t) && i <= |s| && Ends(Compiled, [], t, s, i)
    requires Halts(WholeProgram(false, t), s, Start(i), Matched(j, l))
    ensures Balanced(l) && i <= j <= |s|
  {
    ExactWhereItEnds(t, s, i, Ok(j, l));
    var f: nat :| Run(Compiled, [], t, s, i, f) == Ok(j, l);
    CapsBalanced(Compiled, [], t, s, i, f);
  }

  /** Positions and failures are the documented ones wherever the pattern has a result; so are the
      captures when no capture or look-ahead hides captures behind a call. */
  lemma CompiledDocumented(t: Tree, s: Subject, i: nat, r: Outcome)
    requires WellFormed([], t) && i <= |s| && Ends(Compiled, [], t, s, i) && r != Diverge
    ensures r.Fail? ==> (Halts(WholeProgram(false, t), s, Start(i), NoMatch) <==> Parses(Reference, [], t, s, i, Fail))
    ensures r.Ok? ==>
              ((exists l :: Halts(WholeProgram(false, t), s, Start(i), Matched(r.pos, l)))
               <==> (exists l :: Parses(Reference, [], t, s, i, Ok(r.pos, l))))
    ensures AllSeen([], t) ==>
              (Halts(WholeProgram(false, t), s, Start(i), Verdict(r)) <==> Parses(Reference, [], t, s, i, r))
  {
    var q := Result(Compiled, [], t, s, i);
    var f := ResultAt(Compiled, [], t, s, i);
    PositionsAgree(Compiled, Reference, [], t, s, i, f);
    var d := Run(Reference, [], t, s, i, f);
    assert SameEnd(q, d) && Parses(Reference, [], t, s, i, d) && Parses(Compiled, [], t, s, i, q);
    CompiledCorrect(t, s, i, q);
    forall v | Halts(WholeProgram(false, t), s, Start(i), v) ensures v == Verdict(q) {
      HaltsUnique(WholeProgram(false, t), s, Start(i), v, Verdict(q));
    }
    forall e | Parses(Reference, [], t, s, i, e) ensures e == d {
      ParsesUnique(Reference, [], t, s, i, e, d);
    }
    if AllSeen([], t) { PatternCapsAgree(t, s, i, f); }
  }
}
