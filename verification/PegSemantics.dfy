/**
 What a pattern means: the PEG semantics with captures, as a function with fuel.  A
 result other than `Diverge` is final, so `Parses` is a partial function of the input.
 */
module PegSemantics {
  import opened PegTree

  type Subject = seq<Byte>

  /** One entry of the capture list: `siz` is 0 for an open entry, else the length plus 1. */
  datatype Cap = Cap(pos: nat, key: nat, kind: nat, siz: nat)

  datatype Outcome = Diverge | Fail | Ok(pos: nat, caps: seq<Cap>)

  /**
   How captures are listed.  `Reference` is the documented meaning: a predicate yields no
   captures and a capture encloses the ones nested in it.  `Compiled` is what the code
   generator decides on from `HasCaptures`, which cannot see through calls.
   */
  datatype Mode = Reference | Compiled

  /** The look-ahead is coded as the pattern itself followed by a step back. */
  predicate ShortAnd(g: Grammar, p: Tree) {
    0 <= FixedLen(g, p) <= MAX_BEHIND && !HasCaptures(p)
  }

  /** The capture is coded as one entry added after the match. */
  predicate ShortCapture(g: Grammar, p: Tree) {
    0 <= FixedLen(g, p) <= MAX_OFF && !HasCaptures(p)
  }

  function AndCaps(m: Mode, g: Grammar, p: Tree, nested: seq<Cap>): seq<Cap> {
    if m.Compiled? && ShortAnd(g, p) then nested else []
  }

  /** The entries of a capture of `i..j` around the entries `nested`. */
  function CaptureCaps(m: Mode, g: Grammar, t: Tree, i: nat, j: nat, nested: seq<Cap>): seq<Cap>
    requires t.Capture? && i <= j
  {
    if m.Compiled? && ShortCapture(g, t.p) then nested + [Cap(i, t.key, t.kind, j - i + 1)]
    else if nested == [] && j - i < UCHAR_MAX then [Cap(i, t.key, t.kind, j - i + 1)]
    else [Cap(i, t.key, t.kind, 0)] + nested + [Cap(j, 0, CLOSE, 1)]
  }

  function Run(m: Mode, g: Grammar, t: Tree, s: Subject, i: nat, fuel: nat): (r: Outcome)
    requires i <= |s|
    ensures r.Ok? ==> i <= r.pos <= |s|
    decreases fuel, 2
  {
    if fuel == 0 then Diverge else RunNode(m, g, t, s, i, fuel)
  }

  function RunNode(m: Mode, g: Grammar, t: Tree, s: Subject, i: nat, fuel: nat): (r: Outcome)
    requires i <= |s| && fuel > 0
    ensures r.Ok? ==> i <= r.pos <= |s|
    decreases fuel, 1
  {
    match t
    case Char(_) => RunCharset(ToCharset(t), s, i)
    case Set(_) => RunCharset(ToCharset(t), s, i)
    case Any => RunCharset(ToCharset(t), s, i)
    case True => Ok(i, [])
    case False => Fail
    case Seq(_, _) => RunSeq(m, g, t, s, i, fuel)
    case Choice(_, _) => RunChoice(m, g, t, s, i, fuel)
    case Rep(_) => RunRep(m, g, t, s, i, fuel)
    case Not(_) => RunPredicate(m, g, t, s, i, fuel)
    case And(_) => RunPredicate(m, g, t, s, i, fuel)
    case Behind(_, _) => RunBehind(m, g, t, s, i, fuel)
    case Capture(_, _, _) => RunCapture(m, g, t, s, i, fuel)
    case Rules(_) => RunRule(m, t.rules, 0, s, i, fuel)
    case Call(n) => RunRule(m, g, n, s, i, fuel)
  }

  function RunCharset(cs: Charset, s: Subject, i: nat): Outcome
    requires i <= |s|
  {
    if i < |s| && s[i] in cs then Ok(i + 1, []) else Fail
  }

  function RunSeq(m: Mode, g: Grammar, t: Tree, s: Subject, i: nat, fuel: nat): (r: Outcome)
    requires i <= |s| && t.Seq? && fuel > 0
    ensures r.Ok? ==> i <= r.pos <= |s|
    decreases fuel, 0
  {
    var r1 := Run(m, g, t.p1, s, i, fuel - 1);
    if r1.Ok? then AddCaps(r1.caps, Run(m, g, t.p2, s, r1.pos, fuel - 1)) else r1
  }

  /** The outcome after captures `l` were already made. */
  function AddCaps(l: seq<Cap>, r: Outcome): Outcome {
    if r.Ok? then Ok(r.pos, l + r.caps) else r
  }

  /** The outcome of a sequence with these parts. */
  function SeqOutcome(r1: Outcome, r2: Outcome): Outcome {
    if r1.Ok? then AddCaps(r1.caps, r2) else r1
  }

  function RunChoice(m: Mode, g: Grammar, t: Tree, s: Subject, i: nat, fuel: nat): (r: Outcome)
    requires i <= |s| && t.Choice? && fuel > 0
    ensures r.Ok? ==> i <= r.pos <= |s|
    decreases fuel, 0
  {
    var r1 := Run(m, g, t.p1, s, i, fuel - 1);
    if r1.Fail? then Run(m, g, t.p2, s, i, fuel - 1) else r1
  }

  function RunRep(m: Mode, g: Grammar, t: Tree, s: Subject, i: nat, fuel: nat): (r: Outcome)
    requires i <= |s| && t.Rep? && fuel > 0
    ensures r.Ok? ==> i <= r.pos <= |s|
    decreases fuel, 0
  {
    var r1 := Run(m, g, t.p, s, i, fuel - 1);
    if r1.Ok? then AddCaps(r1.caps, Run(m, g, t, s, r1.pos, fuel - 1))
    else if r1.Fail? then Ok(i, [])
    else r1
  }

  function RunPredicate(m: Mode, g: Grammar, t: Tree, s: Subject, i: nat, fuel: nat): (r: Outcome)
    requires i <= |s| && (t.Not? || t.And?) && fuel > 0
    ensures r.Ok? ==> i == r.pos
    decreases fuel, 0
  {
    var r1 := Run(m, g, t.p, s, i, fuel - 1);
    if r1.Ok? then if t.Not? then Fail else Ok(i, AndCaps(m, g, t.p, r1.caps))
    else if r1.Fail? then if t.Not? then Ok(i, []) else Fail
    else r1
  }

  /** The pattern matches the text that ends at the current position; nothing is consumed. */
  function RunBehind(m: Mode, g: Grammar, t: Tree, s: Subject, i: nat, fuel: nat): (r: Outcome)
    requires i <= |s| && t.Behind? && fuel > 0
    ensures r.Ok? ==> i == r.pos
    decreases fuel, 0
  {
    if i < t.n then Fail
    else
      var r1 := Run(m, g, t.p, s, i - t.n, fuel - 1);
      if r1.Ok? then Ok(i, r1.caps) else r1
  }

  function RunCapture(m: Mode, g: Grammar, t: Tree, s: Subject, i: nat, fuel: nat): (r: Outcome)
    requires i <= |s| && t.Capture? && fuel > 0
    ensures r.Ok? ==> i <= r.pos <= |s|
    decreases fuel, 0
  {
    var r1 := Run(m, g, t.p, s, i, fuel - 1);
    if r1.Ok? then Ok(r1.pos, CaptureCaps(m, g, t, i, r1.pos, r1.caps)) else r1
  }

  function RunRule(m: Mode, g: Grammar, n: nat, s: Subject, i: nat, fuel: nat): (r: Outcome)
    requires i <= |s| && fuel > 0
    ensures r.Ok? ==> i <= r.pos <= |s|
    decreases fuel, 0
  {
    if n < |g| then Run(m, g, g[n], s, i, fuel - 1) else Fail
  }

  /** The pattern ends at `i` with result `r` (a failure or a match). */
  ghost predicate Parses(m: Mode, g: Grammar, t: Tree, s: Subject, i: nat, r: Outcome)
    requires i <= |s|
  {
    r != Diverge && exists fuel: nat :: Run(m, g, t, s, i, fuel) == r
  }

  /** What `Run` does on each kind of tree. */
  lemma RunCases(m: Mode, g: Grammar, t: Tree, s: Subject, i: nat, f: nat)
    requires i <= |s| && f > 0
    ensures IsCharset(t) ==> Run(m, g, t, s, i, f) == RunCharset(ToCharset(t), s, i)
    ensures t.True? ==> Run(m, g, t, s, i, f) == Ok(i, [])
    ensures t.False? ==> Run(m, g, t, s, i, f) == Fail
    ensures t.Seq? ==> Run(m, g, t, s, i, f) == RunSeq(m, g, t, s, i, f)
    ensures t.Choice? ==> Run(m, g, t, s, i, f) == RunChoice(m, g, t, s, i, f)
    ensures t.Rep? ==> Run(m, g, t, s, i, f) == RunRep(m, g, t, s, i, f)
    ensures t.Not? || t.And? ==> Run(m, g, t, s, i, f) == RunPredicate(m, g, t, s, i, f)
    ensures t.Behind? ==> Run(m, g, t, s, i, f) == RunBehind(m, g, t, s, i, f)
    ensures t.Capture? ==> Run(m, g, t, s, i, f) == RunCapture(m, g, t, s, i, f)
    ensures t.Rules? ==> Run(m, g, t, s, i, f) == RunRule(m, t.rules, 0, s, i, f)
    ensures t.Call? ==> Run(m, g, t, s, i, f) == RunRule(m, g, t.rule, s, i, f)
  {}

  /** More fuel never changes a final result. */
  lemma {:induction false} RunMono(m: Mode, g: Grammar, t: Tree, s: Subject, i: nat, f1: nat, f2: nat)
    requires i <= |s| && f1 <= f2
    requires Run(m, g, t, s, i, f1) != Diverge
    ensures Run(m, g, t, s, i, f2) == Run(m, g, t, s, i, f1)
    decreases f1, 1
  {
    RunCases(m, g, t, s, i, f1);
    RunCases(m, g, t, s, i, f2);
    match t
    case Seq(p1, p2) =>
      RunMono(m, g, p1, s, i, f1 - 1, f2 - 1);
      var r := Run(m, g, p1, s, i, f1 - 1);
      if r.Ok? { RunMono(m, g, p2, s, r.pos, f1 - 1, f2 - 1); }
    case Choice(p1, p2) =>
      RunMono(m, g, p1, s, i, f1 - 1, f2 - 1);
      if Run(m, g, p1, s, i, f1 - 1).Fail? { RunMono(m, g, p2, s, i, f1 - 1, f2 - 1); }
    case Rep(p) =>
      RunMono(m, g, p, s, i, f1 - 1, f2 - 1);
      var r := Run(m, g, p, s, i, f1 - 1);
      if r.Ok? { RunMono(m, g, t, s, r.pos, f1 - 1, f2 - 1); }
    case _ => RunMonoUnary(m, g, t, s, i, f1, f2);
  }

  lemma {:induction false} RunMonoUnary(m: Mode, g: Grammar, t: Tree, s: Subject, i: nat, f1: nat, f2: nat)
    requires i <= |s| && f1 <= f2 && !t.Seq? && !t.Choice? && !t.Rep?
    requires Run(m, g, t, s, i, f1) != Diverge
    ensures Run(m, g, t, s, i, f2) == Run(m, g, t, s, i, f1)
    decreases f1, 0
  {
    RunCases(m, g, t, s, i, f1);
    RunCases(m, g, t, s, i, f2);
    match t
    case Not(p) => RunMono(m, g, p, s, i, f1 - 1, f2 - 1);
    case And(p) => RunMono(m, g, p, s, i, f1 - 1, f2 - 1);
    case Behind(n, p) => if i >= n { RunMono(m, g, p, s, i - n, f1 - 1, f2 - 1); }
    case Capture(_, _, p) => RunMono(m, g, p, s, i, f1 - 1, f2 - 1);
    case Rules(rs) => if |rs| > 0 { RunMono(m, rs, rs[0], s, i, f1 - 1, f2 - 1); }
    case Call(n) => if n < |g| { RunMono(m, g, g[n], s, i, f1 - 1, f2 - 1); }
    case _ =>
  }

  /** A pattern has at most one result. */
  lemma ParsesUnique(m: Mode, g: Grammar, t: Tree, s: Subject, i: nat, r1: Outcome, r2: Outcome)
    requires i <= |s| && Parses(m, g, t, s, i, r1) && Parses(m, g, t, s, i, r2)
    ensures r1 == r2
  {
    var f1: nat :| Run(m, g, t, s, i, f1) == r1;
    var f2: nat :| Run(m, g, t, s, i, f2) == r2;
    if f1 <= f2 { RunMono(m, g, t, s, i, f1, f2); } else { RunMono(m, g, t, s, i, f2, f1); }
  }
}
