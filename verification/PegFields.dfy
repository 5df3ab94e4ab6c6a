/**
 The numbers in instructions and capture entries fit into their fields (nmap/lpeg.c): a byte for a
 step back and for the size of a capture, four bits for the offset of a full capture.
 */
module PegFields {
  import opened PegTree
  import opened PegSemantics
  import opened PegAnalysis
  import opened PegMachine
  import opened PegCode

  predicate Fits(i: Instr) {
    match i
    case IBehind(n) => n < 256
    case IFullCapture(_, _, off) => off < 16
    case _ => true
  }

  predicate AllFit(code: seq<Instr>) {
    forall i: nat | i < |code| :: Fits(code[i])
  }

  /** `AllFit`, in statements that do not look into it. */
  predicate Fit(code: seq<Instr>) {
    AllFit(code)
  }

  lemma FitOne(i: Instr)
    requires Fits(i)
    ensures Fit([i])
  {}

  lemma FitTwo(a: seq<Instr>, b: seq<Instr>)
    requires Fit(a) && Fit(b)
    ensures Fit(a + b)
  {}

  lemma FitFour(a: seq<Instr>, b: seq<Instr>, c: seq<Instr>, d: seq<Instr>)
    requires Fit(a) && Fit(b) && Fit(c) && Fit(d)
    ensures Fit(a + b + c + d)
  {
    FitTwo(a, b);
    FitTwo(a + b, c);
    FitTwo(a + b + c, d);
  }

  lemma TestFits(first: FirstInfo, to: nat)
    ensures Fit(TestCode(first, to))
  {}

  lemma {:induction false} LinkFits(code: seq<Instr>, org: nat, pos: seq<nat>, k: nat)
    requires k <= |code| && Fit(code)
    ensures Fit(Link(code, org, pos, k))
    decreases |code| - k
  {
    if k < |code| { LinkFits(LinkOne(code, org, pos, k), org, pos, k + 1); }
  }

  lemma {:induction false} GenFits(lo: bool, g: Grammar, t: Tree, opt: bool, tt: Guard, fl: Charset, base: nat)
    requires WellFormed(g, t)
    ensures Fit(Gen(lo, g, t, opt, tt, fl, base))
    decreases t, 3
  {
    GenCases(lo, g, t, opt, tt, fl, base);
    match t
    case Seq(p1, p2) =>
      GenFits(lo, g, p1, false, tt, SeqFollow(g, t, fl), base);
      var c1 := Gen(lo, g, p1, false, tt, SeqFollow(g, t, fl), base);
      GenFits(lo, g, p2, opt, SeqGuard(g, t, tt), fl, Past(base, |c1|));
      FitTwo(c1, Gen(lo, g, p2, opt, SeqGuard(g, t, tt), fl, Past(base, |c1|)));
    case Choice(_, _) => ChoiceFits(lo, g, t, opt, fl, base);
    case Rep(_) => RepFits(lo, g, t, opt, fl, base);
    case Not(_) => NotFits(lo, g, t, base);
    case And(_) => AndFits(lo, g, t, tt, base);
    case Behind(n, p) =>
      GenFits(lo, g, p, false, NoTest, FULL, Past(base, 1));
      FitTwo([IBehind(n)], Gen(lo, g, p, false, NoTest, FULL, Past(base, 1)));
    case Capture(_, _, _) => CaptureFits(lo, g, t, tt, fl, base);
    case Rules(rs) =>
      var org := Past(base, 2);
      RulesFit(lo, rs, rs, org);
      var body := GenRules(lo, rs, rs, org);
      LinkFits(body, org, RulePositions(lo, rs, rs, org), 0);
      FitTwo([ICall(org), IJmp(Past(org, |body|))], Link(body, org, RulePositions(lo, rs, rs, org), 0));
    case _ =>
  }

  lemma {:induction false} ChoiceFits(lo: bool, g: Grammar, t: Tree, opt: bool, fl: Charset, base: nat)
    requires t.Choice? && WellFormed(g, t)
    ensures Fit(GenChoice(lo, g, t, opt, fl, base))
    decreases t, 2
  {
    if TestSuffices(g, t.p1, First(g, t.p2, fl).cs) {
      ChoiceTestFits(lo, g, t, opt, fl, base);
    } else if opt && t.p2.True? {
      var c := Gen(lo, g, t.p1, true, NoTest, FULL, Past(base, 1));
      GenFits(lo, g, t.p1, true, NoTest, FULL, Past(base, 1));
      FitTwo([IPartialCommit(Past(base, 1))], c);
      assert GenChoice(lo, g, t, opt, fl, base) == GenChoiceReuse(lo, g, t, base);
    } else {
      ChoicePushFits(lo, g, t, opt, fl, base);
    }
  }

  lemma {:induction false} ChoiceTestFits(lo: bool, g: Grammar, t: Tree, opt: bool, fl: Charset, base: nat)
    requires t.Choice? && WellFormed(g, t)
    ensures Fit(GenChoiceTest(lo, g, t, opt, fl, base))
    decreases t, 1
  {
    var head, b1 := First(g, t.p1, FULL).(empty := false), Past(base, 1);
    GenFits(lo, g, t.p1, false, TestGuard(head), fl, b1);
    var c1 := Gen(lo, g, t.p1, false, TestGuard(head), fl, b1);
    var l1 := Past(Past(b1, |c1|), SkipSize(t.p2));
    GenFits(lo, g, t.p2, opt, NoTest, fl, l1);
    var c2 := Gen(lo, g, t.p2, opt, NoTest, fl, l1);
    TestFits(head, l1);
    FitFour(TestCode(head, l1), c1, SkipCode(t.p2, Past(l1, |c2|)), c2);
  }

  lemma {:induction false} ChoicePushFits(lo: bool, g: Grammar, t: Tree, opt: bool, fl: Charset, base: nat)
    requires t.Choice? && WellFormed(g, t)
    ensures Fit(GenChoicePush(lo, g, t, opt, fl, base))
    decreases t, 1
  {
    var first := First(g, t.p1, FULL);
    var b1 := Past(Past(base, TestSize(first)), 1);
    GenFits(lo, g, t.p1, t.p2.True?, TestGuard(first), FULL, b1);
    var c1 := Gen(lo, g, t.p1, t.p2.True?, TestGuard(first), FULL, b1);
    var l1 := Past(Past(b1, |c1|), 1);
    GenFits(lo, g, t.p2, opt, NoTest, fl, l1);
    var c2 := Gen(lo, g, t.p2, opt, NoTest, fl, l1);
    TestFits(first, l1);
    FitFour(TestCode(first, l1), [IChoice(l1)], c1, [ICommit(Past(l1, |c2|))]);
    FitTwo(TestCode(first, l1) + [IChoice(l1)] + c1 + [ICommit(Past(l1, |c2|))], c2);
  }

  lemma {:induction false} RepFits(lo: bool, g: Grammar, t: Tree, opt: bool, fl: Charset, base: nat)
    requires t.Rep? && WellFormed(g, t)
    ensures Fit(GenRep(lo, g, t, opt, fl, base))
    decreases t, 2
  {
    if IsCharset(t.p) {
      FitOne(ISpan(ToCharset(t.p)));
    } else if TestSuffices(g, t.p, fl) {
      var head := First(g, t.p, FULL).(empty := false);
      GenFits(lo, g, t.p, lo && opt, TestGuard(head), FULL, Past(base, 1));
      var c := Gen(lo, g, t.p, lo && opt, TestGuard(head), FULL, Past(base, 1));
      var to := Past(Past(Past(base, 1), |c|), 1);
      TestFits(head, to);
      FitTwo(TestCode(head, to), c);
      FitTwo(TestCode(head, to) + c, [IJmp(base)]);
      assert GenRep(lo, g, t, opt, fl, base) == GenRepTest(lo, g, t, opt, base);
    } else {
      RepPushFits(lo, g, t, opt, base);
    }
  }

  lemma {:induction false} RepPushFits(lo: bool, g: Grammar, t: Tree, opt: bool, base: nat)
    requires t.Rep? && WellFormed(g, t)
    ensures Fit(GenRepPush(lo, g, t, opt, base))
    decreases t, 1
  {
    var first := First(g, t.p, FULL);
    var l1 := Past(Past(base, TestSize(first)), 1);
    GenFits(lo, g, t.p, false, NoTest, FULL, l1);
    var c := Gen(lo, g, t.p, false, NoTest, FULL, l1);
    var l2 := Past(Past(l1, |c|), 1);
    TestFits(first, l2);
    FitFour(TestCode(first, l2), [if opt then IPartialCommit(l1) else IChoice(l2)], c, [IPartialCommit(l1)]);
  }

  lemma {:induction false} NotFits(lo: bool, g: Grammar, t: Tree, base: nat)
    requires t.Not? && WellFormed(g, t)
    ensures Fit(GenNot(lo, g, t, base))
    decreases t, 2
  {
    var first := First(g, t.p, FULL);
    var b := Past(Past(base, TestSize(first)), 1);
    TestFits(first, b);
    FitTwo(TestCode(first, b), [IFail]);
    GenFits(lo, g, t.p, false, NoTest, FULL, b);
    var c := Gen(lo, g, t.p, false, NoTest, FULL, b);
    var l1 := Past(Past(b, |c|), 1);
    TestFits(first, l1);
    FitFour(TestCode(first, l1), [IChoice(l1)], c, [IFailTwice]);
  }

  lemma {:induction false} AndFits(lo: bool, g: Grammar, t: Tree, tt: Guard, base: nat)
    requires t.And? && WellFormed(g, t)
    ensures Fit(GenAnd(lo, g, t, tt, base))
    decreases t, 2
  {
    if ShortAnd(g, t.p) {
      GenFits(lo, g, t.p, false, tt, FULL, base);
      FitTwo(Gen(lo, g, t.p, false, tt, FULL, base), BackCode(FixedLen(g, t.p)));
    } else {
      GenFits(lo, g, t.p, false, tt, FULL, Past(base, 1));
      var c := Gen(lo, g, t.p, false, tt, FULL, Past(base, 1));
      var l1 := Past(Past(Past(base, 1), |c|), 1);
      FitTwo([IChoice(l1)], c);
      FitTwo([IChoice(l1)] + c, [IBackCommit(Past(l1, 1)), IFail]);
      assert GenAnd(lo, g, t, tt, base) == GenAndPush(lo, g, t, tt, base);
    }
  }

  lemma {:induction false} CaptureFits(lo: bool, g: Grammar, t: Tree, tt: Guard, fl: Charset, base: nat)
    requires t.Capture? && WellFormed(g, t)
    ensures Fit(GenCapture(lo, g, t, tt, fl, base))
    decreases t, 2
  {
    if ShortCapture(g, t.p) {
      GenFits(lo, g, t.p, false, tt, fl, base);
      FitTwo(Gen(lo, g, t.p, false, tt, fl, base), [IFullCapture(t.kind, t.key, FixedLen(g, t.p))]);
    } else {
      var c := Gen(lo, g, t.p, false, tt, fl, Past(base, 1));
      GenFits(lo, g, t.p, false, tt, fl, Past(base, 1));
      FitTwo([IOpenCapture(t.kind, t.key)], c);
      FitTwo([IOpenCapture(t.kind, t.key)] + c, [ICloseCapture]);
    }
  }

  lemma {:induction false} RulesFit(lo: bool, g: Grammar, todo: seq<Tree>, base: nat)
    requires forall r | r in todo :: WellFormed(g, r)
    ensures Fit(GenRules(lo, g, todo, base))
    decreases todo, 0
  {
    if todo != [] {
      GenFits(lo, g, todo[0], false, NoTest, FULL, base);
      var c := Gen(lo, g, todo[0], false, NoTest, FULL, base) + [IRet];
      RulesFit(lo, g, todo[1..], Past(base, |c|));
      FitTwo(Gen(lo, g, todo[0], false, NoTest, FULL, base), [IRet]);
      FitTwo(c, GenRules(lo, g, todo[1..], Past(base, |c|)));
    }
  }

  /** In the program of a pattern no step back is longer than 255 and no offset greater than 15. */
  lemma ProgramFits(lo: bool, t: Tree)
    requires WellFormed([], t)
    ensures var prog := WholeProgram(lo, t);
            forall i: nat | i < |prog| ::
              match prog[i]
              case IBehind(n) => n <= 255
              case IFullCapture(_, _, off) => off <= 15
              case _ => true
  {
    GenFits(lo, [], t, false, NoTest, FULL, 0);
    FitTwo(Gen(lo, [], t, false, NoTest, FULL, 0), [IEnd]);
    var prog := WholeProgram(lo, t);
    assert AllFit(prog);
    assert forall i: nat | i < |prog| :: Fits(prog[i]);
  }

  // ---------- captures ----------

  /** The size of a capture entry is a byte. */
  predicate SizesFit(l: seq<Cap>) {
    forall i: nat | i < |l| :: l[i].siz <= 255
  }

  lemma {:induction false} CaptureSizes(m: Mode, g: Grammar, t: Tree, s: Subject, i: nat, f: nat)
    requires i <= |s|
    ensures var r := Run(m, g, t, s, i, f); r.Ok? ==> SizesFit(r.caps)
    decreases f
  {
    if f == 0 { return; }
    RunCases(m, g, t, s, i, f);
    match t
    case Seq(p1, p2) =>
      CaptureSizes(m, g, p1, s, i, f - 1);
      var r := Run(m, g, p1, s, i, f - 1);
      if r.Ok? { CaptureSizes(m, g, p2, s, r.pos, f - 1); }
    case Choice(p1, p2) => CaptureSizes(m, g, p1, s, i, f - 1); CaptureSizes(m, g, p2, s, i, f - 1);
    case Rep(p) =>
      CaptureSizes(m, g, p, s, i, f - 1);
      var r := Run(m, g, p, s, i, f - 1);
      if r.Ok? { CaptureSizes(m, g, t, s, r.pos, f - 1); }
    case And(p) => CaptureSizes(m, g, p, s, i, f - 1);
    case Behind(n, p) => if i >= n { CaptureSizes(m, g, p, s, i - n, f - 1); }
    case Capture(_, _, p) =>
      CaptureSizes(m, g, p, s, i, f - 1);
      if ShortCapture(g, p) { FixedLenSound(m, g, p, s, i, f - 1, 0, 0); }
    case Rules(rs) => if |rs| > 0 { CaptureSizes(m, rs, rs[0], s, i, f - 1); }
    case Call(n) => if n < |g| { CaptureSizes(m, g, g[n], s, i, f - 1); }
    case _ =>
  }
}
