/** The text of the code generator and its repair generate the same code exactly for the patterns
    without a clash (nmap/lpeg.c:1656). */
module PegClash {
  import opened PegTree
  import opened PegSemantics
  import opened PegMachine
  import opened PegCode
  import opened PegLink
  import opened PegLoopOpt

  /** The two pieces of code have different instructions in the same place, neither an open call. */
  ghost predicate Differs(c: seq<Instr>, d: seq<Instr>) {
    exists k: nat :: DiffersAt(c, d, k)
  }

  predicate DiffersAt(c: seq<Instr>, d: seq<Instr>, k: nat) {
    k < |c| && k < |d| && c[k] != d[k] && !c[k].IOpenCall? && !d[k].IOpenCall?
  }

  lemma DiffersWithin(a: seq<Instr>, a': seq<Instr>, c: seq<Instr>, d: seq<Instr>, b: seq<Instr>, b': seq<Instr>)
    requires |a| == |a'| && Differs(c, d)
    ensures Differs(a + c + b, a' + d + b')
  {
    var k: nat :| DiffersAt(c, d, k);
    assert (a + c + b)[|a| + k] == c[k] && (a' + d + b')[|a| + k] == d[k];
    assert DiffersAt(a + c + b, a' + d + b', |a| + k);
  }

  lemma DiffersBefore(c: seq<Instr>, d: seq<Instr>, b: seq<Instr>, b': seq<Instr>)
    requires Differs(c, d)
    ensures Differs(c + b, d + b')
  {
    var k: nat :| DiffersAt(c, d, k);
    assert DiffersAt(c + b, d + b', k);
  }

  lemma DiffersAfter(a: seq<Instr>, a': seq<Instr>, c: seq<Instr>, d: seq<Instr>)
    requires |a| == |a'| && Differs(c, d)
    ensures Differs(a + c, a' + d)
  {
    var k: nat :| DiffersAt(c, d, k);
    assert DiffersAt(a + c, a' + d, |a| + k);
  }

  /** A difference between the code of the text under `o1` and that of the repair under `o2`: a clash,
      or a use of `opt` where only the text has it. */
  predicate Shown(g: Grammar, t: Tree, o1: bool, o2: bool, fl: Charset) {
    if o1 == o2 then Clash(g, t, o1, fl) else o1 && UsesOpt(g, t, fl)
  }

  lemma {:induction false} Shows(g: Grammar, t: Tree, o1: bool, o2: bool, tt: Guard, fl: Charset, base: nat)
    requires Shown(g, t, o1, o2, fl)
    ensures Differs(Gen(true, g, t, o1, tt, fl, base), Gen(false, g, t, o2, tt, fl, base))
    decreases t, 2
  {
    GenCases(true, g, t, o1, tt, fl, base);
    GenCases(false, g, t, o2, tt, fl, base);
    match t
    case Seq(_, _) => ShowsSeq(g, t, o1, o2, tt, fl, base);
    case Choice(_, _) => ShowsChoice(g, t, o1, o2, fl, base);
    case Rep(_) => ShowsRep(g, t, o1, o2, fl, base);
    case Not(p) =>
      var first := First(g, p, FULL);
      var b := Past(Past(base, TestSize(first)), 1);
      Shows(g, p, false, false, NoTest, FULL, b);
      ShowsNot(g, t, base);
    case And(_) => ShowsAnd(g, t, tt, base);
    case Behind(n, p) =>
      if n > 0 {
        Shows(g, p, false, false, NoTest, FULL, Past(base, 1));
        DiffersAfter([IBehind(n)], [IBehind(n)], Gen(true, g, p, false, NoTest, FULL, Past(base, 1)),
                     Gen(false, g, p, false, NoTest, FULL, Past(base, 1)));
      } else {
        Shows(g, p, false, false, NoTest, FULL, base);
      }
    case Capture(_, _, _) => ShowsCapture(g, t, tt, fl, base);
    case Rules(_) => ShowsGrammar(t, base);
  }

  lemma {:induction false} ShowsSeq(g: Grammar, t: Tree, o1: bool, o2: bool, tt: Guard, fl: Charset, base: nat)
    requires t.Seq? && Shown(g, t, o1, o2, fl)
    ensures Differs(GenSeq(true, g, t, o1, tt, fl, base), GenSeq(false, g, t, o2, tt, fl, base))
    decreases t, 1
  {
    var fl1 := SeqFollow(g, t, fl);
    var c1, d1 := Gen(true, g, t.p1, false, tt, fl1, base), Gen(false, g, t.p1, false, tt, fl1, base);
    var c2 := Gen(true, g, t.p2, o1, SeqGuard(g, t, tt), fl, Past(base, |c1|));
    var d2 := Gen(false, g, t.p2, o2, SeqGuard(g, t, tt), fl, Past(base, |d1|));
    if Clash(g, t.p1, false, fl1) {
      Shows(g, t.p1, false, false, tt, fl1, base);
      DiffersBefore(c1, d1, c2, d2);
    } else {
      NoClashSame(g, t.p1, false, tt, fl1, base);
      Shows(g, t.p2, o1, o2, SeqGuard(g, t, tt), fl, Past(base, |c1|));
      DiffersAfter(c1, d1, c2, d2);
    }
  }

  lemma {:induction false} ShowsChoice(g: Grammar, t: Tree, o1: bool, o2: bool, fl: Charset, base: nat)
    requires t.Choice? && Shown(g, t, o1, o2, fl)
    ensures Differs(GenChoice(true, g, t, o1, fl, base), GenChoice(false, g, t, o2, fl, base))
    decreases t, 1
  {
    if TestSuffices(g, t.p1, First(g, t.p2, fl).cs) {
      ShowsChoiceTest(g, t, o1, o2, fl, base);
    } else if t.p2.True? && o1 {
      assert GenChoice(true, g, t, o1, fl, base) == GenChoiceReuse(true, g, t, base);
      if o2 {
        assert GenChoice(false, g, t, o2, fl, base) == GenChoiceReuse(false, g, t, base);
        var b := Past(base, 1);
        Shows(g, t.p1, true, true, NoTest, FULL, b);
        DiffersAfter([IPartialCommit(b)], [IPartialCommit(b)], Gen(true, g, t.p1, true, NoTest, FULL, b),
                     Gen(false, g, t.p1, true, NoTest, FULL, b));
      } else {
        ReuseOrPush(g, t, o2, fl, base);
      }
    } else {
      ShowsChoicePush(g, t, o1, o2, fl, base);
    }
  }

  /** A choice that reuses an entry starts differently from one that pushes its own. */
  lemma ReuseOrPush(g: Grammar, t: Tree, opt: bool, fl: Charset, base: nat)
    requires t.Choice?
    ensures Differs(GenChoiceReuse(true, g, t, base), GenChoicePush(false, g, t, opt, fl, base))
  {
    assert DiffersAt(GenChoiceReuse(true, g, t, base), GenChoicePush(false, g, t, opt, fl, base), 0);
  }

  lemma {:induction false} ShowsChoiceTest(g: Grammar, t: Tree, o1: bool, o2: bool, fl: Charset, base: nat)
    requires t.Choice? && (Clash(g, t.p1, false, fl) || Shown(g, t.p2, o1, o2, fl))
    ensures Differs(GenChoiceTest(true, g, t, o1, fl, base), GenChoiceTest(false, g, t, o2, fl, base))
    decreases t, 0
  {
    var head := First(g, t.p1, FULL).(empty := false);
    var b1, tt := Past(base, 1), TestGuard(head);
    var c1, d1 := Gen(true, g, t.p1, false, tt, fl, b1), Gen(false, g, t.p1, false, tt, fl, b1);
    var l1, m1 := Past(Past(b1, |c1|), SkipSize(t.p2)), Past(Past(b1, |d1|), SkipSize(t.p2));
    var c2, d2 := Gen(true, g, t.p2, o1, NoTest, fl, l1), Gen(false, g, t.p2, o2, NoTest, fl, m1);
    var e1, e2 := TestCode(head, l1), TestCode(head, m1);
    var s1, s2 := SkipCode(t.p2, Past(l1, |c2|)), SkipCode(t.p2, Past(m1, |d2|));
    if Clash(g, t.p1, false, fl) {
      Shows(g, t.p1, false, false, tt, fl, b1);
      DiffersWithin(e1, e2, c1, d1, s1, s2);
      DiffersBefore(e1 + c1 + s1, e2 + d1 + s2, c2, d2);
    } else {
      NoClashSame(g, t.p1, false, tt, fl, b1);
      Shows(g, t.p2, o1, o2, NoTest, fl, l1);
      DiffersAfter(e1 + c1 + s1, e2 + d1 + s2, c2, d2);
    }
  }

  lemma {:induction false} ShowsChoicePush(g: Grammar, t: Tree, o1: bool, o2: bool, fl: Charset, base: nat)
    requires t.Choice? && (Clash(g, t.p1, t.p2.True?, FULL) || Shown(g, t.p2, o1, o2, fl))
    ensures Differs(GenChoicePush(true, g, t, o1, fl, base), GenChoicePush(false, g, t, o2, fl, base))
    decreases t, 0
  {
    var first, opt := First(g, t.p1, FULL), t.p2.True?;
    var b1, tt := Past(Past(base, TestSize(first)), 1), TestGuard(first);
    var c1, d1 := Gen(true, g, t.p1, opt, tt, FULL, b1), Gen(false, g, t.p1, opt, tt, FULL, b1);
    var l1, m1 := Past(Past(b1, |c1|), 1), Past(Past(b1, |d1|), 1);
    var c2, d2 := Gen(true, g, t.p2, o1, NoTest, fl, l1), Gen(false, g, t.p2, o2, NoTest, fl, m1);
    var e1, e2 := TestCode(first, l1) + [IChoice(l1)], TestCode(first, m1) + [IChoice(m1)];
    var s1, s2 := [ICommit(Past(l1, |c2|))], [ICommit(Past(m1, |d2|))];
    if Clash(g, t.p1, opt, FULL) {
      Shows(g, t.p1, opt, opt, tt, FULL, b1);
      DiffersWithin(e1, e2, c1, d1, s1, s2);
      DiffersBefore(e1 + c1 + s1, e2 + d1 + s2, c2, d2);
    } else {
      NoClashSame(g, t.p1, opt, tt, FULL, b1);
      Shows(g, t.p2, o1, o2, NoTest, fl, l1);
      DiffersAfter(e1 + c1 + s1, e2 + d1 + s2, c2, d2);
    }
  }

  lemma {:induction false} ShowsRep(g: Grammar, t: Tree, o1: bool, o2: bool, fl: Charset, base: nat)
    requires t.Rep? && Shown(g, t, o1, o2, fl)
    ensures Differs(GenRep(true, g, t, o1, fl, base), GenRep(false, g, t, o2, fl, base))
    decreases t, 1
  {
    if TestSuffices(g, t.p, fl) {
      ShowsRepTest(g, t, o1, o2, base);
    } else {
      ShowsRepPush(g, t, o1, o2, base);
    }
  }

  lemma {:induction false} ShowsRepTest(g: Grammar, t: Tree, o1: bool, o2: bool, base: nat)
    requires t.Rep? && ((o1 && UsesOpt(g, t.p, FULL)) || Clash(g, t.p, false, FULL))
    ensures Differs(GenRepTest(true, g, t, o1, base), GenRepTest(false, g, t, o2, base))
    decreases t, 0
  {
    var head := First(g, t.p, FULL).(empty := false);
    var b, tt := Past(base, 1), TestGuard(head);
    var c, d := Gen(true, g, t.p, o1, tt, FULL, b), Gen(false, g, t.p, false, tt, FULL, b);
    if o1 && UsesOpt(g, t.p, FULL) {
      Shows(g, t.p, true, false, tt, FULL, b);
    } else {
      if o1 { OptIrrelevant(g, t.p, tt, FULL, b); }
      Shows(g, t.p, false, false, tt, FULL, b);
    }
    DiffersWithin(TestCode(head, Past(Past(b, |c|), 1)), TestCode(head, Past(Past(b, |d|), 1)), c, d, [IJmp(base)],
                  [IJmp(base)]);
  }

  lemma {:induction false} ShowsRepPush(g: Grammar, t: Tree, o1: bool, o2: bool, base: nat)
    requires t.Rep? && (if o1 == o2 then Clash(g, t.p, false, FULL) else o1)
    ensures Differs(GenRepPush(true, g, t, o1, base), GenRepPush(false, g, t, o2, base))
    decreases t, 0
  {
    var first := First(g, t.p, FULL);
    var l1 := Past(Past(base, TestSize(first)), 1);
    var c, d := Gen(true, g, t.p, false, NoTest, FULL, l1), Gen(false, g, t.p, false, NoTest, FULL, l1);
    var l2, m2 := Past(Past(l1, |c|), 1), Past(Past(l1, |d|), 1);
    var e1, e2 := TestCode(first, l2), TestCode(first, m2);
    var i1, i2 := if o1 then IPartialCommit(l1) else IChoice(l2), if o2 then IPartialCommit(l1) else IChoice(m2);
    if o1 == o2 {
      Shows(g, t.p, false, false, NoTest, FULL, l1);
      DiffersWithin(e1 + [i1], e2 + [i2], c, d, [IPartialCommit(l1)], [IPartialCommit(l1)]);
    } else {
      assert DiffersAt([i1], [i2], 0);
      DiffersWithin(e1, e2, [i1], [i2], c, d);
      DiffersBefore(e1 + [i1] + c, e2 + [i2] + d, [IPartialCommit(l1)], [IPartialCommit(l1)]);
    }
  }

  lemma ShowsNot(g: Grammar, t: Tree, base: nat)
    requires t.Not? && !HeadFail(g, t.p)
    requires var b := Past(Past(base, TestSize(First(g, t.p, FULL))), 1);
             Differs(Gen(true, g, t.p, false, NoTest, FULL, b), Gen(false, g, t.p, false, NoTest, FULL, b))
    ensures Differs(GenNot(true, g, t, base), GenNot(false, g, t, base))
  {
    var first := First(g, t.p, FULL);
    var b := Past(Past(base, TestSize(first)), 1);
    var c, d := Gen(true, g, t.p, false, NoTest, FULL, b), Gen(false, g, t.p, false, NoTest, FULL, b);
    var l1, m1 := Past(Past(b, |c|), 1), Past(Past(b, |d|), 1);
    var e1, e2 := TestCode(first, l1) + [IChoice(l1)], TestCode(first, m1) + [IChoice(m1)];
    assert GenNotPush(true, g, t, base) == e1 + c + [IFailTwice];
    assert GenNotPush(false, g, t, base) == e2 + d + [IFailTwice];
    DiffersWithin(e1, e2, c, d, [IFailTwice], [IFailTwice]);
  }

  lemma {:induction false} ShowsAnd(g: Grammar, t: Tree, tt: Guard, base: nat)
    requires t.And? && Clash(g, t.p, false, FULL)
    ensures Differs(GenAnd(true, g, t, tt, base), GenAnd(false, g, t, tt, base))
    decreases t, 1
  {
    if ShortAnd(g, t.p) {
      var back := BackCode(FixedLen(g, t.p));
      Shows(g, t.p, false, false, tt, FULL, base);
      DiffersBefore(Gen(true, g, t.p, false, tt, FULL, base), Gen(false, g, t.p, false, tt, FULL, base), back, back);
    } else {
      var b := Past(base, 1);
      var c, d := Gen(true, g, t.p, false, tt, FULL, b), Gen(false, g, t.p, false, tt, FULL, b);
      var l1, m1 := Past(Past(b, |c|), 1), Past(Past(b, |d|), 1);
      var e, f := [IBackCommit(Past(l1, 1)), IFail], [IBackCommit(Past(m1, 1)), IFail];
      assert GenAndPush(true, g, t, tt, base) == [IChoice(l1)] + c + e;
      assert GenAndPush(false, g, t, tt, base) == [IChoice(m1)] + d + f;
      Shows(g, t.p, false, false, tt, FULL, b);
      DiffersWithin([IChoice(l1)], [IChoice(m1)], c, d, e, f);
    }
  }

  lemma {:induction false} ShowsCapture(g: Grammar, t: Tree, tt: Guard, fl: Charset, base: nat)
    requires t.Capture? && Clash(g, t.p, false, fl)
    ensures Differs(GenCapture(true, g, t, tt, fl, base), GenCapture(false, g, t, tt, fl, base))
    decreases t, 1
  {
    if ShortCapture(g, t.p) {
      var full := [IFullCapture(t.kind, t.key, FixedLen(g, t.p))];
      Shows(g, t.p, false, false, tt, fl, base);
      DiffersBefore(Gen(true, g, t.p, false, tt, fl, base), Gen(false, g, t.p, false, tt, fl, base), full, full);
    } else {
      var b, open := Past(base, 1), [IOpenCapture(t.kind, t.key)];
      Shows(g, t.p, false, false, tt, fl, b);
      DiffersWithin(open, open, Gen(true, g, t.p, false, tt, fl, b), Gen(false, g, t.p, false, tt, fl, b),
                    [ICloseCapture], [ICloseCapture]);
    }
  }

  lemma {:induction false} ShowsGrammar(t: Tree, base: nat)
    requires t.Rules? && exists r | r in t.rules :: Clash(t.rules, r, false, FULL)
    ensures Differs(GenGrammar(true, t, base), GenGrammar(false, t, base))
    decreases t, 1
  {
    var rs, org := t.rules, Past(base, 2);
    ShowsRules(rs, rs, org);
    var c, d := GenRules(true, rs, rs, org), GenRules(false, rs, rs, org);
    var p, q := RulePositions(true, rs, rs, org), RulePositions(false, rs, rs, org);
    LinkDiffers(c, d, org, p, q);
    DiffersAfter([ICall(org), IJmp(Past(org, |c|))], [ICall(org), IJmp(Past(org, |d|))], Link(c, org, p, 0),
                 Link(d, org, q, 0));
  }

  /** Correcting calls does not hide a difference. */
  lemma LinkDiffers(c: seq<Instr>, d: seq<Instr>, org: nat, p: seq<nat>, q: seq<nat>)
    requires Differs(c, d)
    ensures Differs(Link(c, org, p, 0), Link(d, org, q, 0))
  {
    var k: nat :| DiffersAt(c, d, k);
    LinkCorrects(c, org, p, 0);
    LinkCorrects(d, org, q, 0);
    assert DiffersAt(Link(c, org, p, 0), Link(d, org, q, 0), k);
  }

  lemma {:induction false} ShowsRules(g: Grammar, todo: seq<Tree>, base: nat)
    requires exists r | r in todo :: Clash(g, r, false, FULL)
    ensures Differs(GenRules(true, g, todo, base), GenRules(false, g, todo, base))
    decreases todo, 0
  {
    var r := todo[0];
    var c, d := Gen(true, g, r, false, NoTest, FULL, base), Gen(false, g, r, false, NoTest, FULL, base);
    var next, next' := Past(base, |c + [IRet]|), Past(base, |d + [IRet]|);
    var e, f := GenRules(true, g, todo[1..], next), GenRules(false, g, todo[1..], next');
    if Clash(g, r, false, FULL) {
      Shows(g, r, false, false, NoTest, FULL, base);
      DiffersBefore(c, d, [IRet], [IRet]);
      DiffersBefore(c + [IRet], d + [IRet], e, f);
    } else {
      NoClashSame(g, r, false, NoTest, FULL, base);
      ShowsRules(g, todo[1..], next);
      DiffersAfter(c + [IRet], d + [IRet], e, f);
    }
  }

  /** The text generates the intended code exactly for the patterns without a clash. */
  lemma ClashExact(g: Grammar, t: Tree, opt: bool, tt: Guard, fl: Charset, base: nat)
    ensures Gen(true, g, t, opt, tt, fl, base) == Gen(false, g, t, opt, tt, fl, base) <==> !Clash(g, t, opt, fl)
  {
    if Clash(g, t, opt, fl) {
      Shows(g, t, opt, opt, tt, fl, base);
    } else {
      NoClashSame(g, t, opt, tt, fl, base);
    }
  }
}
