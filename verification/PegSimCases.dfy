/** The cases of the proof that code agrees with its pattern. */
module PegSimCases {
  import opened PegTree
  import opened PegSemantics
  import opened PegMachine
  import opened PegCode
  import opened PegSimulation

  // ---------- building blocks ----------

  lemma Steps1(x: Ctx, a: State, b: State)
    requires Step(x.prog, x.s, a) == b
    ensures Conv(x.prog, x.s, a, b)
  {
    ConvRefl(x.prog, x.s, b);
    ConvStep(x.prog, x.s, a, b);
  }

  /** Code that reaches its end has done its duty, also under a choice. */
  lemma ReachEnd(x: Ctx, opt: bool, fl: Charset, end: nat, st: State, j: nat, l: seq<Cap>)
    requires st.St? && j <= |x.s|
    requires Conv(x.prog, x.s, st, St(end, j, st.stk, st.caps + l))
    requires opt ==> UnderChoice(x, fl, end, st)
    ensures Agrees(x, opt, fl, end, st, Ok(j, l))
  {
    if opt {
      var a := St(end, j, st.stk, st.caps + l);
      var b := St(st.stk.pc, j, st.stk.rest, st.caps + l);
      Steps1(x, a, b);
      ConvTrans(x.prog, x.s, st, a, b);
    }
  }

  /** Code that goes on, after captures `l`, from a state with the same stack. */
  lemma Continue(x: Ctx, opt: bool, fl: Charset, end: nat, st: State, st': State, l: seq<Cap>, r: Outcome)
    requires st.St? && st'.St? && st'.stk == st.stk && st'.caps == st.caps + l
    requires StackOk(st.stk, |st.caps|)
    requires Conv(x.prog, x.s, st, st')
    requires Agrees(x, opt, fl, end, st', r)
    ensures Agrees(x, opt, fl, end, st, AddCaps(l, r))
  {
    var back := Backtrack(st.stk, st.caps);
    BacktrackPrefix(st.stk, st.caps, l);
    if Conv(x.prog, x.s, st', back) { ConvTrans(x.prog, x.s, st, st', back); }
    if r.Ok? {
      assert st'.caps + r.caps == st.caps + (l + r.caps);
      var out := St(end, r.pos, st.stk, st'.caps + r.caps);
      if Conv(x.prog, x.s, st', out) { ConvTrans(x.prog, x.s, st, st', out); }
      if opt { ConvTrans(x.prog, x.s, st, st', St(st.stk.pc, r.pos, st.stk.rest, st'.caps + r.caps)); }
    }
  }

  /** A jump in front does not matter. */
  lemma AgreesAfter(x: Ctx, opt: bool, fl: Charset, end: nat, st: State, st': State, r: Outcome)
    requires st.St? && st'.St? && st'.stk == st.stk && st'.caps == st.caps
    requires StackOk(st.stk, |st.caps|)
    requires Conv(x.prog, x.s, st, st')
    requires Agrees(x, opt, fl, end, st', r)
    ensures Agrees(x, opt, fl, end, st, r)
  {
    assert st.caps + [] == st.caps;
    Continue(x, opt, fl, end, st, st', [], r);
    if r.Ok? { assert [] + r.caps == r.caps; }
  }

  // ---------- tests ----------

  lemma ClassifyMeaning(cs: Charset)
    ensures match Classify(cs)
            case EmptySet => cs == {}
            case OneChar(c) => cs == {c}
            case AllChars => cs == FULL
            case OtherSet => true
  {}

  /** A test falls through, with its guard established, exactly on the characters of the set. */
  lemma TestWorks(x: Ctx, first: FirstInfo, to: nat, st: State)
    requires st.St? && st.pos <= |x.s| && !first.empty
    requires st.pc < |x.prog| && x.prog[st.pc] == TestInstr(first.cs, to)
    ensures if Test(x.s, st.pos, first.cs)
            then Conv(x.prog, x.s, st, st.(pc := Past(st.pc, 1))) && GuardHolds(TestGuard(first), x.s, st.pos)
            else Conv(x.prog, x.s, st, st.(pc := to))
  {
    ClassifyMeaning(first.cs);
    if Test(x.s, st.pos, first.cs) {
      Steps1(x, st, st.(pc := Past(st.pc, 1)));
    } else {
      Steps1(x, st, st.(pc := to));
    }
  }

  /** The guard that a test leaves holds wherever the test lets the code run. */
  lemma GuardFromTest(s: Subject, i: nat, first: FirstInfo)
    requires first.empty || Test(s, i, first.cs)
    ensures GuardHolds(TestGuard(first), s, i)
  {
    ClassifyMeaning(first.cs);
  }

  /** An optional test in front of some code. */
  lemma TestOrSkip(x: Ctx, first: FirstInfo, to: nat, st: State)
    requires st.St? && st.pos <= |x.s|
    requires Linked(x, st.pc, TestCode(first, to))
    ensures if first.empty || Test(x.s, st.pos, first.cs)
            then Conv(x.prog, x.s, st, st.(pc := Past(st.pc, TestSize(first))))
                 && GuardHolds(TestGuard(first), x.s, st.pos)
            else Conv(x.prog, x.s, st, st.(pc := to))
  {
    if first.empty {
      ConvRefl(x.prog, x.s, st);
    } else {
      LinkedOne(x, st.pc, TestInstr(first.cs, to));
      TestWorks(x, first, to, st);
    }
  }

  // ---------- where the pieces of some code stand ----------

  lemma TestLayout(x: Ctx, base: nat, test: seq<Instr>, c1: seq<Instr>, jmp: seq<Instr>, c2: seq<Instr>)
    requires Linked(x, base, test + c1 + jmp + c2)
    ensures Linked(x, base, test) && Linked(x, Past(base, |test|), c1)
    ensures Linked(x, Past(Past(base, |test|), |c1|), jmp)
    ensures Linked(x, Past(Past(Past(base, |test|), |c1|), |jmp|), c2)
  {
    LinkedSplit(x, base, test + c1 + jmp, c2);
    LinkedSplit(x, base, test + c1, jmp);
    LinkedSplit(x, base, test, c1);
    var e := Past(Past(base, |test|), |c1|);
    assert e == Past(base, |test + c1|) && Past(e, |jmp|) == Past(base, |test + c1 + jmp|);
  }

  lemma LoopLayout(x: Ctx, base: nat, test: seq<Instr>, c: seq<Instr>, last: Instr)
    requires Linked(x, base, test + c + [last]) && !last.IOpenCall?
    ensures Linked(x, base, test) && Linked(x, Past(base, |test|), c)
    ensures var e := Past(Past(base, |test|), |c|); e < |x.prog| && x.prog[e] == last
  {
    LinkedLast(x, base, test + c, last);
    LinkedSplit(x, base, test, c);
    assert Past(Past(base, |test|), |c|) == Past(base, |test + c|);
  }

  lemma PushLayout(x: Ctx, base: nat, test: seq<Instr>, push: Instr, c1: seq<Instr>, pop: Instr, c2: seq<Instr>)
    requires Linked(x, base, test + [push] + c1 + [pop] + c2) && !push.IOpenCall? && !pop.IOpenCall?
    ensures var b := Past(base, |test|);
            var e := Past(Past(b, 1), |c1|);
            && Linked(x, base, test)
            && b < |x.prog| && x.prog[b] == push && Linked(x, Past(b, 1), c1)
            && e < |x.prog| && x.prog[e] == pop && Linked(x, Past(e, 1), c2)
  {
    TestLayout(x, base, test + [push], c1, [pop], c2);
    LinkedLast(x, base, test, push);
    assert Past(base, |test + [push]|) == Past(Past(base, |test|), 1);
    LinkedOne(x, Past(Past(Past(base, |test|), 1), |c1|), pop);
  }

  // ---------- sequences and choices ----------

  /** First part with follow set `fl1`, then the second part. */
  lemma SeqAgrees(x: Ctx, opt: bool, fl: Charset, fl1: Charset, mid: nat, end: nat, st: State, r1: Outcome, r2: Outcome)
    requires st.St? && StackOk(st.stk, |st.caps|) && (opt ==> fl == FULL)
    requires Agrees(x, false, fl1, mid, st, r1)
    requires r1.Ok? ==> Agrees(x, opt, fl, end, St(mid, r1.pos, st.stk, st.caps + r1.caps), r2)
    requires r1.Ok? && r2.Ok? && r1.pos < |x.s| && x.s[r1.pos] !in fl1
             ==> r2.pos == r1.pos && x.s[r1.pos] !in fl
    ensures Agrees(x, opt, fl, end, st, SeqOutcome(r1, r2))
  {
    if r1.Ok? {
      var st' := St(mid, r1.pos, st.stk, st.caps + r1.caps);
      if Conv(x.prog, x.s, st, st') {
        Continue(x, opt, fl, end, st, st', r1.caps, r2);
      }
    }
  }

  /** Choice with a test only: what happens once the test has let the first part run. */
  lemma ChoiceTested(x: Ctx, opt: bool, fl: Charset, e1: nat, end: nat, st: State, r1: Outcome, r2: Outcome)
    requires st.St? && st.pos < |x.s| && (opt ==> UnderChoice(x, fl, end, st))
    requires r1.Ok? ==> r1.pos <= |x.s|
    requires Agrees(x, false, fl, e1, st, r1)
    requires e1 == end || (e1 < |x.prog| && x.prog[e1] == IJmp(end))
    requires r1.Fail? && r2.Ok? ==> r2.pos == st.pos && x.s[st.pos] !in fl
    ensures Agrees(x, opt, fl, end, st, if r1.Fail? then r2 else r1)
  {
    if r1.Ok? {
      var mid := St(e1, r1.pos, st.stk, st.caps + r1.caps);
      var out := mid.(pc := end);
      if Conv(x.prog, x.s, st, mid) {
        if e1 != end { Steps1(x, mid, out); } else { ConvRefl(x.prog, x.s, mid); }
        ConvTrans(x.prog, x.s, st, mid, out);
        ReachEnd(x, opt, fl, end, st, r1.pos, r1.caps);
      }
    }
  }

  /** An optional pattern under a choice reuses that choice. */
  lemma OptionalReuses(x: Ctx, fl: Charset, end: nat, st: State, r1: Outcome)
    requires st.St? && st.pos <= |x.s| && UnderChoice(x, fl, end, st)
    requires st.pc < |x.prog| && x.prog[st.pc] == IPartialCommit(Past(st.pc, 1))
    requires var st' := St(Past(st.pc, 1), st.pos, Back(st.stk.pc, st.pos, |st.caps|, st.stk.rest), st.caps);
             Agrees(x, true, FULL, end, st', r1)
    ensures Agrees(x, true, fl, end, st, if r1.Fail? then Ok(st.pos, []) else r1)
  {
    var st' := St(Past(st.pc, 1), st.pos, Back(st.stk.pc, st.pos, |st.caps|, st.stk.rest), st.caps);
    Steps1(x, st, st');
    if r1.Ok? {
      ConvTrans(x.prog, x.s, st, st', St(st.stk.pc, r1.pos, st.stk.rest, st.caps + r1.caps));
    } else if r1.Fail? {
      assert st.caps[..|st.caps|] == st.caps && st.caps + [] == st.caps;
      ConvTrans(x.prog, x.s, st, st', St(st.stk.pc, st.pos, st.stk.rest, st.caps));
    }
  }

  /** The state after a choice instruction that resumes at `to`. */
  function Pushed(st: State, to: nat): State
    requires st.St?
  {
    St(Past(st.pc, 1), st.pos, Back(to, st.pos, |st.caps|, st.stk), st.caps)
  }

  lemma PushStep(x: Ctx, st: State, to: nat)
    requires st.St? && st.pos <= |x.s| && st.pc < |x.prog| && x.prog[st.pc] == IChoice(to)
    ensures Conv(x.prog, x.s, st, Pushed(st, to))
  {
    Steps1(x, st, Pushed(st, to));
  }

  /** A failure under a pushed choice resumes where the choice says, with nothing lost. */
  lemma PoppedState(st: State, to: nat)
    requires st.St?
    ensures var p := Pushed(st, to); Backtrack(p.stk, p.caps) == st.(pc := to)
  {
    assert st.caps[..|st.caps|] == st.caps;
  }

  /** An ordered choice with an entry for its second alternative. */
  lemma ChoiceCommits(x: Ctx, opt: bool, emptyP2: bool, fl: Charset, e1: nat, l1: nat, end: nat, st: State,
                      r1: Outcome, r2: Outcome)
    requires st.St? && st.pos <= |x.s| && StackOk(st.stk, |st.caps|)
    requires opt ==> UnderChoice(x, fl, end, st)
    requires st.pc < |x.prog| && x.prog[st.pc] == IChoice(l1)
    requires e1 < |x.prog| && x.prog[e1] == ICommit(end) && (emptyP2 ==> l1 == end)
    requires r1.Ok? ==> r1.pos <= |x.s|
    requires Agrees(x, emptyP2, FULL, e1, Pushed(st, l1), r1)
    requires r1.Fail? ==> Agrees(x, opt, fl, end, st.(pc := l1), r2)
    ensures Agrees(x, opt, fl, end, st, if r1.Fail? then r2 else r1)
  {
    var p := Pushed(st, l1);
    PushStep(x, st, l1);
    if r1.Ok? {
      var out := St(end, r1.pos, st.stk, st.caps + r1.caps);
      if !emptyP2 {
        var mid := St(e1, r1.pos, p.stk, st.caps + r1.caps);
        Steps1(x, mid, out);
        ConvTrans(x.prog, x.s, p, mid, out);
      }
      ConvTrans(x.prog, x.s, st, p, out);
      ReachEnd(x, opt, fl, end, st, r1.pos, r1.caps);
    } else if r1.Fail? {
      PoppedState(st, l1);
      ConvTrans(x.prog, x.s, st, p, st.(pc := l1));
      AgreesAfter(x, opt, fl, end, st, st.(pc := l1), r2);
    }
  }

  /** The whole choice: a test that lets the first alternative run, or jumps to the second. */
  lemma PushAgrees(x: Ctx, opt: bool, emptyP2: bool, fl: Charset, enter: bool, b0: nat, e1: nat, l1: nat, end: nat,
                   st: State, r1: Outcome, r2: Outcome)
    requires st.St? && st.pos <= |x.s| && StackOk(st.stk, |st.caps|)
    requires opt ==> UnderChoice(x, fl, end, st)
    requires b0 < |x.prog| && x.prog[b0] == IChoice(l1)
    requires e1 < |x.prog| && x.prog[e1] == ICommit(end) && (emptyP2 ==> l1 == end)
    requires r1.Ok? ==> r1.pos <= |x.s|
    requires Conv(x.prog, x.s, st, st.(pc := if enter then b0 else l1))
    requires enter ==> Agrees(x, emptyP2, FULL, e1, Pushed(st.(pc := b0), l1), r1)
    requires !enter ==> !r1.Ok?
    requires Agrees(x, opt, fl, end, st.(pc := l1), r2)
    ensures Agrees(x, opt, fl, end, st, if r1.Fail? then r2 else r1)
  {
    if enter {
      ChoiceCommits(x, opt, emptyP2, fl, e1, l1, end, st.(pc := b0), r1, r2);
      AgreesAfter(x, opt, fl, end, st, st.(pc := b0), if r1.Fail? then r2 else r1);
    } else {
      AgreesAfter(x, opt, fl, end, st, st.(pc := l1), r2);
    }
  }

  // ---------- repetitions ----------

  /** The outcome of a repetition whose body has outcome `r1` and whose rest has `r2`. */
  function LoopOutcome(i: nat, r1: Outcome, r2: Outcome): Outcome {
    if r1.Fail? then Ok(i, []) else SeqOutcome(r1, r2)
  }

  /** One round of a loop that is protected by a test only. */
  lemma LoopTested(x: Ctx, opt: bool, fl: Charset, base: nat, e: nat, end: nat, st: State, r1: Outcome, r2: Outcome)
    requires st.St? && st.pos < |x.s| && StackOk(st.stk, |st.caps|) && (opt ==> fl == FULL)
    requires Agrees(x, false, FULL, e, st, r1)
    requires e < |x.prog| && x.prog[e] == IJmp(base)
    requires r1.Ok? ==> r1.pos <= |x.s|
    requires r1.Ok? ==> Agrees(x, opt, fl, end, St(base, r1.pos, st.stk, st.caps + r1.caps), r2)
    requires r1.Fail? ==> x.s[st.pos] !in fl
    ensures Agrees(x, opt, fl, end, st, LoopOutcome(st.pos, r1, r2))
  {
    if r1.Ok? {
      var mid := St(e, r1.pos, st.stk, st.caps + r1.caps);
      Steps1(x, mid, mid.(pc := base));
      ConvTrans(x.prog, x.s, st, mid, mid.(pc := base));
      Continue(x, opt, fl, end, st, mid.(pc := base), r1.caps, r2);
    }
  }

  /** The whole round: a test that lets the body run, or leaves the loop. */
  lemma LoopRound(x: Ctx, opt: bool, fl: Charset, enter: bool, e: nat, st: State, r1: Outcome, r2: Outcome)
    requires st.St? && st.pos <= |x.s| && StackOk(st.stk, |st.caps|)
    requires opt ==> UnderChoice(x, fl, Past(e, 1), st)
    requires Conv(x.prog, x.s, st, st.(pc := if enter then Past(st.pc, 1) else Past(e, 1)))
    requires e < |x.prog| && x.prog[e] == IJmp(st.pc)
    requires r1.Ok? ==> r1.pos <= |x.s|
    requires !enter ==> !r1.Ok?
    requires enter ==> st.pos < |x.s| && Agrees(x, false, FULL, e, st.(pc := Past(st.pc, 1)), r1)
    requires enter && r1.Ok? ==> Agrees(x, opt, fl, Past(e, 1), St(st.pc, r1.pos, st.stk, st.caps + r1.caps), r2)
    requires enter && r1.Fail? ==> x.s[st.pos] !in fl
    ensures Agrees(x, opt, fl, Past(e, 1), st, LoopOutcome(st.pos, r1, r2))
  {
    if enter {
      LoopTested(x, opt, fl, st.pc, e, Past(e, 1), st.(pc := Past(st.pc, 1)), r1, r2);
      AgreesAfter(x, opt, fl, Past(e, 1), st, st.(pc := Past(st.pc, 1)), LoopOutcome(st.pos, r1, r2));
    } else if r1.Fail? {
      assert st.caps + [] == st.caps;
      ReachEnd(x, opt, fl, Past(e, 1), st, st.pos, []);
    }
  }

  /** The head of a loop that keeps one choice on the stack: it leaves to `out`. */
  function LoopHead(l1: nat, out: nat, i: nat, rest: Stack, caps: seq<Cap>): State {
    St(l1, i, Back(out, i, |caps|, rest), caps)
  }

  /** One round of a loop that ends in a partial commit. */
  lemma LoopCommits(x: Ctx, l1: nat, out: nat, e: nat, i: nat, rest: Stack, caps: seq<Cap>, r1: Outcome, r2: Outcome)
    requires Agrees(x, false, FULL, e, LoopHead(l1, out, i, rest, caps), r1)
    requires e < |x.prog| && x.prog[e] == IPartialCommit(l1)
    requires r1.Ok? ==> r1.pos <= |x.s|
    requires r1.Ok? && r2.Ok? ==>
               Conv(x.prog, x.s, LoopHead(l1, out, r1.pos, rest, caps + r1.caps),
                    St(out, r2.pos, rest, caps + r1.caps + r2.caps))
    ensures var r := LoopOutcome(i, r1, r2);
            r.Ok? ==> Conv(x.prog, x.s, LoopHead(l1, out, i, rest, caps), St(out, r.pos, rest, caps + r.caps))
  {
    var st := LoopHead(l1, out, i, rest, caps);
    if r1.Fail? {
      assert caps[..|caps|] == caps && caps + [] == caps;
    } else if r1.Ok? && r2.Ok? {
      var mid := St(e, r1.pos, st.stk, caps + r1.caps);
      var again := LoopHead(l1, out, r1.pos, rest, caps + r1.caps);
      Steps1(x, mid, again);
      ConvTrans(x.prog, x.s, st, mid, again);
      assert caps + r1.caps + r2.caps == caps + (r1.caps + r2.caps);
      ConvTrans(x.prog, x.s, st, again, St(out, r2.pos, rest, caps + r1.caps + r2.caps));
    }
  }

  /** A repetition of a charset is a span. */
  lemma {:induction false} SpanMeaning(x: Ctx, t: Tree, i: nat, f: nat)
    requires i <= |x.s| && t.Rep? && IsCharset(t.p)
    ensures var r := Meaning(x, t, i, f); r == Diverge || r == Ok(Span(x.s, i, ToCharset(t.p)), [])
    decreases f
  {
    if f > 1 {
      var r := Meaning(x, t.p, i, f - 1);
      RunCases(Compiled, x.g, t.p, x.s, i, f - 1);
      RunCases(Compiled, x.g, t, x.s, i, f);
      if r.Ok? { SpanMeaning(x, t, i + 1, f - 1); }
    } else if f == 1 {
      RunCases(Compiled, x.g, t, x.s, i, f);
    }
  }

  // ---------- predicates ----------

  /** A negative predicate with an entry that resumes after it. */
  lemma NotInverts(x: Ctx, opt: bool, fl: Charset, e: nat, end: nat, st: State, r1: Outcome)
    requires st.St? && st.pos <= |x.s| && StackOk(st.stk, |st.caps|)
    requires opt ==> UnderChoice(x, fl, end, st)
    requires st.pc < |x.prog| && x.prog[st.pc] == IChoice(end)
    requires e < |x.prog| && x.prog[e] == IFailTwice
    requires r1.Ok? ==> r1.pos <= |x.s|
    requires Agrees(x, false, FULL, e, Pushed(st, end), r1)
    ensures r1.Fail? ==> Agrees(x, opt, fl, end, st, Ok(st.pos, []))
    ensures r1.Ok? ==> Agrees(x, opt, fl, end, st, Fail)
  {
    var p := Pushed(st, end);
    PushStep(x, st, end);
    if r1.Fail? {
      PoppedState(st, end);
      ConvTrans(x.prog, x.s, st, p, st.(pc := end));
      assert st.caps + [] == st.caps;
      ReachEnd(x, opt, fl, end, st, st.pos, []);
    } else if r1.Ok? {
      var mid := St(e, r1.pos, p.stk, st.caps + r1.caps);
      BacktrackPrefix(st.stk, st.caps, r1.caps);
      Steps1(x, mid, Backtrack(st.stk, st.caps));
      ConvTrans(x.prog, x.s, p, mid, Backtrack(st.stk, st.caps));
      ConvTrans(x.prog, x.s, st, p, Backtrack(st.stk, st.caps));
    }
  }

  /** A positive predicate with an entry that holds the state to go back to. */
  lemma AndRestores(x: Ctx, opt: bool, fl: Charset, e: nat, l1: nat, end: nat, st: State, r1: Outcome)
    requires st.St? && st.pos <= |x.s| && StackOk(st.stk, |st.caps|)
    requires opt ==> UnderChoice(x, fl, end, st)
    requires st.pc < |x.prog| && x.prog[st.pc] == IChoice(l1)
    requires e < |x.prog| && x.prog[e] == IBackCommit(end)
    requires l1 < |x.prog| && x.prog[l1] == IFail
    requires r1.Ok? ==> r1.pos <= |x.s|
    requires Agrees(x, false, FULL, e, Pushed(st, l1), r1)
    ensures r1.Fail? ==> Agrees(x, opt, fl, end, st, Fail)
    ensures r1.Ok? ==> Agrees(x, opt, fl, end, st, Ok(st.pos, []))
  {
    var p := Pushed(st, l1);
    PushStep(x, st, l1);
    if r1.Fail? {
      PoppedState(st, l1);
      Steps1(x, st.(pc := l1), Backtrack(st.stk, st.caps));
      ConvTrans(x.prog, x.s, p, st.(pc := l1), Backtrack(st.stk, st.caps));
      ConvTrans(x.prog, x.s, st, p, Backtrack(st.stk, st.caps));
    } else if r1.Ok? {
      var mid := St(e, r1.pos, p.stk, st.caps + r1.caps);
      assert (st.caps + r1.caps)[..|st.caps|] == st.caps && st.caps + [] == st.caps;
      Steps1(x, mid, st.(pc := end));
      ConvTrans(x.prog, x.s, p, mid, st.(pc := end));
      ConvTrans(x.prog, x.s, st, p, st.(pc := end));
      ReachEnd(x, opt, fl, end, st, st.pos, []);
    }
  }

  /** A positive predicate on a pattern of length `n`, undone by a step back. */
  lemma AndSteps(x: Ctx, opt: bool, fl: Charset, e: nat, st: State, n: nat, r1: Outcome, caps: seq<Cap>)
    requires st.St? && st.pos <= |x.s| && (opt ==> UnderChoice(x, fl, Past(e, if n > 0 then 1 else 0), st))
    requires n > 0 ==> e < |x.prog| && x.prog[e] == IBehind(n)
    requires Agrees(x, false, FULL, e, st, r1)
    requires r1.Ok? ==> r1.pos == st.pos + n <= |x.s| && r1.caps == caps
    ensures r1.Fail? ==> Agrees(x, opt, fl, Past(e, if n > 0 then 1 else 0), st, Fail)
    ensures r1.Ok? ==> Agrees(x, opt, fl, Past(e, if n > 0 then 1 else 0), st, Ok(st.pos, caps))
  {
    if r1.Ok? {
      var mid := St(e, r1.pos, st.stk, st.caps + caps);
      var end := Past(e, if n > 0 then 1 else 0);
      if n > 0 {
        Steps1(x, mid, mid.(pc := end, pos := st.pos));
        ConvTrans(x.prog, x.s, st, mid, mid.(pc := end, pos := st.pos));
      }
      ReachEnd(x, opt, fl, end, st, st.pos, caps);
    }
  }

  /** A look-behind: a step back by `n`, then a pattern of that length. */
  lemma BehindSteps(x: Ctx, opt: bool, fl: Charset, n: nat, end: nat, st: State, k: nat, r1: Outcome)
    requires st.St? && st.pos <= |x.s| && StackOk(st.stk, |st.caps|)
    requires opt ==> UnderChoice(x, fl, end, st)
    requires st.pc < |x.prog| && x.prog[st.pc] == IBehind(n)
    requires if st.pos < n then r1 == Fail
             else k == st.pos - n && Agrees(x, false, FULL, end, st.(pc := Past(st.pc, 1), pos := k), r1)
    requires r1.Ok? ==> r1.pos == st.pos
    ensures Agrees(x, opt, fl, end, st, r1)
  {
    if st.pos < n {
      Steps1(x, st, Backtrack(st.stk, st.caps));
    } else {
      var st1 := st.(pc := Past(st.pc, 1), pos := k);
      Steps1(x, st, st1);
      AgreesAfter(x, false, FULL, end, st, st1, r1);
      if r1.Ok? { ReachEnd(x, opt, fl, end, st, st.pos, r1.caps); }
    }
  }

  // ---------- one instruction after a pattern ----------

  /** A pattern followed by an instruction that always goes on to the next address. */
  lemma ThenStep(x: Ctx, opt: bool, fl: Charset, fl1: Charset, e: nat, st: State, r1: Outcome, r: Outcome)
    requires st.St? && (opt ==> UnderChoice(x, fl, Past(e, 1), st)) && (fl1 == FULL || fl1 == fl)
    requires Agrees(x, false, fl1, e, st, r1)
    requires r1.Fail? ==> r == Fail
    requires r1.Diverge? ==> r == Diverge
    requires r1.Ok? ==> r.Ok? && r.pos <= |x.s| && (fl1 == FULL || r.pos == r1.pos)
    requires r1.Ok? ==> Step(x.prog, x.s, St(e, r1.pos, st.stk, st.caps + r1.caps))
                        == St(Past(e, 1), r.pos, st.stk, st.caps + r.caps)
    ensures Agrees(x, opt, fl, Past(e, 1), st, r)
  {
    if r1.Ok? {
      var mid := St(e, r1.pos, st.stk, st.caps + r1.caps);
      var out := St(Past(e, 1), r.pos, st.stk, st.caps + r.caps);
      if Conv(x.prog, x.s, st, mid) {
        Steps1(x, mid, out);
        ConvTrans(x.prog, x.s, st, mid, out);
        ReachEnd(x, opt, fl, Past(e, 1), st, r.pos, r.caps);
      }
    }
  }

  // ---------- calls ----------

  /** Following jumps does not change the future. */
  lemma {:induction false} JumpConv(x: Ctx, st: State, n: nat)
    requires st.St? && st.pos <= |x.s|
    ensures Conv(x.prog, x.s, st, st.(pc := JumpN(x.prog, 0, st.pc, n)))
    decreases n
  {
    if n > 0 && st.pc < |x.prog| && x.prog[st.pc].IJmp? {
      JumpConv(x, st.(pc := x.prog[st.pc].to), n - 1);
      ConvStep(x.prog, x.s, st, st.(pc := JumpN(x.prog, 0, st.pc, n)));
    } else {
      ConvRefl(x.prog, x.s, st);
    }
  }

  /** A called rule, which ends in a return at `e`, runs on top of the return address. */
  lemma CallReturns(x: Ctx, st: State, to: nat, e: nat, r: Outcome)
    requires st.St? && st.pos <= |x.s| && st.pc < |x.prog| && x.prog[st.pc] == ICall(to)
    requires e < |x.prog| && x.prog[e] == IRet && (r.Ok? ==> r.pos <= |x.s|)
    requires Agrees(x, false, FULL, e, St(to, st.pos, Ret(Past(st.pc, 1), st.stk), st.caps), r)
    ensures Agrees(x, false, FULL, Past(st.pc, 1), st, r)
  {
    var st' := St(to, st.pos, Ret(Past(st.pc, 1), st.stk), st.caps);
    Steps1(x, st, st');
    if r.Ok? {
      var mid := St(e, r.pos, st'.stk, st.caps + r.caps);
      var out := St(Past(st.pc, 1), r.pos, st.stk, st.caps + r.caps);
      Steps1(x, mid, out);
      ConvTrans(x.prog, x.s, st', mid, out);
      ConvTrans(x.prog, x.s, st, st', out);
    } else if r.Fail? {
      ConvTrans(x.prog, x.s, st, st', Backtrack(st.stk, st.caps));
    }
  }

  /** A call in tail position may be a jump: the rule's return is the caller's. */
  lemma TailCallReturns(x: Ctx, st: State, to: nat, e: nat, r: Outcome)
    requires st.St? && st.pos <= |x.s| && st.pc < |x.prog| && x.prog[st.pc] == IJmp(to)
    requires JumpsToRet(x.prog, 0, Past(st.pc, 1))
    requires e < |x.prog| && x.prog[e] == IRet && (r.Ok? ==> r.pos <= |x.s|)
    requires Agrees(x, false, FULL, e, st.(pc := to), r)
    ensures Agrees(x, false, FULL, Past(st.pc, 1), st, r)
  {
    Steps1(x, st, st.(pc := to));
    if r.Ok? {
      var mid := St(e, r.pos, st.stk, st.caps + r.caps);
      ConvTrans(x.prog, x.s, st, st.(pc := to), mid);
      var n: nat :| RetAt(x.prog, 0, JumpN(x.prog, 0, Past(st.pc, 1), n));
      var out := mid.(pc := Past(st.pc, 1));
      var ret := mid.(pc := JumpN(x.prog, 0, Past(st.pc, 1), n));
      JumpConv(x, out, n);
      var after := Step(x.prog, x.s, mid);
      Steps1(x, ret, after);
      ConvTrans(x.prog, x.s, out, ret, after);
      ConvSym(x.prog, x.s, out, after);
      Steps1(x, mid, after);
      ConvTrans(x.prog, x.s, mid, after, out);
      ConvTrans(x.prog, x.s, st, mid, out);
    } else if r.Fail? {
      ConvTrans(x.prog, x.s, st, st.(pc := to), Backtrack(st.stk, st.caps));
    }
  }

  // ---------- leaves ----------

  lemma CharsetStep(x: Ctx, cs: Charset, ins: Instr, tt: Guard, st: State)
    requires st.St? && st.pos <= |x.s| && st.pc < |x.prog| && x.prog[st.pc] == ins
    requires GuardHolds(tt, x.s, st.pos)
    requires ins == CharsetInstr(cs, tt) || (cs == FULL && ins == IAny)
          || (exists c :: cs == {c} && ins == CharInstr(c, tt))
    ensures Step(x.prog, x.s, st) == Consume(x.s, st, cs)
  {
    ClassifyMeaning(cs);
  }

  lemma SimCharset(x: Ctx, cs: Charset, opt: bool, tt: Guard, fl: Charset, st: State, ins: Instr)
    requires st.St? && st.pos <= |x.s| && GuardHolds(tt, x.s, st.pos)
    requires InPlace(x, opt, fl, st, [ins]) && !ins.IOpenCall?
    requires ins == CharsetInstr(cs, tt) || (cs == FULL && ins == IAny)
          || (exists c :: cs == {c} && ins == CharInstr(c, tt))
    ensures Agrees(x, opt, fl, Past(st.pc, 1), st, RunCharset(cs, x.s, st.pos))
  {
    LinkedOne(x, st.pc, ins);
    CharsetStep(x, cs, ins, tt, st);
    if Test(x.s, st.pos, cs) {
      var b := St(Past(st.pc, 1), st.pos + 1, st.stk, st.caps + []);
      Steps1(x, st, b);
      ReachEnd(x, opt, fl, Past(st.pc, 1), st, st.pos + 1, []);
    } else {
      Steps1(x, st, Backtrack(st.stk, st.caps));
    }
  }

  lemma SimTrue(x: Ctx, opt: bool, fl: Charset, st: State)
    requires st.St? && st.pos <= |x.s| && InPlace(x, opt, fl, st, [])
    ensures Agrees(x, opt, fl, Past(st.pc, 0), st, Ok(st.pos, []))
  {
    ConvRefl(x.prog, x.s, st);
    assert st.caps + [] == st.caps;
    ReachEnd(x, opt, fl, st.pc, st, st.pos, []);
  }

  lemma SimFalse(x: Ctx, opt: bool, fl: Charset, st: State)
    requires st.St? && st.pos <= |x.s| && InPlace(x, opt, fl, st, [IFail])
    ensures Agrees(x, opt, fl, Past(st.pc, 1), st, Fail)
  {
    LinkedOne(x, st.pc, IFail);
    Steps1(x, st, Backtrack(st.stk, st.caps));
  }
}
