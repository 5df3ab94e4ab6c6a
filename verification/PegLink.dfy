/**
 Linking the rules of a grammar (`codegrammar` and `correctcalls` of nmap/lpeg.c): after
 the open calls are corrected, every call site leads to the code of its rule, and a call
 was turned into a jump only where a return follows.
 */
module PegLink {
  import opened PegTree
  import opened PegSemantics
  import opened PegMachine
  import opened PegCode
  import opened PegSimulation

  /** `r` differs from `code` at open calls only. */
  ghost predicate Refines(code: seq<Instr>, r: seq<Instr>) {
    |r| == |code| && forall q: nat | q < |code| :: code[q].IOpenCall? || r[q] == code[q]
  }

  /** A path of jumps to a return stays one. */
  lemma {:induction false} JumpsStay(code: seq<Instr>, r: seq<Instr>, org: nat, pc: nat, n: nat)
    requires Refines(code, r) && RetAt(code, org, JumpN(code, org, pc, n))
    ensures JumpN(r, org, pc, n) == JumpN(code, org, pc, n)
    decreases n
  {
    if n > 0 && org <= pc < org + |code| && code[pc - org].IJmp? {
      JumpsStay(code, r, org, code[pc - org].to, n - 1);
    }
  }

  lemma JumpsToRetStays(code: seq<Instr>, r: seq<Instr>, org: nat, pc: nat)
    requires Refines(code, r) && JumpsToRet(code, org, pc)
    ensures JumpsToRet(r, org, pc)
  {
    var n: nat :| RetAt(code, org, JumpN(code, org, pc, n));
    JumpsStay(code, r, org, pc, n);
    assert RetAt(r, org, JumpN(r, org, pc, n));
  }

  /** What a corrected open call looks like in the corrected code `r`. */
  ghost predicate Corrected(code: seq<Instr>, r: seq<Instr>, org: nat, pos: seq<nat>, q: nat)
    requires q < |code| == |r|
  {
    code[q].IOpenCall? && code[q].rule < |pos| ==>
      || r[q] == ICall(pos[code[q].rule])
      || (r[q] == IJmp(pos[code[q].rule]) && JumpsToRet(r, org, org + q + 1))
  }

  /** `correctcalls` changes open calls only, and corrects each of them. */
  lemma {:induction false} LinkCorrects(code: seq<Instr>, org: nat, pos: seq<nat>, k: nat)
    requires k <= |code|
    ensures var r := Link(code, org, pos, k);
            && Refines(code, r)
            && (forall q: nat | q < k :: r[q] == code[q])
            && (forall q: nat | k <= q < |code| :: Corrected(code, r, org, pos, q))
    decreases |code| - k
  {
    if k < |code| {
      var c1 := LinkOne(code, org, pos, k);
      var r := Link(code, org, pos, k);
      LinkCorrects(c1, org, pos, k + 1);
      assert r == Link(c1, org, pos, k + 1);
      forall q: nat | k <= q < |code| ensures Corrected(code, r, org, pos, q) {
        if q > k {
          assert Corrected(c1, r, org, pos, q);
        } else if JumpsToRet(code, org, org + k + 1) {
          assert Refines(code, r);
          JumpsToRetStays(code, r, org, org + k + 1);
        }
      }
    }
  }

  // ---------- calls name rules ----------

  /** Open calls in the code name rules below `n`. */
  ghost predicate CallsBelow(code: seq<Instr>, n: nat) {
    forall k: nat :: CallBelow(code, n, k)
  }

  predicate CallBelow(code: seq<Instr>, n: nat, k: nat) {
    k < |code| && code[k].IOpenCall? ==> code[k].rule < n
  }

  lemma CallsBelowAppend(a: seq<Instr>, b: seq<Instr>, n: nat)
    requires CallsBelow(a, n) && CallsBelow(b, n)
    ensures CallsBelow(a + b, n)
  {
    var ab := a + b;
    forall k: nat ensures CallBelow(ab, n, k) {
      assert CallBelow(a, n, k);
      if k >= |a| { assert CallBelow(b, n, k - |a|); }
    }
  }

  lemma CallsBelowShort(code: seq<Instr>, n: nat)
    requires forall k: nat | k < |code| :: !code[k].IOpenCall?
    ensures CallsBelow(code, n)
  {}

  lemma CallsBelowTest(first: FirstInfo, to: nat, next: Instr, n: nat)
    requires !next.IOpenCall?
    ensures CallsBelow(TestCode(first, to) + [next], n)
  {
    CallsBelowShort(TestCode(first, to), n);
    CallsBelowShort([next], n);
    CallsBelowAppend(TestCode(first, to), [next], n);
  }

  lemma CallsBelow3(a: seq<Instr>, b: seq<Instr>, c: seq<Instr>, n: nat)
    requires CallsBelow(a, n) && CallsBelow(b, n) && CallsBelow(c, n)
    ensures CallsBelow(a + b + c, n)
  {
    CallsBelowAppend(a, b, n);
    CallsBelowAppend(a + b, c, n);
  }

  lemma CallsBelow4(a: seq<Instr>, b: seq<Instr>, c: seq<Instr>, d: seq<Instr>, n: nat)
    requires CallsBelow(a, n) && CallsBelow(b, n) && CallsBelow(c, n) && CallsBelow(d, n)
    ensures CallsBelow(a + b + c + d, n)
  {
    CallsBelow3(a, b, c, n);
    CallsBelowAppend(a + b + c, d, n);
  }

  /** The code of a well-formed tree calls rules of its own grammar only. */
  lemma {:induction false} GenCalls(lo: bool, g: Grammar, t: Tree, opt: bool, tt: Guard, fl: Charset, base: nat)
    requires WellFormed(g, t)
    ensures CallsBelow(Gen(lo, g, t, opt, tt, fl, base), |g|)
    decreases t, 2
  {
    GenCases(lo, g, t, opt, tt, fl, base);
    match t
    case Seq(p1, p2) =>
      var c1 := Gen(lo, g, p1, false, tt, SeqFollow(g, t, fl), base);
      GenCalls(lo, g, p1, false, tt, SeqFollow(g, t, fl), base);
      GenCalls(lo, g, p2, opt, SeqGuard(g, t, tt), fl, Past(base, |c1|));
      CallsBelowAppend(c1, Gen(lo, g, p2, opt, SeqGuard(g, t, tt), fl, Past(base, |c1|)), |g|);
    case Choice(_, _) =>
      GenCallsChoiceTest(lo, g, t, opt, fl, base);
      GenCallsChoiceReuse(lo, g, t, base);
      GenCallsChoicePush(lo, g, t, opt, fl, base);
    case Rep(_) =>
      CallsBelowShort([ISpan(if IsCharset(t.p) then ToCharset(t.p) else {})], |g|);
      GenCallsRep(lo, g, t, opt, base);
    case Behind(n, p) =>
      GenCalls(lo, g, p, false, NoTest, FULL, Past(base, 1));
      CallsBelowShort([IBehind(n)], |g|);
      CallsBelowAppend([IBehind(n)], Gen(lo, g, p, false, NoTest, FULL, Past(base, 1)), |g|);
    case Not(_) => GenCallsNot(lo, g, t, base);
    case And(_) => GenCallsAnd(lo, g, t, tt, base);
    case Capture(_, _, _) => GenCallsCapture(lo, g, t, tt, fl, base);
    case Rules(_) => GenCallsGrammar(lo, g, t, base);
    case Call(n) => assert forall k: nat :: CallBelow([IOpenCall(n)], |g|, k);
    case _ => CallsBelowShort(Gen(lo, g, t, opt, tt, fl, base), |g|);
  }

  lemma {:induction false} GenCallsNot(lo: bool, g: Grammar, t: Tree, base: nat)
    requires WellFormed(g, t) && t.Not?
    ensures CallsBelow(GenNot(lo, g, t, base), |g|)
    decreases t, 0
  {
    var first := First(g, t.p, FULL);
    var b := Past(Past(base, TestSize(first)), 1);
    var c := Gen(lo, g, t.p, false, NoTest, FULL, b);
    var l1 := Past(Past(b, |c|), 1);
    GenCalls(lo, g, t.p, false, NoTest, FULL, b);
    CallsBelowTest(first, b, IFail, |g|);
    CallsBelowTest(first, l1, IChoice(l1), |g|);
    CallsBelowShort([IFailTwice], |g|);
    CallsBelow3(TestCode(first, l1) + [IChoice(l1)], c, [IFailTwice], |g|);
  }

  lemma {:induction false} GenCallsAnd(lo: bool, g: Grammar, t: Tree, tt: Guard, base: nat)
    requires WellFormed(g, t) && t.And?
    ensures CallsBelow(GenAnd(lo, g, t, tt, base), |g|)
    decreases t, 0
  {
    if ShortAnd(g, t.p) {
      var n := FixedLen(g, t.p);
      GenCalls(lo, g, t.p, false, tt, FULL, base);
      CallsBelowShort(BackCode(n), |g|);
      CallsBelowAppend(Gen(lo, g, t.p, false, tt, FULL, base), BackCode(n), |g|);
    } else {
      var c := Gen(lo, g, t.p, false, tt, FULL, Past(base, 1));
      var l1 := Past(Past(Past(base, 1), |c|), 1);
      var last := [IBackCommit(Past(l1, 1)), IFail];
      GenCalls(lo, g, t.p, false, tt, FULL, Past(base, 1));
      CallsBelowShort([IChoice(l1)], |g|);
      CallsBelowShort(last, |g|);
      CallsBelow3([IChoice(l1)], c, last, |g|);
    }
  }

  lemma {:induction false} GenCallsCapture(lo: bool, g: Grammar, t: Tree, tt: Guard, fl: Charset, base: nat)
    requires WellFormed(g, t) && t.Capture?
    ensures CallsBelow(GenCapture(lo, g, t, tt, fl, base), |g|)
    decreases t, 0
  {
    if ShortCapture(g, t.p) {
      var last := [IFullCapture(t.kind, t.key, FixedLen(g, t.p))];
      GenCalls(lo, g, t.p, false, tt, fl, base);
      CallsBelowShort(last, |g|);
      CallsBelowAppend(Gen(lo, g, t.p, false, tt, fl, base), last, |g|);
    } else {
      GenCalls(lo, g, t.p, false, tt, fl, Past(base, 1));
      CallsBelowShort([IOpenCapture(t.kind, t.key)], |g|);
      CallsBelowShort([ICloseCapture], |g|);
      CallsBelow3([IOpenCapture(t.kind, t.key)], Gen(lo, g, t.p, false, tt, fl, Past(base, 1)), [ICloseCapture], |g|);
    }
  }

  lemma {:induction false} GenCallsChoiceTest(lo: bool, g: Grammar, t: Tree, opt: bool, fl: Charset, base: nat)
    requires WellFormed(g, t) && t.Choice?
    ensures CallsBelow(GenChoiceTest(lo, g, t, opt, fl, base), |g|)
    decreases t, 0
  {
    var head := First(g, t.p1, FULL).(empty := false);
    var b1 := Past(base, 1);
    var c1 := Gen(lo, g, t.p1, false, TestGuard(head), fl, b1);
    var l1 := Past(Past(b1, |c1|), SkipSize(t.p2));
    var c2 := Gen(lo, g, t.p2, opt, NoTest, fl, l1);
    var skip := SkipCode(t.p2, Past(l1, |c2|));
    GenCalls(lo, g, t.p1, false, TestGuard(head), fl, b1);
    GenCalls(lo, g, t.p2, opt, NoTest, fl, l1);
    CallsBelowShort(TestCode(head, l1), |g|);
    CallsBelowShort(skip, |g|);
    CallsBelow4(TestCode(head, l1), c1, skip, c2, |g|);
  }

  lemma {:induction false} GenCallsChoiceReuse(lo: bool, g: Grammar, t: Tree, base: nat)
    requires WellFormed(g, t) && t.Choice?
    ensures CallsBelow(GenChoiceReuse(lo, g, t, base), |g|)
    decreases t, 0
  {
    var b1 := Past(base, 1);
    GenCalls(lo, g, t.p1, true, NoTest, FULL, b1);
    CallsBelowShort([IPartialCommit(b1)], |g|);
    CallsBelowAppend([IPartialCommit(b1)], Gen(lo, g, t.p1, true, NoTest, FULL, b1), |g|);
  }

  lemma {:induction false} GenCallsChoicePush(lo: bool, g: Grammar, t: Tree, opt: bool, fl: Charset, base: nat)
    requires WellFormed(g, t) && t.Choice?
    ensures CallsBelow(GenChoicePush(lo, g, t, opt, fl, base), |g|)
    decreases t, 0
  {
    var first := First(g, t.p1, FULL);
    var b1 := Past(Past(base, TestSize(first)), 1);
    var c1 := Gen(lo, g, t.p1, t.p2.True?, TestGuard(first), FULL, b1);
    var l1 := Past(Past(b1, |c1|), 1);
    var c2 := Gen(lo, g, t.p2, opt, NoTest, fl, l1);
    GenCalls(lo, g, t.p1, t.p2.True?, TestGuard(first), FULL, b1);
    GenCalls(lo, g, t.p2, opt, NoTest, fl, l1);
    CallsBelowTest(first, l1, IChoice(l1), |g|);
    CallsBelowShort([ICommit(Past(l1, |c2|))], |g|);
    CallsBelow4(TestCode(first, l1) + [IChoice(l1)], c1, [ICommit(Past(l1, |c2|))], c2, |g|);
  }

  lemma {:induction false} GenCallsRep(lo: bool, g: Grammar, t: Tree, opt: bool, base: nat)
    requires WellFormed(g, t) && t.Rep?
    ensures CallsBelow(GenRepTest(lo, g, t, opt, base), |g|)
    ensures CallsBelow(GenRepPush(lo, g, t, opt, base), |g|)
    decreases t, 1
  {
    GenCallsRepTest(lo, g, t, opt, base);
    var first := First(g, t.p, FULL);
    var l1 := Past(Past(base, TestSize(first)), 1);
    var c := Gen(lo, g, t.p, false, NoTest, FULL, l1);
    var l2 := Past(Past(l1, |c|), 1);
    var next := if opt then IPartialCommit(l1) else IChoice(l2);
    GenCalls(lo, g, t.p, false, NoTest, FULL, l1);
    CallsBelowTest(first, l2, next, |g|);
    CallsBelowShort([IPartialCommit(l1)], |g|);
    CallsBelow3(TestCode(first, l2) + [next], c, [IPartialCommit(l1)], |g|);
  }

  lemma {:induction false} GenCallsRepTest(lo: bool, g: Grammar, t: Tree, opt: bool, base: nat)
    requires WellFormed(g, t) && t.Rep?
    ensures CallsBelow(GenRepTest(lo, g, t, opt, base), |g|)
    decreases t, 0
  {
    var head := First(g, t.p, FULL).(empty := false);
    var c := Gen(lo, g, t.p, lo && opt, TestGuard(head), FULL, Past(base, 1));
    var l2 := Past(Past(Past(base, 1), |c|), 1);
    GenCalls(lo, g, t.p, lo && opt, TestGuard(head), FULL, Past(base, 1));
    CallsBelowShort(TestCode(head, l2), |g|);
    CallsBelowShort([IJmp(base)], |g|);
    CallsBelow3(TestCode(head, l2), c, [IJmp(base)], |g|);
  }

  lemma {:induction false} GenCallsGrammar(lo: bool, g: Grammar, t: Tree, base: nat)
    requires WellFormed(g, t) && t.Rules?
    ensures CallsBelow(GenGrammar(lo, t, base), |g|)
    decreases t, 0
  {
    var org := Past(base, 2);
    var body := GenRules(lo, t.rules, t.rules, org);
    var pos := RulePositions(lo, t.rules, t.rules, org);
    GenCallsRules(lo, t.rules, t.rules, org);
    LinkLeavesNoCalls(body, org, pos, |g|);
    var head := [ICall(org), IJmp(Past(org, |body|))];
    CallsBelowShort(head, |g|);
    CallsBelowAppend(head, Link(body, org, pos, 0), |g|);
  }

  lemma {:induction false} GenCallsRules(lo: bool, g: Grammar, todo: seq<Tree>, base: nat)
    requires forall r | r in todo :: WellFormed(g, r)
    ensures CallsBelow(GenRules(lo, g, todo, base), |g|)
    decreases todo, 0
  {
    if todo != [] {
      var c := Gen(lo, g, todo[0], false, NoTest, FULL, base) + [IRet];
      GenCalls(lo, g, todo[0], false, NoTest, FULL, base);
      GenCallsRules(lo, g, todo[1..], Past(base, |c|));
      CallsBelowShort([IRet], |g|);
      CallsBelow3(Gen(lo, g, todo[0], false, NoTest, FULL, base), [IRet], GenRules(lo, g, todo[1..], Past(base, |c|)),
                  |g|);
    } else {
      CallsBelowShort([], |g|);
    }
  }

  // ---------- rules are where their positions say ----------

  /** `piece` occurs in `code` at offset `off`. */
  ghost predicate Occurs(code: seq<Instr>, off: nat, piece: seq<Instr>) {
    off + |piece| <= |code| && code[off..off + |piece|] == piece
  }

  lemma {:induction false} RuleOccurs(lo: bool, g: Grammar, todo: seq<Tree>, base: nat, n: nat)
    requires n < |todo|
    ensures var a := RulePositions(lo, g, todo, base)[n];
            && a >= base && (n == 0 ==> a == base)
            && Occurs(GenRules(lo, g, todo, base), a - base,
                      Gen(lo, g, todo[n], false, NoTest, FULL, a) + [IRet])
    decreases n
  {
    var c := Gen(lo, g, todo[0], false, NoTest, FULL, base) + [IRet];
    var body := GenRules(lo, g, todo, base);
    var rest := GenRules(lo, g, todo[1..], Past(base, |c|));
    assert body == c + rest;
    if n > 0 {
      var a := RulePositions(lo, g, todo[1..], Past(base, |c|))[n - 1];
      RuleOccurs(lo, g, todo[1..], base + |c|, n - 1);
      var piece := Gen(lo, g, todo[n], false, NoTest, FULL, a) + [IRet];
      OccursShift(c, rest, a - base - |c|, piece);
    }
  }

  lemma OccursShift(a: seq<Instr>, b: seq<Instr>, off: nat, piece: seq<Instr>)
    requires Occurs(b, off, piece)
    ensures Occurs(a + b, |a| + off, piece)
  {}

  // ---------- the linked grammar inside a program ----------

  /** The piece of code `r` stands in the program at `org`. */
  ghost predicate Placed(prog: Program, org: nat, r: seq<Instr>) {
    org + |r| <= |prog| && forall k: nat | k < |r| :: prog[org + k] == r[k]
  }

  lemma {:induction false} JumpsPlaced(prog: Program, org: nat, r: seq<Instr>, pc: nat, n: nat)
    requires Placed(prog, org, r) && RetAt(r, org, JumpN(r, org, pc, n))
    ensures JumpN(prog, 0, pc, n) == JumpN(r, org, pc, n)
    decreases n
  {
    if n > 0 && org <= pc < org + |r| && r[pc - org].IJmp? {
      assert prog[org + (pc - org)] == r[pc - org];
      JumpsPlaced(prog, org, r, r[pc - org].to, n - 1);
    } else {
      assert prog[org + (pc - org)] == r[pc - org];
    }
  }

  lemma JumpsToRetPlaced(prog: Program, org: nat, r: seq<Instr>, pc: nat)
    requires Placed(prog, org, r) && JumpsToRet(r, org, pc)
    ensures JumpsToRet(prog, 0, pc)
  {
    var n: nat :| RetAt(r, org, JumpN(r, org, pc, n));
    JumpsPlaced(prog, org, r, pc, n);
    var q := JumpN(r, org, pc, n);
    assert prog[org + (q - org)] == r[q - org];
    assert RetAt(prog, 0, JumpN(prog, 0, pc, n));
  }

  /** Linked code in a program is code whose open calls have been resolved. */
  lemma LinkedBody(x: Ctx, org: nat, body: seq<Instr>, pos: seq<nat>)
    requires Placed(x.prog, org, Link(body, org, pos, 0)) && CallsBelow(body, |pos|)
    ensures Linked(x.(pos := pos), org, body)
  {
    var r := Link(body, org, pos, 0);
    LinkCorrects(body, org, pos, 0);
    forall k: nat | k < |body| ensures LinkedAt(x.(pos := pos), org, body, k) {
      assert x.prog[org + k] == r[k];
      assert Corrected(body, r, org, pos, k) && CallBelow(body, |pos|, k);
      if body[k].IOpenCall? && JumpsToRet(r, org, org + k + 1) {
        JumpsToRetPlaced(x.prog, org, r, org + k + 1);
      }
    }
  }

  lemma LinkedPiece(x: Ctx, org: nat, body: seq<Instr>, off: nat, piece: seq<Instr>)
    requires Linked(x, org, body) && Occurs(body, off, piece)
    ensures Linked(x, org + off, piece)
  {
    var b := org + off;
    forall k: nat ensures LinkedAt(x, b, piece, k) {
      assert LinkedAt(x, org, body, off + k);
      assert k < |piece| ==> piece[k] == body[off + k];
    }
  }

  /** The context inside a grammar node. */
  ghost function Inner(x: Ctx, t: Tree, base: nat): Ctx
    requires t.Rules?
  {
    x.(g := t.rules, pos := RulePositions(x.lo, t.rules, t.rules, Past(base, 2)))
  }

  /** Code without open calls stands in the program as it is. */
  lemma PlacedFromLinked(x: Ctx, org: nat, r: seq<Instr>)
    requires Linked(x, org, r) && CallsBelow(r, 0) && r != []
    ensures Placed(x.prog, org, r)
  {
    forall k: nat | k < |r| ensures org + k < |x.prog| && x.prog[org + k] == r[k] {
      assert LinkedAt(x, org, r, k) && CallBelow(r, 0, k);
    }
    assert LinkedAt(x, org, r, |r| - 1);
  }

  lemma LinkLeavesNoCalls(body: seq<Instr>, org: nat, pos: seq<nat>, n: nat)
    requires CallsBelow(body, |pos|)
    ensures CallsBelow(Link(body, org, pos, 0), n)
  {
    var r := Link(body, org, pos, 0);
    LinkCorrects(body, org, pos, 0);
    forall q: nat | q < |r| ensures !r[q].IOpenCall? {
      assert Corrected(body, r, org, pos, q) && CallBelow(body, |pos|, q);
    }
    CallsBelowShort(r, n);
  }

  /** The code of the rules of a grammar, with its calls corrected, stands in the program. */
  lemma GrammarBody(x: Ctx, t: Tree, base: nat)
    requires t.Rules? && WellFormed(x.g, t)
    requires Linked(x, base, GenGrammar(x.lo, t, base))
    ensures Linked(Inner(x, t, base), Past(base, 2), GenRules(x.lo, t.rules, t.rules, Past(base, 2)))
    ensures base + 1 < |x.prog| && x.prog[base] == ICall(base + 2)
    ensures x.prog[base + 1] == IJmp(base + |GenGrammar(x.lo, t, base)|)
  {
    var rs, org := t.rules, Past(base, 2);
    var y := Inner(x, t, base);
    var body := GenRules(x.lo, rs, rs, org);
    var r := Link(body, org, y.pos, 0);
    GenCallsRules(x.lo, rs, rs, org);
    var head := [ICall(org), IJmp(Past(org, |body|))];
    LinkedSplit(x, base, head, r);
    assert LinkedAt(x, base, head, 0) && LinkedAt(x, base, head, 1);
    LinkLeavesNoCalls(body, org, y.pos, 0);
    RuleOccurs(x.lo, rs, rs, org, 0);
    PlacedFromLinked(x, org, r);
    LinkedBody(y, org, body, y.pos);
  }

  /** After `correctcalls`, each rule of a grammar is coded at its position. */
  lemma GrammarRulesAt(x: Ctx, t: Tree, base: nat)
    requires t.Rules? && WellFormed(x.g, t)
    requires Linked(x, base, GenGrammar(x.lo, t, base))
    ensures RulesAt(Inner(x, t, base)) && Inner(x, t, base).pos[0] == base + 2
    ensures base + 1 < |x.prog| && x.prog[base] == ICall(base + 2)
    ensures x.prog[base + 1] == IJmp(base + |GenGrammar(x.lo, t, base)|)
  {
    var rs, org := t.rules, Past(base, 2);
    var y := Inner(x, t, base);
    var body := GenRules(x.lo, rs, rs, org);
    GrammarBody(x, t, base);
    RuleOccurs(x.lo, rs, rs, org, 0);
    forall n: nat | n < |rs| ensures RuleAt(y, n) && WellFormed(rs, rs[n]) {
      RuleOccurs(x.lo, rs, rs, org, n);
      var piece := Gen(x.lo, rs, rs[n], false, NoTest, FULL, y.pos[n]) + [IRet];
      LinkedPiece(y, org, body, y.pos[n] - org, piece);
    }
  }

  /** The program of a complete pattern holds the code of its tree. */
  lemma WholeProgramInPlace(lo: bool, t: Tree, s: Subject)
    requires WellFormed([], t)
    ensures var x := Ctx(WholeProgram(lo, t), s, [], [], lo);
            && RulesAt(x)
            && Linked(x, 0, Gen(lo, [], t, false, NoTest, FULL, 0))
            && Past(0, |Gen(lo, [], t, false, NoTest, FULL, 0)|) == |x.prog| - 1
            && x.prog[|x.prog| - 1] == IEnd
  {
    var code := Gen(lo, [], t, false, NoTest, FULL, 0);
    var x := Ctx(WholeProgram(lo, t), s, [], [], lo);
    GenCalls(lo, [], t, false, NoTest, FULL, 0);
    forall k: nat ensures LinkedAt(x, 0, code, k) {
      assert CallBelow(code, 0, k);
    }
  }
}
