/**
 Capture lists: their shape, how the list functions of nmap/lpeg.c walk them, and when
 the list of the compiled code is the documented one.
 */
module PegCaptures {
  import opened PegTree
  import opened PegSemantics
  import opened PegAnalysis
  import opened PegVerify

  // ---------- shape ----------

  /** The list does not end in an open entry. */
  predicate LastClosed(l: seq<Cap>) {
    l == [] || l[|l| - 1].siz != 0
  }

  predicate IsClose(c: Cap) { c.kind == CLOSE }

  /** An entry that waits for a close. */
  predicate IsOpen(c: Cap) { !IsClose(c) && c.siz == 0 }

  function Delta(c: Cap): int {
    if IsClose(c) then -1 else if c.siz == 0 then 1 else 0
  }

  /** Opens minus closes among the first `k` entries. */
  function Level(l: seq<Cap>, k: nat): int
    requires k <= |l|
  {
    if k == 0 then 0 else Level(l, k - 1) + Delta(l[k - 1])
  }

  /** Opens and closes match like brackets. */
  ghost predicate Balanced(l: seq<Cap>) {
    Level(l, |l|) == 0 && forall k: nat | k <= |l| :: Level(l, k) >= 0
  }

  lemma {:induction false} LevelAppend(a: seq<Cap>, b: seq<Cap>, k: nat)
    requires k <= |a + b|
    ensures Level(a + b, k) ==
            if k <= |a| then Level(a, k) else Level(a, |a|) + Level(b, k - |a|)
    decreases k
  {
    if k > 0 {
      LevelAppend(a, b, k - 1);
      assert (a + b)[k - 1] == if k <= |a| then a[k - 1] else b[k - 1 - |a|];
    }
  }

  lemma BalancedAppend(a: seq<Cap>, b: seq<Cap>)
    requires Balanced(a) && Balanced(b)
    ensures Balanced(a + b)
  {
    forall k: nat | k <= |a + b|
      ensures Level(a + b, k) >= 0 && (k == |a + b| ==> Level(a + b, k) == 0)
    {
      LevelAppend(a, b, k);
    }
  }

  lemma BalancedFull(c: Cap)
    requires !IsClose(c) && c.siz != 0
    ensures Balanced([c])
  {
    assert Level([c], 1) == 0;
  }

  lemma BalancedWrap(o: Cap, l: seq<Cap>, c: Cap)
    requires IsOpen(o) && IsClose(c) && Balanced(l)
    ensures Balanced([o] + l + [c])
  {
    var all := [o] + l + [c];
    forall k: nat | k <= |all|
      ensures Level(all, k) >= 0 && (k == |all| ==> Level(all, k) == 0)
    {
      LevelAppend([o] + l, [c], k);
      LevelAppend([o], l, if k <= |l| + 1 then k else |l| + 1);
      assert Level([o], 1) == 1 && Level([c], 1) == -1;
    }
  }

  /** The captures of a match are balanced. */
  lemma {:induction false} CapsBalanced(m: Mode, g: Grammar, t: Tree, s: Subject, i: nat, f: nat)
    requires i <= |s| && WellFormed(g, t) && WellFormedRules(g)
    ensures var r := Run(m, g, t, s, i, f); r.Ok? ==> Balanced(r.caps)
    decreases f
  {
    if f == 0 { return; }
    RunCases(m, g, t, s, i, f);
    match t
    case Seq(p1, p2) =>
      CapsBalanced(m, g, p1, s, i, f - 1);
      var r := Run(m, g, p1, s, i, f - 1);
      if r.Ok? {
        CapsBalanced(m, g, p2, s, r.pos, f - 1);
        AddBalanced(r, Run(m, g, p2, s, r.pos, f - 1));
      }
    case Choice(p1, p2) =>
      CapsBalanced(m, g, p1, s, i, f - 1);
      CapsBalanced(m, g, p2, s, i, f - 1);
    case Rep(p) =>
      CapsBalanced(m, g, p, s, i, f - 1);
      var r := Run(m, g, p, s, i, f - 1);
      if r.Ok? {
        CapsBalanced(m, g, t, s, r.pos, f - 1);
        AddBalanced(r, Run(m, g, t, s, r.pos, f - 1));
      }
    case And(p) => CapsBalanced(m, g, p, s, i, f - 1);
    case Behind(n, p) => if i >= n { CapsBalanced(m, g, p, s, i - n, f - 1); }
    case Capture(_, _, p) =>
      CapsBalanced(m, g, p, s, i, f - 1);
      var r := Run(m, g, p, s, i, f - 1);
      if r.Ok? { CaptureBalanced(m, g, t, i, r.pos, r.caps); }
    case Rules(rs) => CapsBalanced(m, rs, rs[0], s, i, f - 1);
    case Call(n) => CapsBalanced(m, g, g[n], s, i, f - 1);
    case _ =>
  }

  lemma AddBalanced(r1: Outcome, r2: Outcome)
    requires r1.Ok? && Balanced(r1.caps) && (r2.Ok? ==> Balanced(r2.caps))
    ensures AddCaps(r1.caps, r2).Ok? ==> Balanced(AddCaps(r1.caps, r2).caps)
  {
    if r2.Ok? { BalancedAppend(r1.caps, r2.caps); }
  }

  lemma CaptureBalanced(m: Mode, g: Grammar, t: Tree, i: nat, j: nat, nested: seq<Cap>)
    requires t.Capture? && t.kind != CLOSE && i <= j && Balanced(nested)
    ensures Balanced(CaptureCaps(m, g, t, i, j, nested))
  {
    var full := Cap(i, t.key, t.kind, j - i + 1);
    BalancedFull(full);
    BalancedAppend(nested, [full]);
    BalancedWrap(Cap(i, t.key, t.kind, 0), nested, Cap(j, 0, CLOSE, 1));
  }

  /** The captures of a match never end in an open entry. */
  lemma {:induction false} CapsLastClosed(m: Mode, g: Grammar, t: Tree, s: Subject, i: nat, f: nat)
    requires i <= |s|
    ensures var r := Run(m, g, t, s, i, f); r.Ok? ==> LastClosed(r.caps)
    decreases f
  {
    if f == 0 { return; }
    RunCases(m, g, t, s, i, f);
    match t
    case Seq(p1, p2) =>
      CapsLastClosed(m, g, p1, s, i, f - 1);
      var r := Run(m, g, p1, s, i, f - 1);
      if r.Ok? { CapsLastClosed(m, g, p2, s, r.pos, f - 1); }
    case Choice(p1, p2) =>
      CapsLastClosed(m, g, p1, s, i, f - 1);
      CapsLastClosed(m, g, p2, s, i, f - 1);
    case Rep(p) =>
      CapsLastClosed(m, g, p, s, i, f - 1);
      var r := Run(m, g, p, s, i, f - 1);
      if r.Ok? { CapsLastClosed(m, g, t, s, r.pos, f - 1); }
    case And(p) => CapsLastClosed(m, g, p, s, i, f - 1);
    case Behind(n, p) => if i >= n { CapsLastClosed(m, g, p, s, i - n, f - 1); }
    case Rules(rs) => if |rs| > 0 { CapsLastClosed(m, rs, rs[0], s, i, f - 1); }
    case Call(n) => if n < |g| { CapsLastClosed(m, g, g[n], s, i, f - 1); }
    case _ =>
  }

  // ---------- walking a list ----------

  /** The close at `c` belongs to the open at `k`: the entries between them are balanced. */
  ghost predicate Pair(l: seq<Cap>, k: nat, c: nat) {
    k < c < |l| && IsOpen(l[k]) && IsClose(l[c]) && Level(l, c) == Level(l, k + 1) &&
    forall j: nat | k < j <= c :: Level(l, j) >= Level(l, k + 1)
  }

  /** `nextcap`: from a capture to the entry after it. */
  method NextCap(l: seq<Cap>, k: nat) returns (next: nat)
    requires Balanced(l) && k < |l| && !IsClose(l[k])
    ensures if IsOpen(l[k]) then next > 0 && Pair(l, k, next - 1) else next == k + 1
  {
    var cap := k;
    if l[cap].siz == 0 {
      var n := 0;
      assert Level(l, k) >= 0;
      while true
        invariant k <= cap < |l| && n >= 0
        invariant n == Level(l, cap + 1) - Level(l, k + 1)
        invariant forall j: nat | k < j <= cap + 1 :: Level(l, j) >= Level(l, k + 1)
        decreases |l| - cap
      {
        cap := cap + 1;
        if IsClose(l[cap]) {
          if n == 0 { break; }
          n := n - 1;
        } else if l[cap].siz == 0 {
          n := n + 1;
        }
      }
    }
    next := cap + 1;
  }

  /** `findopen`: back from a close to its open. */
  method FindOpen(l: seq<Cap>, c: nat) returns (k: nat)
    requires Balanced(l) && c < |l| && IsClose(l[c])
    ensures Pair(l, k, c)
  {
    var n := 0;
    k := c;
    assert Level(l, c + 1) >= 0;
    while true
      invariant k <= c && n >= 0 && n == Level(l, k) - Level(l, c)
      invariant forall j: nat | k <= j <= c :: Level(l, j) >= Level(l, c)
      decreases k
    {
      k := k - 1;
      if IsClose(l[k]) {
        n := n + 1;
      } else if l[k].siz == 0 {
        if n == 0 { return; }
        n := n - 1;
      }
    }
  }

  /** A close belongs to one open, and an open to one close. */
  lemma PairUnique(l: seq<Cap>, k1: nat, c1: nat, k2: nat, c2: nat)
    requires Pair(l, k1, c1) && Pair(l, k2, c2) && (k1 == k2 || c1 == c2)
    ensures k1 == k2 && c1 == c2
  {
    PairNotShorter(l, k1, c1, k2, c2);
    PairNotShorter(l, k2, c2, k1, c1);
  }

  lemma PairNotShorter(l: seq<Cap>, k1: nat, c1: nat, k2: nat, c2: nat)
    requires Pair(l, k1, c1) && Pair(l, k2, c2) && (k1 == k2 || c1 == c2)
    ensures k1 >= k2 && c1 >= c2
  {
    assert Level(l, c1 + 1) == Level(l, c1) - 1;
    assert Level(l, k2) == Level(l, k2 + 1) - 1;
  }

  /** `findopen` undoes `nextcap`: from the close that `nextcap` stops after, it finds the
      capture that `nextcap` started from. */
  method NextThenFind(l: seq<Cap>, k: nat) returns (next: nat, back: nat)
    requires Balanced(l) && k < |l| && IsOpen(l[k])
    ensures k + 1 < next <= |l| && IsClose(l[next - 1]) && back == k
  {
    next := NextCap(l, k);
    back := FindOpen(l, next - 1);
    PairUnique(l, k, next - 1, back, next - 1);
  }

  // ---------- the documented list ----------

  /** The two modes end alike: only capture entries depend on the mode. */
  predicate SameEnd(r1: Outcome, r2: Outcome) {
    (r1.Diverge? <==> r2.Diverge?) && (r1.Ok? <==> r2.Ok?) && (r1.Ok? ==> r1.pos == r2.pos)
  }

  lemma {:induction false} PositionsAgree(m1: Mode, m2: Mode, g: Grammar, t: Tree, s: Subject, i: nat, f: nat)
    requires i <= |s|
    ensures SameEnd(Run(m1, g, t, s, i, f), Run(m2, g, t, s, i, f))
    decreases f, 1
  {
    if f == 0 { return; }
    RunCases(m1, g, t, s, i, f);
    RunCases(m2, g, t, s, i, f);
    match t
    case Seq(p1, p2) =>
      PositionsAgree(m1, m2, g, p1, s, i, f - 1);
      var r := Run(m1, g, p1, s, i, f - 1);
      if r.Ok? { PositionsAgree(m1, m2, g, p2, s, r.pos, f - 1); }
    case Choice(p1, p2) =>
      PositionsAgree(m1, m2, g, p1, s, i, f - 1);
      PositionsAgree(m1, m2, g, p2, s, i, f - 1);
    case Rep(p) =>
      PositionsAgree(m1, m2, g, p, s, i, f - 1);
      var r := Run(m1, g, p, s, i, f - 1);
      if r.Ok? { PositionsAgree(m1, m2, g, t, s, r.pos, f - 1); }
    case _ => PositionsAgreeUnary(m1, m2, g, t, s, i, f);
  }

  lemma {:induction false} PositionsAgreeUnary(m1: Mode, m2: Mode, g: Grammar, t: Tree, s: Subject, i: nat, f: nat)
    requires i <= |s| && f > 0 && !t.Seq? && !t.Choice? && !t.Rep?
    ensures SameEnd(Run(m1, g, t, s, i, f), Run(m2, g, t, s, i, f))
    decreases f, 0
  {
    RunCases(m1, g, t, s, i, f);
    RunCases(m2, g, t, s, i, f);
    match t
    case Not(p) => PositionsAgree(m1, m2, g, p, s, i, f - 1);
    case And(p) => PositionsAgree(m1, m2, g, p, s, i, f - 1);
    case Behind(n, p) => if i >= n { PositionsAgree(m1, m2, g, p, s, i - n, f - 1); }
    case Capture(_, _, p) => PositionsAgree(m1, m2, g, p, s, i, f - 1);
    case Rules(rs) => if |rs| > 0 { PositionsAgree(m1, m2, rs, rs[0], s, i, f - 1); }
    case Call(n) => if n < |g| { PositionsAgree(m1, m2, g, g[n], s, i, f - 1); }
    case _ =>
  }

  // ---------- what can be listed ----------

  /** The calls whose captures a tree passes on: not those inside a predicate, unless the code of the
      predicate lets them through. */
  function ListedCalls(g: Grammar, t: Tree): set<nat> {
    match t
    case Call(n) => {n}
    case Rep(p) => ListedCalls(g, p)
    case And(p) => if ShortAnd(g, p) then ListedCalls(g, p) else {}
    case Behind(_, p) => ListedCalls(g, p)
    case Capture(_, _, p) => ListedCalls(g, p)
    case Seq(p1, p2) => ListedCalls(g, p1) + ListedCalls(g, p2)
    case Choice(p1, p2) => ListedCalls(g, p1) + ListedCalls(g, p2)
    case _ => {}
  }

  /** The rules of the grammar among some calls. */
  function Inside(g: Grammar, calls: set<nat>): (r: set<nat>)
    ensures r <= Below(|g|)
  {
    set k | k in calls && k < |g|
  }

  /** The rules whose captures some rules pass on. */
  function NextListed(g: Grammar, from: set<nat>): set<nat>
    requires from <= Below(|g|)
  {
    set r, k | r in from && k in ListedCalls(g, g[r]) && k < |g| :: k
  }

  /** All rules from which captures can come up to some rules. */
  function Heard(g: Grammar, from: set<nat>): (r: set<nat>)
    requires from <= Below(|g|)
    ensures from <= r <= Below(|g|) && NextListed(g, r) <= r
    decreases Below(|g|) - from
  {
    var more := NextListed(g, from);
    if more <= from then from else Heard(g, from + more)
  }

  /** The tree itself may list a capture. */
  predicate Lists(g: Grammar, t: Tree)
    decreases t
  {
    match t
    case Capture(_, _, _) => true
    case Rep(p) => Lists(g, p)
    case Behind(_, p) => Lists(g, p)
    case Seq(p1, p2) => Lists(g, p1) || Lists(g, p2)
    case Choice(p1, p2) => Lists(g, p1) || Lists(g, p2)
    case Rules(rs) => |rs| > 0 && exists n | n in Heard(rs, {0}) :: Lists(rs, rs[n])
    case _ => false
  }

  /** No capture can come up from the tree. */
  predicate Quiet(g: Grammar, t: Tree) {
    !Lists(g, t) && forall n | n in Heard(g, Inside(g, ListedCalls(g, t))) :: !Lists(g, g[n])
  }

  /** Rules from which nothing can come up. */
  ghost predicate QuietRules(g: Grammar, closed: set<nat>) {
    closed <= Below(|g|) && NextListed(g, closed) <= closed && forall n | n in closed :: !Lists(g, g[n])
  }

  lemma {:induction false} NoCapsAmong(m: Mode, g: Grammar, t: Tree, s: Subject, i: nat, f: nat, closed: set<nat>)
    requires i <= |s| && !Lists(g, t) && QuietRules(g, closed) && Inside(g, ListedCalls(g, t)) <= closed
    ensures var r := Run(m, g, t, s, i, f); r.Ok? ==> r.caps == []
    decreases f
  {
    if f == 0 { return; }
    RunCases(m, g, t, s, i, f);
    match t
    case Seq(p1, p2) =>
      NoCapsAmong(m, g, p1, s, i, f - 1, closed);
      var r := Run(m, g, p1, s, i, f - 1);
      if r.Ok? { NoCapsAmong(m, g, p2, s, r.pos, f - 1, closed); }
    case Choice(p1, p2) =>
      NoCapsAmong(m, g, p1, s, i, f - 1, closed);
      NoCapsAmong(m, g, p2, s, i, f - 1, closed);
    case Rep(p) =>
      NoCapsAmong(m, g, p, s, i, f - 1, closed);
      var r := Run(m, g, p, s, i, f - 1);
      if r.Ok? { NoCapsAmong(m, g, t, s, r.pos, f - 1, closed); }
    case And(p) =>
      if ShortAnd(g, p) {
        FreeListsNone(g, p);
        NoCapsAmong(m, g, p, s, i, f - 1, closed);
      }
    case Behind(n, p) => if i >= n { NoCapsAmong(m, g, p, s, i - n, f - 1, closed); }
    case Rules(rs) =>
      if |rs| > 0 {
        var all := Heard(rs, {0});
        assert 0 in all && Inside(rs, ListedCalls(rs, rs[0])) <= NextListed(rs, all);
        NoCapsAmong(m, rs, rs[0], s, i, f - 1, all);
      }
    case Call(n) =>
      if n < |g| {
        assert n in closed && Inside(g, ListedCalls(g, g[n])) <= NextListed(g, closed);
        NoCapsAmong(m, g, g[n], s, i, f - 1, closed);
      }
    case _ =>
  }

  /** A tree in which no capture is found lists none by itself. */
  lemma {:induction false} FreeListsNone(g: Grammar, t: Tree)
    requires !HasCaptures(t)
    ensures !Lists(g, t)
    decreases t
  {
    match t
    case Rep(p) => FreeListsNone(g, p);
    case Behind(_, p) => FreeListsNone(g, p);
    case Seq(p1, p2) => FreeListsNone(g, p1); FreeListsNone(g, p2);
    case Choice(p1, p2) => FreeListsNone(g, p1); FreeListsNone(g, p2);
    case Rules(rs) =>
      if |rs| > 0 {
        forall n | n in Heard(rs, {0}) ensures !Lists(rs, rs[n]) {
          assert rs[n] in rs;
          FreeListsNone(rs, rs[n]);
        }
      }
    case _ =>
  }

  /** From a quiet tree no match lists a capture. */
  lemma NoCaps(m: Mode, g: Grammar, t: Tree, s: Subject, i: nat, f: nat)
    requires i <= |s| && Quiet(g, t)
    ensures var r := Run(m, g, t, s, i, f); r.Ok? ==> r.caps == []
  {
    NoCapsAmong(m, g, t, s, i, f, Heard(g, Inside(g, ListedCalls(g, t))));
  }

  /** One capture is listed as documented exactly when it is coded in full or its body
      lists nothing. */
  lemma CaptureListed(g: Grammar, t: Tree, i: nat, j: nat, nested: seq<Cap>)
    requires t.Capture? && i <= j && (ShortCapture(g, t.p) ==> j - i == FixedLen(g, t.p))
    ensures CaptureCaps(Compiled, g, t, i, j, nested) == CaptureCaps(Reference, g, t, i, j, nested)
            <==> (ShortCapture(g, t.p) ==> nested == [])
  {
    var full := Cap(i, t.key, t.kind, j - i + 1);
    if ShortCapture(g, t.p) {
      assert |nested + [full]| == |nested| + 1;
    }
  }

  /** Every capture and look-ahead of the tree that is coded as if its body had no captures has a quiet
      body.  What stands inside a predicate, and in rules whose captures do not come up, does not
      matter. */
  predicate AllSeen(g: Grammar, t: Tree)
    decreases t
  {
    match t
    case Capture(_, _, p) => if ShortCapture(g, p) then Quiet(g, p) else AllSeen(g, p)
    case And(p) => ShortAnd(g, p) ==> Quiet(g, p)
    case Rep(p) => AllSeen(g, p)
    case Behind(_, p) => AllSeen(g, p)
    case Seq(p1, p2) => AllSeen(g, p1) && AllSeen(g, p2)
    case Choice(p1, p2) => AllSeen(g, p1) && AllSeen(g, p2)
    case Rules(rs) => |rs| > 0 ==> forall n | n in Heard(rs, {0}) :: AllSeen(rs, rs[n])
    case _ => true
  }

  ghost predicate SeenRules(g: Grammar, closed: set<nat>) {
    closed <= Below(|g|) && NextListed(g, closed) <= closed && forall n | n in closed :: AllSeen(g, g[n])
  }

  /** The code lists the documented captures, in the documented order. */
  lemma {:induction false} CapsAgree(g: Grammar, t: Tree, s: Subject, i: nat, f: nat, closed: set<nat>)
    requires i <= |s| && AllSeen(g, t) && SeenRules(g, closed) && Inside(g, ListedCalls(g, t)) <= closed
    ensures Run(Compiled, g, t, s, i, f) == Run(Reference, g, t, s, i, f)
    decreases f, 1
  {
    if f == 0 { return; }
    RunCases(Compiled, g, t, s, i, f);
    RunCases(Reference, g, t, s, i, f);
    match t
    case Seq(p1, p2) =>
      CapsAgree(g, p1, s, i, f - 1, closed);
      var r := Run(Compiled, g, p1, s, i, f - 1);
      if r.Ok? { CapsAgree(g, p2, s, r.pos, f - 1, closed); }
    case Choice(p1, p2) =>
      CapsAgree(g, p1, s, i, f - 1, closed);
      CapsAgree(g, p2, s, i, f - 1, closed);
    case Rep(p) =>
      CapsAgree(g, p, s, i, f - 1, closed);
      var r := Run(Compiled, g, p, s, i, f - 1);
      if r.Ok? { CapsAgree(g, t, s, r.pos, f - 1, closed); }
    case _ => CapsAgreeUnary(g, t, s, i, f, closed);
  }

  lemma {:induction false} CapsAgreeUnary(g: Grammar, t: Tree, s: Subject, i: nat, f: nat, closed: set<nat>)
    requires i <= |s| && f > 0 && AllSeen(g, t) && SeenRules(g, closed) && Inside(g, ListedCalls(g, t)) <= closed
    requires !t.Seq? && !t.Choice? && !t.Rep?
    ensures Run(Compiled, g, t, s, i, f) == Run(Reference, g, t, s, i, f)
    decreases f, 0
  {
    RunCases(Compiled, g, t, s, i, f);
    RunCases(Reference, g, t, s, i, f);
    match t
    case Not(p) => PositionsAgree(Compiled, Reference, g, p, s, i, f - 1);
    case And(p) =>
      PositionsAgree(Compiled, Reference, g, p, s, i, f - 1);
      if ShortAnd(g, p) { NoCaps(Compiled, g, p, s, i, f - 1); }
    case Behind(n, p) => if i >= n { CapsAgree(g, p, s, i - n, f - 1, closed); }
    case Capture(_, _, p) => CapsAgreeCapture(g, t, s, i, f, closed);
    case Rules(rs) =>
      if |rs| > 0 {
        var all := Heard(rs, {0});
        assert 0 in all && Inside(rs, ListedCalls(rs, rs[0])) <= NextListed(rs, all);
        CapsAgree(rs, rs[0], s, i, f - 1, all);
      }
    case Call(n) =>
      if n < |g| {
        assert n in closed && Inside(g, ListedCalls(g, g[n])) <= NextListed(g, closed);
        CapsAgree(g, g[n], s, i, f - 1, closed);
      }
    case _ =>
  }

  lemma {:induction false} CapsAgreeCapture(g: Grammar, t: Tree, s: Subject, i: nat, f: nat, closed: set<nat>)
    requires t.Capture? && i <= |s| && f > 0 && AllSeen(g, t) && SeenRules(g, closed)
    requires Inside(g, ListedCalls(g, t)) <= closed
    ensures Run(Compiled, g, t, s, i, f) == Run(Reference, g, t, s, i, f)
    decreases f, 0, 0
  {
    RunCases(Compiled, g, t, s, i, f);
    RunCases(Reference, g, t, s, i, f);
    var r := Run(Compiled, g, t.p, s, i, f - 1);
    if ShortCapture(g, t.p) {
      PositionsAgree(Compiled, Reference, g, t.p, s, i, f - 1);
      NoCaps(Compiled, g, t.p, s, i, f - 1);
      NoCaps(Reference, g, t.p, s, i, f - 1);
      FixedLenSound(Compiled, g, t.p, s, i, f - 1, 0, 0);
    } else {
      CapsAgree(g, t.p, s, i, f - 1, closed);
    }
    if r.Ok? { CaptureListed(g, t, i, r.pos, r.caps); }
  }

  /** A complete pattern: nothing can be called from outside its grammars. */
  lemma PatternCapsAgree(t: Tree, s: Subject, i: nat, f: nat)
    requires i <= |s| && AllSeen([], t)
    ensures Run(Compiled, [], t, s, i, f) == Run(Reference, [], t, s, i, f)
  {
    CapsAgree([], t, s, i, f, {});
  }

  /** A <- {B}, B <- 'a': a capture around a call that hides nothing. */
  lemma PlainCapture(kind: nat, key: nat)
    ensures AllSeen([], Rules([Capture(kind, key, Call(1)), Char(97)]))
  {
    var g := [Capture(kind, key, Call(1)), Char(97)];
    assert ListedCalls(g, g[1]) == {} && ListedCalls(g, Call(1)) == {1};
    assert NextListed(g, {1}) == {};
    assert Heard(g, {1}) == {1};
    assert Inside(g, {1}) == {1};
    assert Quiet(g, Call(1));
    forall n | n in Heard(g, {0}) ensures AllSeen(g, g[n]) { assert n == 0 || n == 1; }
  }

  /** A <- {B}, B <- {'a'*}: a capture around a call that does list one, coded with an open and a
      close because its length varies. */
  lemma OpenCapture(kind: nat, key: nat)
    ensures AllSeen([], Rules([Capture(kind, key, Call(1)), Capture(kind, key, Rep(Char(97)))]))
  {
    var body := Rep(Char(97));
    var inner := Capture(kind, key, body);
    var g := [Capture(kind, key, Call(1)), inner];
    assert FixedLenX(g, body, 0, 0) == -1 && FixedLenX(g, body, 1, 0) == -1;
    assert FixedLenX(g, inner, 1, 0) == -1;
    var call := Call(1);
    assert FixedLenX(g, call, 0, 0) == FixedLenNode(g, call, 0, 0) == -1;
    assert AllSeen(g, g[0]) && AllSeen(g, g[1]);
    forall n | n in Heard(g, {0}) ensures AllSeen(g, g[n]) { assert n == 0 || n == 1; }
  }

  /** A capture around a call, where the called rule captures too: nmap/lpeg.c:1613 takes the
      body for capture-free, so the inner capture comes before the outer one instead of
      inside it. */
  lemma HiddenCapture(kind: nat, key: nat, s: Subject)
    requires s == [97]
    ensures var g := [Capture(kind, key, Call(1)), Capture(kind, key, Char(97))];
            && !AllSeen([], Rules(g))
            && Run(Compiled, [], Rules(g), s, 0, 5) == Ok(1, [Cap(0, key, kind, 2), Cap(0, key, kind, 2)])
            && Run(Reference, [], Rules(g), s, 0, 5)
               == Ok(1, [Cap(0, key, kind, 0), Cap(0, key, kind, 2), Cap(1, 0, CLOSE, 1)])
  {
    var g := [Capture(kind, key, Call(1)), Capture(kind, key, Char(97))];
    HiddenLength(g, kind, key);
    HiddenUnseen(g, kind, key);
    HiddenRuns(Compiled, g, kind, key, s);
    HiddenRuns(Reference, g, kind, key, s);
    RunCases(Compiled, g, g[0], s, 0, 4);
    RunCases(Reference, g, g[0], s, 0, 4);
    RunCases(Compiled, [], Rules(g), s, 0, 5);
    RunCases(Reference, [], Rules(g), s, 0, 5);
  }

  lemma HiddenLength(g: Grammar, kind: nat, key: nat)
    requires g == [Capture(kind, key, Call(1)), Capture(kind, key, Char(97))]
    ensures FixedLen(g, Char(97)) == 1 && FixedLen(g, Call(1)) == 1
  {
    assert FixedLenX(g, Char(97), 1, 0) == 1;
    assert FixedLenX(g, g[1], 1, 0) == FixedLenNode(g, g[1], 1, 0) == 1;
  }

  lemma HiddenUnseen(g: Grammar, kind: nat, key: nat)
    requires g == [Capture(kind, key, Call(1)), Capture(kind, key, Char(97))] && FixedLen(g, Call(1)) == 1
    ensures !AllSeen([], Rules(g))
  {
    var call := Call(1);
    assert Inside(g, ListedCalls(g, call)) == {1};
    assert 1 in Heard(g, {1}) && Lists(g, g[1]);
    assert !Quiet(g, call);
    assert ShortCapture(g, call) && !AllSeen(g, g[0]) && 0 in Heard(g, {0});
  }

  lemma HiddenRuns(m: Mode, g: Grammar, kind: nat, key: nat, s: Subject)
    requires g == [Capture(kind, key, Call(1)), Capture(kind, key, Char(97))] && FixedLen(g, Char(97)) == 1
    requires s == [97]
    ensures Run(m, g, Call(1), s, 0, 3) == Ok(1, [Cap(0, key, kind, 2)])
  {
    RunCases(m, g, Char(97), s, 0, 1);
    RunCases(m, g, g[1], s, 0, 2);
    RunCases(m, g, Call(1), s, 0, 3);
    assert [] + [Cap(0, key, kind, 2)] == [Cap(0, key, kind, 2)];
  }
}
