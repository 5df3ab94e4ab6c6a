/**
 What the static analyses compute, in terms of numbers that say what they are for: the length of
 the shortest match that the structure of a pattern allows, the shortest and the longest one,
 and the number of parts that must fail for the pattern to fail.
 */
module PegExact {
  import opened Wrappers
  import opened PegTree
  import opened PegSemantics

  // ---------- the shortest match ----------

  function Plus(a: Option<nat>, b: Option<nat>): Option<nat> {
    if a.Some? && b.Some? then Some(a.value + b.value) else None
  }

  function Least(a: Option<nat>, b: Option<nat>): Option<nat> {
    if a.Some? && (b == None || a.value <= b.value) then a else b
  }

  /** The least number of characters of a match, if predicates count as matching; no number if
      the pattern cannot match.  After `k` calls nothing is known, and it may be 0. */
  function Shortest(g: Grammar, t: Tree, k: nat): Option<nat>
    decreases k, t
  {
    match t
    case Char(_) => Some(1)
    case Set(_) => Some(1)
    case Any => Some(1)
    case False => None
    case Seq(p1, p2) => Plus(Shortest(g, p1, k), Shortest(g, p2, k))
    case Choice(p1, p2) => Least(Shortest(g, p1, k), Shortest(g, p2, k))
    case Capture(_, _, p) => Shortest(g, p, k)
    case Rules(rs) => if rs == [] then None else Shortest(rs, rs[0], k)
    case Call(n) => if k == 0 then Some(0) else if n < |g| then Shortest(g, g[n], k - 1) else None
    case _ => Some(0)
  }

  /** `checkaux` calls a pattern nullable exactly if its shortest match is empty. */
  lemma {:induction false} NullableExact(g: Grammar, t: Tree, k: nat)
    ensures Check(g, t, Nullable, k) <==> Shortest(g, t, k) == Some(0)
    decreases k, t
  {
    match t
    case Seq(p1, p2) => NullableExact(g, p1, k); NullableExact(g, p2, k);
    case Choice(p1, p2) => NullableExact(g, p1, k); NullableExact(g, p2, k);
    case Capture(_, _, p) => NullableExact(g, p, k);
    case Rules(rs) => if rs != [] { NullableExact(rs, rs[0], k); }
    case Call(n) => if k > 0 && n < |g| { NullableExact(g, g[n], k - 1); }
    case _ =>
  }

  ghost predicate AtLeast(n: Option<nat>, r: Outcome, i: nat) {
    r.Ok? ==> n.Some? && r.pos >= i + n.value
  }

  /** No match is shorter. */
  lemma {:induction false} ShortestSound(m: Mode, g: Grammar, t: Tree, s: Subject, i: nat, f: nat, k: nat)
    requires i <= |s|
    ensures AtLeast(Shortest(g, t, k), Run(m, g, t, s, i, f), i)
    decreases f
  {
    if f == 0 { return; }
    RunCases(m, g, t, s, i, f);
    match t
    case Seq(p1, p2) =>
      ShortestSound(m, g, p1, s, i, f - 1, k);
      var r := Run(m, g, p1, s, i, f - 1);
      if r.Ok? { ShortestSound(m, g, p2, s, r.pos, f - 1, k); }
    case Choice(p1, p2) => ShortestSound(m, g, p1, s, i, f - 1, k); ShortestSound(m, g, p2, s, i, f - 1, k);
    case Capture(_, _, p) => ShortestSound(m, g, p, s, i, f - 1, k);
    case Rules(rs) => if rs != [] { ShortestSound(m, rs, rs[0], s, i, f - 1, k); }
    case Call(n) => if k > 0 && n < |g| { ShortestSound(m, g, g[n], s, i, f - 1, k - 1); }
    case _ =>
  }

  // ---------- how a pattern can fail ----------

  /** The least number of parts that must fail, each for itself, for the pattern to fail; no number
      if it cannot.  A part is a character, a predicate, or what is not known after `k` calls. */
  function Breaks(g: Grammar, t: Tree, k: nat): Option<nat>
    decreases k, t
  {
    match t
    case True => None
    case Rep(_) => None
    case Seq(p1, p2) => Least(Breaks(g, p1, k), Breaks(g, p2, k))
    case Choice(p1, p2) => Plus(Breaks(g, p1, k), Breaks(g, p2, k))
    case And(p) => Breaks(g, p, k)
    case Capture(_, _, p) => Breaks(g, p, k)
    case Rules(rs) => if rs == [] then Some(1) else Breaks(rs, rs[0], k)
    case Call(n) => if k == 0 || n >= |g| then Some(1) else Breaks(g, g[n], k - 1)
    case _ => Some(1)
  }

  /** `checkaux` calls a pattern nofail exactly if no parts can make it fail. */
  lemma {:induction false} NoFailExact(g: Grammar, t: Tree, k: nat)
    ensures Check(g, t, NoFail, k) <==> Breaks(g, t, k) == None
    decreases k, t
  {
    match t
    case Seq(p1, p2) => NoFailExact(g, p1, k); NoFailExact(g, p2, k);
    case Choice(p1, p2) => NoFailExact(g, p1, k); NoFailExact(g, p2, k);
    case And(p) => NoFailExact(g, p, k);
    case Capture(_, _, p) => NoFailExact(g, p, k);
    case Rules(rs) => if rs != [] { NoFailExact(rs, rs[0], k); }
    case Call(n) => if k > 0 && n < |g| { NoFailExact(g, g[n], k - 1); }
    case _ =>
  }

  // ---------- the lengths of all matches ----------

  /** The shortest and the longest match. */
  datatype Span = Span(least: nat, most: nat)

  function SpanBoth(a: Option<Span>, b: Option<Span>): Option<Span> {
    if a.Some? && b.Some? then Some(Span(a.value.least + b.value.least, a.value.most + b.value.most)) else None
  }

  function SpanEither(a: Option<Span>, b: Option<Span>): Option<Span> {
    if a.Some? && b.Some? then
      Some(Span(if a.value.least < b.value.least then a.value.least else b.value.least,
                if a.value.most < b.value.most then b.value.most else a.value.most))
    else None
  }

  /** How long a match can be by the structure of the pattern, if there is a bound; what never
      matches counts as empty, and after `k` calls nothing is known. */
  function Spans(g: Grammar, t: Tree, k: nat): Option<Span>
    decreases k, t
  {
    match t
    case Char(_) => Some(Span(1, 1))
    case Set(_) => Some(Span(1, 1))
    case Any => Some(Span(1, 1))
    case Rep(_) => None
    case Seq(p1, p2) => SpanBoth(Spans(g, p1, k), Spans(g, p2, k))
    case Choice(p1, p2) => SpanEither(Spans(g, p1, k), Spans(g, p2, k))
    case Capture(_, _, p) => Spans(g, p, k)
    case Rules(rs) => if rs == [] then None else Spans(rs, rs[0], k)
    case Call(n) => if k == 0 || n >= |g| then None else Spans(g, g[n], k - 1)
    case _ => Some(Span(0, 0))
  }

  lemma {:induction false} SpanOrdered(g: Grammar, t: Tree, k: nat)
    ensures var sp := Spans(g, t, k); sp.Some? ==> sp.value.least <= sp.value.most
    decreases k, t
  {
    match t
    case Seq(p1, p2) => SpanOrdered(g, p1, k); SpanOrdered(g, p2, k);
    case Choice(p1, p2) => SpanOrdered(g, p1, k); SpanOrdered(g, p2, k);
    case Capture(_, _, p) => SpanOrdered(g, p, k);
    case Rules(rs) => if rs != [] { SpanOrdered(rs, rs[0], k); }
    case Call(n) => if k > 0 && n < |g| { SpanOrdered(g, g[n], k - 1); }
    case _ =>
  }

  function OneLength(sp: Option<Span>): int {
    if sp.Some? && sp.value.least == sp.value.most then sp.value.least else -1
  }

  function Further(n: int, len: nat): int {
    if n < 0 then -1 else n + len
  }

  /** `fixedlenx` gives a length exactly if the shortest and the longest match are equally long, and
      then it is that length. */
  lemma {:induction false} FixedLenExact(g: Grammar, t: Tree, count: nat, len: nat)
    requires count <= 200
    ensures FixedLenX(g, t, count, len) == Further(OneLength(Spans(g, t, 200 - count)), len)
    decreases 200 - count, t
  {
    var k := 200 - count;
    SpanOrdered(g, t, k);
    match t
    case Seq(p1, p2) =>
      SpanOrdered(g, p1, k);
      SpanOrdered(g, p2, k);
      FixedLenExact(g, p1, count, len);
      var n1 := FixedLenX(g, p1, count, len);
      if n1 >= 0 { FixedLenExact(g, p2, count, n1); }
    case Choice(p1, p2) =>
      SpanOrdered(g, p1, k);
      SpanOrdered(g, p2, k);
      FixedLenExact(g, p1, count, len);
      FixedLenExact(g, p2, count, len);
    case Capture(_, _, p) => FixedLenExact(g, p, count, len);
    case Rules(rs) => if rs != [] { FixedLenExact(rs, rs[0], count, len); }
    case Call(n) => if count < 200 && n < |g| { FixedLenExact(g, g[n], count + 1, len); }
    case _ =>
  }

  // ---------- what a match starts with ----------

  /** A match may stand before the character `c`, when it is the first one of the match, or when the
      match is empty and `after` says that what follows may start with it.  A predicate on a set
      looks at the character; any other negative predicate, and a look-behind, does not. */
  predicate Leads(g: Grammar, t: Tree, c: Byte, after: bool, k: nat)
    decreases k, t
  {
    match t
    case Char(d) => c == d
    case Set(cs) => c in cs
    case Any => true
    case False => false
    case True => after
    case Behind(_, _) => after
    case Not(Char(d)) => c != d
    case Not(Set(cs)) => c !in cs
    case Not(Any) => false
    case Not(_) => after
    case And(p) => after && Leads(g, p, c, after, k)
    case Rep(p) => after || Leads(g, p, c, after, k)
    case Capture(_, _, p) => Leads(g, p, c, after, k)
    case Choice(p1, p2) => Leads(g, p1, c, after, k) || Leads(g, p2, c, after, k)
    case Seq(p1, p2) => Leads(g, p1, c, Shortest(g, p1, k) != Some(0) || Leads(g, p2, c, after, k), k)
    case Rules(rs) => rs != [] && Leads(rs, rs[0], c, after, k)
    case Call(n) => k == 0 || (n < |g| && Leads(g, g[n], c, after, k - 1))
  }

  /** A match may stand at the end of the subject. */
  predicate LeadsEnd(g: Grammar, t: Tree, k: nat)
    decreases k, t
  {
    match t
    case Char(_) => false
    case Set(_) => false
    case Any => false
    case False => false
    case And(p) => LeadsEnd(g, p, k)
    case Capture(_, _, p) => LeadsEnd(g, p, k)
    case Choice(p1, p2) => LeadsEnd(g, p1, k) || LeadsEnd(g, p2, k)
    case Seq(p1, p2) => LeadsEnd(g, p1, k) && (Shortest(g, p1, k) == Some(0) ==> LeadsEnd(g, p2, k))
    case Rules(rs) => rs != [] && LeadsEnd(rs, rs[0], k)
    case Call(n) => k == 0 || (n < |g| && LeadsEnd(g, g[n], k - 1))
    case _ => true
  }

  /** `getfirst` gives exactly the characters that a match may stand before. */
  lemma {:induction false} FirstExact(g: Grammar, t: Tree, follow: Charset, c: Byte, k: nat)
    ensures c in First(g, t, follow, k).cs <==> Leads(g, t, c, c in follow, k)
    ensures First(g, t, follow, k).empty <==> LeadsEnd(g, t, k)
    decreases k, t
  {
    match t
    case Seq(p1, p2) =>
      NullableExact(g, p1, k);
      FirstExact(g, p2, follow, c, k);
      FirstExact(g, p1, if Check(g, p1, Nullable, k) then First(g, p2, follow, k).cs else FULL, c, k);
    case Choice(p1, p2) => FirstExact(g, p1, follow, c, k); FirstExact(g, p2, follow, c, k);
    case Rep(p) => FirstExact(g, p, follow, c, k);
    case And(p) => FirstExact(g, p, follow, c, k);
    case Capture(_, _, p) => FirstExact(g, p, follow, c, k);
    case Rules(rs) => if rs != [] { FirstExact(rs, rs[0], follow, c, k); }
    case Call(n) => if k > 0 && n < |g| { FirstExact(g, g[n], follow, c, k - 1); }
    case _ =>
  }

  // ---------- the head of a pattern ----------

  /** A part of a pattern, in its grammar, with the calls that are left. */
  datatype Item = Item(g: Grammar, t: Tree, k: nat)

  /** Where matching can begin: the parts that are not made of others. */
  function Heads(g: Grammar, t: Tree, k: nat): set<Tree>
    decreases k, t
  {
    match t
    case Seq(p1, _) => Heads(g, p1, k)
    case Choice(p1, p2) => Heads(g, p1, k) + Heads(g, p2, k)
    case And(p) => Heads(g, p, k)
    case Capture(_, _, p) => Heads(g, p, k)
    case Rules(rs) => if rs == [] then {t} else Heads(rs, rs[0], k)
    case Call(n) => if k == 0 || n >= |g| then {t} else Heads(g, g[n], k - 1)
    case _ => {t}
  }

  /** What comes after them. */
  function Tails(g: Grammar, t: Tree, k: nat): set<Item>
    decreases k, t
  {
    match t
    case Seq(p1, p2) => {Item(g, p2, k)} + Tails(g, p1, k)
    case Choice(p1, p2) => Tails(g, p1, k) + Tails(g, p2, k)
    case And(p) => Tails(g, p, k)
    case Capture(_, _, p) => Tails(g, p, k)
    case Rules(rs) => if rs == [] then {} else Tails(rs, rs[0], k)
    case Call(n) => if k == 0 || n >= |g| then {} else Tails(g, g[n], k - 1)
    case _ => {}
  }

  /** One character, or never. */
  predicate IsHead(t: Tree) {
    t.Char? || t.Set? || t.Any? || t.False?
  }

  predicate NeverFails(x: Item) {
    Breaks(x.g, x.t, x.k) == None
  }

  /** `headfail` holds exactly if matching begins with single characters only, and nothing after them
      can fail. */
  lemma {:induction false} HeadFailShape(g: Grammar, t: Tree, k: nat)
    ensures HeadFail(g, t, k)
            <==> (forall p | p in Heads(g, t, k) :: IsHead(p)) && forall x | x in Tails(g, t, k) :: NeverFails(x)
    decreases k, t
  {
    if !HeadInside(g, t, k) {
      assert Heads(g, t, k) == {t} && Tails(g, t, k) == {};
      assert HeadFail(g, t, k) <==> IsHead(t);
      return;
    }
    match t
    case Seq(p1, p2) =>
      HeadFailShape(g, p1, k);
      NoFailExact(g, p2, k);
      var x2 := Item(g, p2, k);
      assert Tails(g, t, k) == {x2} + Tails(g, p1, k);
      assert (forall x | x in Tails(g, t, k) :: NeverFails(x))
             <==> NeverFails(x2) && forall x | x in Tails(g, p1, k) :: NeverFails(x);
    case Choice(p1, p2) => HeadFailShape(g, p1, k); HeadFailShape(g, p2, k);
    case And(p) => HeadFailShape(g, p, k);
    case Capture(_, _, p) => HeadFailShape(g, p, k);
    case Rules(rs) => HeadFailShape(rs, rs[0], k);
    case Call(n) => HeadFailShape(g, g[n], k - 1);
  }

  /** The head of the pattern is that of a part of it. */
  predicate HeadInside(g: Grammar, t: Tree, k: nat) {
    t.Seq? || t.Choice? || t.And? || t.Capture? || (t.Rules? && t.rules != []) || (t.Call? && k > 0 && t.rule < |g|)
  }

  /** The part that the code of a pattern ends with. */
  function LastPart(t: Tree): Tree {
    match t
    case Seq(_, p2) => LastPart(p2)
    case Capture(_, _, p) => LastPart(p)
    case _ => t
  }

  /** `needfollow` holds exactly if that is a choice or a loop, whose code can use a follow set. */
  lemma {:induction false} NeedFollowExact(t: Tree)
    ensures NeedFollow(t) <==> LastPart(t).Choice? || LastPart(t).Rep?
    decreases t
  {
    match t
    case Seq(_, p2) => NeedFollowExact(p2);
    case Capture(_, _, p) => NeedFollowExact(p);
    case _ =>
  }
}
