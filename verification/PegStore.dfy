/**
 The cells that the constructors of the library make for a tree, and that they determine it: what
 `PegCells` says of the cells of a tree is true of these cells, and of those of no other tree.
 */
module PegStore {
  import opened PegTree
  import opened PegCells
  import opened PegAssoc

  /** A leaf, or the cell before the children of a node. */
  function CellOf(tag: Tag, n: int): Cell {
    Cell(tag, 0, 0, n, {})
  }

  /** The cells of a tree inside a grammar `g`. */
  function Built(g: Grammar, t: Tree, l: Links): seq<Cell>
    requires WellFormed(g, t) && (l.To? ==> |l.pos| == |g|)
    decreases t, 1
  {
    match t
    case Char(c) => [CellOf(TChar, c)]
    case Set(cs) => [Cell(TSet, 0, 0, 0, cs)]
    case Any => [CellOf(TAny, 0)]
    case True => [CellOf(TTrue, 0)]
    case False => [CellOf(TFalse, 0)]
    case Rep(p) => [CellOf(TRep, 0)] + Built(g, p, Down(l, 1))
    case Not(p) => [CellOf(TNot, 0)] + Built(g, p, Down(l, 1))
    case And(p) => [CellOf(TAnd, 0)] + Built(g, p, Down(l, 1))
    case Behind(n, p) => [CellOf(TBehind, n)] + Built(g, p, Down(l, 1))
    case Capture(kind, key, p) => [Cell(TCapture, kind, key, 0, {})] + Built(g, p, Down(l, 1))
    case Seq(p1, p2) =>
      var c1 := Built(g, p1, Down(l, 1));
      [CellOf(TSeq, 1 + |c1|)] + c1 + Built(g, p2, Down(l, 1 + |c1|))
    case Choice(p1, p2) =>
      var c1 := Built(g, p1, Down(l, 1));
      [CellOf(TChoice, 1 + |c1|)] + c1 + Built(g, p2, Down(l, 1 + |c1|))
    case Call(n) => if l.Open? then [Cell(TOpenCall, 0, n, 0, {})] else [CellOf(TCall, l.pos[n] - l.at)]
    case Rules(rs) => [CellOf(TGrammar, |rs|)] + BuiltRules(rs, rs, 0, To(1, RulePlaces(rs, 1)))
  }

  /** The cells of the last rules of a grammar, the first of them the `i`-th, and of their end. */
  function BuiltRules(g: Grammar, rs: seq<Tree>, i: nat, l: Links): seq<Cell>
    requires (forall r | r in rs :: WellFormed(g, r)) && (l.To? ==> |l.pos| == |g|)
    decreases rs, 0
  {
    if rs == [] then [CellOf(TTrue, 0)]
    else
      var c := Built(g, rs[0], Down(l, 1));
      [Cell(TRule, i, 0, 1 + |c|, {})] + c + BuiltRules(g, rs[1..], i + 1, Down(l, 1 + |c|))
  }

  /** They hold the tree. */
  lemma {:induction false} BuiltHolds(g: Grammar, t: Tree, l: Links)
    requires WellFormed(g, t) && (l.To? ==> |l.pos| == |g|)
    ensures Stores(Built(g, t, l), t, l)
    decreases t, 1
  {
    var c := Built(g, t, l);
    if OneChild(t) {
      BuiltHolds(g, t.p, Down(l, 1));
      assert c[1..] == Built(g, t.p, Down(l, 1));
    } else if TwoChildren(t) {
      var c1 := Built(g, t.p1, Down(l, 1));
      BuiltHolds(g, t.p1, Down(l, 1));
      BuiltHolds(g, t.p2, Down(l, 1 + |c1|));
      PairIntro(c[0], c1, Built(g, t.p2, Down(l, 1 + |c1|)), 1 + |c1|, t, l);
    } else if t.Rules? {
      var l' := To(1, RulePlaces(t.rules, 1));
      BuiltRulesHold(t.rules, t.rules, 0, l');
      assert c[1..] == BuiltRules(t.rules, t.rules, 0, l');
    }
  }

  lemma {:induction false} BuiltRulesHold(g: Grammar, rs: seq<Tree>, i: nat, l: Links)
    requires (forall r | r in rs :: WellFormed(g, r)) && (l.To? ==> |l.pos| == |g|)
    ensures StoresRules(BuiltRules(g, rs, i, l), rs, l)
    decreases rs, 0
  {
    if rs != [] {
      var c := Built(g, rs[0], Down(l, 1));
      BuiltHolds(g, rs[0], Down(l, 1));
      BuiltRulesHold(g, rs[1..], i + 1, Down(l, 1 + |c|));
      var all, rest := BuiltRules(g, rs, i, l), BuiltRules(g, rs[1..], i + 1, Down(l, 1 + |c|));
      assert all[1..1 + |c|] == c && all[1 + |c|..] == rest;
    }
  }

  // ---------- one tree only ----------

  /** Different rules stand at different places. */
  predicate Apart(l: Links) {
    l.To? ==> forall a: nat, b: nat | a < b < |l.pos| :: l.pos[a] != l.pos[b]
  }

  lemma {:induction false} PlacesApart(rs: seq<Tree>, i: int)
    ensures forall a: nat | a < |rs| :: RulePlaces(rs, i)[a] >= i
    ensures forall a: nat, b: nat | a < b < |rs| :: RulePlaces(rs, i)[a] != RulePlaces(rs, i)[b]
    decreases rs
  {
    if rs != [] { PlacesApart(rs[1..], i + 1 + Cells(rs[0])); }
  }

  lemma {:induction false} SamePlaces(c: seq<Cell>, rs1: seq<Tree>, rs2: seq<Tree>, l1: Links, l2: Links, i: int)
    requires HoldsRules(c, rs1, l1) && HoldsRules(c, rs2, l2)
    ensures RulePlaces(rs1, i) == RulePlaces(rs2, i)
    decreases rs1
  {
    if rs1 != [] && rs2 != [] {
      var n := 1 + Cells(rs1[0]);
      SamePlaces(c[n..], rs1[1..], rs2[1..], Down(l1, n), Down(l2, n), i + n);
    }
  }

  /** The cells hold no other tree. */
  lemma {:induction false} HoldsOne(c: seq<Cell>, t1: Tree, t2: Tree, l: Links)
    requires Holds(c, t1, l) && Holds(c, t2, l) && Apart(l)
    ensures t1 == t2
    decreases t1, 1
  {
    if OneChild(t1) {
      HoldsOne(c[1..], t1.p, t2.p, Down(l, 1));
    } else if TwoChildren(t1) {
      var n := 1 + Cells(t1.p1);
      HoldsOne(c[1..n], t1.p1, t2.p1, Down(l, 1));
      HoldsOne(c[n..], t1.p2, t2.p2, Down(l, n));
    } else if t1.Rules? {
      var rs1, rs2 := t1.rules, t2.rules;
      SamePlaces(c[1..], rs1, rs2, To(1, RulePlaces(rs1, 1)), To(1, RulePlaces(rs2, 1)), 1);
      PlacesApart(rs1, 1);
      RulesOne(c[1..], rs1, rs2, To(1, RulePlaces(rs1, 1)));
    } else if t1.Call? && l.To? {
      SameRule(l, t1.rule, t2.rule);
    }
  }

  lemma SameRule(l: Links, n1: nat, n2: nat)
    requires Apart(l) && l.To? && n1 < |l.pos| && n2 < |l.pos| && l.pos[n1] == l.pos[n2]
    ensures n1 == n2
  {}

  lemma {:induction false} RulesOne(c: seq<Cell>, rs1: seq<Tree>, rs2: seq<Tree>, l: Links)
    requires HoldsRules(c, rs1, l) && HoldsRules(c, rs2, l) && Apart(l)
    ensures rs1 == rs2
    decreases rs1, 0
  {
    if rs1 != [] && rs2 != [] {
      var n := 1 + Cells(rs1[0]);
      HoldsOne(c[1..n], rs1[0], rs2[0], Down(l, 1));
      RulesOne(c[n..], rs1[1..], rs2[1..], Down(l, n));
      assert rs1 == [rs1[0]] + rs1[1..] && rs2 == [rs2[0]] + rs2[1..];
    }
  }
}
