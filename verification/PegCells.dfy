/**
 Pattern trees as the library stores them: an array of cells in which a node is followed by
 its first child and holds the relative place of its second one.  The final adjustment
 (`correctassociativity` and `finalfix` of nmap/lpeg.c) works on these cells in place.
 */
module PegCells {
  import opened PegTree
  import opened PegVerify
  import opened PegAssoc

  datatype Tag =
    | TChar | TSet | TAny | TTrue | TFalse | TRep | TSeq | TChoice | TNot | TAnd
    | TCall | TOpenCall | TRule | TGrammar | TBehind | TCapture

  /** `n` is the relative place of the second child or of the called rule, a character, or a
      length; `cs` stands for the bytes of a set, which follow its cell. */
  datatype Cell = Cell(tag: Tag, cap: nat, key: nat, n: int, cs: Charset)

  /** Calls name a rule, before they are fixed; later they hold its place, relative to the
      place `at` of the call. */
  datatype Links = Open | To(at: int, pos: seq<int>)

  /** The links of a part of the tree that is `k` cells further. */
  function Down(l: Links, k: nat): Links {
    match l
    case Open => Open
    case To(at, pos) => To(at + k, pos)
  }

  /** The place of each rule in a list of rules that starts at `i`. */
  function RulePlaces(rs: seq<Tree>, i: int): (r: seq<int>)
    ensures |r| == |rs|
  {
    if rs == [] then [] else [i] + RulePlaces(rs[1..], i + 1 + Cells(rs[0]))
  }

  function OneChildTag(t: Tree): Tag {
    match t
    case Rep(_) => TRep
    case Not(_) => TNot
    case And(_) => TAnd
    case Behind(_, _) => TBehind
    case _ => TCapture
  }

  predicate OneChild(t: Tree) {
    t.Rep? || t.Not? || t.And? || t.Behind? || t.Capture?
  }

  predicate TwoChildren(t: Tree) {
    t.Seq? || t.Choice?
  }

  function TwoTag(t: Tree): Tag
    requires TwoChildren(t)
  {
    if t.Seq? then TSeq else TChoice
  }

  /** The cell of a leaf. */
  predicate Leaf(c: Cell, t: Tree, l: Links) {
    match t
    case Char(ch) => c.tag == TChar && c.n == ch
    case Set(cs) => c.tag == TSet && c.cs == cs
    case Any => c.tag == TAny
    case True => c.tag == TTrue
    case False => c.tag == TFalse
    case Call(n) =>
      (match l
       case Open => c.tag == TOpenCall && c.key == n
       case To(at, pos) => c.tag == TCall && n < |pos| && at + c.n == pos[n])
    case _ => false
  }

  /** The cell of a node with one child. */
  predicate Stem(c: Cell, t: Tree) {
    && c.tag == OneChildTag(t)
    && (t.Behind? ==> c.n == t.n)
    && (t.Capture? ==> c.cap == t.kind && c.key == t.key)
  }

  /** The cells hold the tree `t`; the other fields of an inner cell do not matter. */
  predicate Holds(c: seq<Cell>, t: Tree, l: Links)
    decreases t, 1
  {
    && |c| == Cells(t)
    && if OneChild(t) then Stem(c[0], t) && Holds(c[1..], t.p, Down(l, 1))
       else if TwoChildren(t) then c[0].tag == TwoTag(t) && HoldsPair(c, t, l)
       else if t.Rules? then c[0].tag == TGrammar && HoldsRules(c[1..], t.rules, To(1, RulePlaces(t.rules, 1)))
       else Leaf(c[0], t, l)
  }

  predicate HoldsPair(c: seq<Cell>, t: Tree, l: Links)
    requires TwoChildren(t) && |c| == Cells(t)
    decreases t, 0
  {
    var n := 1 + Cells(t.p1);
    c[0].n == n && Holds(c[1..n], t.p1, Down(l, 1)) && Holds(c[n..], t.p2, Down(l, n))
  }

  /** The cells hold a list of rules. */
  predicate HoldsRules(c: seq<Cell>, rs: seq<Tree>, l: Links)
    decreases rs, 0
  {
    && |c| == RuleCells(rs)
    && if rs == [] then c[0].tag == TTrue
       else
         var n := 1 + Cells(rs[0]);
         && c[0].tag == TRule && c[0].n == n
         && Holds(c[1..n], rs[0], Down(l, 1))
         && HoldsRules(c[n..], rs[1..], Down(l, n))
  }

  /** `Holds` and `HoldsRules`, in statements that do not look into them. */
  predicate Stores(c: seq<Cell>, t: Tree, l: Links) {
    Holds(c, t, l)
  }

  predicate StoresRules(c: seq<Cell>, rs: seq<Tree>, l: Links) {
    HoldsRules(c, rs, l)
  }

  // ---------- one rotation ----------

  /** What the loop of `correctassociativity` leaves in the cells `c` of a tree whose first
      child has `n11` and `n12` cells in its own children. */
  function RotateCells(c: seq<Cell>, n11: nat, n12: nat): (r: seq<Cell>)
    requires n11 > 0 && 2 + n11 + n12 <= |c|
    ensures |r| == |c|
  {
    [c[0].(n := n11 + 1)] + c[2..2 + n11] + [c[1 + n11].(tag := c[0].tag, n := n12 + 1)] + c[2 + n11..]
  }

  /** The parts of the tree keep their cells. */
  lemma RotateParts(h: Cell, h1: Cell, c11: seq<Cell>, c12: seq<Cell>, c2: seq<Cell>) returns (m: Cell)
    requires c11 != []
    ensures m.tag == h.tag && m.n == |c12| + 1
    ensures RotateCells([h] + ([h1] + c11 + c12) + c2, |c11|, |c12|)
            == [h.(n := |c11| + 1)] + c11 + ([m] + c12 + c2)
  {
    var c := [h] + ([h1] + c11 + c12) + c2;
    m := c[1 + |c11|].(tag := h.tag, n := |c12| + 1);
    assert c[2..2 + |c11|] == c11;
    assert c[2 + |c11|..] == c12 + c2;
  }

  lemma PairCells(c: seq<Cell>, t: Tree, l: Links) returns (c1: seq<Cell>, c2: seq<Cell>)
    requires TwoChildren(t) && Stores(c, t, l)
    ensures c == [c[0]] + c1 + c2 && c[0].tag == TwoTag(t) && c[0].n == 1 + |c1|
    ensures Stores(c1, t.p1, Down(l, 1)) && Stores(c2, t.p2, Down(l, 1 + |c1|))
  {
    var n := 1 + Cells(t.p1);
    assert HoldsPair(c, t, l);
    c1, c2 := c[1..n], c[n..];
  }

  lemma PairIntro(h: Cell, c1: seq<Cell>, c2: seq<Cell>, n: nat, t: Tree, l: Links)
    requires TwoChildren(t) && h.tag == TwoTag(t) && h.n == n == 1 + |c1|
    requires Stores(c1, t.p1, Down(l, 1)) && Stores(c2, t.p2, Down(l, n))
    ensures Stores([h] + c1 + c2, t, l)
  {
    var c := [h] + c1 + c2;
    assert c[1..1 + |c1|] == c1 && c[1 + |c1|..] == c2;
    assert HoldsPair(c, t, l);
  }

  lemma RotateHolds(c: seq<Cell>, t: Tree)
    requires SameOp(t) && Stores(c, t, Open)
    ensures c[0].n - 1 == Cells(t.p1) && c[1].tag == c[0].tag && c[1].n - 1 == Cells(t.p1.p1)
    ensures Stores(RotateCells(c, Cells(t.p1.p1), Cells(t.p1.p2)), Rotate(t), Open)
  {
    var u := Rotate(t);
    var c1, c2 := PairCells(c, t, Open);
    var c11, c12 := PairCells(c1, t.p1, Open);
    assert c[1] == c1[0];
    var m := RotateParts(c[0], c1[0], c11, c12, c2);
    PairIntro(m, c12, c2, |c12| + 1, u.p2, Open);
    PairIntro(c[0].(n := |c11| + 1), c11, [m] + c12 + c2, |c11| + 1, u, Open);
  }

  lemma RotateCalls(t: Tree)
    requires SameOp(t)
    ensures Calls(Rotate(t)) == Calls(t)
  {
    var r := Rotate(t);
    assert Calls(r) == Calls(t.p1.p1) + (Calls(t.p1.p2) + Calls(t.p2));
    assert Calls(t) == Calls(t.p1.p1) + Calls(t.p1.p2) + Calls(t.p2);
  }

  /** The loop of `correctassociativity`. */
  function Turned(t: Tree): (r: Tree)
    requires TwoChildren(t)
    ensures TwoChildren(r) && !SameOp(r) && TwoTag(r) == TwoTag(t)
    ensures Cells(r) == Cells(t) && Calls(r) == Calls(t) && Fixed(r) == Fixed(t)
    decreases Cells(t.p1)
  {
    if SameOp(t) then RotateCalls(t); Turned(Rotate(t)) else t
  }

  /** The cells after `k` of them have been moved down from `src` to `dst`. */
  function Moving(was: seq<Cell>, dst: nat, src: nat, k: nat): seq<Cell>
    requires dst <= src && src + k <= |was|
  {
    was[..dst] + was[src..src + k] + was[dst + k..]
  }

  lemma MoveOne(was: seq<Cell>, dst: nat, src: nat, k: nat)
    requires dst <= src && src + k < |was|
    ensures var m := Moving(was, dst, src, k);
            |m| == |was| && m[src + k] == was[src + k] && m[dst + k := was[src + k]] == Moving(was, dst, src, k + 1)
  {
    var m := Moving(was, dst, src, k);
    assert m == was[..dst] + was[src..src + k] + ([was[dst + k]] + was[dst + k + 1..]);
    assert was[src..src + k] + [was[src + k]] == was[src..src + k + 1];
  }

  /** memmove to a lower place */
  method MoveDown(a: array<Cell>, dst: nat, src: nat, n: nat)
    requires dst <= src && src + n <= a.Length
    modifies a
    ensures a[..] == Moving(old(a[..]), dst, src, n)
  {
    ghost var was := a[..];
    var k := 0;
    while k < n
      invariant k <= n && a[..] == Moving(was, dst, src, k)
    {
      MoveOne(was, dst, src, k);
      a[dst + k] := a[src + k];
      k := k + 1;
    }
  }

  /** The tag of the first cell of a tree whose calls are open. */
  function OpenTag(t: Tree): Tag {
    match t
    case Char(_) => TChar
    case Set(_) => TSet
    case Any => TAny
    case True => TTrue
    case False => TFalse
    case Seq(_, _) => TSeq
    case Choice(_, _) => TChoice
    case Call(_) => TOpenCall
    case Rules(_) => TGrammar
    case _ => OneChildTag(t)
  }

  lemma FirstTag(c: seq<Cell>, t: Tree)
    requires Stores(c, t, Open)
    ensures c[0].tag == OpenTag(t)
  {}

  /** The array holds `c` after `pre` and before `post`. */
  ghost predicate Has(a: array<Cell>, pre: seq<Cell>, c: seq<Cell>, post: seq<Cell>)
    reads a
  {
    a[..] == pre + c + post
  }

  lemma HasAt(a: array<Cell>, pre: seq<Cell>, c: seq<Cell>, post: seq<Cell>, k: nat)
    requires Has(a, pre, c, post) && k < |c|
    ensures |pre| + k < a.Length && a[|pre| + k] == c[k]
  {
    assert |a[..]| == |pre + c + post|;
    assert a[|pre| + k] == a[..][|pre| + k];
  }

  /** The body of the loop of `correctassociativity` */
  method RotateOnce(a: array<Cell>, i: nat, n11: nat, n12: nat, ghost pre: seq<Cell>, ghost c: seq<Cell>,
                    ghost post: seq<Cell>)
    requires Has(a, pre, c, post) && |pre| == i && n11 > 0 && 2 + n11 + n12 <= |c|
    modifies a
    ensures Has(a, pre, RotateCells(c, n11, n12), post)
  {
    ghost var was := a[..];
    assert |was| == |pre + c + post|;
    MoveDown(a, i + 1, i + 2, n11);
    ghost var moved := c[..1] + c[2..2 + n11] + c[1 + n11..];
    MovedCells(pre, c, post, n11);
    HasAt(a, pre, moved, post, 0);
    a[i] := a[i].(n := n11 + 1);
    a[i + 1 + n11] := a[i + 1 + n11].(tag := a[i].tag, n := n12 + 1);
    MarkedCells(pre, c, post, n11, n12);
  }

  lemma MovedCells(pre: seq<Cell>, c: seq<Cell>, post: seq<Cell>, n11: nat)
    requires 2 + n11 <= |c|
    ensures var was, i := pre + c + post, |pre|;
            Moving(was, i + 1, i + 2, n11) == pre + (c[..1] + c[2..2 + n11] + c[1 + n11..]) + post
  {
    var was, i := pre + c + post, |pre|;
    assert was[..i + 1] == pre + c[..1];
    assert was[i + 2..i + 2 + n11] == c[2..2 + n11];
    assert was[i + 1 + n11..] == c[1 + n11..] + post;
  }

  lemma MarkedCells(pre: seq<Cell>, c: seq<Cell>, post: seq<Cell>, n11: nat, n12: nat)
    requires n11 > 0 && 2 + n11 + n12 <= |c|
    ensures var moved := c[..1] + c[2..2 + n11] + c[1 + n11..];
            var b, i := pre + moved + post, |pre|;
            b[i := b[i].(n := n11 + 1)][i + 1 + n11 := b[i + 1 + n11].(tag := b[i].tag, n := n12 + 1)]
            == pre + RotateCells(c, n11, n12) + post
  {
    var moved := c[..1] + c[2..2 + n11] + c[1 + n11..];
    var b, i := pre + moved + post, |pre|;
    assert moved[0] == c[0] && moved[1 + n11] == c[1 + n11];
    assert b[i] == moved[0] && b[i + 1 + n11] == moved[1 + n11];
    assert moved[0 := c[0].(n := n11 + 1)][1 + n11 := c[1 + n11].(tag := c[0].tag, n := n12 + 1)]
             == RotateCells(c, n11, n12);
  }

  /** The array holds the tree `t`, whose first child it shows to have the same tag or not. */
  ghost predicate Shows(a: array<Cell>, i: nat, pre: seq<Cell>, c: seq<Cell>, post: seq<Cell>, t: Tree)
    reads a
  {
    && Has(a, pre, c, post) && |pre| == i && i + 1 < a.Length && TwoChildren(t) && Stores(c, t, Open)
    && (a[i + 1].tag == a[i].tag <==> SameOp(t))
  }

  lemma ShowsTags(a: array<Cell>, i: nat, pre: seq<Cell>, c: seq<Cell>, post: seq<Cell>, t: Tree)
    requires Has(a, pre, c, post) && |pre| == i && TwoChildren(t) && Stores(c, t, Open)
    ensures Shows(a, i, pre, c, post, t)
  {
    TagsOfPair(c, t);
    HasAt(a, pre, c, post, 0);
    HasAt(a, pre, c, post, 1);
  }

  /** One round of `correctassociativity` */
  method RotateTree(a: array<Cell>, i: nat, ghost t: Tree, ghost pre: seq<Cell>, ghost c: seq<Cell>,
                    ghost post: seq<Cell>)
    returns (ghost r: seq<Cell>)
    requires Shows(a, i, pre, c, post, t) && SameOp(t)
    modifies a
    ensures Shows(a, i, pre, r, post, Rotate(t))
  {
    RotateHolds(c, t);
    HasAt(a, pre, c, post, 0);
    HasAt(a, pre, c, post, 1);
    var n1size := a[i].n - 1;
    var n11size := a[i + 1].n - 1;
    var n12size := n1size - n11size - 1;
    RotateOnce(a, i, n11size, n12size, pre, c, post);
    r := RotateCells(c, n11size, n12size);
    ShowsTags(a, i, pre, r, post, Rotate(t));
  }

  method CorrectAssociativity(a: array<Cell>, i: nat, ghost t: Tree, ghost pre: seq<Cell>, ghost c: seq<Cell>,
                              ghost post: seq<Cell>)
    returns (ghost r: seq<Cell>)
    requires Has(a, pre, c, post) && |pre| == i && TwoChildren(t) && Stores(c, t, Open)
    modifies a
    ensures Has(a, pre, r, post) && Stores(r, Turned(t), Open)
  {
    ghost var cur := t;
    r := c;
    ShowsTags(a, i, pre, r, post, cur);
    while a[i + 1].tag == a[i].tag
      invariant Shows(a, i, pre, r, post, cur) && Turned(cur) == Turned(t)
      decreases Cells(cur.p1)
    {
      r := RotateTree(a, i, cur, pre, r, post);
      cur := Rotate(cur);
    }
  }

  lemma TagsOfPair(c: seq<Cell>, t: Tree)
    requires TwoChildren(t) && Stores(c, t, Open)
    ensures |c| > 1 && (c[1].tag == c[0].tag <==> SameOp(t))
  {
    var c1, c2 := PairCells(c, t, Open);
    FirstTag(c1, t.p1);
    assert c[1] == c1[0];
  }

  // ---------- the whole tree ----------

  lemma {:induction false} Grounded(c: seq<Cell>, t: Tree, l1: Links, l2: Links)
    requires t.Rules? && Stores(c, t, l1)
    ensures Stores(c, t, l2)
  {}

  /** The calls of the tree are defined in a grammar with `n` rules. */
  predicate Defined(t: Tree, n: nat) {
    forall k | k in Calls(t) :: k < n
  }

  lemma StemCells(c: seq<Cell>, t: Tree, l: Links)
    requires OneChild(t) && Stores(c, t, l)
    ensures c == [c[0]] + c[1..] && Stem(c[0], t) && Stores(c[1..], t.p, Down(l, 1))
  {}

  lemma StemIntro(h: Cell, c: seq<Cell>, t: Tree, at: int, pos: seq<int>)
    requires OneChild(t) && Stem(h, t) && Stores(c, Fixed(t.p), To(at + 1, pos))
    ensures Stores([h] + c, Fixed(t), To(at, pos))
  {
    assert Down(To(at, pos), 1) == To(at + 1, pos);
    assert ([h] + c)[1..] == c;
  }

  /**
   `finalfix` on the tree at `i`, which is `at` cells into a grammar whose rules are at the
   places `pos`, relative to the grammar (none, outside a grammar): it makes the tree right associative and
   links its calls, unless a rule is missing.
   */
  method FinalFix(a: array<Cell>, at: nat, i: nat, pos: seq<int>, ghost t: Tree, ghost pre: seq<Cell>,
                  ghost c: seq<Cell>, ghost post: seq<Cell>)
    returns (ok: bool, ghost r: seq<Cell>)
    requires Has(a, pre, c, post) && |pre| == i && Stores(c, t, Open)
    modifies a
    ensures ok <==> Defined(t, |pos|)
    ensures ok ==> Has(a, pre, r, post) && Stores(r, Fixed(t), To(at, pos))
    decreases Cells(t), 2
  {
    r := c;
    FirstTag(c, t);
    HasAt(a, pre, c, post, 0);
    match a[i].tag {
      case TGrammar => ok := true; Grounded(c, t, Open, To(at, pos));
      case TOpenCall =>
        ok := a[i].key < |pos|;
        assert Calls(t) == {a[i].key};
        if ok {
          a[i] := a[i].(tag := TCall, n := pos[a[i].key] - at);
          r := c[0 := a[i]];
        }
      case TSeq => ok, r := FixPair(a, at, i, pos, t, pre, c, post);
      case TChoice => ok, r := FixPair(a, at, i, pos, t, pre, c, post);
      case TRep => ok, r := FixStem(a, at, i, pos, t, pre, c, post);
      case TNot => ok, r := FixStem(a, at, i, pos, t, pre, c, post);
      case TAnd => ok, r := FixStem(a, at, i, pos, t, pre, c, post);
      case TBehind => ok, r := FixStem(a, at, i, pos, t, pre, c, post);
      case TCapture => ok, r := FixStem(a, at, i, pos, t, pre, c, post);
      case _ => ok := true;
    }
  }

  method FixStem(a: array<Cell>, at: nat, i: nat, pos: seq<int>, ghost t: Tree, ghost pre: seq<Cell>,
                 ghost c: seq<Cell>, ghost post: seq<Cell>)
    returns (ok: bool, ghost r: seq<Cell>)
    requires Has(a, pre, c, post) && |pre| == i && Stores(c, t, Open) && OneChild(t)
    modifies a
    ensures ok <==> Defined(t, |pos|)
    ensures ok ==> Has(a, pre, r, post) && Stores(r, Fixed(t), To(at, pos))
    decreases Cells(t), 1
  {
    StemCells(c, t, Open);
    ghost var h, c1, r1 := c[0], c[1..], c[1..];
    DefinedStem(t, |pos|);
    HasOnly(a, pre, h, c1, post);
    ok, r1 := FinalFix(a, at + 1, i + 1, pos, t.p, pre + [h], c1, post);
    HasOnly(a, pre, h, r1, post);
    if ok { StemIntro(h, r1, t, at, pos); }
    r := [h] + r1;
  }

  method FixPair(a: array<Cell>, at: nat, i: nat, pos: seq<int>, ghost t: Tree, ghost pre: seq<Cell>,
                 ghost c: seq<Cell>, ghost post: seq<Cell>)
    returns (ok: bool, ghost r: seq<Cell>)
    requires Has(a, pre, c, post) && |pre| == i && Stores(c, t, Open) && TwoChildren(t)
    modifies a
    ensures ok <==> Defined(t, |pos|)
    ensures ok ==> Has(a, pre, r, post) && Stores(r, Fixed(t), To(at, pos))
    decreases Cells(t), 1
  {
    r := CorrectAssociativity(a, i, t, pre, c, post);
    ok, r := FixChildren(a, at, i, pos, Turned(t), pre, r, post);
  }

  lemma DefinedPair(t: Tree, n: nat)
    requires TwoChildren(t)
    ensures Defined(t, n) <==> Defined(t.p1, n) && Defined(t.p2, n)
  {
    assert Calls(t) == Calls(t.p1) + Calls(t.p2);
  }

  lemma DefinedStem(t: Tree, n: nat)
    requires OneChild(t)
    ensures Defined(t, n) <==> Defined(t.p, n)
  {
    assert Calls(t) == Calls(t.p);
  }

  lemma FixedPair(t: Tree)
    requires TwoChildren(t) && !SameOp(t)
    ensures var u := Fixed(t); TwoChildren(u) && TwoTag(u) == TwoTag(t) && u.p1 == Fixed(t.p1) && u.p2 == Fixed(t.p2)
  {}

  /** From a node to its first child, */
  lemma HasFirst(a: array<Cell>, pre: seq<Cell>, h: Cell, c1: seq<Cell>, c2: seq<Cell>, post: seq<Cell>)
    requires Has(a, pre, [h] + c1 + c2, post)
    ensures Has(a, pre + [h], c1, c2 + post)
  {}

  /** from there to the second one, */
  lemma HasSecond(a: array<Cell>, pre: seq<Cell>, h: Cell, c1: seq<Cell>, c2: seq<Cell>, post: seq<Cell>)
    requires Has(a, pre + [h], c1, c2 + post)
    ensures Has(a, pre + [h] + c1, c2, post)
  {}

  /** and back. */
  lemma HasBoth(a: array<Cell>, pre: seq<Cell>, h: Cell, c1: seq<Cell>, c2: seq<Cell>, post: seq<Cell>)
    requires Has(a, pre + [h] + c1, c2, post)
    ensures Has(a, pre, [h] + c1 + c2, post)
  {}

  lemma HasOnly(a: array<Cell>, pre: seq<Cell>, h: Cell, c: seq<Cell>, post: seq<Cell>)
    ensures Has(a, pre, [h] + c, post) <==> Has(a, pre + [h], c, post)
  {
    assert pre + ([h] + c) + post == (pre + [h]) + c + post;
  }

  /** The children of a node that is right associative already */
  method FixChildren(a: array<Cell>, at: nat, i: nat, pos: seq<int>, ghost t: Tree, ghost pre: seq<Cell>,
                     ghost c: seq<Cell>, ghost post: seq<Cell>)
    returns (ok: bool, ghost r: seq<Cell>)
    requires Has(a, pre, c, post) && |pre| == i && Stores(c, t, Open) && TwoChildren(t) && !SameOp(t)
    modifies a
    ensures ok <==> Defined(t, |pos|)
    ensures ok ==> Has(a, pre, r, post) && Stores(r, Fixed(t), To(at, pos))
    decreases Cells(t), 0
  {
    ghost var c1, c2 := PairCells(c, t, Open);
    ghost var h, r1, r2 := c[0], c1, c2;
    HasAt(a, pre, c, post, 0);
    DefinedPair(t, |pos|);
    HasFirst(a, pre, h, c1, c2, post);
    var n: nat := a[i].n;
    r := c;
    ok, r1 := FinalFix(a, at + 1, i + 1, pos, t.p1, pre + [h], c1, c2 + post);
    if ok {
      HasSecond(a, pre, h, r1, c2, post);
      assert |r1| == |c1| && n == 1 + |r1|;
      ok, r2 := FinalFix(a, at + n, i + n, pos, t.p2, pre + [h] + r1, c2, post);
      if ok {
        HasBoth(a, pre, h, r1, r2, post);
        FixedIntro(h, r1, r2, n, t, at, pos);
        r := [h] + r1 + r2;
      }
    }
  }

  lemma RuleParts(c: seq<Cell>, rs: seq<Tree>, l: Links) returns (c1: seq<Cell>, c2: seq<Cell>)
    requires rs != [] && StoresRules(c, rs, l)
    ensures c == [c[0]] + c1 + c2 && c[0].tag == TRule && c[0].n == 1 + |c1|
    ensures Stores(c1, rs[0], Down(l, 1)) && StoresRules(c2, rs[1..], Down(l, 1 + |c1|))
  {
    var n := 1 + Cells(rs[0]);
    c1, c2 := c[1..n], c[n..];
  }

  lemma RuleIntro(h: Cell, c1: seq<Cell>, c2: seq<Cell>, n: nat, t: Tree, rest: seq<Tree>, at: int, pos: seq<int>)
    requires h.tag == TRule && h.n == n == 1 + |c1|
    requires Stores(c1, t, To(at + 1, pos)) && StoresRules(c2, rest, To(at + n, pos))
    ensures StoresRules([h] + c1 + c2, [t] + rest, To(at, pos))
  {
    var c, rs, l := [h] + c1 + c2, [t] + rest, To(at, pos);
    assert Down(l, 1) == To(at + 1, pos);
    assert Down(l, n) == To(at + n, pos);
    assert c[1..n] == c1 && c[n..] == c2 && rs[1..] == rest;
  }

  lemma FixedIntro(h: Cell, c1: seq<Cell>, c2: seq<Cell>, n: nat, t: Tree, at: int, pos: seq<int>)
    requires TwoChildren(t) && !SameOp(t) && h.tag == TwoTag(t) && h.n == n == 1 + |c1|
    requires Stores(c1, Fixed(t.p1), To(at + 1, pos)) && Stores(c2, Fixed(t.p2), To(at + n, pos))
    ensures Stores([h] + c1 + c2, Fixed(t), To(at, pos))
  {
    FixedPair(t);
    var l := To(at, pos);
    assert Down(l, 1) == To(at + 1, pos);
    assert Down(l, n) == To(at + n, pos);
    PairIntro(h, c1, c2, n, Fixed(t), l);
  }

  predicate AllDefined(rs: seq<Tree>, n: nat) {
    forall r | r in rs :: Defined(r, n)
  }

  lemma AllDefinedParts(rs: seq<Tree>, n: nat)
    requires rs != []
    ensures AllDefined(rs, n) <==> Defined(rs[0], n) && AllDefined(rs[1..], n)
  {
    assert rs == [rs[0]] + rs[1..];
  }

  lemma RulesTag(c: seq<Cell>, rs: seq<Tree>, l: Links)
    requires StoresRules(c, rs, l)
    ensures |c| > 0 && (c[0].tag == TTrue <==> rs == [])
    ensures rs == [] ==> forall l2 :: StoresRules(c, rs, l2)
  {}

  lemma FixedAllParts(rs: seq<Tree>)
    requires rs != []
    ensures FixedAll(rs) == [Fixed(rs[0])] + FixedAll(rs[1..])
  {}

  /** `finalfix` on a list of rules */
  method FixRules(a: array<Cell>, at: nat, i: nat, pos: seq<int>, ghost rs: seq<Tree>, ghost pre: seq<Cell>,
                  ghost c: seq<Cell>, ghost post: seq<Cell>)
    returns (ok: bool, ghost r: seq<Cell>)
    requires Has(a, pre, c, post) && |pre| == i && StoresRules(c, rs, Open)
    modifies a
    ensures ok <==> AllDefined(rs, |pos|)
    ensures ok ==> Has(a, pre, r, post) && StoresRules(r, FixedAll(rs), To(at, pos))
    decreases RuleCells(rs), 1
  {
    r := c;
    RulesTag(c, rs, Open);
    HasAt(a, pre, c, post, 0);
    if a[i].tag == TTrue {
      ok := true;
    } else {
      ok, r := FixFirstRule(a, at, i, pos, rs, pre, c, post);
    }
  }

  method FixFirstRule(a: array<Cell>, at: nat, i: nat, pos: seq<int>, ghost rs: seq<Tree>, ghost pre: seq<Cell>,
                      ghost c: seq<Cell>, ghost post: seq<Cell>)
    returns (ok: bool, ghost r: seq<Cell>)
    requires Has(a, pre, c, post) && |pre| == i && StoresRules(c, rs, Open) && rs != []
    modifies a
    ensures ok <==> AllDefined(rs, |pos|)
    ensures ok ==> Has(a, pre, r, post) && StoresRules(r, FixedAll(rs), To(at, pos))
    decreases RuleCells(rs), 0
  {
    ghost var c1, c2 := RuleParts(c, rs, Open);
    ghost var h, r1, r2 := c[0], c1, c2;
    HasAt(a, pre, c, post, 0);
    AllDefinedParts(rs, |pos|);
    FixedAllParts(rs);
    HasFirst(a, pre, h, c1, c2, post);
    var n: nat := a[i].n;
    r := c;
    ok, r1 := FinalFix(a, at + 1, i + 1, pos, rs[0], pre + [h], c1, c2 + post);
    if ok {
      HasSecond(a, pre, h, r1, c2, post);
      assert |r1| == |c1| && n == 1 + |r1|;
      ok, r2 := FixRules(a, at + n, i + n, pos, rs[1..], pre + [h] + r1, c2, post);
      if ok {
        HasBoth(a, pre, h, r1, r2, post);
        RuleIntro(h, r1, r2, n, Fixed(rs[0]), FixedAll(rs[1..]), at, pos);
        r := [h] + r1 + r2;
      }
    }
  }

  lemma {:induction false} PlacesFixed(rs: seq<Tree>, i: int)
    ensures RulePlaces(FixedAll(rs), i) == RulePlaces(rs, i)
    decreases rs
  {
    if rs != [] {
      assert FixedAll(rs)[1..] == FixedAll(rs[1..]);
      PlacesFixed(rs[1..], i + 1 + Cells(rs[0]));
    }
  }

  /** A new grammar at `g`: its rules become right associative, and every call in them holds
      the relative place of its rule, unless a rule is missing. */
  method FixGrammar(a: array<Cell>, g: nat, pos: seq<int>, ghost rs: seq<Tree>, ghost pre: seq<Cell>, ghost h: Cell,
                    ghost c: seq<Cell>, ghost post: seq<Cell>)
    returns (ok: bool, ghost r: seq<Cell>)
    requires Has(a, pre, [h] + c, post) && |pre| == g && h.tag == TGrammar && StoresRules(c, rs, Open)
    requires pos == RulePlaces(rs, 1)
    modifies a
    ensures ok <==> AllDefined(rs, |rs|)
    ensures ok ==> Has(a, pre, r, post) && Stores(r, Rules(FixedAll(rs)), Open)
  {
    HasOnly(a, pre, h, c, post);
    ghost var r2;
    ok, r2 := FixRules(a, 1, g + 1, pos, rs, pre + [h], c, post);
    HasOnly(a, pre, h, r2, post);
    r := [h] + r2;
    if ok {
      PlacesFixed(rs, 1);
      assert r[1..] == r2;
    }
  }
}
