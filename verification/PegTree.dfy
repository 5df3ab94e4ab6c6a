/**
 Pattern trees of the LPeg library (the type TTree of nmap/lpeg.c) and the static
 analyses that the code generator runs on them.

 A tree is read inside a grammar `g`, the list of rules of the innermost enclosing
 grammar: `Call(n)` stands for rule `g[n]`.  Match-time captures (TRunTime) are not
 part of the model, and open calls (TOpenCall) are gone once a tree is fixed.
 */
module PegTree {

  type Byte = c: int | 0 <= c < 256
  type Charset = set<Byte>
  type Grammar = seq<Tree>

  /** The character set with every byte: the follow set that says nothing. */
  const FULL: Charset := set c: Byte | 0 <= c < 256

  const MAX_RULES: nat := 200
  const MAX_BEHIND: nat := 255
  const MAX_OFF: nat := 15
  const UCHAR_MAX: nat := 255

  /** Kinds of captures are small numbers; `CLOSE` marks the end of a long capture. */
  const CLOSE: nat := 0

  datatype Tree =
    | Char(c: Byte)
    | Set(cs: Charset)
    | Any
    | True
    | False
    | Rep(p: Tree)
    | Seq(p1: Tree, p2: Tree)
    | Choice(p1: Tree, p2: Tree)
    | Not(p: Tree)
    | And(p: Tree)
    | Call(rule: nat)
    | Rules(rules: seq<Tree>)
    | Behind(n: nat, p: Tree)
    | Capture(kind: nat, key: nat, p: Tree)

  // ---------- the shape of a tree ----------

  predicate IsCharset(t: Tree) {
    t.Char? || t.Set? || t.Any?
  }

  function ToCharset(t: Tree): Charset
    requires IsCharset(t)
  {
    match t
    case Char(c) => {c}
    case Set(cs) => cs
    case Any => FULL
  }

  /** Syntactic search for captures; it does not look through calls. */
  predicate HasCaptures(t: Tree) {
    match t
    case Capture(_, _, _) => true
    case Rep(p) => HasCaptures(p)
    case Not(p) => HasCaptures(p)
    case And(p) => HasCaptures(p)
    case Behind(_, p) => HasCaptures(p)
    case Seq(p1, p2) => HasCaptures(p1) || HasCaptures(p2)
    case Choice(p1, p2) => HasCaptures(p1) || HasCaptures(p2)
    case Rules(rs) => exists r | r in rs :: HasCaptures(r)
    case _ => false
  }

  /** No call to a rule of the enclosing grammar. */
  predicate CallFree(t: Tree) {
    match t
    case Call(_) => false
    case Rep(p) => CallFree(p)
    case Not(p) => CallFree(p)
    case And(p) => CallFree(p)
    case Behind(_, p) => CallFree(p)
    case Capture(_, _, p) => CallFree(p)
    case Seq(p1, p2) => CallFree(p1) && CallFree(p2)
    case Choice(p1, p2) => CallFree(p1) && CallFree(p2)
    case _ => true
  }

  // ---------- analyses ----------

  datatype Pred = Nullable | NoFail

  /**
   `checkaux`: whether a pattern can match the empty string (Nullable) or can never
   fail (NoFail).  The budget `k` bounds the chain of left calls that is followed; when
   it runs out the answer is the cautious one.  A grammar has at most `MAX_RULES` rules, so
   this takes a chain that goes on through a nested grammar.  The results about the
   analyses hold for every budget.
   */
  predicate Check(g: Grammar, t: Tree, pred: Pred, k: nat := MAX_RULES)
    decreases k, t, 1
  {
    CheckNode(g, t, pred, k)
  }

  predicate CheckNode(g: Grammar, t: Tree, pred: Pred, k: nat)
    decreases k, t, 0
  {
    match t
    case Char(_) => false
    case Set(_) => false
    case Any => false
    case False => false
    case Rep(_) => true
    case True => true
    case Not(_) => pred.Nullable?
    case Behind(_, _) => pred.Nullable?
    case And(p) => pred.Nullable? || Check(g, p, pred, k)
    case Seq(p1, p2) => Check(g, p1, pred, k) && Check(g, p2, pred, k)
    case Choice(p1, p2) => Check(g, p2, pred, k) || Check(g, p1, pred, k)
    case Capture(_, _, p) => Check(g, p, pred, k)
    case Rules(rs) => |rs| > 0 && Check(rs, rs[0], pred, k)
    case Call(n) => if k == 0 then pred.Nullable? else n < |g| && Check(g, g[n], pred, k - 1)
  }

  /** `fixedlenx`: `len` plus the number of characters of every match, or -1 if that varies. */
  function FixedLenX(g: Grammar, t: Tree, count: nat, len: nat): (r: int)
    ensures r >= -1
    decreases if count < MAX_RULES then MAX_RULES - count else 0, t, 1
  {
    FixedLenNode(g, t, count, len)
  }

  function FixedLenNode(g: Grammar, t: Tree, count: nat, len: nat): (r: int)
    ensures r >= -1
    decreases if count < MAX_RULES then MAX_RULES - count else 0, t, 0
  {
    match t
    case Char(_) => len + 1
    case Set(_) => len + 1
    case Any => len + 1
    case False => len
    case True => len
    case Not(_) => len
    case And(_) => len
    case Behind(_, _) => len
    case Rep(_) => -1
    case Capture(_, _, p) => FixedLenX(g, p, count, len)
    case Rules(rs) => if |rs| > 0 then FixedLenX(rs, rs[0], count, len) else -1
    case Call(n) =>
      if count >= MAX_RULES || n >= |g| then -1 else FixedLenX(g, g[n], count + 1, len)
    case Seq(p1, p2) =>
      var n1 := FixedLenX(g, p1, count, len);
      if n1 < 0 then -1 else FixedLenX(g, p2, count, n1)
    case Choice(p1, p2) =>
      var n1 := FixedLenX(g, p1, count, len);
      if n1 < 0 then -1 else
      var n2 := FixedLenX(g, p2, count, len);
      if n1 == n2 then n1 else -1
  }

  function FixedLen(g: Grammar, t: Tree): int {
    FixedLenX(g, t, 0, 0)
  }

  /** A first set, and whether the pattern may match at the end of the subject. */
  datatype FirstInfo = FirstInfo(cs: Charset, empty: bool)

  /** `getfirst`: the characters a match can start with when `follow` may come after it. */
  function First(g: Grammar, t: Tree, follow: Charset, k: nat := MAX_RULES): FirstInfo
    decreases k, t, 1
  {
    FirstNode(g, t, follow, k)
  }

  function FirstNode(g: Grammar, t: Tree, follow: Charset, k: nat): FirstInfo
    decreases k, t, 0
  {
    match t
    case Char(_) => FirstInfo(ToCharset(t), false)
    case Set(_) => FirstInfo(ToCharset(t), false)
    case Any => FirstInfo(ToCharset(t), false)
    case True => FirstInfo(follow, true)
    case False => FirstInfo({}, false)
    case Choice(p1, p2) =>
      var f1 := First(g, p1, follow, k);
      var f2 := First(g, p2, follow, k);
      FirstInfo(f1.cs + f2.cs, f1.empty || f2.empty)
    case Seq(p1, p2) =>
      if !Check(g, p1, Nullable, k) then First(g, p1, FULL, k)
      else
        var f2 := First(g, p2, follow, k);
        var f1 := First(g, p1, f2.cs, k);
        FirstInfo(f1.cs, f1.empty && f2.empty)
    case Rep(p) => FirstInfo(First(g, p, follow, k).cs + follow, true)
    case Capture(_, _, p) => First(g, p, follow, k)
    case Rules(rs) => if |rs| > 0 then First(rs, rs[0], follow, k) else FirstInfo({}, false)
    case Call(n) =>
      if k == 0 then FirstInfo(FULL, true)
      else if n < |g| then First(g, g[n], follow, k - 1) else FirstInfo({}, false)
    case And(p) =>
      var f := First(g, p, follow, k);
      FirstInfo(f.cs * follow, f.empty)
    case Not(p) => FirstInfo(if IsCharset(p) then FULL - ToCharset(p) else follow, true)
    case Behind(_, _) => FirstInfo(follow, true)
  }

  /** `headfail`: the pattern can fail only because of the next character. */
  predicate HeadFail(g: Grammar, t: Tree, k: nat := MAX_RULES)
    decreases k, t, 1
  {
    HeadFailNode(g, t, k)
  }

  predicate HeadFailNode(g: Grammar, t: Tree, k: nat)
    decreases k, t, 0
  {
    match t
    case Char(_) => true
    case Set(_) => true
    case Any => true
    case False => true
    case True => false
    case Rep(_) => false
    case Not(_) => false
    case Behind(_, _) => false
    case Capture(_, _, p) => HeadFail(g, p, k)
    case And(p) => HeadFail(g, p, k)
    case Rules(rs) => |rs| > 0 && HeadFail(rs, rs[0], k)
    case Call(n) => k > 0 && n < |g| && HeadFail(g, g[n], k - 1)
    case Seq(p1, p2) => Check(g, p2, NoFail, k) && HeadFail(g, p1, k)
    case Choice(p1, p2) => HeadFail(g, p1, k) && HeadFail(g, p2, k)
  }

  /** `needfollow`: the code for the tree can profit from a follow set. */
  predicate NeedFollow(t: Tree) {
    match t
    case Choice(_, _) => true
    case Rep(_) => true
    case Capture(_, _, p) => NeedFollow(p)
    case Seq(_, p2) => NeedFollow(p2)
    case _ => false
  }

  // ---------- well-formed trees ----------

  /**
   What the constructors of the library guarantee about a fixed tree: calls name rules,
   grammars have an initial rule, and a look-behind body has a fixed positive length and no
   captures.  It may have calls inside predicates, whose length counts as 0.
   */
  predicate WellFormed(g: Grammar, t: Tree)
    decreases t
  {
    match t
    case Call(n) => n < |g|
    case Rules(rs) => |rs| > 0 && forall r | r in rs :: WellFormed(rs, r)
    case Behind(n, p) =>
      && WellFormed(g, p) && 0 < n <= MAX_BEHIND && FixedLen(g, p) == n
      && !HasCaptures(p)
    case Rep(p) => WellFormed(g, p)
    case Not(p) => WellFormed(g, p)
    case And(p) => WellFormed(g, p)
    case Capture(kind, _, p) => kind != CLOSE && WellFormed(g, p)
    case Seq(p1, p2) => WellFormed(g, p1) && WellFormed(g, p2)
    case Choice(p1, p2) => WellFormed(g, p1) && WellFormed(g, p2)
    case _ => true
  }

  /** Every rule of a grammar is well formed. */
  ghost predicate WellFormedRules(g: Grammar) {
    forall n: nat | n < |g| :: WellFormed(g, g[n])
  }
}
