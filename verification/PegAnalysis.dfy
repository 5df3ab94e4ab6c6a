/**
 Soundness of the static analyses with respect to the PEG semantics.  Every statement
 holds for every grammar, with or without left recursion, and for every budget `k`.
 */
module PegAnalysis {
  import opened PegTree
  import opened PegSemantics

  /** A pattern that is not nullable consumes at least one character whenever it matches. */
  lemma {:induction false} NullableSound(m: Mode, g: Grammar, t: Tree, s: Subject, i: nat, f: nat, k: nat)
    requires i <= |s| && !Check(g, t, Nullable, k)
    ensures var r := Run(m, g, t, s, i, f); r.Ok? ==> r.pos > i
    decreases f
  {
    if f == 0 { return; }
    RunCases(m, g, t, s, i, f);
    match t
    case Seq(p1, p2) =>
      var r := Run(m, g, p1, s, i, f - 1);
      if r.Ok? {
        if Check(g, p1, Nullable, k) {
          NullableSound(m, g, p2, s, r.pos, f - 1, k);
        } else {
          NullableSound(m, g, p1, s, i, f - 1, k);
        }
      }
    case Choice(p1, p2) =>
      NullableSound(m, g, p1, s, i, f - 1, k);
      NullableSound(m, g, p2, s, i, f - 1, k);
    case Capture(_, _, p) => NullableSound(m, g, p, s, i, f - 1, k);
    case Rules(rs) => if |rs| > 0 { NullableSound(m, rs, rs[0], s, i, f - 1, k); }
    case Call(n) => if n < |g| { NullableSound(m, g, g[n], s, i, f - 1, k - 1); }
    case _ =>
  }

  /** A pattern classified as never failing does not fail on any subject. */
  lemma {:induction false} NoFailSound(m: Mode, g: Grammar, t: Tree, s: Subject, i: nat, f: nat, k: nat)
    requires i <= |s| && Check(g, t, NoFail, k)
    ensures Run(m, g, t, s, i, f) != Fail
    decreases f
  {
    if f == 0 { return; }
    RunCases(m, g, t, s, i, f);
    match t
    case Seq(p1, p2) =>
      NoFailSound(m, g, p1, s, i, f - 1, k);
      var r := Run(m, g, p1, s, i, f - 1);
      if r.Ok? { NoFailSound(m, g, p2, s, r.pos, f - 1, k); }
    case Choice(p1, p2) =>
      if Check(g, p1, NoFail, k) { NoFailSound(m, g, p1, s, i, f - 1, k); }
      else { NoFailSound(m, g, p2, s, i, f - 1, k); }
    case Rep(p) => RepNeverFails(m, g, t, s, i, f);
    case And(p) => NoFailSound(m, g, p, s, i, f - 1, k);
    case Capture(_, _, p) => NoFailSound(m, g, p, s, i, f - 1, k);
    case Rules(rs) => NoFailSound(m, rs, rs[0], s, i, f - 1, k);
    case Call(n) => NoFailSound(m, g, g[n], s, i, f - 1, k - 1);
    case _ =>
  }

  lemma {:induction false} RepNeverFails(m: Mode, g: Grammar, t: Tree, s: Subject, i: nat, f: nat)
    requires i <= |s| && t.Rep?
    ensures Run(m, g, t, s, i, f) != Fail
    decreases f
  {
    if f == 0 { return; }
    RunCases(m, g, t, s, i, f);
    var r := Run(m, g, t.p, s, i, f - 1);
    if r.Ok? { RepNeverFails(m, g, t, s, r.pos, f - 1); }
  }

  /** `fixedlen(p) = n >= 0` means that every match has exactly `n` characters. */
  lemma {:induction false} FixedLenSound(m: Mode, g: Grammar, t: Tree, s: Subject, i: nat, f: nat, count: nat, len: nat)
    requires i <= |s| && FixedLenX(g, t, count, len) >= 0
    ensures var r := Run(m, g, t, s, i, f);
            r.Ok? ==> r.pos - i == FixedLenX(g, t, count, len) - len
    decreases f
  {
    if f == 0 { return; }
    RunCases(m, g, t, s, i, f);
    match t
    case Seq(p1, p2) =>
      FixedLenSound(m, g, p1, s, i, f - 1, count, len);
      var r := Run(m, g, p1, s, i, f - 1);
      if r.Ok? { FixedLenSound(m, g, p2, s, r.pos, f - 1, count, FixedLenX(g, p1, count, len)); }
    case Choice(p1, p2) =>
      FixedLenSound(m, g, p1, s, i, f - 1, count, len);
      FixedLenSound(m, g, p2, s, i, f - 1, count, len);
    case Capture(_, _, p) => FixedLenSound(m, g, p, s, i, f - 1, count, len);
    case Rules(rs) => FixedLenSound(m, rs, rs[0], s, i, f - 1, count, len);
    case Call(n) => FixedLenSound(m, g, g[n], s, i, f - 1, count + 1, len);
    case _ =>
  }

  /** What `getfirst` promises about a match from `i` to `j`. */
  ghost predicate FirstHolds(first: FirstInfo, follow: Charset, s: Subject, i: nat, j: nat)
    requires i <= j <= |s|
  {
    && (i == |s| ==> first.empty)
    && (i < |s| && (j > i || s[i] in follow) ==> s[i] in first.cs)
  }

  /**
   `getfirst` is sound: the character at the start of a match is in the first set when the
   match is not empty or that character may follow, and a pattern that matches at the end
   of the subject is reported as accepting the empty string.
   */
  lemma {:induction false} FirstSound(m: Mode, g: Grammar, t: Tree, s: Subject, i: nat, f: nat, follow: Charset, k: nat)
    requires i <= |s| && Run(m, g, t, s, i, f).Ok?
    ensures FirstHolds(First(g, t, follow, k), follow, s, i, Run(m, g, t, s, i, f).pos)
    decreases f, 1
  {
    RunCases(m, g, t, s, i, f);
    match t
    case Seq(p1, p2) => FirstSoundSeq(m, g, t, s, i, f, follow, k);
    case Rep(p) => FirstSoundRep(m, g, t, s, i, f, follow, k);
    case Choice(p1, p2) =>
      if Run(m, g, p1, s, i, f - 1).Ok? { FirstSound(m, g, p1, s, i, f - 1, follow, k); }
      else { FirstSound(m, g, p2, s, i, f - 1, follow, k); }
    case And(p) => FirstSound(m, g, p, s, i, f - 1, follow, k);
    case Not(p) => if IsCharset(p) && f > 1 { RunCases(m, g, p, s, i, f - 1); }
    case Capture(_, _, p) => FirstSound(m, g, p, s, i, f - 1, follow, k);
    case Rules(rs) => FirstSound(m, rs, rs[0], s, i, f - 1, follow, k);
    case Call(n) => if k > 0 { FirstSound(m, g, g[n], s, i, f - 1, follow, k - 1); }
    case _ =>
  }

  lemma {:induction false} FirstSoundSeq(m: Mode, g: Grammar, t: Tree, s: Subject, i: nat, f: nat, follow: Charset,
                                         k: nat)
    requires i <= |s| && t.Seq? && Run(m, g, t, s, i, f).Ok?
    ensures FirstHolds(First(g, t, follow, k), follow, s, i, Run(m, g, t, s, i, f).pos)
    decreases f, 0
  {
    RunCases(m, g, t, s, i, f);
    var r := Run(m, g, t.p1, s, i, f - 1);
    if !Check(g, t.p1, Nullable, k) {
      NullableSound(m, g, t.p1, s, i, f - 1, k);
      FirstSound(m, g, t.p1, s, i, f - 1, FULL, k);
    } else {
      var first2 := First(g, t.p2, follow, k);
      FirstSound(m, g, t.p2, s, r.pos, f - 1, follow, k);
      FirstSound(m, g, t.p1, s, i, f - 1, first2.cs, k);
    }
  }

  lemma {:induction false} FirstSoundRep(m: Mode, g: Grammar, t: Tree, s: Subject, i: nat, f: nat, follow: Charset,
                                         k: nat)
    requires i <= |s| && t.Rep? && Run(m, g, t, s, i, f).Ok?
    ensures FirstHolds(First(g, t, follow, k), follow, s, i, Run(m, g, t, s, i, f).pos)
    decreases f, 0
  {
    RunCases(m, g, t, s, i, f);
    var r := Run(m, g, t.p, s, i, f - 1);
    if r.Ok? {
      if r.pos > i { FirstSound(m, g, t.p, s, i, f - 1, follow, k); }
      else { FirstSoundRep(m, g, t, s, i, f - 1, follow, k); }
    }
  }

  /** First sets grow with the follow set. */
  lemma {:induction false} FirstMono(g: Grammar, t: Tree, fl1: Charset, fl2: Charset, k: nat)
    requires fl1 <= fl2
    ensures First(g, t, fl1, k).cs <= First(g, t, fl2, k).cs
    decreases k, t
  {
    match t
    case Seq(p1, p2) =>
      if Check(g, p1, Nullable, k) {
        FirstMono(g, p2, fl1, fl2, k);
        FirstMono(g, p1, First(g, p2, fl1, k).cs, First(g, p2, fl2, k).cs, k);
      }
    case Choice(p1, p2) => FirstMono(g, p1, fl1, fl2, k); FirstMono(g, p2, fl1, fl2, k);
    case Rep(p) => FirstMono(g, p, fl1, fl2, k);
    case And(p) => FirstMono(g, p, fl1, fl2, k);
    case Capture(_, _, p) => FirstMono(g, p, fl1, fl2, k);
    case Rules(rs) => if |rs| > 0 { FirstMono(rs, rs[0], fl1, fl2, k); }
    case Call(n) => if n < |g| && k > 0 { FirstMono(g, g[n], fl1, fl2, k - 1); }
    case _ =>
  }

  /** A head-fail pattern never fails on a character of its first set. */
  lemma {:induction false} HeadFailOnFirst(m: Mode, g: Grammar, t: Tree, s: Subject, i: nat, f: nat, k: nat)
    requires i < |s| && HeadFail(g, t, k) && s[i] in First(g, t, FULL, k).cs
    ensures Run(m, g, t, s, i, f) != Fail
    decreases f
  {
    if f == 0 { return; }
    RunCases(m, g, t, s, i, f);
    match t
    case Seq(p1, p2) =>
      FirstMono(g, p1, First(g, p2, FULL, k).cs, FULL, k);
      HeadFailOnFirst(m, g, p1, s, i, f - 1, k);
      var r := Run(m, g, p1, s, i, f - 1);
      if r.Ok? { NoFailSound(m, g, p2, s, r.pos, f - 1, k); }
    case Choice(p1, p2) =>
      if s[i] in First(g, p1, FULL, k).cs { HeadFailOnFirst(m, g, p1, s, i, f - 1, k); }
      else { HeadFailOnFirst(m, g, p2, s, i, f - 1, k); }
    case And(p) => HeadFailOnFirst(m, g, p, s, i, f - 1, k);
    case Capture(_, _, p) => HeadFailOnFirst(m, g, p, s, i, f - 1, k);
    case Rules(rs) => HeadFailOnFirst(m, rs, rs[0], s, i, f - 1, k);
    case Call(n) => HeadFailOnFirst(m, g, g[n], s, i, f - 1, k - 1);
    case _ =>
  }

  /** A head-fail pattern is never reported as accepting the empty string. */
  lemma {:induction false} HeadFailNotEmpty(g: Grammar, t: Tree, follow: Charset, k: nat)
    requires HeadFail(g, t, k)
    ensures !First(g, t, follow, k).empty
    decreases k, t
  {
    match t
    case Seq(p1, p2) =>
      HeadFailNotEmpty(g, p1, FULL, k);
      HeadFailNotEmpty(g, p1, First(g, p2, follow, k).cs, k);
    case Choice(p1, p2) => HeadFailNotEmpty(g, p1, follow, k); HeadFailNotEmpty(g, p2, follow, k);
    case And(p) => HeadFailNotEmpty(g, p, follow, k);
    case Capture(_, _, p) => HeadFailNotEmpty(g, p, follow, k);
    case Rules(rs) => HeadFailNotEmpty(rs, rs[0], follow, k);
    case Call(n) => HeadFailNotEmpty(g, g[n], follow, k - 1);
    case _ =>
  }

  /**
   A head-fail pattern that ends fails exactly when there is no next character or that
   character is outside `first(p, fullset)`.
   */
  lemma HeadFailExact(m: Mode, g: Grammar, t: Tree, s: Subject, i: nat, f: nat, k: nat)
    requires i <= |s| && HeadFail(g, t, k) && Run(m, g, t, s, i, f) != Diverge
    ensures Run(m, g, t, s, i, f) == Fail <==> i == |s| || s[i] !in First(g, t, FULL, k).cs
  {
    if i < |s| && s[i] in First(g, t, FULL, k).cs {
      HeadFailOnFirst(m, g, t, s, i, f, k);
    } else if Run(m, g, t, s, i, f).Ok? {
      HeadFailNotEmpty(g, t, FULL, k);
      FirstSound(m, g, t, s, i, f, FULL, k);
    }
  }
}
