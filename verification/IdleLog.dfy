/** The questions that a scan asks, in their order, and what its result is in terms of the answers:
    which ranges are counted twice, which are looked into, and which answer settles a port
    (`idle_treescan` of nmap/idle_scan.cc). */
module IdleLog {

  /** The answer to the `t`-th question, about `n` ports from position `lo` on. */
  type Oracle = (nat, nat, nat) -> nat

  datatype Question = Question(lo: nat, n: nat, answer: nat)

  type Log = seq<Question>

  /** The positions of the range that are in a set. */
  function In(s: set<nat>, lo: nat, n: nat): set<nat> {
    set p | p in s && lo <= p < lo + n
  }

  /** All positions of the set are in the range. */
  predicate Within(f: set<nat>, lo: nat, n: nat) {
    forall p | p in f :: lo <= p < lo + n
  }

  /** All answers lie between zero and the size of the range. */
  ghost predicate Sane(oracle: Oracle) {
    forall t: nat, lo: nat, n: nat :: oracle(t, lo, n) <= n
  }

  /** The log is what was asked, and each answer came from the oracle. */
  ghost predicate Asked(oracle: Oracle, log: Log) {
    forall t: nat | t < |log| :: log[t].answer == oracle(t, log[t].lo, log[t].n)
  }

  /** The deep count, if there is one, is taken for right. */
  function Count(flat: int, deep: int): int {
    if deep == -1 then flat else deep
  }

  /** The positions that a half has marked in the end. */
  function Found(lo: nat, k: nat, flat: int, d: set<nat>): set<nat> {
    if k == 1 && flat == 1 then {lo} else d
  }

  // ---------- the answers about a range ----------

  /** The answers about exactly this range, in their order. */
  function Answers(part: Log, lo: nat, k: nat): seq<nat> {
    if part == [] then []
    else (if part[0].lo == lo && part[0].n == k then [part[0].answer] else []) + Answers(part[1..], lo, k)
  }

  lemma {:induction false} AnswersBoth(a: Log, b: Log, lo: nat, k: nat)
    ensures Answers(a + b, lo, k) == Answers(a, lo, k) + Answers(b, lo, k)
    decreases a
  {
    if a == [] {
      assert a + b == b;
    } else {
      assert (a + b)[1..] == a[1..] + b;
      AnswersBoth(a[1..], b, lo, k);
    }
  }

  lemma AnswersOne(q: Question, lo: nat, k: nat)
    ensures Answers([q], lo, k) == if q.lo == lo && q.n == k then [q.answer] else []
  {
    assert [q][1..] == [];
  }

  predicate Asks(q: Question, lo: nat, n: nat) {
    lo <= q.lo && q.lo + q.n <= lo + n
  }

  /** All questions are about parts of the range. */
  predicate Inside(part: Log, lo: nat, n: nat) {
    forall i: nat | i < |part| :: Asks(part[i], lo, n)
  }

  /** All questions are about fewer ports. */
  predicate Smaller(part: Log, k: nat) {
    forall i: nat | i < |part| :: part[i].n < k
  }

  lemma {:induction false} AnswersNone(part: Log, lo: nat, n: nat, x: nat, k: nat)
    requires (Inside(part, lo, n) && !(lo <= x && x + k <= lo + n)) || Smaller(part, k)
    ensures Answers(part, x, k) == []
    decreases part
  {
    if part != [] {
      assert Inside(part, lo, n) ==> Asks(part[0], lo, n) && Inside(part[1..], lo, n);
      AnswersNone(part[1..], lo, n, x, k);
    }
  }

  /** The last answer, if there is one, is 1. */
  predicate LastIsOne(a: seq<nat>) {
    a != [] && a[|a| - 1] == 1
  }

  predicate MarkedAt(part: Log, f: set<nat>, p: nat) {
    p in f <==> LastIsOne(Answers(part, p, 1))
  }

  /** Exactly the positions are in `f` whose last answer, when asked about alone, was 1. */
  ghost predicate Marked(part: Log, f: set<nat>) {
    forall p: nat :: MarkedAt(part, f, p)
  }

  function New(log: Log, log': Log): Log
    requires log <= log'
  {
    log'[|log|..]
  }

  lemma NewAfter(log: Log, log': Log, q: Question)
    requires log + [q] <= log'
    ensures log <= log' && New(log, log') == [q] + New(log + [q], log')
  {}

  lemma FourParts(l0: Log, l1: Log, l2: Log, l3: Log, l4: Log)
    requires l0 <= l1 <= l2 <= l3 <= l4
    ensures l0 <= l4 && New(l0, l4) == New(l0, l1) + New(l1, l2) + New(l2, l3) + New(l3, l4)
    ensures New(l4, l4) == []
  {}

  // ---------- what the log says of a scan ----------

  /** What the first count of a half stands for: the number of open ports, if it was looked into. */
  function FirstCount(part: Log, found: set<nat>, lo: nat, k: nat): int {
    var a := Answers(part, lo, k);
    if k == 0 || a == [] then 0 else if k > 1 && a[0] > 0 then |In(found, lo, k)| else a[0]
  }

  /** The half was counted once if it was looked into or nothing was amiss, else twice, and then it
      counts for the second answer, unless that was looked into. */
  predicate HalfCounted(part: Log, found: set<nat>, lo: nat, k: nat, amiss: bool) {
    k > 0 ==>
      var a := Answers(part, lo, k);
      && a != [] && |a| == (if amiss && (k == 1 || a[0] == 0) then 2 else 1)
      && (k == 1 || a[|a| - 1] == 0 ==> |In(found, lo, k)| == a[|a| - 1])
  }

  /** Both halves were counted, and again if the first counts do not add up to what is expected. */
  predicate HalvesCounted(part: Log, found: set<nat>, lo: nat, k1: nat, k2: nat, expected: int) {
    var amiss := FirstCount(part, found, lo, k1) + FirstCount(part, found, lo + k1, k2) != expected;
    HalfCounted(part, found, lo, k1, amiss) && HalfCounted(part, found, lo + k1, k2, amiss)
  }

  /** What a scan of two halves leaves in the log, when it has found the positions in `found`. */
  ghost predicate HalvesLog(part: Log, lo: nat, k1: nat, k2: nat, found: set<nat>, expected: int) {
    && Inside(part, lo, k1 + k2) && (k1 + k2 > 1 ==> Smaller(part, k1 + k2))
    && Marked(part, found) && Within(found, lo, k1 + k2) && HalvesCounted(part, found, lo, k1, k2, expected)
  }

  /** What a scan of `n` ports leaves in the log; the first half has the odd port. */
  ghost predicate ScanLog(part: Log, lo: nat, n: nat, found: set<nat>, expected: int) {
    HalvesLog(part, lo, (n + 1) / 2, n / 2, found, expected)
  }

  ghost predicate ScannedFrom(part: Log, i: nat, j: nat, found: set<nat>)
    requires i < |part|
  {
    i < j <= |part| && ScanLog(part[i + 1..j], part[i].lo, part[i].n, found, part[i].answer)
  }

  /** After question `i`, its range was scanned at once, with the answer as the expected number. */
  ghost predicate LookedInto(part: Log, i: nat)
    requires i < |part|
  {
    exists j: nat, found: set<nat> :: ScannedFrom(part, i, j, found)
  }

  ghost predicate DugAt(part: Log, i: nat)
    requires i < |part|
  {
    part[i].n > 1 && part[i].answer > 0 ==> LookedInto(part, i)
  }

  /** Every range of more than one port that seemed to have open ones was looked into. */
  ghost predicate Dug(part: Log) {
    forall i: nat | i < |part| :: DugAt(part, i)
  }

  lemma DugLonger(a: Log, b: Log, c: Log, i: nat)
    requires i < |b| && DugAt(b, i)
    ensures DugAt(a + b + c, |a| + i)
  {
    var part, k := a + b + c, |a| + i;
    assert part[k] == b[i];
    if b[i].n > 1 && b[i].answer > 0 {
      var j: nat, found: set<nat> :| ScannedFrom(b, i, j, found);
      assert part[k + 1..|a| + j] == b[i + 1..j];
      assert ScannedFrom(part, k, |a| + j, found);
    }
  }

  lemma DugBoth(a: Log, b: Log)
    requires Dug(a) && Dug(b)
    ensures Dug(a + b)
  {
    forall i: nat | i < |a + b| ensures DugAt(a + b, i) {
      if i < |a| {
        DugLonger([], a, b, i);
        assert [] + a + b == a + b;
      } else {
        DugLonger(a, b, [], i - |a|);
        assert a + b + [] == a + b;
      }
    }
  }

  lemma DugDeep(q: Question, sub: Log, found: set<nat>)
    requires Dug(sub) && ScanLog(sub, q.lo, q.n, found, q.answer)
    ensures Dug([q] + sub)
  {
    var part := [q] + sub;
    forall i: nat | i < |part| ensures DugAt(part, i) {
      if i == 0 {
        assert part[1..|part|] == sub;
        assert ScannedFrom(part, 0, |part|, found);
      } else {
        DugLonger([q], sub, [], i - 1);
        assert [q] + sub + [] == part;
      }
    }
  }

  // ---------- one half ----------

  /** A half of one port counts for its last answer, as does a larger one whose last answer was
      that no port is open. */
  predicate CountsBy(part: Log, lo: nat, k: nat, f: set<nat>) {
    k > 0 ==>
      var a := Answers(part, lo, k);
      a != [] && (k == 1 || a[|a| - 1] == 0 ==> |f| == a[|a| - 1])
  }

  /** A half and what its part of the log says of it: it counts for `count` open ports. */
  ghost predicate HalfLog(part: Log, lo: nat, k: nat, f: set<nat>, count: int) {
    Inside(part, lo, k) && Marked(part, f) && Within(f, lo, k) && count == |f| && CountsBy(part, lo, k, f) && Dug(part)
  }

  /** after its first count, and its deep scan if there was one; */
  ghost predicate FirstLog(part: Log, lo: nat, k: nat, flat: int, deep: int, d: set<nat>) {
    && HalfLog(part, lo, k, Found(lo, k, flat, d), Count(flat, deep)) && 0 <= flat <= k && deep >= -1
    && (k > 0 ==> Answers(part, lo, k) == [flat])
    && (deep != -1 <==> k > 1 && flat > 0) && (deep == -1 ==> d == {}) && (k == 1 ==> d == {})
  }

  /** the part of its second count. */
  ghost predicate AgainLog(part: Log, lo: nat, k: nat, flat: int, d: set<nat>) {
    && HalfLog(part, lo, k, Found(lo, k, flat, d), flat)
    && (k > 0 ==> |Answers(part, lo, k)| == 1) && (k == 1 ==> d == {})
  }

  /** A count that settles a half: a single port, or none that is open. */
  lemma OneCount(q: Question)
    requires q.answer <= q.n && (q.n <= 1 || q.answer == 0)
    ensures FirstLog([q], q.lo, q.n, q.answer, -1, {}) && AgainLog([q], q.lo, q.n, q.answer, {})
  {
    var f := Found(q.lo, q.n, q.answer, {});
    AnswersOne(q, q.lo, q.n);
    forall p: nat ensures MarkedAt([q], f, p) { AnswersOne(q, p, 1); }
  }

  /** A count that is looked into. */
  lemma DeepCount(q: Question, sub: Log, total: int, found: set<nat>)
    requires q.n >= q.answer > 0 && q.n > 1
    requires ScanLog(sub, q.lo, q.n, found, q.answer) && Dug(sub) && total == |found|
    ensures FirstLog([q] + sub, q.lo, q.n, q.answer, total, found) && AgainLog([q] + sub, q.lo, q.n, total, found)
  {
    AnswersOne(q, q.lo, q.n);
    AnswersNone(sub, q.lo, q.n, q.lo, q.n);
    AnswersBoth([q], sub, q.lo, q.n);
    assert [q.answer] + [] == [q.answer];
    DugDeep(q, sub, found);
    forall p: nat ensures MarkedAt([q] + sub, found, p) {
      AnswersOne(q, p, 1);
      AnswersBoth([q], sub, p, 1);
      assert MarkedAt(sub, found, p);
      assert [] + Answers(sub, p, 1) == Answers(sub, p, 1);
    }
  }

  /** A half in the end: what its first count stood for, and how often it was counted. */
  ghost predicate Made(own: Log, lo: nat, k: nat, f: set<nat>, count: int, first: int, amiss: bool) {
    HalfLog(own, lo, k, f, count) && FirstCount(own, f, lo, k) == first && HalfCounted(own, f, lo, k, amiss)
  }

  /** A half that is not counted again. */
  lemma CountedOnce(one: Log, lo: nat, k: nat, flat: int, deep: int, d: set<nat>, amiss: bool)
    requires FirstLog(one, lo, k, flat, deep, d) && (amiss ==> deep != -1)
    ensures Made(one + [], lo, k, Found(lo, k, flat, d), Count(flat, deep), Count(flat, deep), amiss)
  {
    assert one + [] == one;
    assert In(Found(lo, k, flat, d), lo, k) == Found(lo, k, flat, d);
  }

  /** The second count of a half comes after the first one, which has marked no port for good. */
  lemma MarkedTwice(one: Log, two: Log, lo: nat, k: nat, flat: int, f: set<nat>)
    requires Marked(one, Found(lo, k, flat, {})) && Marked(two, f)
    requires k > 0 ==> |Answers(two, lo, k)| == 1
    ensures Marked(one + two, f)
  {
    forall p: nat ensures MarkedAt(one + two, f, p) {
      AnswersBoth(one, two, p, 1);
      assert MarkedAt(two, f, p) && MarkedAt(one, Found(lo, k, flat, {}), p);
    }
  }

  lemma CountsTwice(one: Log, two: Log, lo: nat, k: nat, f: set<nat>)
    requires CountsBy(two, lo, k, f)
    ensures CountsBy(one + two, lo, k, f)
  {
    AnswersBoth(one, two, lo, k);
  }

  lemma InsideBoth(one: Log, two: Log, lo: nat, k: nat)
    requires Inside(one, lo, k) && Inside(two, lo, k)
    ensures Inside(one + two, lo, k)
  {}

  lemma CountedTwice(one: Log, two: Log, lo: nat, k: nat, flat: int, again: int, d: set<nat>)
    requires FirstLog(one, lo, k, flat, -1, {}) && AgainLog(two, lo, k, again, d)
    ensures Made(one + two, lo, k, Found(lo, k, again, d), again, flat, true)
  {
    var f := Found(lo, k, again, d);
    MarkedTwice(one, two, lo, k, flat, f);
    CountsTwice(one, two, lo, k, f);
    InsideBoth(one, two, lo, k);
    DugBoth(one, two);
    AnswersBoth(one, two, lo, k);
    assert In(f, lo, k) == f;
  }

  // ---------- two halves ----------

  /** Of two lists of answers, the empty one does not count. */
  lemma OneOf(x: seq<nat>, y: seq<nat>, z: seq<nat>, w: seq<nat>)
    ensures x == [] == z ==> x + y + z + w == y + w && x + z == []
    ensures y == [] == w ==> x + y + z + w == x + z && y + w == []
  {}

  lemma AllAnswers(a: Log, b: Log, c: Log, d: Log, x: nat, k: nat)
    ensures Answers(a + b + c + d, x, k)
            == Answers(a, x, k) + Answers(b, x, k) + Answers(c, x, k) + Answers(d, x, k)
    ensures Answers(a + c, x, k) == Answers(a, x, k) + Answers(c, x, k)
    ensures Answers(b + d, x, k) == Answers(b, x, k) + Answers(d, x, k)
  {
    AnswersBoth(a + b + c, d, x, k);
    AnswersBoth(a + b, c, x, k);
    AnswersBoth(a, b, x, k);
    AnswersBoth(a, c, x, k);
    AnswersBoth(b, d, x, k);
  }

  /** The same answers about a range. */
  predicate SameAnswers(part: Log, own: Log, x: nat, k: nat) {
    Answers(part, x, k) == Answers(own, x, k)
  }

  /** In a log made of parts about two ranges, the answers about what is not in the one range are those
      of the parts about the other. */
  lemma OwnFirst(a: Log, b: Log, c: Log, d: Log, lo: nat, k2: nat, x: nat, k: nat)
    requires Inside(b, lo, k2) && Inside(d, lo, k2) && !(lo <= x && x + k <= lo + k2)
    ensures SameAnswers(a + b + c + d, a + c, x, k) && Answers(b + d, x, k) == []
  {
    AllAnswers(a, b, c, d, x, k);
    AnswersNone(b, lo, k2, x, k);
    AnswersNone(d, lo, k2, x, k);
    OneOf(Answers(a, x, k), Answers(b, x, k), Answers(c, x, k), Answers(d, x, k));
  }

  lemma OwnSecond(a: Log, b: Log, c: Log, d: Log, lo: nat, k1: nat, x: nat, k: nat)
    requires Inside(a, lo, k1) && Inside(c, lo, k1) && !(lo <= x && x + k <= lo + k1)
    ensures SameAnswers(a + b + c + d, b + d, x, k) && Answers(a + c, x, k) == []
  {
    AllAnswers(a, b, c, d, x, k);
    AnswersNone(a, lo, k1, x, k);
    AnswersNone(c, lo, k1, x, k);
    OneOf(Answers(a, x, k), Answers(b, x, k), Answers(c, x, k), Answers(d, x, k));
  }

  lemma MarkedBoth(a: Log, b: Log, c: Log, d: Log, lo: nat, k1: nat, k2: nat, f1: set<nat>, f2: set<nat>, p: nat)
    requires Inside(a, lo, k1) && Inside(b, lo + k1, k2) && Inside(c, lo, k1) && Inside(d, lo + k1, k2)
    requires MarkedAt(a + c, f1, p) && MarkedAt(b + d, f2, p) && Within(f1, lo, k1) && Within(f2, lo + k1, k2)
    ensures MarkedAt(a + b + c + d, f1 + f2, p)
  {
    if lo + k1 <= p {
      OwnSecond(a, b, c, d, lo, k1, p, 1);
    } else {
      OwnFirst(a, b, c, d, lo + k1, k2, p, 1);
    }
  }

  lemma BothMarked(a: Log, b: Log, c: Log, d: Log, lo: nat, k1: nat, k2: nat, f1: set<nat>, f2: set<nat>)
    requires Inside(a, lo, k1) && Inside(b, lo + k1, k2) && Inside(c, lo, k1) && Inside(d, lo + k1, k2)
    requires Marked(a + c, f1) && Marked(b + d, f2) && Within(f1, lo, k1) && Within(f2, lo + k1, k2)
    ensures Marked(a + b + c + d, f1 + f2)
  {
    forall p: nat ensures MarkedAt(a + b + c + d, f1 + f2, p) {
      MarkedBoth(a, b, c, d, lo, k1, k2, f1, f2, p);
    }
  }

  /** Each half keeps its counts in the whole log. */
  lemma HalfKept(part: Log, own: Log, found: set<nat>, f: set<nat>, lo: nat, k: nat, amiss: bool)
    requires (k > 0 ==> SameAnswers(part, own, lo, k)) && In(found, lo, k) == In(f, lo, k)
    ensures FirstCount(part, found, lo, k) == FirstCount(own, f, lo, k)
    ensures HalfCounted(own, f, lo, k, amiss) ==> HalfCounted(part, found, lo, k, amiss)
  {}

  lemma OwnPart(a: Log, b: Log, c: Log, d: Log, lo: nat, k1: nat, k2: nat)
    requires Inside(a, lo, k1) && Inside(b, lo + k1, k2) && Inside(c, lo, k1) && Inside(d, lo + k1, k2)
    ensures k1 > 0 ==> SameAnswers(a + b + c + d, a + c, lo, k1)
    ensures k2 > 0 ==> SameAnswers(a + b + c + d, b + d, lo + k1, k2)
  {
    if k1 > 0 { OwnFirst(a, b, c, d, lo + k1, k2, lo, k1); }
    if k2 > 0 { OwnSecond(a, b, c, d, lo, k1, lo + k1, k2); }
  }

  lemma OwnFound(f1: set<nat>, f2: set<nat>, lo: nat, k1: nat, k2: nat)
    requires Within(f1, lo, k1) && Within(f2, lo + k1, k2)
    ensures In(f1 + f2, lo, k1) == In(f1, lo, k1) && In(f1 + f2, lo + k1, k2) == In(f2, lo + k1, k2)
    ensures |f1 + f2| == |f1| + |f2| && Within(f1 + f2, lo, k1 + k2)
  {
    assert f1 !! f2;
  }

  lemma AllInside(a: Log, b: Log, c: Log, d: Log, lo: nat, k1: nat, k2: nat)
    requires Inside(a, lo, k1) && Inside(b, lo + k1, k2) && Inside(c, lo, k1) && Inside(d, lo + k1, k2)
    requires k2 <= k1 <= k2 + 1
    ensures var part := a + b + c + d;
            Inside(part, lo, k1 + k2) && (k1 + k2 > 1 ==> Smaller(part, k1 + k2))
  {
    var part := a + b + c + d;
    forall i: nat | i < |part| ensures Asks(part[i], lo, k1) || Asks(part[i], lo + k1, k2) {}
  }

  /** The log of a scan, from the parts of its halves. */
  lemma HalvesJoined(a: Log, b: Log, c: Log, d: Log, lo: nat, k1: nat, k2: nat, f1: set<nat>, f2: set<nat>,
                     count1: int, count2: int, n1: int, n2: int, expected: int)
    requires k2 <= k1 <= k2 + 1
    requires Inside(a, lo, k1) && Inside(b, lo + k1, k2) && Inside(c, lo, k1) && Inside(d, lo + k1, k2)
    requires Made(a + c, lo, k1, f1, count1, n1, n1 + n2 != expected)
    requires Made(b + d, lo + k1, k2, f2, count2, n2, n1 + n2 != expected)
    ensures HalvesLog(a + b + c + d, lo, k1, k2, f1 + f2, expected) && count1 + count2 == |f1 + f2|
  {
    var part, amiss := a + b + c + d, n1 + n2 != expected;
    BothMarked(a, b, c, d, lo, k1, k2, f1, f2);
    OwnPart(a, b, c, d, lo, k1, k2);
    OwnFound(f1, f2, lo, k1, k2);
    AllInside(a, b, c, d, lo, k1, k2);
    HalfKept(part, a + c, f1 + f2, f1, lo, k1, amiss);
    HalfKept(part, b + d, f1 + f2, f2, lo + k1, k2, amiss);
  }

  lemma FourDug(a: Log, b: Log, c: Log, d: Log)
    requires Dug(a) && Dug(b) && Dug(c) && Dug(d)
    ensures Dug(a + b + c + d)
  {
    DugBoth(a, b);
    DugBoth(a + b, c);
    DugBoth(a + b + c, d);
  }

  /** When no number is expected, a scan of two ports asks about each of them twice, and marks those
      whose second answer is 1. */
  lemma TwoPorts(part: Log, lo: nat, found: set<nat>, expected: int)
    requires ScanLog(part, lo, 2, found, expected) && expected < 0
    ensures |Answers(part, lo, 1)| == |Answers(part, lo + 1, 1)| == 2
    ensures lo in found <==> Answers(part, lo, 1)[1] == 1
    ensures lo + 1 in found <==> Answers(part, lo + 1, 1)[1] == 1
  {
    assert MarkedAt(part, found, lo) && MarkedAt(part, found, lo + 1);
  }
}
