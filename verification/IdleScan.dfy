/**
 Divide and conquer over a list of ports (`idle_treescan` of nmap/idle_scan.cc).  Counting the
 open ports of a range is an answer of the environment, which may be different each time it is
 asked and is only known to lie between zero and the size of the range.
 */
module IdleScan {

  import opened IdleLog

  /** Every answer is the number of open ports in the range. */
  ghost predicate Exact(oracle: Oracle, open: set<nat>) {
    forall t: nat, lo: nat, n: nat :: oracle(t, lo, n) == |In(open, lo, n)|
  }

  /** The positions in `f` have been marked once more. */
  ghost predicate Marks(before: seq<nat>, after: seq<nat>, f: set<nat>) {
    |after| == |before| && forall p: nat | p < |after| :: after[p] == before[p] + if p in f then 1 else 0
  }

  /** Two scans have marked the positions in `f` and those in `g` once more. */
  ghost predicate MarksBoth(before: seq<nat>, after: seq<nat>, f: set<nat>, g: set<nat>) {
    |after| == |before| && forall p: nat | p < |after| :: MarkedAt(before, after, f, g, p)
  }

  predicate MarkedAt(before: seq<nat>, after: seq<nat>, f: set<nat>, g: set<nat>, p: nat)
    requires |after| == |before| && p < |after|
  {
    after[p] == before[p] + (if p in f then 1 else 0) + if p in g then 1 else 0
  }

  lemma MarksThen(a: seq<nat>, b: seq<nat>, c: seq<nat>, f: set<nat>, g: set<nat>)
    requires Marks(a, b, f) && Marks(b, c, g)
    ensures MarksBoth(a, c, f, g)
  {}

  lemma MarksMore(a: seq<nat>, b: seq<nat>, c: seq<nat>, f: set<nat>, g: set<nat>)
    requires MarksBoth(a, b, {}, g) && Marks(b, c, f)
    ensures MarksBoth(a, c, f, g) && MarksBoth(a, c, g, f)
  {
    forall p: nat | p < |a| ensures MarkedAt(a, c, f, g, p) && MarkedAt(a, c, g, f, p) {
      assert MarkedAt(a, b, {}, g, p);
    }
  }

  lemma MarksSwap(a: seq<nat>, b: seq<nat>, f: set<nat>, g: set<nat>)
    requires MarksBoth(a, b, f, g)
    ensures MarksBoth(a, b, g, f)
  {
    forall p: nat | p < |a| ensures MarkedAt(a, b, g, f, p) { assert MarkedAt(a, b, f, g, p); }
  }

  /** With exact answers, a half marks its open positions. */
  ghost predicate Right(exact: bool, open: set<nat>, lo: nat, n: nat, found: set<nat>) {
    exact ==> found == In(open, lo, n)
  }

  lemma RightBoth(exact: bool, open: set<nat>, lo: nat, n: nat, k: nat, f1: set<nat>, f2: set<nat>)
    requires k <= n && Right(exact, open, lo, k, f1) && Right(exact, open, lo + k, n - k, f2)
    ensures Right(exact, open, lo, n, f1 + f2)
  {
    assert In(open, lo, n) == In(open, lo, k) + In(open, lo + k, n - k);
  }

  /** The mark of a half that is a single port. */
  function Single(lo: nat, k: nat, flat: int): set<nat> {
    if k == 1 && flat == 1 then {lo} else {}
  }

  /** A count without a deep scan. */
  lemma FlatRight(exact: bool, open: set<nat>, lo: nat, k: nat, flat: int)
    requires 0 <= flat <= k && (k > 1 ==> flat == 0)
    requires exact ==> flat == |In(open, lo, k)|
    ensures Right(exact, open, lo, k, Found(lo, k, flat, {}))
  {
    if k == 1 { assert In(open, lo, k) == if lo in open then {lo} else {}; }
  }

  class Scan {
    const oracle: Oracle

    /** The open positions, which only the environment knows. */
    ghost const open: set<nat>

    var asked: nat
    var times: seq<nat>

    /** The questions that have been asked, with their answers. */
    ghost var log: Log

    /** No position has been marked. */
    constructor (oracle: Oracle, size: nat, ghost open: set<nat>)
      ensures this.oracle == oracle && this.open == open && |times| == size && forall p: nat | p < size :: times[p] == 0
      ensures Valid() && log == []
    {
      this.oracle, this.open := oracle, open;
      asked, times, log := 0, seq(size, _ => 0), [];
    }

    /** The log has all questions, and the answers are those of the environment. */
    ghost predicate Valid()
      reads this
    {
      asked == |log| && Asked(oracle, log)
    }

    ghost predicate Sound(lo: nat, n: nat, found: set<nat>)
    {
      Right(Exact(oracle, open), open, lo, n, found)
    }

    /** `idlescan_countopen` */
    method CountOpen(lo: nat, n: nat) returns (count: int)
      requires Valid() && Sane(oracle)
      modifies this
      ensures Valid() && 0 <= count <= n && log == old(log) + [Question(lo, n, count)] && times == old(times)
      ensures Exact(oracle, open) ==> count == |In(open, lo, n)|
    {
      count := oracle(asked, lo, n);
      log := log + [Question(lo, n, count)];
      asked := asked + 1;
    }

    /** `setPortState` */
    method SetOpen(p: nat)
      requires p < |times|
      modifies this`times
      ensures Marks(old(times), times, {p})
    {
      times := times[p := times[p] + 1];
    }

    /** The first count of a half, and the deep count when a port appears open */
    method ScanHalf(lo: nat, k: nat, ghost n: nat) returns (flat: int, deep: int, ghost d: set<nat>)
      requires Valid() && Sane(oracle) && (k < n || k <= 1) && lo + k <= |times|
      modifies this
      ensures Valid() && Marks(old(times), times, d)
      ensures old(log) <= log && FirstLog(New(old(log), log), lo, k, flat, deep, d)
      ensures Sound(lo, k, Found(lo, k, flat, d))
      decreases n, 0
    {
      d := {};
      flat := CountOpen(lo, k);
      deep := -1;
      ghost var log1 := log;
      if k > 1 && flat > 0 {
        deep, d := TreeScan(lo, k, flat);
        DeepCount(Question(lo, k, flat), New(log1, log), deep, d);
        NewAfter(old(log), log, Question(lo, k, flat));
      } else {
        OneCount(Question(lo, k, flat));
        FlatRight(Exact(oracle, open), open, lo, k, flat);
      }
    }

    /** The second count of a half that had no deep count */
    method RetryHalf(lo: nat, k: nat, first: int, ghost n: nat) returns (flat: int, ghost d: set<nat>)
      requires Valid() && Sane(oracle) && (k < n || k <= 1) && lo + k <= |times| && (k > 1 ==> first == 0)
      modifies this
      ensures Valid() && Marks(old(times), times, d)
      ensures old(log) <= log && AgainLog(New(old(log), log), lo, k, flat, d)
      ensures Sound(lo, k, Found(lo, k, flat, d))
      decreases n, 0
    {
      d := {};
      flat := first;
      var again := CountOpen(lo, k);
      ghost var log1, q := log, Question(lo, k, again);
      if again != first {
        if k > 1 && again > 0 {
          again, d := TreeScan(lo, k, again);
          DeepCount(q, New(log1, log), again, d);
          NewAfter(old(log), log, q);
        }
        flat := again;
      }
      if k <= 1 || q.answer == 0 {
        OneCount(q);
        FlatRight(Exact(oracle, open), open, lo, k, flat);
      }
    }
    /** The first counts of both halves */
    method CountHalves(lo: nat, k1: nat, k2: nat, ghost n: nat)
      returns (flat1: int, flat2: int, deep1: int, deep2: int, ghost d1: set<nat>, ghost d2: set<nat>, ghost mid: Log)
      requires Valid() && Sane(oracle) && (k1 < n || k1 <= 1) && (k2 < n || k2 <= 1) && lo + k1 + k2 <= |times|
      modifies this
      ensures Valid() && MarksBoth(old(times), times, d1, d2) && old(log) <= mid <= log
      ensures FirstLog(New(old(log), mid), lo, k1, flat1, deep1, d1)
      ensures FirstLog(New(mid, log), lo + k1, k2, flat2, deep2, d2)
      ensures Sound(lo, k1, Found(lo, k1, flat1, d1)) && Sound(lo + k1, k2, Found(lo + k1, k2, flat2, d2))
      decreases n, 1
    {
      ghost var t0 := times;
      flat1, deep1, d1 := ScanHalf(lo, k1, n);
      mid := log;
      ghost var t1 := times;
      flat2, deep2, d2 := ScanHalf(lo + k1, k2, n);
      MarksThen(t0, t1, times, d1, d2);
    }

    /** The half is as its parts of the log say. */
    ghost predicate Stands(own: Log, lo: nat, k: nat, flat: int, d: set<nat>, count: int, first: int, amiss: bool)
    {
      && Made(own, lo, k, Found(lo, k, flat, d), count, first, amiss) && (k == 1 ==> d == {})
      && Sound(lo, k, Found(lo, k, flat, d))
    }

    /** The second count of a half that had no deep count, while the other half marked `other`, and
        the new total */
    method CountAgain(lo: nat, k: nat, first: int, deep: int, total: int, ghost n: nat, ghost one: Log,
                      ghost d0: set<nat>, ghost t0: seq<nat>, ghost other: set<nat>)
      returns (flat: int, sum: int, ghost d: set<nat>)
      requires Valid() && Sane(oracle) && (k < n || k <= 1) && lo + k <= |times|
      requires FirstLog(one, lo, k, first, deep, d0) && Sound(lo, k, Found(lo, k, first, d0))
      requires MarksBoth(t0, times, d0, other)
      modifies this
      ensures Valid() && MarksBoth(t0, times, d, other) && old(log) <= log
      ensures Inside(New(old(log), log), lo, k) && Dug(New(old(log), log))
      ensures var was := Count(first, deep);
              Stands(one + New(old(log), log), lo, k, flat, d, sum - total + was, was, true)
      decreases n, 1
    {
      flat, sum, d := first, total, d0;
      ghost var t1 := times;
      if deep == -1 {
        flat, d := RetryHalf(lo, k, first, n);
        sum := total + flat - first;
        MarksMore(t0, t1, times, d, other);
        CountedTwice(one, New(old(log), log), lo, k, first, flat, d);
      } else {
        CountedOnce(one, lo, k, first, deep, d0, true);
        assert New(old(log), log) == [];
      }
    }

    /** Both halves have been counted, `total` ports in all, and only single ports are not yet marked. */
    ghost predicate Counted(part: Log, lo: nat, k1: nat, k2: nat, flat1: int, flat2: int, d1: set<nat>, d2: set<nat>,
                            total: int, expected: int)
    {
      var f := Found(lo, k1, flat1, d1) + Found(lo + k1, k2, flat2, d2);
      && HalvesLog(part, lo, k1, k2, f, expected) && Dug(part) && total == |f| && Sound(lo, k1 + k2, f)
      && (k1 == 1 ==> d1 == {}) && (k2 == 1 ==> d2 == {}) && Within(d1, lo, k1) && Within(d2, lo + k1, k2)
    }

    /** Both halves, with second counts if the total is not the expected one */
    method CountBoth(lo: nat, k1: nat, k2: nat, expected: int, ghost n: nat)
      returns (total: int, flat1: int, flat2: int, ghost d1: set<nat>, ghost d2: set<nat>)
      requires Valid() && Sane(oracle) && (k1 < n || k1 <= 1) && (k2 < n || k2 <= 1) && lo + k1 + k2 <= |times|
      requires k2 <= k1 <= k2 + 1
      modifies this
      ensures Valid() && MarksBoth(old(times), times, d1, d2) && old(log) <= log
      ensures Counted(New(old(log), log), lo, k1, k2, flat1, flat2, d1, d2, total, expected)
      decreases n, 3
    {
      ghost var t0, l0 := times, log;
      var deep1, deep2;
      ghost var l1;
      flat1, flat2, deep1, deep2, d1, d2, l1 := CountHalves(lo, k1, k2, n);
      total := if deep1 == -1 then flat1 else deep1;
      total := total + if deep2 == -1 then flat2 else deep2;
      if total != expected {
        total, flat1, flat2, d1, d2 :=
          CountBothAgain(lo, k1, k2, flat1, flat2, deep1, deep2, total, expected, n, l0, l1, d1, d2, t0);
      } else {
        CountedFirst(lo, k1, k2, l0, l1, log, flat1, flat2, deep1, deep2, d1, d2, expected);
      }
    }

    method CountBothAgain(lo: nat, k1: nat, k2: nat, first1: int, first2: int, deep1: int, deep2: int, sofar: int,
                          expected: int, ghost n: nat, ghost l0: Log, ghost l1: Log, ghost e1: set<nat>,
                          ghost e2: set<nat>, ghost t0: seq<nat>)
      returns (total: int, flat1: int, flat2: int, ghost d1: set<nat>, ghost d2: set<nat>)
      requires Valid() && Sane(oracle) && (k1 < n || k1 <= 1) && (k2 < n || k2 <= 1) && lo + k1 + k2 <= |times|
      requires k2 <= k1 <= k2 + 1 && MarksBoth(t0, times, e1, e2) && l0 <= l1 <= log
      requires FirstLog(New(l0, l1), lo, k1, first1, deep1, e1) && Sound(lo, k1, Found(lo, k1, first1, e1))
      requires FirstLog(New(l1, log), lo + k1, k2, first2, deep2, e2)
      requires Sound(lo + k1, k2, Found(lo + k1, k2, first2, e2))
      requires sofar == Count(first1, deep1) + Count(first2, deep2) != expected
      modifies this
      ensures Valid() && MarksBoth(t0, times, d1, d2) && l0 <= log
      ensures Counted(New(l0, log), lo, k1, k2, flat1, flat2, d1, d2, total, expected)
      decreases n, 2
    {
      ghost var l2, n1, n2 := log, Count(first1, deep1), Count(first2, deep2);
      flat1, total, d1 := CountAgain(lo, k1, first1, deep1, sofar, n, New(l0, l1), e1, t0, e2);
      ghost var l3, count1 := log, total - n2;
      MarksSwap(t0, times, d1, e2);
      flat2, total, d2 := CountAgain(lo + k1, k2, first2, deep2, total, n, New(l1, l2), e2, t0, d1);
      MarksSwap(t0, times, d2, d1);
      CountedBoth(lo, k1, k2, l0, l1, l2, l3, log, flat1, flat2, d1, d2, count1, total - count1, n1, n2, expected);
    }

    lemma CountedBoth(lo: nat, k1: nat, k2: nat, l0: Log, l1: Log, l2: Log, l3: Log, l4: Log, flat1: int, flat2: int,
                      d1: set<nat>, d2: set<nat>, count1: int, count2: int, n1: int, n2: int, expected: int)
      requires k2 <= k1 <= k2 + 1 && l0 <= l1 <= l2 <= l3 <= l4
      requires Inside(New(l0, l1), lo, k1) && Inside(New(l1, l2), lo + k1, k2)
      requires Inside(New(l2, l3), lo, k1) && Inside(New(l3, l4), lo + k1, k2)
      requires Dug(New(l0, l1)) && Dug(New(l1, l2)) && Dug(New(l2, l3)) && Dug(New(l3, l4))
      requires Stands(New(l0, l1) + New(l2, l3), lo, k1, flat1, d1, count1, n1, n1 + n2 != expected)
      requires Stands(New(l1, l2) + New(l3, l4), lo + k1, k2, flat2, d2, count2, n2, n1 + n2 != expected)
      ensures l0 <= l4 && Counted(New(l0, l4), lo, k1, k2, flat1, flat2, d1, d2, count1 + count2, expected)
    {
      FourParts(l0, l1, l2, l3, l4);
      Halves(lo, k1, k2, New(l0, l1), New(l1, l2), New(l2, l3), New(l3, l4), flat1, flat2, d1, d2, count1, count2,
             n1, n2, expected);
    }

    lemma CountedFirst(lo: nat, k1: nat, k2: nat, l0: Log, l1: Log, l2: Log, flat1: int, flat2: int, deep1: int,
                       deep2: int, d1: set<nat>, d2: set<nat>, expected: int)
      requires k2 <= k1 <= k2 + 1 && l0 <= l1 <= l2 && Count(flat1, deep1) + Count(flat2, deep2) == expected
      requires FirstLog(New(l0, l1), lo, k1, flat1, deep1, d1) && FirstLog(New(l1, l2), lo + k1, k2, flat2, deep2, d2)
      requires Sound(lo, k1, Found(lo, k1, flat1, d1)) && Sound(lo + k1, k2, Found(lo + k1, k2, flat2, d2))
      ensures l0 <= l2 && Counted(New(l0, l2), lo, k1, k2, flat1, flat2, d1, d2, expected, expected)
    {
      var n1, n2 := Count(flat1, deep1), Count(flat2, deep2);
      CountedOnce(New(l0, l1), lo, k1, flat1, deep1, d1, false);
      CountedOnce(New(l1, l2), lo + k1, k2, flat2, deep2, d2, false);
      FourParts(l0, l1, l2, l2, l2);
      CountedBoth(lo, k1, k2, l0, l1, l2, l2, l2, flat1, flat2, d1, d2, n1, n2, n1, n2, expected);
    }

    lemma Halves(lo: nat, k1: nat, k2: nat, a: Log, b: Log, c: Log, d: Log, flat1: int, flat2: int, d1: set<nat>,
                 d2: set<nat>, count1: int, count2: int, n1: int, n2: int, expected: int)
      requires k2 <= k1 <= k2 + 1
      requires Inside(a, lo, k1) && Inside(b, lo + k1, k2) && Inside(c, lo, k1) && Inside(d, lo + k1, k2)
      requires Dug(a) && Dug(b) && Dug(c) && Dug(d)
      requires Stands(a + c, lo, k1, flat1, d1, count1, n1, n1 + n2 != expected)
      requires Stands(b + d, lo + k1, k2, flat2, d2, count2, n2, n1 + n2 != expected)
      ensures Counted(a + b + c + d, lo, k1, k2, flat1, flat2, d1, d2, count1 + count2, expected)
    {
      var f1, f2 := Found(lo, k1, flat1, d1), Found(lo + k1, k2, flat2, d2);
      HalvesJoined(a, b, c, d, lo, k1, k2, f1, f2, count1, count2, n1, n2, expected);
      FourDug(a, b, c, d);
      RightBoth(Exact(oracle, open), open, lo, k1 + k2, k1, f1, f2);
    }

    /** A half that is a single port is marked if it counts as open */
    method MarkSingle(lo: nat, k: nat, flat: int)
      requires lo + k <= |times|
      modifies this`times
      ensures Marks(old(times), times, Single(lo, k, flat))
    {
      if k == 1 && flat == 1 { SetOpen(lo); }
    }

    method MarkSingles(lo: nat, k1: nat, k2: nat, flat1: int, flat2: int, ghost d1: set<nat>, ghost d2: set<nat>,
                       ghost t0: seq<nat>)
      requires lo + k1 + k2 <= |times| && MarksBoth(t0, times, d1, d2)
      requires (k1 == 1 ==> d1 == {}) && (k2 == 1 ==> d2 == {}) && Within(d1, lo, k1) && Within(d2, lo + k1, k2)
      modifies this`times
      ensures Marks(t0, times, Found(lo, k1, flat1, d1) + Found(lo + k1, k2, flat2, d2))
    {
      ghost var t1 := times;
      MarkSingle(lo, k1, flat1);
      ghost var t2 := times;
      MarkSingle(lo + k1, k2, flat2);
      SinglesMarked(t0, t1, t2, times, lo, k1, k2, flat1, flat2, d1, d2);
    }

    lemma CountedAll(part: Log, lo: nat, n: nat, k1: nat, k2: nat, flat1: int, flat2: int, d1: set<nat>,
                     d2: set<nat>, total: int, expected: int)
      requires k1 == (n + 1) / 2 && k2 == n - k1 && Counted(part, lo, k1, k2, flat1, flat2, d1, d2, total, expected)
      ensures Result(part, lo, n, total, Found(lo, k1, flat1, d1) + Found(lo + k1, k2, flat2, d2), expected)
    {}

    /** What was asked and what was found are as the log says, and with exact answers the open
        positions are found. */
    ghost predicate Result(part: Log, lo: nat, n: nat, total: int, found: set<nat>, expected: int) {
      ScanLog(part, lo, n, found, expected) && Dug(part) && total == |found| && Sound(lo, n, found)
    }

    /** `idle_treescan`: each position of `found` is marked once and their number is returned */
    method TreeScan(lo: nat, n: nat, expected: int) returns (total: int, ghost found: set<nat>)
      requires Valid() && Sane(oracle) && lo + n <= |times|
      modifies this
      ensures Valid() && Marks(old(times), times, found)
      ensures old(log) <= log && Result(New(old(log), log), lo, n, total, found, expected)
      decreases n, 4
    {
      var k1 := (n + 1) / 2;
      var k2 := n - k1;
      ghost var d1, d2;
      var flat1, flat2;
      total, flat1, flat2, d1, d2 := CountBoth(lo, k1, k2, expected, n);
      MarkSingles(lo, k1, k2, flat1, flat2, d1, d2, old(times));
      found := Found(lo, k1, flat1, d1) + Found(lo + k1, k2, flat2, d2);
      CountedAll(New(old(log), log), lo, n, k1, k2, flat1, flat2, d1, d2, total, expected);
    }
  }

  lemma SinglesMarked(t0: seq<nat>, t1: seq<nat>, t2: seq<nat>, t3: seq<nat>, lo: nat, k1: nat, k2: nat, flat1: int,
                      flat2: int, d1: set<nat>, d2: set<nat>)
    requires MarksBoth(t0, t1, d1, d2) && (k1 == 1 ==> d1 == {}) && (k2 == 1 ==> d2 == {})
    requires Within(d1, lo, k1) && Within(d2, lo + k1, k2)
    requires Marks(t1, t2, Single(lo, k1, flat1)) && Marks(t2, t3, Single(lo + k1, k2, flat2))
    ensures Marks(t0, t3, Found(lo, k1, flat1, d1) + Found(lo + k1, k2, flat2, d2))
  {
    var f := Found(lo, k1, flat1, d1) + Found(lo + k1, k2, flat2, d2);
    forall p: nat | p < |t0| ensures t3[p] == t0[p] + if p in f then 1 else 0 {
      assert MarkedAt(t0, t1, d1, d2, p);
    }
  }

  /** A scan of all positions: none is marked twice, the total is the number of marked positions,
      these are the ones whose last answer was 1, and with exact answers they are the open ones. */
  method ScanAll(oracle: Oracle, size: nat, expected: int, ghost open: set<nat>)
    returns (total: int, times: seq<nat>, ghost log: Log)
    requires Sane(oracle)
    ensures |times| == size && forall p: nat | p < size :: times[p] <= 1
    ensures total == |Open(times)|
    ensures Asked(oracle, log) && ScanLog(log, 0, size, Open(times), expected) && Dug(log)
    ensures forall p: nat | p < size :: times[p] == 1 <==> LastIsOne(Answers(log, p, 1))
    ensures size == 2 && expected < 0 ==> SecondDecides(log, times, 0) && SecondDecides(log, times, 1)
    ensures Exact(oracle, open) ==> forall p: nat | p < size :: times[p] == 1 <==> p in open
  {
    var scan := new Scan(oracle, size, open);
    ghost var found;
    total, found := scan.TreeScan(0, size, expected);
    times, log := scan.times, scan.log;
    assert New([], log) == log;
    assert found == Open(times);
    forall p: nat | p < size ensures times[p] == 1 <==> LastIsOne(Answers(log, p, 1)) {
      assert IdleLog.MarkedAt(log, found, p);
    }
    if size == 2 && expected < 0 { TwoPorts(log, 0, found, expected); }
  }

  /** The port was asked about alone twice, and is marked if the second answer is 1. */
  predicate SecondDecides(log: Log, times: seq<nat>, p: nat) {
    p < |times| && var a := Answers(log, p, 1); |a| == 2 && (times[p] == 1 <==> a[1] == 1)
  }

  /** The marked positions. */
  function Open(times: seq<nat>): set<nat> {
    set p: nat | p < |times| && times[p] == 1
  }
}
