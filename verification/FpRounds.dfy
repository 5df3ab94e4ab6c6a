/**
 The bookkeeping of OS-detection probes (class FPHost6 of nmap/FPEngine.cc).  The first probes of
 a host are timed: when some of them get no answer, all of them are sent again, and the best set
 of answers that any round got is kept.  What arrives when is up to the environment.
 */
module FpRounds {
  import opened Wrappers

  type Response = int

  type Answers = seq<Option<Response>>

  /** The number of answers in a set. */
  function Count(s: Answers): nat {
    if s == [] then 0 else Count(s[..|s| - 1]) + if s[|s| - 1].Some? then 1 else 0
  }

  function Empty(n: nat): (s: Answers)
    ensures |s| == n && forall i: nat | i < n :: s[i] == None
  {
    if n == 0 then [] else Empty(n - 1) + [None]
  }

  lemma {:induction false} CountEmpty(s: Answers)
    requires forall i: nat | i < |s| :: s[i] == None
    ensures Count(s) == 0
    decreases |s|
  {
    if s != [] { CountEmpty(s[..|s| - 1]); }
  }

  lemma {:induction false} CountZero(s: Answers)
    requires Count(s) == 0
    ensures forall i: nat | i < |s| :: s[i] == None
    decreases |s|
  {
    if s != [] { CountZero(s[..|s| - 1]); }
  }

  lemma {:induction false} CountAppend(a: Answers, b: Answers)
    ensures Count(a + b) == Count(a) + Count(b)
    decreases |b|
  {
    if b == [] {
      assert a + b == a;
    } else {
      assert (a + b)[..|a + b| - 1] == a + b[..|b| - 1];
      CountAppend(a, b[..|b| - 1]);
    }
  }

  lemma CountNext(s: Answers, i: nat)
    requires i < |s|
    ensures Count(s[..i + 1]) == Count(s[..i]) + if s[i].Some? then 1 else 0
  {
    assert s[..i + 1][..i] == s[..i];
  }

  /** The set of an earlier round that is kept: none if there was no round, else one of them with
      the most answers. */
  ghost predicate Best(kept: Answers, rounds: seq<Answers>, n: nat) {
    && |kept| == n
    && if rounds == [] then Count(kept) == 0
       else kept in rounds && forall k: nat | k < |rounds| :: Count(rounds[k]) <= Count(kept)
  }

  /** The first set with the most answers. */
  ghost predicate FirstAt(kept: Answers, rounds: seq<Answers>, k: nat) {
    && k < |rounds| && rounds[k] == kept
    && forall j: nat | j < |rounds| :: if j < k then Count(rounds[j]) < Count(kept) else Count(rounds[j]) <= Count(kept)
  }

  /** The set that is kept aside between rounds: of equally good ones the first. */
  ghost predicate FirstBest(kept: Answers, rounds: seq<Answers>, n: nat) {
    |kept| == n && if rounds == [] then Count(kept) == 0 else exists k: nat :: FirstAt(kept, rounds, k)
  }

  /** The set that is left in the end: the last one if none has more answers, else the first best. */
  ghost predicate Final(left: Answers, rounds: seq<Answers>, n: nat) {
    && |left| == n && rounds != []
    && var last := rounds[|rounds| - 1];
       if forall k: nat | k < |rounds| :: Count(rounds[k]) <= Count(last) then left == last
       else FirstBest(left, rounds, n)
  }

  lemma FirstIsBest(kept: Answers, rounds: seq<Answers>, n: nat)
    ensures FirstBest(kept, rounds, n) ==> Best(kept, rounds, n)
    ensures Final(kept, rounds, n) ==> Best(kept, rounds, n)
  {}

  /** Keeping the current set if it has more answers keeps the first best one. */
  lemma BestNext(kept: Answers, rounds: seq<Answers>, now: Answers, n: nat)
    requires FirstBest(kept, rounds, n) && |now| == n
    ensures FirstBest(if Count(now) > Count(kept) then now else kept, rounds + [now], n)
  {
    var rs, best := rounds + [now], if Count(now) > Count(kept) then now else kept;
    assert rs[|rounds|] == now;
    var k: nat := |rounds|;
    if rounds == [] {
      if Count(now) == 0 {
        CountZero(now);
        CountZero(kept);
        assert now == kept;
      }
    } else if Count(now) <= Count(kept) {
      k :| FirstAt(kept, rounds, k);
    } else {
      FirstIsBest(kept, rounds, n);
    }
    forall j: nat | j < |rs|
      ensures if j < k then Count(rs[j]) < Count(best) else Count(rs[j]) <= Count(best)
    {
      if j < |rounds| { assert rs[j] == rounds[j]; }
    }
    assert FirstAt(best, rs, k);
  }

  /** What can be said of a probe. */
  datatype Kind = Answered | GivenUp | Both | Neither

  function Is(k: Kind, answer: Option<Response>, failed: bool): bool {
    match k
    case Answered => answer.Some?
    case GivenUp => failed
    case Both => answer.Some? && failed
    case Neither => answer == None && !failed
  }

  /** How many probes are of a kind. */
  function Tally(k: Kind, s: Answers, f: seq<bool>): nat
    requires |s| == |f|
  {
    if s == [] then 0
    else
      var n := |s| - 1;
      Tally(k, s[..n], f[..n]) + if Is(k, s[n], f[n]) then 1 else 0
  }

  lemma {:induction false} TallySame(k: Kind, s: Answers, f: seq<bool>, s': Answers, f': seq<bool>)
    requires |s| == |f| == |s'| == |f'|
    requires forall i: nat | i < |s| :: Is(k, s[i], f[i]) == Is(k, s'[i], f'[i])
    ensures Tally(k, s, f) == Tally(k, s', f')
    decreases |s|
  {
    if s != [] {
      var n := |s| - 1;
      TallySame(k, s[..n], f[..n], s'[..n], f'[..n]);
    }
  }

  /** One probe has changed. */
  lemma {:induction false} TallyOne(k: Kind, s: Answers, f: seq<bool>, s': Answers, f': seq<bool>, i: nat)
    requires i < |s| == |f| == |s'| == |f'|
    requires forall j: nat | j < |s| && j != i :: s'[j] == s[j] && f'[j] == f[j]
    ensures Tally(k, s', f') + (if Is(k, s[i], f[i]) then 1 else 0)
            == Tally(k, s, f) + if Is(k, s'[i], f'[i]) then 1 else 0
    decreases |s|
  {
    var n := |s| - 1;
    if i == n {
      TallySame(k, s[..n], f[..n], s'[..n], f'[..n]);
    } else {
      TallyOne(k, s[..n], f[..n], s'[..n], f'[..n], i);
    }
  }

  lemma {:induction false} TallyNone(k: Kind, s: Answers, f: seq<bool>)
    requires |s| == |f|
    ensures Tally(k, s, f) == 0 <==> forall i: nat | i < |s| :: !Is(k, s[i], f[i])
    decreases |s|
  {
    if s != [] {
      var n := |s| - 1;
      TallyNone(k, s[..n], f[..n]);
      assert forall i: nat | i < n :: s[..n][i] == s[i] && f[..n][i] == f[i];
    }
  }

  lemma {:induction false} TallyCount(s: Answers, f: seq<bool>)
    requires |s| == |f|
    ensures Tally(Answered, s, f) == Count(s)
    decreases |s|
  {
    if s != [] { TallyCount(s[..|s| - 1], f[..|s| - 1]); }
  }

  /** A probe that was given up and answered all the same is counted twice. */
  lemma {:induction false} TallyTotal(s: Answers, f: seq<bool>)
    requires |s| == |f|
    ensures Tally(Answered, s, f) + Tally(GivenUp, s, f) + Tally(Neither, s, f) == |s| + Tally(Both, s, f)
    decreases |s|
  {
    if s != [] { TallyTotal(s[..|s| - 1], f[..|s| - 1]); }
  }

  /** A probe is given up. */
  lemma TallyFail(s: Answers, f: seq<bool>, i: nat)
    requires i < |s| == |f|
    ensures var f' := f[i := true];
            && Tally(Answered, s, f') == Tally(Answered, s, f)
            && Tally(GivenUp, s, f') == Tally(GivenUp, s, f) + (if f[i] then 0 else 1)
            && Tally(Both, s, f') >= Tally(Both, s, f) && Tally(Neither, s, f') <= Tally(Neither, s, f)
  {
    var f' := f[i := true];
    TallyOne(Answered, s, f, s, f', i);
    TallyOne(GivenUp, s, f, s, f', i);
    TallyOne(Both, s, f, s, f', i);
    TallyOne(Neither, s, f, s, f', i);
  }

  lemma NothingYet(s: Answers, f: seq<bool>)
    requires |s| == |f| && forall i: nat | i < |s| :: s[i] == None && !f[i]
    ensures Tally(Answered, s, f) == 0 == Tally(GivenUp, s, f)
  {
    TallyNone(Answered, s, f);
    TallyNone(GivenUp, s, f);
  }

  /** Where the first probe stands, from `i` on, that has no answer and that the packet answers. */
  function FindHit(s: Answers, isResponse: seq<bool>, i: nat): (j: nat)
    requires i <= |isResponse| <= |s|
    ensures i <= j <= |isResponse| && (j < |isResponse| ==> s[j] == None && isResponse[j])
    ensures forall k: nat | i <= k < j :: s[k].Some? || !isResponse[k]
    decreases |isResponse| - i
  {
    if i == |isResponse| || (s[i] == None && isResponse[i]) then i else FindHit(s, isResponse, i + 1)
  }

  /** The state of a probe that has no answer: not sent yet, still waiting, or timed out. */
  datatype Timing = Unsent | Waiting | TimedOut

  /** The bookkeeping of the probes, one entry for each: answers, whether given up, and tries. */
  datatype Book = Book(answers: Answers, failed: seq<bool>, tries: seq<nat>)

  predicate IsBook(b: Book, timing: seq<Timing>, n: nat) {
    |b.answers| == |b.failed| == |b.tries| == |timing| == n
  }

  /** Probe `i` has timed out and has no answer yet. */
  predicate Overdue(b: Book, timing: seq<Timing>, i: nat)
    requires i < |b.answers| == |b.failed| == |timing|
  {
    Is(Neither, b.answers[i], b.failed[i]) && timing[i] == TimedOut
  }

  /** It may be sent again, */
  predicate Retriable(b: Book, timing: seq<Timing>, most: nat, i: nat)
    requires i < |b.answers| == |b.failed| == |b.tries| == |timing|
  {
    Overdue(b, timing, i) && b.tries[i] < most
  }

  /** or is given up. */
  predicate Expired(b: Book, timing: seq<Timing>, most: nat, i: nat)
    requires i < |b.answers| == |b.failed| == |b.tries| == |timing|
  {
    Overdue(b, timing, i) && b.tries[i] >= most
  }

  /** The first probe from `i` on, and below `n`, that may be sent again, or `n`. */
  function FirstRetry(b: Book, timing: seq<Timing>, most: nat, i: nat, n: nat): (j: nat)
    requires IsBook(b, timing, |timing|) && i <= n <= |timing|
    ensures i <= j <= n && (j < n ==> Retriable(b, timing, most, j))
    ensures forall k: nat | i <= k < j :: !Retriable(b, timing, most, k)
    decreases n - i
  {
    if i == n || Retriable(b, timing, most, i) then i else FirstRetry(b, timing, most, i + 1, n)
  }

  /** The first of the timed probes without an answer that is still to be sent, or `n`. */
  function FirstUnsent(s: Answers, timing: seq<Timing>, i: nat, n: nat): (j: nat)
    requires |s| == |timing| && i <= n <= |s|
    ensures i <= j <= n && (j < n ==> s[j] == None && timing[j] == Unsent)
    ensures forall k: nat | i <= k < j :: s[k].Some? || timing[k] != Unsent
    decreases n - i
  {
    if i == n || (s[i] == None && timing[i] == Unsent) then i else FirstUnsent(s, timing, i + 1, n)
  }

  /** Each of the first `n` probes has its answer or is to be sent again. */
  predicate RoundOver(b: Book, timing: seq<Timing>, most: nat, n: nat)
    requires IsBook(b, timing, |timing|) && n <= |timing|
  {
    forall i: nat | i < n :: b.answers[i].Some? || Retriable(b, timing, most, i)
  }

  predicate AnyRetriable(b: Book, timing: seq<Timing>, most: nat, n: nat)
    requires IsBook(b, timing, |timing|) && n <= |timing|
  {
    exists i: nat :: i < n && Retriable(b, timing, most, i)
  }

  /** Every timed probe is answered or may be sent again, and some may: a new round is due. */
  predicate RoundDue(b: Book, timing: seq<Timing>, most: nat, n: nat)
    requires IsBook(b, timing, |timing|) && n <= |timing|
  {
    RoundOver(b, timing, most, n) && AnyRetriable(b, timing, most, n)
  }

  /** Exactly the probes from `lo` to `hi` that have expired were given up. */
  ghost predicate GivenUpIn(b: Book, f: seq<bool>, timing: seq<Timing>, most: nat, lo: nat, hi: nat)
    requires IsBook(b, timing, |timing|)
  {
    && |f| == |timing|
    && forall i: nat | i < |timing| :: f[i] == (b.failed[i] || (lo <= i < hi && Expired(b, timing, most, i)))
  }

  lemma GivenUpNext(b: Book, f: seq<bool>, f': seq<bool>, timing: seq<Timing>, most: nat, lo: nat, i: nat)
    requires IsBook(b, timing, |timing|) && lo <= i < |timing| && GivenUpIn(b, f, timing, most, lo, i)
    requires |f'| == |f| && f' == f[i := f'[i]] && f'[i] == (b.failed[i] || Expired(b, timing, most, i))
    ensures GivenUpIn(b, f', timing, most, lo, i + 1)
  {}

  /** What a look at the other probes does: those that have expired are given up, up to the first
      that may be sent again. */
  ghost predicate RegularChecked(b: Book, b': Book, timing: seq<Timing>, most: nat, lo: nat, hi: nat)
    requires IsBook(b, timing, |timing|) && IsBook(b', timing, |timing|) && lo <= hi <= |timing|
  {
    var j := FirstRetry(b, timing, most, lo, hi);
    && b'.answers == b.answers
    && GivenUpIn(b, b'.failed, timing, most, lo, j)
    && b'.tries == if j < hi then b.tries[j := b.tries[j] + 1] else b.tries
  }

  /** What a look at all probes does, and whether it starts a new round. */
  ghost predicate Checked(b: Book, b': Book, timing: seq<Timing>, most: nat, timed: nat, sent: nat, again: bool)
    requires IsBook(b, timing, |timing|) && IsBook(b', timing, |timing|) && timed <= sent <= |timing|
  {
    var j, u := FirstRetry(b, timing, most, timed, sent), FirstUnsent(b.answers, timing, 0, timed);
    && again == RoundDue(b, timing, most, timed)
    && b'.answers == (if again then Empty(timed) + b.answers[timed..] else b.answers)
    && (forall i: nat | i < |timing| ::
          && b'.failed[i] == (b.failed[i] || ((i < u || timed <= i < j) && Expired(b, timing, most, i)))
          && b'.tries[i] == b.tries[i] + if (again && i < timed) || i == j < sent then 1 else 0)
  }

  /** The two parts of the look together. */
  lemma CheckedBoth(b: Book, b1: Book, b2: Book, timing: seq<Timing>, most: nat, timed: nat, sent: nat, again: bool)
    requires IsBook(b, timing, |timing|) && IsBook(b1, timing, |timing|) && IsBook(b2, timing, |timing|)
    requires timed <= sent <= |timing| && RegularChecked(b, b1, timing, most, timed, sent)
    requires TimedChecked(b1, b2, timing, most, timed, again)
    ensures Checked(b, b2, timing, most, timed, sent, again)
  {
    forall i: nat | i < timed
      ensures Retriable(b1, timing, most, i) == Retriable(b, timing, most, i)
      ensures Expired(b1, timing, most, i) == Expired(b, timing, most, i)
    {
      assert b1.failed[i] == b.failed[i] && b1.tries[i] == b.tries[i];
    }
    RoundSame(b, b1, timing, most, timed);
  }

  lemma RoundSame(b: Book, b1: Book, timing: seq<Timing>, most: nat, n: nat)
    requires IsBook(b, timing, |timing|) && IsBook(b1, timing, |timing|) && n <= |timing| && b1.answers == b.answers
    requires forall i: nat | i < n :: Retriable(b1, timing, most, i) == Retriable(b, timing, most, i)
    ensures RoundDue(b1, timing, most, n) == RoundDue(b, timing, most, n)
  {}

  /** What a look at the timed probes does. */
  ghost predicate TimedChecked(b: Book, b': Book, timing: seq<Timing>, most: nat, timed: nat, again: bool)
    requires IsBook(b, timing, |timing|) && IsBook(b', timing, |timing|) && timed <= |timing|
  {
    var u := FirstUnsent(b.answers, timing, 0, timed);
    && again == RoundDue(b, timing, most, timed)
    && b'.answers == (if again then Empty(timed) + b.answers[timed..] else b.answers)
    && (forall i: nat | i < |timing| ::
          && b'.failed[i] == (b.failed[i] || (i < u && Expired(b, timing, most, i)))
          && b'.tries[i] == b.tries[i] + if again && i < timed then 1 else 0)
  }

  /** What a look at a timed probe finds: an answer, a probe still to be sent, one that was given up
      before, one to be sent again, or nothing new. */
  datatype Seen = Has | ToSend | Over | Again | Pending

  /** What is seen of probe `i`, and whether it is given up then. */
  predicate Sees(seen: Seen, b: Book, timing: seq<Timing>, most: nat, i: nat, failed: bool)
    requires i < |b.answers| == |b.failed| == |b.tries| == |timing|
  {
    && (seen == Has <==> b.answers[i].Some?)
    && (seen == ToSend <==> b.answers[i] == None && timing[i] == Unsent)
    && (seen == Again <==> Retriable(b, timing, most, i))
    && (failed <==> b.failed[i] || Expired(b, timing, most, i))
  }

  /** What the loop over the timed probes knows after the first `n`: who was given up, how many have
      an answer, and how many are to be sent again. */
  ghost predicate Looked(b: Book, f: seq<bool>, timing: seq<Timing>, most: nat, n: nat, nanswered: int, again: int,
                         over: bool)
    requires IsBook(b, timing, |timing|)
  {
    && n <= |timing| == |f|
    && (forall i: nat | i < |f| :: f[i] == (b.failed[i] || (i < n && Expired(b, timing, most, i))))
    && (forall i: nat | i < n :: b.answers[i].Some? || timing[i] != Unsent)
    && nanswered == Count(b.answers[..n]) && 0 <= again && nanswered + again <= n
    && (nanswered + again == n <==> RoundOver(b, timing, most, n))
    && (again > 0 <==> AnyRetriable(b, timing, most, n))
    && (over ==> nanswered + again < n)
  }

  lemma LookedNext(b: Book, f: seq<bool>, f': seq<bool>, timing: seq<Timing>, most: nat, n: nat, nanswered: int,
                   again: int,
                   over: bool, seen: Seen)
    requires IsBook(b, timing, |timing|) && n < |timing| && Looked(b, f, timing, most, n, nanswered, again, over)
    requires |f'| == |f| && f' == f[n := f'[n]] && Sees(seen, b, timing, most, n, f'[n]) && seen != ToSend
    ensures Looked(b, f', timing, most, n + 1, if seen == Has then nanswered + 1 else nanswered,
                   if seen == Again then again + 1 else again, over || seen == Over)
  {
    CountNext(b.answers, n);
    assert RoundOver(b, timing, most, n + 1) <==> RoundOver(b, timing, most, n) && (seen == Has || seen == Again);
    assert AnyRetriable(b, timing, most, n + 1) <==> AnyRetriable(b, timing, most, n) || seen == Again by {
      if AnyRetriable(b, timing, most, n) {
        var i: nat :| i < n && Retriable(b, timing, most, i);
      }
    }
  }

  /** What the whole loop finds out, whether or not it stops at a probe that is still to be sent: who was
      given up, and whether a new round is due. */
  ghost predicate RoundCounted(b: Book, f: seq<bool>, timing: seq<Timing>, most: nat, n: nat, nanswered: int,
                               again: int, over: bool, unsent: bool)
    requires IsBook(b, timing, |timing|) && n <= |timing|
  {
    var u := FirstUnsent(b.answers, timing, 0, n);
    && unsent == (u < n) && Looked(b, f, timing, most, u, nanswered, again, over)
    && (RoundDue(b, timing, most, n) <==> !unsent && n > 0 && !over && again > 0 && nanswered + again == n)
  }

  lemma LookedNone(b: Book, timing: seq<Timing>, most: nat)
    requires IsBook(b, timing, |timing|)
    ensures Looked(b, b.failed, timing, most, 0, 0, 0, false)
  {
    assert b.answers[..0] == [];
  }

  lemma LookedAll(b: Book, f: seq<bool>, timing: seq<Timing>, most: nat, n: nat, nanswered: int, again: int, over: bool)
    requires IsBook(b, timing, |timing|) && Looked(b, f, timing, most, n, nanswered, again, over)
    ensures RoundCounted(b, f, timing, most, n, nanswered, again, over, false)
  {
    assert FirstUnsent(b.answers, timing, 0, n) == n;
    if AnyRetriable(b, timing, most, n) {
      var i: nat :| i < n && Retriable(b, timing, most, i);
    }
  }

  lemma LookedStop(b: Book, f: seq<bool>, timing: seq<Timing>, most: nat, n: nat, m: nat, nanswered: int, again: int,
                   over: bool)
    requires IsBook(b, timing, |timing|) && Looked(b, f, timing, most, n, nanswered, again, over)
    requires n < m <= |timing| && b.answers[n] == None && timing[n] == Unsent
    ensures RoundCounted(b, f, timing, most, m, nanswered, again, over, true)
  {
    assert !Retriable(b, timing, most, n);
    assert FirstUnsent(b.answers, timing, 0, m) == n;
  }

  /** Nothing is known of the probes from `n` on. */
  ghost predicate Untouched(s: Answers, f: seq<bool>, n: nat) {
    |s| == |f| && forall i: nat | n <= i < |s| :: UntouchedAt(s, f, i)
  }

  predicate UntouchedAt(s: Answers, f: seq<bool>, i: nat)
    requires i < |s| == |f|
  {
    Is(Neither, s[i], f[i])
  }

  lemma UntouchedStays(s: Answers, f: seq<bool>, s': Answers, f': seq<bool>, n: nat, m: nat)
    requires Untouched(s, f, n) && n <= m && |s'| == |s| == |f'|
    requires forall i: nat | m <= i < |s| :: s'[i] == s[i] && f'[i] == f[i]
    ensures Untouched(s', f', m)
  {
    forall i: nat | m <= i < |s| ensures UntouchedAt(s', f', i) { assert UntouchedAt(s, f, i); }
  }

  lemma UntouchedCleared(s: Answers, k: nat, f: seq<bool>, n: nat)
    requires Untouched(s, f, n) && k <= n && k <= |s|
    ensures Untouched(Empty(k) + s[k..], f, n)
  {
    UntouchedStays(s, f, Empty(k) + s[k..], f, n, n);
  }

  class Host {
    const timed: nat
    const total: nat
    const maxTries: nat
    var responses: Answers
    var aux: Answers
    var answered: int
    var unanswered: int
    var timedSent: bool
    var sent: nat
    var tries: seq<nat>
    var failed: seq<bool>
    var done: bool

    /** The answers of each finished round of timed probes. */
    ghost var rounds: seq<Answers>

    /** How often a probe was given up that had been given up before. */
    ghost var repeats: nat

    constructor (timed: nat, total: nat, maxTries: nat)
      requires timed <= total
      ensures Valid() && !done && this.timed == timed && this.total == total && this.maxTries == maxTries
      ensures rounds == [] && repeats == 0 && !timedSent && sent == 0
      ensures forall i: nat | i < total :: responses[i] == None && tries[i] == 0 && !failed[i]
    {
      this.timed, this.total, this.maxTries := timed, total, maxTries;
      responses, aux := Empty(total), Empty(timed);
      answered, unanswered, done := 0, 0, false;
      timedSent, sent := false, 0;
      tries, failed := seq(total, _ => 0), seq(total, _ => false);
      rounds, repeats := [], 0;
      new;
      CountEmpty(aux);
      NothingYet(responses, failed);
      forall i: nat | i < total ensures UntouchedAt(responses, failed, i) {}
    }

    ghost predicate Shape()
      reads this
    {
      && timed <= total && |responses| == total == |tries| == |failed|
      && sent <= total && (timed > 0 ==> if timedSent then timed <= sent else sent == 0)
    }

    ghost function Books(): (b: Book)
      reads this
      requires Shape()
    {
      Book(responses, failed, tries)
    }

    ghost function Of(k: Kind): nat
      reads this
      requires Shape()
    {
      Tally(k, responses, failed)
    }

    /** The counters are the numbers of stored answers and of probes that were given up, repeats
        included. */
    ghost predicate Counts()
      reads this
    {
      Shape() && answered == Of(Answered) && unanswered == Of(GivenUp) + repeats
    }

    /** Timed probes are sent once in each round, and nothing is known of probes that were not sent. */
    ghost predicate Tried()
      reads this
    {
      Shape() && (forall i: nat | i < timed :: tries[i] == |rounds|) && Untouched(responses, failed, sent)
    }

    /** Until the end, the first best set of the earlier rounds is kept aside; then, the last set is
        left if it is one of the best, else the first best one, and nothing is aside. */
    ghost predicate Valid()
      reads this
    {
      && Shape()
      && if done then Final(responses[..timed], rounds, timed) && |rounds| <= maxTries + 1 && aux == Empty(timed)
         else Counts() && Tried() && FirstBest(aux, rounds, timed) && |rounds| <= maxTries
    }

    /** The answers of the current round. */
    ghost function Current(): Answers
      reads this
      requires Shape()
    {
      responses[..timed]
    }

    /** `done`: all probes are sent and the counters add up */
    predicate Done()
      reads this
    {
      sent == total && answered + unanswered == total
    }

    /** The answers that the host holds are the best set of all rounds. */
    ghost predicate HasBest()
      reads this
      requires Shape()
    {
      Best(Current(), if done then rounds else rounds + [Current()], timed)
    }

    /** A timed probe could not be sent while it had tries left, and another one waits for a new round,
        which does not come. */
    ghost predicate Stalled()
      reads this
    {
      Shape() && !done && Of(Both) == 0 == repeats && Blocked(Books(), maxTries, timed, |rounds|)
    }

    /** Every probe has an answer or was given up, and some probe was counted more than once. */
    ghost predicate Late()
      reads this
    {
      Shape() && !done && Of(Neither) == 0 < Of(Both) + repeats
    }

    /** `callback`: the packet may be an answer to some of the probes that were sent; the first of
        them without an answer gets it, and the last answer ends the detection */
    method Callback(isResponse: seq<bool>, r: Response) returns (hit: bool)
      requires Valid() && |isResponse| == sent
      modifies this
      ensures Valid() && hit == (!old(done) && FindHit(old(responses), isResponse, 0) < old(sent))
      ensures !hit ==> responses == old(responses) && done == old(done) && rounds == old(rounds)
      ensures hit ==>
                var after := old(responses)[FindHit(old(responses), isResponse, 0) := Some(r)];
                if done then rounds == old(rounds) + [after[..timed]] && responses[timed..] == after[timed..]
                else rounds == old(rounds) && responses == after
      ensures hit ==> (done <==> old(answered) + 1 + old(unanswered) == total)
      ensures failed == old(failed) && tries == old(tries) && timedSent == old(timedSent) && sent == old(sent)
      ensures repeats == old(repeats) && (old(Late()) ==> Late())
    {
      hit := false;
      if done { return; }
      var i := 0;
      while i < sent && !(responses[i] == None && isResponse[i])
        invariant i <= sent && FindHit(responses, isResponse, 0) == FindHit(responses, isResponse, i)
      {
        i := i + 1;
      }
      if i < sent {
        hit := true;
        Store(i, r);
        if answered + unanswered == total { WrapUp(); }
      }
    }

    /** An answer to probe `i` has come */
    method Store(i: nat, r: Response)
      requires Valid() && !done && i < sent && responses[i] == None
      modifies this`responses, this`answered
      ensures Valid() && responses == old(responses)[i := Some(r)] && answered == old(answered) + 1
      ensures old(Late()) ==> Late() && answered + unanswered > total
    {
      ghost var was := responses;
      responses := responses[i := Some(r)];
      answered := answered + 1;
      UntouchedStays(was, failed, responses, failed, sent, sent);
      TallyOne(Answered, was, failed, responses, failed, i);
      TallyOne(GivenUp, was, failed, responses, failed, i);
      TallyOne(Both, was, failed, responses, failed, i);
      TallyOne(Neither, was, failed, responses, failed, i);
      TallyTotal(responses, failed);
    }

    /** `fail_one_probe`: probe `i` could not be sent */
    method SendFailed(i: nat)
      requires Valid() && i < sent
      modifies this`failed, this`unanswered, this`repeats
      ensures Valid() && failed == old(failed)[i := true] && unanswered == old(unanswered) + 1
      ensures repeats == old(repeats) + (if old(failed)[i] then 1 else 0) && (old(Late()) ==> Late())
    {
      ghost var was := failed;
      failed := failed[i := true];
      unanswered := unanswered + 1;
      if was[i] { repeats := repeats + 1; }
      TallyFail(responses, was, i);
      if !done { UntouchedStays(responses, was, responses, failed, sent, sent); }
    }

    /** Probe `i` has timed out, and is given up after its last try */
    method Expire(i: nat) returns (final: bool)
      requires Counts() && i < total && responses[i] == None && !failed[i]
      modifies this`failed, this`unanswered
      ensures Counts() && final == (tries[i] >= maxTries) && failed == old(failed)[i := final]
    {
      final := tries[i] >= maxTries;
      if final {
        ghost var was := failed;
        failed := failed[i := true];
        unanswered := unanswered + 1;
        TallyFail(responses, was, i);
      }
    }

    /** The part of `schedule` that looks at the other probes: each that has timed out is given up
        after its last try, and the first other one is sent again */
    method CheckRegular(timing: seq<Timing>)
      requires Valid() && !done && |timing| == total && timed <= sent
      modifies this`tries, this`failed, this`unanswered
      ensures Valid() && RegularChecked(old(Books()), Books(), timing, maxTries, timed, sent)
    {
      ghost var b := Books();
      LookRegular(timing);
      UntouchedStays(responses, b.failed, responses, failed, sent, sent);
    }

    /** The loop over the other probes; it stops at one that is sent again */
    method LookRegular(timing: seq<Timing>)
      requires Counts() && |timing| == total && timed <= sent
      modifies this`tries, this`failed, this`unanswered
      ensures Counts() && RegularChecked(old(Books()), Books(), timing, maxTries, timed, sent)
    {
      ghost var b := Books();
      var i := timed;
      while i < sent
        invariant timed <= i <= sent && Counts() && tries == b.tries
        invariant FirstRetry(b, timing, maxTries, timed, sent) == FirstRetry(b, timing, maxTries, i, sent)
        invariant GivenUpIn(b, failed, timing, maxTries, timed, i)
        decreases sent - i
      {
        ghost var was := failed;
        var final := true;
        if responses[i] == None && timing[i] == TimedOut && !failed[i] { final := Expire(i); }
        if !final {
          tries := tries[i := tries[i] + 1];
          return;
        }
        GivenUpNext(b, was, failed, timing, maxTries, timed, i);
        i := i + 1;
      }
    }

    /** The part of `schedule` that looks at the timed probes: with every probe answered or to be sent
        again, the answers are put aside or dropped, and a new round starts */
    method CheckTimed(timing: seq<Timing>) returns (again: bool)
      requires Valid() && !done && |timing| == total && timed <= sent
      modifies this
      ensures Valid() && !done && timedSent == old(timedSent) && sent == old(sent) && repeats == old(repeats)
      ensures TimedChecked(old(Books()), Books(), timing, maxTries, timed, again)
      ensures rounds == if again then old(rounds) + [old(Current())] else old(rounds)
    {
      ghost var b := Books();
      var nanswered, ntimedout, anyFailed, unsent := CountTimed(timing);
      again := !unsent && timed > 0 && !anyFailed && ntimedout > 0 && nanswered + ntimedout == timed;
      UntouchedStays(responses, b.failed, responses, failed, sent, sent);
      if again {
        ghost var i: nat :| i < timed && Retriable(b, timing, maxTries, i);
        NewRound(nanswered);
      }
    }

    /** The loop over the timed probes; it stops at one that is still to be sent */
    method CountTimed(timing: seq<Timing>) returns (nanswered: int, ntimedout: int, anyFailed: bool, unsent: bool)
      requires Counts() && |timing| == total
      modifies this`failed, this`unanswered
      ensures Counts()
      ensures RoundCounted(old(Books()), failed, timing, maxTries, timed, nanswered, ntimedout, anyFailed, unsent)
    {
      ghost var b := Books();
      nanswered, ntimedout, anyFailed, unsent := 0, 0, false, false;
      var i := 0;
      LookedNone(b, timing, maxTries);
      while i < timed
        invariant i <= timed && Counts()
        invariant Looked(b, failed, timing, maxTries, i, nanswered, ntimedout, anyFailed)
      {
        var seen := LookNext(i, timing, b, nanswered, ntimedout, anyFailed);
        unsent := seen == ToSend;
        if unsent { return; }
        nanswered := if seen == Has then nanswered + 1 else nanswered;
        ntimedout := if seen == Again then ntimedout + 1 else ntimedout;
        anyFailed := anyFailed || seen == Over;
        i := i + 1;
      }
      LookedAll(b, failed, timing, maxTries, timed, nanswered, ntimedout, anyFailed);
    }

    /** One turn of the loop */
    method LookNext(i: nat, timing: seq<Timing>, ghost b: Book, ghost nanswered: int, ghost again: int,
                    ghost over: bool)
      returns (seen: Seen)
      requires Counts() && i < timed && IsBook(b, timing, total) && b.answers == responses && b.tries == tries
      requires Looked(b, failed, timing, maxTries, i, nanswered, again, over)
      modifies this`failed, this`unanswered
      ensures Counts()
      ensures seen == ToSend ==> RoundCounted(b, failed, timing, maxTries, timed, nanswered, again, over, true)
      ensures seen != ToSend ==>
                Looked(b, failed, timing, maxTries, i + 1, if seen == Has then nanswered + 1 else nanswered,
                       if seen == Again then again + 1 else again, over || seen == Over)
    {
      ghost var was := failed;
      seen := LookAt(i, timing, b);
      if seen == ToSend {
        LookedStop(b, failed, timing, maxTries, i, timed, nanswered, again, over);
      } else {
        LookedNext(b, was, failed, timing, maxTries, i, nanswered, again, over, seen);
      }
    }

    /** One timed probe */
    method LookAt(i: nat, timing: seq<Timing>, ghost b: Book) returns (seen: Seen)
      requires Counts() && i < timed && IsBook(b, timing, total)
      requires b.answers == responses && b.tries == tries && failed[i] == b.failed[i]
      modifies this`failed, this`unanswered
      ensures Counts() && failed == old(failed)[i := failed[i]]
      ensures Sees(seen, b, timing, maxTries, i, failed[i]) && (seen == ToSend ==> failed == old(failed))
    {
      var t := timing[i];
      if responses[i].Some? {
        seen := Has;
      } else if t == Unsent {
        seen := ToSend;
      } else if failed[i] {
        seen := Over;
      } else if t == TimedOut {
        var final := Expire(i);
        seen := if final then Pending else Again;
      } else {
        seen := Pending;
      }
    }

    /** What `schedule` does.  The end comes when as many probes are unsettled as were counted too
        often; otherwise the timed probes are sent for the first time, or nothing is done while
        they are on their way, or all probes are looked at. */
    twostate predicate Scheduled(timing: seq<Timing>, granted: bool, again: bool)
      requires old(Shape()) && Shape() && |timing| == total
      reads this
    {
      && (done <==> old(done) || old(Of(Neither)) == old(Of(Both)) + old(repeats)) && repeats == old(repeats)
      && (old(done) ==> !again && Books() == old(Books()) && rounds == old(rounds))
      && (!old(done) && done ==>
            && !again && failed == old(failed) && tries == old(tries)
            && rounds == old(rounds) + [old(Current())] && responses[timed..] == old(responses)[timed..])
      && (!done ==> rounds == if again then old(rounds) + [old(Current())] else old(rounds))
      && (!done && timed > 0 && !old(timedSent) ==>
            !again && Books() == old(Books()) && timedSent == granted && sent == if granted then timed else 0)
      && (!done && (timed > 0 ==> old(timedSent)) ==>
            && timedSent == old(timedSent)
            && if timed > 0 && timing[timed - 1] == Unsent then !again && Books() == old(Books()) && sent == old(sent)
               else
                 && sent == (if old(sent) < total && granted then old(sent) + 1 else old(sent))
                 && Checked(old(Books()), Books(), timing, maxTries, timed, sent, again))
    }

    /** `schedule` */
    method Schedule(timing: seq<Timing>, granted: bool) returns (again: bool)
      requires Valid() && |timing| == total
      modifies this
      ensures Valid() && Scheduled(timing, granted, again) && (old(Late()) ==> Late())
    {
      again := false;
      TallyTotal(responses, failed);
      if done || answered + unanswered == total {
        if !done { WrapUp(); }
        return;
      }
      if timed > 0 && !timedSent {
        SendTimed(granted);
        return;
      }
      if timed > 0 && timing[timed - 1] == Unsent { return; }
      SendNext(granted);
      again := CheckProbes(timing);
    }

    /** All timed probes are sent for the first time, if that is granted */
    method SendTimed(granted: bool)
      requires Valid() && !done && timed > 0 && !timedSent
      modifies this`timedSent, this`sent
      ensures Valid() && timedSent == granted && sent == if granted then timed else 0
    {
      if granted {
        UntouchedStays(responses, failed, responses, failed, sent, sent + timed);
        timedSent, sent := true, sent + timed;
      }
    }

    /** The next of the other probes is sent, if there is one and it is granted */
    method SendNext(granted: bool)
      requires Valid() && !done && (timed > 0 ==> timedSent)
      modifies this`sent
      ensures Valid() && sent == if old(sent) < total && granted then old(sent) + 1 else old(sent)
    {
      if sent < total && granted {
        UntouchedStays(responses, failed, responses, failed, sent, sent + 1);
        sent := sent + 1;
      }
    }

    method CheckProbes(timing: seq<Timing>) returns (again: bool)
      requires Valid() && !done && |timing| == total && timed <= sent
      modifies this
      ensures Valid() && !done && timedSent == old(timedSent) && sent == old(sent) && repeats == old(repeats)
      ensures rounds == if again then old(rounds) + [old(Current())] else old(rounds)
      ensures Checked(old(Books()), Books(), timing, maxTries, timed, sent, again)
      ensures old(Late()) ==> Late()
    {
      ghost var b := Books();
      CheckRegular(timing);
      ghost var b1 := Books();
      again := CheckTimed(timing);
      CheckedBoth(b, b1, Books(), timing, maxTries, timed, sent, again);
      if old(Late()) { SettledStay(b, Books(), timing, maxTries, timed, sent, again); }
    }

    /** One host in the main loop: it leaves when it is done, and is scheduled otherwise.  Its answers
        are then the best set of all rounds exactly if it was wrapped up, or if no earlier round
        had more answers than the last one. */
    method Visit(timing: seq<Timing>, granted: bool) returns (left: bool, again: bool)
      requires Valid() && |timing| == total
      modifies this
      ensures Valid() && left == old(Done())
      ensures left ==> Books() == old(Books()) && done == old(done) && rounds == old(rounds) && sent == old(sent)
      ensures left ==> !again && (HasBest() <==> done || Count(aux) <= Count(Current()))
      ensures !left ==> Scheduled(timing, granted, again)
      ensures old(Late()) ==> !left && Late()
      ensures old(Stalled()) ==> !left && Stalled()
    {
      TallyTotal(responses, failed);
      left, again := Done(), false;
      if left {
        FirstIsBest(if done then Current() else aux, rounds, timed);
        if !done { BestOrNot(aux, rounds, responses[..timed], timed); }
        StalledUndone();
      } else {
        again := ScheduleStalled(timing, granted);
      }
    }

    lemma StalledUndone()
      requires Valid() && answered + unanswered == total
      ensures !Stalled()
    {
      if Stalled() {
        var i: nat :| i < timed && Is(Neither, responses[i], failed[i]);
        TallyTotal(responses, failed);
        TallyNone(Neither, responses, failed);
      }
    }

    /** `schedule` does not help a host that has stalled */
    method ScheduleStalled(timing: seq<Timing>, granted: bool) returns (again: bool)
      requires Valid() && |timing| == total
      modifies this
      ensures Valid() && Scheduled(timing, granted, again) && (old(Late()) ==> Late())
      ensures old(Stalled()) ==> Stalled()
    {
      ghost var b, k := Books(), |rounds|;
      ghost var stalled := Stalled();
      if stalled {
        var i: nat :| i < timed && Is(Neither, responses[i], failed[i]);
        TallyNone(Neither, responses, failed);
        TallyNone(Both, responses, failed);
      }
      again := Schedule(timing, granted);
      if stalled {
        if Books() != b { BlockedStays(b, Books(), timing, maxTries, timed, sent, again, k); }
        TallyNone(Both, responses, failed);
      }
    }

    /** The sets are compared, and the timed probes are sent again */
    method NewRound(nanswered: int)
      requires Counts() && Tried() && FirstBest(aux, rounds, timed) && !done && nanswered == Count(responses[..timed])
      requires |rounds| < maxTries && timed <= sent
      modifies this
      ensures Valid() && !done && failed == old(failed) && timedSent == old(timedSent) && sent == old(sent)
      ensures repeats == old(repeats) && rounds == old(rounds) + [old(Current())]
      ensures responses == Empty(timed) + old(responses)[timed..]
      ensures forall i: nat | i < total :: tries[i] == old(tries)[i] + if i < timed then 1 else 0
    {
      ghost var was := responses;
      PutAside();
      responses := Empty(timed) + responses[timed..];
      Cleared(was, responses, timed, failed);
      UntouchedCleared(was, timed, failed, sent);
      assert answered - nanswered >= 0;
      answered := answered - nanswered;
      rounds := rounds + [was[..timed]];
      SendAgain();
    }

    /** The better of the stored and the current set is stored */
    method PutAside()
      requires Shape() && FirstBest(aux, rounds, timed)
      modifies this`aux
      ensures FirstBest(aux, rounds + [Current()], timed)
    {
      var stored := CountOf(aux);
      var current := CountOf(responses[..timed]);
      BestNext(aux, rounds, responses[..timed], timed);
      if current > stored { aux := responses[..timed]; }
    }

    /** Every timed probe is sent once more */
    method SendAgain()
      requires timed <= total == |tries|
      modifies this`tries
      ensures |tries| == total
      ensures forall i: nat | i < total :: tries[i] == old(tries)[i] + if i < timed then 1 else 0
    {
      var i := 0;
      while i < timed
        invariant i <= timed && |tries| == total
        invariant forall j: nat | j < total :: tries[j] == old(tries)[j] + if j < i then 1 else 0
      {
        tries := tries[i := tries[i] + 1];
        i := i + 1;
      }
    }

    /** `set_done_and_wrap_up`: the timed answers that are kept are the whole set of one round,
        and no round had more */
    method WrapUp()
      requires Valid() && !done && answered + unanswered == total
      modifies this`responses, this`aux, this`done, this`rounds
      ensures Valid() && done && rounds == old(rounds) + [old(Current())]
              && responses[timed..] == old(responses)[timed..]
    {
      ghost var now := responses[..timed];
      done := true;
      var stored := CountOf(aux);
      var current := CountOf(responses[..timed]);
      FinalLast(aux, rounds, now, timed);
      if stored > current { responses := aux + responses[timed..]; }
      assert responses[..timed] == if stored > current then aux else now;
      aux := Empty(timed);
      rounds := rounds + [now];
    }
  }

  /** The last set is the best one exactly if no earlier one had more answers. */
  lemma BestOrNot(kept: Answers, rounds: seq<Answers>, now: Answers, n: nat)
    requires Best(kept, rounds, n) && |now| == n
    ensures Best(now, rounds + [now], n) <==> Count(kept) <= Count(now)
  {
    var rs := rounds + [now];
    assert rs[|rounds|] == now;
    if Count(kept) <= Count(now) {
      BestLast(kept, rounds, now, n);
    } else {
      var k: nat :| k < |rounds| && rounds[k] == kept;
      assert rs[k] == kept;
    }
  }

  /** Where every probe is settled, a look at the probes changes nothing. */
  lemma SettledStay(b: Book, b': Book, timing: seq<Timing>, most: nat, timed: nat, sent: nat, again: bool)
    requires IsBook(b, timing, |timing|) && IsBook(b', timing, |timing|) && timed <= sent <= |timing|
    requires Checked(b, b', timing, most, timed, sent, again) && Tally(Neither, b.answers, b.failed) == 0
    ensures !again && b'.answers == b.answers && b'.failed == b.failed
  {
    TallyNone(Neither, b.answers, b.failed);
    assert forall i: nat | i < |timing| :: !Overdue(b, timing, i);
  }

  /** Clearing the first `n` answers lowers the tally by their number. */
  lemma Cleared(s: Answers, s': Answers, n: nat, f: seq<bool>)
    requires n <= |s| == |f| && s' == Empty(n) + s[n..]
    ensures Tally(Answered, s', f) + Count(s[..n]) == Tally(Answered, s, f)
    ensures Tally(GivenUp, s', f) == Tally(GivenUp, s, f)
  {
    TallySame(GivenUp, s, f, s', f);
    TallyCount(s, f);
    TallyCount(s', f);
    assert s == s[..n] + s[n..];
    CountAppend(s[..n], s[n..]);
    CountAppend(Empty(n), s[n..]);
    CountEmpty(Empty(n));
  }

  /** With every probe answered or given up, once each, the counters add up exactly if no probe that was
      given up was answered all the same. */
  lemma SettledEnds(s: Answers, f: seq<bool>)
    requires |s| == |f| && forall i: nat | i < |s| :: s[i].Some? || f[i]
    ensures Tally(Answered, s, f) + Tally(GivenUp, s, f) == |s| <==> forall i: nat | i < |s| :: !(s[i].Some? && f[i])
  {
    TallyTotal(s, f);
    TallyNone(Neither, s, f);
    TallyNone(Both, s, f);
  }

  // ---------- runs ----------

  /** The tries that are left to all probes. */
  function TriesLeft(tries: seq<nat>, most: nat): nat {
    if tries == [] then 0
    else
      var n := |tries| - 1;
      TriesLeft(tries[..n], most) + if tries[n] < most then most - tries[n] else 0
  }

  lemma {:induction false} TriesLower(tries: seq<nat>, tries': seq<nat>, most: nat, i: nat)
    requires i < |tries| == |tries'| && tries[i] < most && tries[i] < tries'[i]
    requires forall j: nat | j < |tries| :: tries[j] <= tries'[j]
    ensures TriesLeft(tries', most) < TriesLeft(tries, most)
    decreases |tries|
  {
    var n := |tries| - 1;
    if i == n { TriesNoMore(tries[..n], tries'[..n], most); } else { TriesLower(tries[..n], tries'[..n], most, i); }
  }

  lemma {:induction false} TriesNoMore(tries: seq<nat>, tries': seq<nat>, most: nat)
    requires |tries| == |tries'| && forall j: nat | j < |tries| :: tries[j] <= tries'[j]
    ensures TriesLeft(tries', most) <= TriesLeft(tries, most)
    decreases |tries|
  {
    var n := |tries| - 1;
    if tries != [] { TriesNoMore(tries[..n], tries'[..n], most); }
  }

  function All(t: Timing, n: nat): (timing: seq<Timing>)
    ensures |timing| == n && forall i: nat | i < n :: timing[i] == t
  {
    seq(n, _ => t)
  }

  /** No probe has both an answer and been given up. */
  predicate OnceEach(b: Book) {
    |b.answers| == |b.failed| && forall i: nat | i < |b.answers| :: !Is(Both, b.answers[i], b.failed[i])
  }

  /** Some timed probe was given up while timed probes have tries left, and another one is unsettled. */
  predicate Blocked(b: Book, most: nat, timed: nat, rounds: nat)
    requires timed <= |b.answers| == |b.failed|
  {
    rounds < most && AnyLost(b, timed) && AnyOpen(b, timed)
  }

  predicate AnyLost(b: Book, n: nat)
    requires n <= |b.answers| == |b.failed|
  {
    exists i: nat :: i < n && b.answers[i] == None && b.failed[i]
  }

  predicate AnyOpen(b: Book, n: nat)
    requires n <= |b.answers| == |b.failed|
  {
    exists i: nat :: i < n && Is(Neither, b.answers[i], b.failed[i])
  }

  /** Timed probes have the same tries, and no probe was counted twice. */
  predicate Regular(b: Book, timing: seq<Timing>, timed: nat, rounds: nat) {
    && IsBook(b, timing, |timing|) && OnceEach(b) && timed <= |timing|
    && forall i: nat | i < timed :: b.tries[i] == rounds
  }

  /** A look at the probes does not help where a new round is blocked. */
  lemma BlockedStays(b: Book, b': Book, timing: seq<Timing>, most: nat, timed: nat, sent: nat, again: bool, rounds: nat)
    requires Regular(b, timing, timed, rounds) && IsBook(b', timing, |timing|) && timed <= sent <= |timing|
    requires Checked(b, b', timing, most, timed, sent, again) && Blocked(b, most, timed, rounds)
    ensures !again && OnceEach(b') && Blocked(b', most, timed, rounds)
  {
    var i: nat :| i < timed && b.answers[i] == None && b.failed[i];
    var j: nat :| j < timed && Is(Neither, b.answers[j], b.failed[j]);
    assert !Retriable(b, timing, most, i) && !again;
    assert !Expired(b, timing, most, j);
    assert b'.answers[i] == None && b'.failed[i];
    assert Is(Neither, b'.answers[j], b'.failed[j]);
  }

  /** A look at the probes loses no answers but those of a finished round, */
  lemma LateKeeps(b: Book, b': Book, timing: seq<Timing>, most: nat, timed: nat, sent: nat, again: bool)
    requires IsBook(b, timing, |timing|) && OnceEach(b) && IsBook(b', timing, |timing|) && timed <= sent <= |timing|
    requires Checked(b, b', timing, most, timed, sent, again)
    ensures OnceEach(b') && Keeps(b, b', timed) && TriesLeft(b'.tries, most) <= TriesLeft(b.tries, most)
  {
    AnswersAfter(b, b', timing, most, timed, sent, again);
    forall i: nat | i < |timing| ensures !Is(Both, b'.answers[i], b'.failed[i]) {
      assert !Is(Both, b.answers[i], b.failed[i]);
    }
    TriesNoMore(b.tries, b'.tries, most);
  }

  lemma AnswersAfter(b: Book, b': Book, timing: seq<Timing>, most: nat, timed: nat, sent: nat, again: bool)
    requires IsBook(b, timing, |timing|) && IsBook(b', timing, |timing|) && timed <= sent <= |timing|
    requires Checked(b, b', timing, most, timed, sent, again)
    ensures forall i: nat | i < |timing| :: b'.answers[i] == if again && i < timed then None else b.answers[i]
  {}

  /** and does not block a new round. */
  lemma LateBlocked(b: Book, b': Book, timing: seq<Timing>, most: nat, timed: nat, sent: nat, again: bool, rounds: nat)
    requires Regular(b, timing, timed, rounds) && IsBook(b', timing, |timing|) && timed <= sent <= |timing|
    requires Checked(b, b', timing, most, timed, sent, again) && !Blocked(b, most, timed, rounds)
    ensures !Blocked(b', most, timed, if again then rounds + 1 else rounds)
  {
    if again {
      forall i: nat | i < timed ensures !b'.failed[i] {
        assert b.answers[i].Some? || Retriable(b, timing, most, i);
        assert !Is(Both, b.answers[i], b.failed[i]);
      }
    } else if rounds < most {
      forall i: nat | i < timed ensures b'.failed[i] == b.failed[i] { assert !Expired(b, timing, most, i); }
      assert AnyLost(b', timed) == AnyLost(b, timed);
      assert AnyOpen(b', timed) == AnyOpen(b, timed);
    }
  }

  /** Answers are as before, or were those of a finished round. */
  predicate Keeps(b: Book, b': Book, timed: nat) {
    |b'.answers| == |b.answers| && forall i: nat | i < |b.answers| ::
      b'.answers[i] == b.answers[i] || (i < timed && b'.answers[i] == None)
  }

  /** Once all probes are sent, the look uses up a try, or settles the last probe. */
  lemma LateProgress(b: Book, b': Book, timing: seq<Timing>, most: nat, timed: nat, again: bool, rounds: nat)
    requires Regular(b, timing, timed, rounds) && IsBook(b', timing, |timing|)
    requires forall i: nat | i < |timing| :: timing[i] == TimedOut
    requires Checked(b, b', timing, most, timed, |timing|, again) && !Blocked(b, most, timed, rounds)
    ensures TriesLeft(b'.tries, most) < TriesLeft(b.tries, most) || !AnyOpen(b', |timing|)
  {
    var n := |timing|;
    var j := FirstRetry(b, timing, most, timed, n);
    if j < n {
      TriesLower(b.tries, b'.tries, most, j);
    } else if again {
      var i: nat :| i < timed && Retriable(b, timing, most, i);
      TriesLower(b.tries, b'.tries, most, i);
    } else {
      LateLast(b, b', timing, most, timed, rounds);
    }
  }

  /** No probe may be sent again: all that are left are given up. */
  lemma LateLast(b: Book, b': Book, timing: seq<Timing>, most: nat, timed: nat, rounds: nat)
    requires Regular(b, timing, timed, rounds) && IsBook(b', timing, |timing|)
    requires forall i: nat | i < |timing| :: timing[i] == TimedOut
    requires Checked(b, b', timing, most, timed, |timing|, false) && !Blocked(b, most, timed, rounds)
    requires FirstRetry(b, timing, most, timed, |timing|) == |timing|
    ensures !AnyOpen(b', |timing|)
  {
    assert FirstUnsent(b.answers, timing, 0, timed) == timed;
    LateRound(b, timing, most, timed, rounds);
    forall i: nat | i < |timing| ensures !Is(Neither, b'.answers[i], b'.failed[i]) {
      assert !Retriable(b, timing, most, i);
    }
  }

  /** Without a new round, no timed probe may be sent again. */
  lemma LateRound(b: Book, timing: seq<Timing>, most: nat, timed: nat, rounds: nat)
    requires Regular(b, timing, timed, rounds) && !Blocked(b, most, timed, rounds)
    requires forall i: nat | i < |timing| :: timing[i] == TimedOut
    ensures RoundDue(b, timing, most, timed) || forall i: nat | i < timed :: !Retriable(b, timing, most, i)
  {
    if i: nat :| i < timed && Retriable(b, timing, most, i) {
      assert AnyOpen(b, timed) && AnyRetriable(b, timing, most, timed);
      assert !AnyLost(b, timed);
    }
  }

  /** All probes of a new host are sent */
  method SendAll(timed: nat, total: nat, maxTries: nat) returns (h: Host)
    requires timed <= total && total > 0
    ensures fresh(h) && h.Valid() && !h.done && h.timed == timed && h.total == total && h.maxTries == maxTries
    ensures h.sent == total && (timed > 0 ==> h.timedSent) && h.rounds == [] && h.repeats == 0
    ensures forall i: nat | i < total :: h.responses[i] == None && h.tries[i] == 0 && !h.failed[i]
  {
    h := new Host(timed, total, maxTries);
    var timing := All(Waiting, total);
    while h.sent < total
      invariant fresh(h) && h.Valid() && !h.done && h.timed == timed && h.total == total && h.maxTries == maxTries
      invariant h.rounds == [] && h.repeats == 0
      invariant forall i: nat | i < total :: h.responses[i] == None && h.tries[i] == 0 && !h.failed[i]
      decreases if h.timedSent then 0 else 1, total - h.sent
    {
      NothingSettled(h.responses, h.failed);
      ghost var b := h.Books();
      var left, again := h.Visit(timing, true);
    }
  }

  /** Whatever was answered so far, if no probe was counted twice: timeouts alone end the detection, unless
      a new round is blocked.  Then the host is done, without having been wrapped up */
  method TimeOutAll(h: Host)
    requires h.Valid() && !h.done && h.Of(Both) == 0 == h.repeats && !h.Stalled()
    modifies h
    ensures h.Valid() && !h.done && h.Done() && h.repeats == 0 && h.Of(Both) == 0
    ensures (forall i: nat | i < h.total :: h.responses[i].Some? || h.failed[i]) && old(h.rounds) <= h.rounds
    ensures Keeps(old(h.Books()), h.Books(), h.timed)
  {
    var timing := All(TimedOut, h.total);
    while !h.Done()
      invariant h.Valid() && !h.done && h.Of(Both) == 0 == h.repeats && !h.Stalled()
      invariant old(h.rounds) <= h.rounds && Keeps(old(h.Books()), h.Books(), h.timed)
      decreases h.total - h.sent, TriesLeft(h.tries, h.maxTries), h.Of(Neither)
    {
      TimeOutOnce(h, timing);
    }
    TallyTotal(h.responses, h.failed);
    TallyNone(Neither, h.responses, h.failed);
  }

  /** One visit in which all probes without an answer have timed out */
  method TimeOutOnce(h: Host, timing: seq<Timing>)
    requires h.Valid() && !h.done && !h.Done() && h.Of(Both) == 0 == h.repeats && !h.Stalled()
    requires |timing| == h.total && forall i: nat | i < |timing| :: timing[i] == TimedOut
    modifies h
    ensures h.Valid() && !h.done && h.Of(Both) == 0 == h.repeats && !h.Stalled()
    ensures old(h.rounds) <= h.rounds && Keeps(old(h.Books()), h.Books(), h.timed)
    ensures || h.sent > old(h.sent)
            || TriesLeft(h.tries, h.maxTries) < old(TriesLeft(h.tries, h.maxTries))
            || (h.sent == old(h.sent) && TriesLeft(h.tries, h.maxTries) == old(TriesLeft(h.tries, h.maxTries))
                && h.Of(Neither) < old(h.Of(Neither)))
    ensures h.sent >= old(h.sent)
  {
    ghost var b, k := h.Books(), |h.rounds|;
    StillOpen(h);
    var left, again := h.Visit(timing, true);
    if h.Books() != b || h.sent == old(h.sent) {
      LateKeeps(b, h.Books(), timing, h.maxTries, h.timed, h.sent, again);
      LateBlocked(b, h.Books(), timing, h.maxTries, h.timed, h.sent, again, k);
      if h.sent == h.total { LateProgress(b, h.Books(), timing, h.maxTries, h.timed, again, k); }
    }
    TallyNone(Both, h.responses, h.failed);
    TallyNone(Neither, h.responses, h.failed);
  }

  /** A host that is not done has an unsettled probe. */
  lemma StillOpen(h: Host)
    requires h.Valid() && !h.done && !h.Done() && h.Of(Both) == 0 == h.repeats
    ensures h.Of(Neither) > 0 && OnceEach(h.Books())
  {
    TallyTotal(h.responses, h.failed);
    TallyNone(Neither, h.responses, h.failed);
    TallyNone(Both, h.responses, h.failed);
    if h.sent < h.total { assert UntouchedAt(h.responses, h.failed, h.sent); }
  }

  /** With two timed probes or more and another try: a send that fails stalls the host.  Nothing but an
      answer, or another send that fails, gets it on. */
  method StalledHost(timed: nat, total: nat, maxTries: nat) returns (h: Host)
    requires 2 <= timed <= total && maxTries >= 1
    ensures fresh(h) && h.Valid() && h.timed == timed && h.total == total && h.maxTries == maxTries && h.Stalled()
  {
    h := SendAll(timed, total, maxTries);
    h.SendFailed(0);
    TallyNone(Both, h.responses, h.failed);
    assert Is(Neither, h.responses[1], h.failed[1]);
    assert AnyLost(h.Books(), timed) && AnyOpen(h.Books(), timed);
  }

  /** Without answers, the counter of the probes that were given up tells whether any is left. */
  lemma AllOrNone(s: Answers, f: seq<bool>)
    requires |s| == |f| && forall i: nat | i < |s| :: s[i] == None
    ensures Tally(Answered, s, f) == 0 == Tally(Both, s, f) && Tally(Neither, s, f) == |s| - Tally(GivenUp, s, f)
    ensures Tally(Neither, s, f) == 0 <==> forall i: nat | i < |s| :: f[i]
  {
    TallyTotal(s, f);
    TallyNone(Answered, s, f);
    TallyNone(Both, s, f);
    TallyNone(Neither, s, f);
  }

  /** However many probes and tries there are: if the first answer comes right after the last probe was
      given up, the counters pass the total, and nothing that happens later ends the detection. */
  method LateAnswer(timed: nat, total: nat, maxTries: nat, r: Response) returns (h: Host)
    requires timed <= total && total > 0
    ensures fresh(h) && h.Valid() && h.timed == timed && h.total == total && h.maxTries == maxTries
    ensures h.Late() && !h.Done()
  {
    h := SendAll(timed, total, maxTries);
    TallyNone(Both, h.responses, h.failed);
    TimeOutAll(h);
    AllOrNone(h.responses, h.failed);
    var all := seq(total, _ => true);
    assert FindHit(h.responses, all, 0) == 0;
    var hit := h.Callback(all, r);
    TallyTotal(h.responses, h.failed);
    TallyNone(Neither, h.responses, h.failed);
    TallyNone(Both, h.responses, h.failed);
    assert Is(Both, h.responses[0], h.failed[0]);
  }

  /** With two timed probes or more and another try: the first round gets an answer, the others get none,
      and the host leaves when its last probe is given up.  It has lost the answer: the better set
      was put aside and is not looked at again. */
  method LostAnswer(timed: nat, total: nat, maxTries: nat, r: Response) returns (h: Host)
    requires 2 <= timed <= total && maxTries >= 1
    ensures fresh(h) && h.Valid() && h.timed == timed && h.total == total && h.maxTries == maxTries
    ensures h.Done() && !h.HasBest()
    ensures h.rounds != [] && h.rounds[0] == [Some(r)] + Empty(timed - 1) && Count(h.Current()) == 0
  {
    h := FirstRound(timed, total, maxTries, r);
    TallyNone(Both, h.responses, h.failed);
    TimeOutAll(h);
    ghost var set1 := [Some(r)] + Empty(timed - 1);
    assert h.rounds[0] == set1;
    OneAnswer(timed, r);
    CountEmpty(h.responses[..timed]);
    BestOrNot(h.aux, h.rounds, h.responses[..timed], timed);
  }

  /** The first round: one answer, and then a new round */
  method FirstRound(timed: nat, total: nat, maxTries: nat, r: Response) returns (h: Host)
    requires 2 <= timed <= total && maxTries >= 1
    ensures fresh(h) && h.Valid() && h.timed == timed && h.total == total && h.maxTries == maxTries
    ensures !h.done && h.repeats == 0 && forall i: nat | i < total :: h.responses[i] == None && !h.failed[i]
    ensures h.rounds == [[Some(r)] + Empty(timed - 1)]
  {
    h := AnsweredOnce(timed, total, maxTries, r);
    ghost var b := h.Books();
    OneSettled(h.responses, h.failed);
    var timing := All(TimedOut, total);
    var left, again := h.Visit(timing, true);
    FirstLook(b, h.Books(), timing, maxTries, timed, again);
    FirstSet(b.answers, timed, r);
  }

  lemma FirstSet(s: Answers, n: nat, r: Response)
    requires 0 < n <= |s| && s[0] == Some(r) && forall i: nat | 0 < i < |s| :: s[i] == None
    ensures s[..n] == [Some(r)] + Empty(n - 1)
  {}

  method AnsweredOnce(timed: nat, total: nat, maxTries: nat, r: Response) returns (h: Host)
    requires 2 <= timed <= total
    ensures fresh(h) && h.Valid() && h.timed == timed && h.total == total && h.maxTries == maxTries
    ensures !h.done && h.sent == total && h.timedSent && h.repeats == 0 && h.rounds == []
    ensures h.responses[0] == Some(r) && forall i: nat | 0 < i < total :: h.responses[i] == None
    ensures forall i: nat | i < total :: h.tries[i] == 0 && !h.failed[i]
  {
    h := SendAll(timed, total, maxTries);
    var first := seq(total, i => i == 0);
    AllOrNone(h.responses, h.failed);
    TallyNone(GivenUp, h.responses, h.failed);
    assert FindHit(h.responses, first, 0) == 0;
    var hit := h.Callback(first, r);
  }

  lemma OneSettled(s: Answers, f: seq<bool>)
    requires |s| == |f| >= 2 && s[0].Some? && forall i: nat | i < |s| :: !f[i] && (i > 0 ==> s[i] == None)
    ensures Tally(Neither, s, f) > 0 == Tally(Both, s, f)
    ensures Tally(Answered, s, f) + Tally(GivenUp, s, f) < |s|
  {
    TallyNone(Neither, s, f);
    TallyNone(Both, s, f);
    assert Is(Neither, s[1], f[1]);
    TallyTotal(s, f);
  }

  lemma FirstLook(b: Book, b': Book, timing: seq<Timing>, most: nat, timed: nat, again: bool)
    requires IsBook(b, timing, |timing|) && IsBook(b', timing, |timing|) && most > 0 && 2 <= timed <= |timing|
    requires b.answers[0].Some? && forall i: nat | 0 < i < |timing| :: b.answers[i] == None
    requires forall i: nat | i < |timing| :: timing[i] == TimedOut && b.tries[i] == 0 && !b.failed[i]
    requires Checked(b, b', timing, most, timed, |timing|, again)
    ensures again && forall i: nat | i < |timing| :: b'.answers[i] == None && !b'.failed[i]
  {
    assert forall i: nat | 0 < i < timed :: Retriable(b, timing, most, i);
    assert Retriable(b, timing, most, 1);
    assert again;
    forall i: nat | i < |timing| ensures b'.answers[i] == None && !b'.failed[i] {
      assert !Expired(b, timing, most, i);
      assert b'.answers[i] == if i < timed then None else b.answers[i];
    }
  }

  lemma OneAnswer(n: nat, r: Response)
    requires n > 0
    ensures Count([Some(r)] + Empty(n - 1)) == 1
  {
    CountAppend([Some(r)], Empty(n - 1));
    CountEmpty(Empty(n - 1));
    assert [Some(r)][..0] == [];
  }

  lemma NothingSettled(s: Answers, f: seq<bool>)
    requires |s| == |f| > 0 && forall i: nat | i < |s| :: s[i] == None && !f[i]
    ensures Tally(Neither, s, f) == |s| && Tally(Both, s, f) == 0
  {
    NothingYet(s, f);
    TallyTotal(s, f);
    TallyNone(Both, s, f);
  }

  /** At the end, the current set is kept unless an earlier one has more answers. */
  lemma BestLast(kept: Answers, rounds: seq<Answers>, now: Answers, n: nat)
    requires Best(kept, rounds, n) && |now| == n
    ensures Best(if Count(kept) > Count(now) then kept else now, rounds + [now], n)
  {
    var rs := rounds + [now];
    assert rs[|rounds|] == now;
    forall k: nat | k < |rs| ensures Count(rs[k]) <= Count(if Count(kept) > Count(now) then kept else now) {
      if k < |rounds| { assert rs[k] == rounds[k]; }
    }
  }

  lemma FinalLast(kept: Answers, rounds: seq<Answers>, now: Answers, n: nat)
    requires FirstBest(kept, rounds, n) && |now| == n
    ensures Final(if Count(kept) > Count(now) then kept else now, rounds + [now], n)
  {
    var rs := rounds + [now];
    assert rs[|rounds|] == now;
    FirstIsBest(kept, rounds, n);
    BestLast(kept, rounds, now, n);
    if Count(kept) > Count(now) {
      BestNext(kept, rounds, now, n);
      var k: nat :| k < |rounds| && rounds[k] == kept;
      assert rs[k] == kept;
    }
  }

  method CountOf(s: Answers) returns (n: nat)
    ensures n == Count(s)
  {
    n := 0;
    var i := 0;
    assert s[..0] == [];
    while i < |s|
      invariant i <= |s| && n == Count(s[..i])
    {
      CountNext(s, i);
      if s[i].Some? { n := n + 1; }
      i := i + 1;
    }
    assert s[..|s|] == s;
  }
}
