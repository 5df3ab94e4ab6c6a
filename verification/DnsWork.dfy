/** Every event that concerns a request lowers the work that is left, so runs end. */
module DnsWork {
  import opened Wrappers
  import opened DnsCapacity
  import opened DnsState
  import opened DnsSteps

  /** The most transmissions of one request. */
  function MostSent(n: nat): nat {
    ServersTried(n) * PerServer(n)
  }

  function Stage(p: Place): nat {
    match p
    case Fresh => 0
    case Waiting(_) => 0
    case OnWire(_) => 1
    case Writing(_) => 2
  }

  /** The events that a request can still take part in. */
  function Weight(p: Place, sent: nat, n: nat): nat {
    if sent <= MostSent(n) then 3 * (MostSent(n) - sent) + Stage(p) + 1 else 0
  }

  function Weights(at: map<Req, Place>, sent: map<Req, nat>, n: nat): map<Req, nat> {
    map r | r in at :: Weight(at[r], if r in sent then sent[r] else 0, n)
  }

  ghost function Sum(m: map<Req, nat>): nat
    decreases |m|
  {
    if m == map[] then 0
    else
      var r :| r in m;
      m[r] + Sum(m - {r})
  }

  lemma {:induction false} SumAt(m: map<Req, nat>, r: Req)
    requires r in m
    ensures Sum(m) == m[r] + Sum(m - {r})
    decreases |m|
  {
    var x :| x in m && Sum(m) == m[x] + Sum(m - {x});
    if x != r {
      SumAt(m - {x}, r);
      SumAt(m - {r}, x);
      assert m - {x} - {r} == m - {r} - {x};
    }
  }

  lemma SumMove(at: map<Req, Place>, sent: map<Req, nat>, n: nat, r: Req, p: Place, k: nat)
    requires r in at && r in sent
    ensures Sum(Weights(at[r := p], sent[r := k], n)) + Weight(at[r], sent[r], n)
            == Sum(Weights(at, sent, n)) + Weight(p, k, n)
  {
    var w, w' := Weights(at, sent, n), Weights(at[r := p], sent[r := k], n);
    SumAt(w, r);
    SumAt(w', r);
    assert w' - {r} == w - {r};
  }

  lemma SumLeave(at: map<Req, Place>, sent: map<Req, nat>, n: nat, r: Req)
    requires r in at && r in sent
    ensures Sum(Weights(at, sent, n)) == Sum(Weights(at - {r}, sent - {r}, n)) + Weight(at[r], sent[r], n)
  {
    SumAt(Weights(at, sent, n), r);
    assert Weights(at - {r}, sent - {r}, n) == Weights(at, sent, n) - {r};
  }

  /** The work left: a bound on the events to come. */
  ghost function Work(e: Engine): nat {
    Sum(Weights(e.at, e.sent, |e.servs|))
  }

  lemma WeightAt(e: Engine, r: Req)
    requires Inv(e) && r in e.at
    ensures r in e.sent && e.sent[r] <= MostSent(|e.servs|) && Weight(e.at[r], e.sent[r], |e.servs|) > 0
  {
    assert LiveOk(e, r);
    TourBound(e.reqs[r], e.at[r], e.sent[r], |e.servs|);
  }

  lemma TourBound(q: Request, p: Place, sent: nat, n: nat)
    requires RequestOk(q, p, sent, n) && n > 0
    ensures sent <= MostSent(n) && (p.Waiting? || p.Fresh? ==> sent < MostSent(n))
  {
    if !p.Fresh? {
      assert q.tried <= ServersTried(n) - 1;
      assert q.tried * PerServer(n) <= (ServersTried(n) - 1) * PerServer(n);
    }
  }

  /** A move of one request changes the work by the change of its weight. */
  lemma MovedWork(e: Engine, e': Engine, r: Req, q: Place, req: Request, sent: nat)
    requires Moved(e, e', r, q, req, sent) && r in e.sent
    ensures Work(e') + Weight(e.at[r], e.sent[r], |e.servs|) == Work(e) + Weight(q, sent, |e.servs|)
  {
    SumMove(e.at, e.sent, |e.servs|, r, q, sent);
  }

  lemma LeftWork(e: Engine, e': Engine, r: Req)
    requires Inv(e) && Left(e, e', r)
    ensures Work(e') < Work(e)
  {
    WeightAt(e, r);
    SumLeave(e.at, e.sent, |e.servs|, r);
  }

  lemma SendWork(e: Engine, k: nat, r: Req, id: nat)
    requires Inv(e) && CanSend(e, k, r)
    ensures r in e.reqs && r in e.sent && Inv(Send(e, k, r, id)) && Work(Send(e, k, r, id)) < Work(e)
  {
    SendInv(e, k, r, id);
    SendMoves(e, k, r, id);
    SendPlace(e, k, r);
    var e' := Send(e, k, r, id);
    TourBound(e.reqs[r], e.at[r], e.sent[r], |e.servs|);
    MovedWork(e, e', r, Writing(k), e'.reqs[r], e.sent[r] + 1);
  }

  lemma WrittenWork(e: Engine, k: nat, r: Req)
    requires Inv(e) && k < |e.servs| && e.servs[k].busy == Some(r)
    ensures r in e.reqs && Inv(Written(e, k, r)) && Work(Written(e, k, r)) < Work(e)
  {
    WrittenInv(e, k, r);
    WrittenMoves(e, k, r);
    WeightAt(e, r);
    MovedWork(e, Written(e, k, r), r, OnWire(k), e.reqs[r], e.sent[r]);
  }

  lemma RetryWork(e: Engine, k: nat, i: nat, r: Req)
    requires Inv(e) && Wired(e, k, i, r) && r in e.reqs && e.reqs[r].tries < PerServer(|e.servs|)
    ensures Inv(Retry(e, k, i, r)) && Work(Retry(e, k, i, r)) < Work(e)
  {
    RetryInv(e, k, i, r);
    RetryMoves(e, k, i, r);
    WeightAt(e, r);
    MovedWork(e, Retry(e, k, i, r), r, Waiting(k), e.reqs[r], e.sent[r]);
  }

  lemma MoveOnWork(e: Engine, k: nat, i: nat, r: Req)
    requires Inv(e) && MovesOn(e, k, i, r)
    ensures NextServer(k, |e.servs|) < |e.servs| && Inv(MoveOn(e, k, i, r)) && Work(MoveOn(e, k, i, r)) < Work(e)
  {
    MoveOnInv(e, k, i, r);
    MoveOnMoves(e, k, i, r);
    WeightAt(e, r);
    var next := NextServer(k, |e.servs|);
    MovedWork(e, MoveOn(e, k, i, r), r, Waiting(next), MovedOn(e.reqs[r], next), e.sent[r]);
  }

  lemma LeaveWork(e: Engine, k: nat, i: nat, r: Req, capacity: nat, fate: Fate)
    requires Inv(e) && Wired(e, k, i, r) && r in e.reqs && CAPACITY_MIN <= capacity <= CAPACITY_MAX
    ensures Inv(Leave(e, k, i, r, capacity, fate)) && Work(Leave(e, k, i, r, capacity, fate)) < Work(e)
  {
    LeaveInv(e, k, i, r, capacity, fate);
    LeaveLeft(e, k, i, r, capacity, fate);
    LeftWork(e, Leave(e, k, i, r, capacity, fate), r);
  }

  // ---------- runs ----------

  /** One move of one request, whatever event causes it. */
  datatype Move =
    | Sending(k: nat, r: Req, id: nat)
    | Completing(k: nat, r: Req)
    | Retrying(k: nat, i: nat, r: Req)
    | MovingOn(k: nat, i: nat, r: Req)
    | Leaving(k: nat, i: nat, r: Req, capacity: nat, fate: Fate)

  /** The move is possible, and leads from `e` to `e'`. */
  ghost predicate Step(e: Engine, m: Move, e': Engine) {
    match m
    case Sending(k, r, id) =>
      CanSend(e, k, r) && r in e.reqs && r in e.sent && e' == Send(e, k, r, id)
    case Completing(k, r) => k < |e.servs| && e.servs[k].busy == Some(r) && r in e.reqs && e' == Written(e, k, r)
    case Retrying(k, i, r) =>
      Wired(e, k, i, r) && r in e.reqs && e.reqs[r].tries < PerServer(|e.servs|) && e' == Retry(e, k, i, r)
    case MovingOn(k, i, r) =>
      MovesOn(e, k, i, r) && NextServer(k, |e.servs|) < |e.servs| && e' == MoveOn(e, k, i, r)
    case Leaving(k, i, r, capacity, fate) =>
      && Wired(e, k, i, r) && r in e.reqs && CAPACITY_MIN <= capacity <= CAPACITY_MAX
      && (fate.Dropped? ==> GivenUp(e, k, r)) && e' == Leave(e, k, i, r, capacity, fate)
  }

  /** The request has used up its tries at the last server that it may try. */
  predicate GivenUp(e: Engine, k: nat, r: Req) {
    r in e.reqs && e.reqs[r].tries == PerServer(|e.servs|) && Exhausted(e.reqs[r], k, |e.servs|)
  }

  /** That is, it was transmitted as often as a request can be. */
  lemma GivenUpMeans(e: Engine, k: nat, i: nat, r: Req)
    requires Inv(e) && Wired(e, k, i, r)
    ensures r in e.sent && (GivenUp(e, k, r) <==> e.sent[r] == MostSent(|e.servs|))
  {
    WiredPlace(e, k, i, r);
    TourSpent(e.reqs[r], k, e.sent[r], |e.servs|);
  }

  lemma TourSpent(q: Request, k: nat, sent: nat, n: nat)
    requires OnTour(q, k, sent, n) && q.tries <= PerServer(n)
    ensures q.tries == PerServer(n) && Exhausted(q, k, n) <==> sent == MostSent(n)
  {
    ExhaustedMeans(q, k, sent, n);
    if q.tried + 1 < ServersTried(n) {
      assert (q.tried + 1) * PerServer(n) < ServersTried(n) * PerServer(n);
    }
  }

  /** A request is dropped only after all its transmissions. */
  lemma DroppedSpent(e: Engine, m: Move, e': Engine)
    requires Inv(e) && Step(e, m, e') && e'.dropped != e.dropped
    ensures e'.dropped == e.dropped + 1 && m.Leaving? && m.fate.Dropped? && m.r !in e'.reqs
    ensures m.r in e.sent && e.sent[m.r] == MostSent(|e.servs|)
  {
    GivenUpMeans(e, m.k, m.i, m.r);
  }

  /** Every move keeps the invariant and lowers the work. */
  lemma StepInv(e: Engine, m: Move, e': Engine)
    requires Inv(e) && Step(e, m, e')
    ensures Inv(e') && Work(e') < Work(e)
  {
    match m
    case Sending(k, r, id) => SendWork(e, k, r, id);
    case Completing(k, r) => WrittenWork(e, k, r);
    case Retrying(k, i, r) => RetryWork(e, k, i, r);
    case MovingOn(k, i, r) => MoveOnWork(e, k, i, r);
    case Leaving(k, i, r, capacity, fate) => LeaveWork(e, k, i, r, capacity, fate);
  }

  /** The states of a run. */
  ghost predicate Run(es: seq<Engine>, ms: seq<Move>) {
    |es| == |ms| + 1 && forall i: nat | i < |ms| :: Step(es[i], ms[i], es[i + 1])
  }

  /** In every run the invariant holds throughout, no request is transmitted more than 3, 4 or 6
      times, and there are at most as many moves as there was work at the start. */
  lemma {:induction false} RunInv(es: seq<Engine>, ms: seq<Move>)
    requires Run(es, ms) && Inv(es[0])
    ensures forall i: nat | i < |es| :: Inv(es[i])
    ensures |ms| + Work(es[|ms|]) <= Work(es[0])
    decreases |ms|
  {
    if ms != [] {
      var n := |ms| - 1;
      RunInv(es[..n + 1], ms[..n]);
      assert Step(es[n], ms[n], es[n + 1]);
      assert es[..n + 1][n] == es[n];
      StepInv(es[n], ms[n], es[n + 1]);
      forall i: nat | i < |es| ensures Inv(es[i]) {
        if i <= n { assert es[..n + 1][i] == es[i]; }
      }
    }
  }

  /** Some run leads from one state to the other. */
  ghost predicate Reaches(e: Engine, e': Engine) {
    exists es: seq<Engine>, ms: seq<Move> :: RunFrom(es, ms, e, e')
  }

  ghost predicate RunFrom(es: seq<Engine>, ms: seq<Move>, e: Engine, e': Engine) {
    Run(es, ms) && es[0] == e && es[|ms|] == e'
  }

  lemma ReachesSelf(e: Engine)
    ensures Reaches(e, e)
  {
    assert RunFrom([e], [], e, e);
  }

  lemma ReachesStep(e: Engine, e1: Engine, m: Move, e2: Engine)
    requires Reaches(e, e1) && Step(e1, m, e2)
    ensures Reaches(e, e2)
  {
    var es: seq<Engine>, ms: seq<Move> :| RunFrom(es, ms, e, e1);
    var es', ms' := es + [e2], ms + [m];
    forall i: nat | i < |ms'| ensures Step(es'[i], ms'[i], es'[i + 1]) {
      if i < |ms| { assert Step(es[i], ms[i], es[i + 1]); }
    }
    assert RunFrom(es', ms', e, e2);
  }

  lemma {:induction false} ReachesTrans(e: Engine, e1: Engine, e2: Engine)
    requires Reaches(e, e1) && Reaches(e1, e2)
    ensures Reaches(e, e2)
  {
    var es: seq<Engine>, ms: seq<Move> :| RunFrom(es, ms, e1, e2);
    ReachesAlong(e, es, ms, |ms|);
  }

  lemma {:induction false} ReachesAlong(e: Engine, es: seq<Engine>, ms: seq<Move>, n: nat)
    requires Run(es, ms) && n <= |ms| && Reaches(e, es[0])
    ensures Reaches(e, es[n])
    decreases n
  {
    if n > 0 {
      ReachesAlong(e, es, ms, n - 1);
      assert Step(es[n - 1], ms[n - 1], es[n - 1 + 1]);
      ReachesStep(e, es[n - 1], ms[n - 1], es[n]);
    }
  }

  /** A request that has left does not come back. */
  lemma StepKeys(e: Engine, m: Move, e': Engine)
    requires Step(e, m, e')
    ensures e'.reqs.Keys <= e.reqs.Keys
  {}

  lemma {:induction false} RunKeys(es: seq<Engine>, ms: seq<Move>, n: nat)
    requires Run(es, ms) && n <= |ms|
    ensures es[n].reqs.Keys <= es[0].reqs.Keys
    decreases n
  {
    if n > 0 {
      RunKeys(es, ms, n - 1);
      assert Step(es[n - 1], ms[n - 1], es[n - 1 + 1]);
      StepKeys(es[n - 1], ms[n - 1], es[n]);
    }
  }

  lemma ReachesKeys(e: Engine, e': Engine)
    requires Reaches(e, e')
    ensures e'.reqs.Keys <= e.reqs.Keys
  {
    var es: seq<Engine>, ms: seq<Move> :| RunFrom(es, ms, e, e');
    RunKeys(es, ms, |ms|);
  }

  lemma ReachesInv(e: Engine, e': Engine)
    requires Inv(e) && Reaches(e, e')
    ensures Inv(e') && Work(e') <= Work(e) && (e' != e ==> Work(e') < Work(e))
  {
    var es: seq<Engine>, ms: seq<Move> :| RunFrom(es, ms, e, e');
    RunInv(es, ms);
  }

  // ---------- nothing gets stuck ----------

  /** Server `k` has something on the wire, or nothing is left for it to send. */
  predicate Quiet(e: Engine, k: nat)
    requires k < |e.servs|
  {
    e.servs[k].onWire > 0 || (e.servs[k].toProcess == [] && e.newReqs == [])
  }

  /** If all servers are quiet and requests are left, one of them is on the wire: an event about
      it is still to come. */
  lemma Progress(e: Engine)
    requires Inv(e) && (forall k: nat | k < |e.servs| :: Quiet(e, k)) && e.total > 0
    ensures exists k: nat :: k < |e.servs| && e.servs[k].onWire > 0
  {
    var r :| r in e.at;
    assert LiveOk(e, r);
    var k := if e.at[r].Fresh? then 0 else e.at[r].server;
    assert k < |e.servs|;
    assert Quiet(e, k) && ServerOk(e.servs[k], e.at, k);
    match e.at[r]
    case Fresh => assert IsAt(e.at, r, Fresh); assert r in e.newReqs;
    case Waiting(_) => assert IsAt(e.at, r, Waiting(k)); assert r in e.servs[k].toProcess;
    case OnWire(_) => assert IsAt(e.at, r, OnWire(k)); assert r in e.servs[k].inProcess;
    case Writing(_) => assert IsAt(e.at, r, Writing(k)); assert e.servs[k].busy == Some(r);
  }

  /** A move that needs no answer: sending, the end of a write, and timeouts. */
  predicate Unaided(m: Move) {
    m.Leaving? ==> m.fate.Dropped?
  }

  /** No move is possible, unless an answer comes. */
  ghost predicate Still(e: Engine) {
    forall m: Move, e': Engine | Unaided(m) :: !Step(e, m, e')
  }

  /** A request on the wire can time out, */
  lemma WireMoves(e: Engine, k: nat)
    requires Inv(e) && k < |e.servs| && e.servs[k].onWire > 0
    ensures !Still(e)
  {
    var s := e.servs[k];
    assert ServerOk(s, e.at, k);
    if s.busy.Some? {
      WrittenMoves(e, k, s.busy.value);
      assert Step(e, Completing(k, s.busy.value), Written(e, k, s.busy.value));
    } else {
      var r := s.inProcess[0];
      WiredPlace(e, k, 0, r);
      if e.reqs[r].tries < PerServer(|e.servs|) {
        assert Step(e, Retrying(k, 0, r), Retry(e, k, 0, r));
      } else if GivenUp(e, k, r) {
        assert Step(e, Leaving(k, 0, r, CAPACITY_MIN, Dropped), Leave(e, k, 0, r, CAPACITY_MIN, Dropped));
      } else {
        MoveOnMoves(e, k, 0, r);
        assert Step(e, MovingOn(k, 0, r), MoveOn(e, k, 0, r));
      }
    }
  }

  /** and an idle server with something to send can send it. */
  lemma IdleMoves(e: Engine, k: nat)
    requires Inv(e) && k < |e.servs| && !Quiet(e, k)
    ensures !Still(e)
  {
    var s := e.servs[k];
    assert ServerOk(s, e.at, k);
    var r := if s.toProcess != [] then s.toProcess[0] else e.newReqs[0];
    SendPlace(e, k, r);
    assert Step(e, Sending(k, r, 0), Send(e, k, r, 0));
  }

  /** Where no move is possible, no request is left: even if no answer ever comes, nothing gets
      stuck. */
  lemma StuckMeansDone(e: Engine)
    requires Inv(e) && Still(e)
    ensures e.total == 0
  {
    forall k: nat | k < |e.servs| ensures Quiet(e, k) {
      if !Quiet(e, k) { IdleMoves(e, k); }
    }
    if e.total > 0 {
      Progress(e);
      var k: nat :| k < |e.servs| && e.servs[k].onWire > 0;
      WireMoves(e, k);
    }
  }

  /** A run that cannot be continued has settled every request: each was resolved, found to have
      no name, dropped, or deferred. */
  lemma MaximalRunDone(es: seq<Engine>, ms: seq<Move>)
    requires Run(es, ms) && Inv(es[0]) && Still(es[|ms|])
    ensures var e := es[|ms|]; e.total == 0 && e.actual == e.ok + e.nx + e.dropped + |e.deferred|
    ensures |ms| <= Work(es[0])
  {
    RunInv(es, ms);
    StuckMeansDone(es[|ms|]);
  }

  /** A run without answers. */
  ghost predicate SilentRun(es: seq<Engine>, ms: seq<Move>) {
    Run(es, ms) && forall i: nat | i < |ms| :: Unaided(ms[i])
  }

  lemma SilentStep(e: Engine, m: Move, es: seq<Engine>, ms: seq<Move>)
    requires SilentRun(es, ms) && Unaided(m) && Step(e, m, es[0])
    ensures SilentRun([e] + es, [m] + ms)
  {
    var es', ms' := [e] + es, [m] + ms;
    forall i: nat | i < |ms'| ensures Step(es'[i], ms'[i], es'[i + 1]) && Unaided(ms'[i]) {
      if i > 0 { assert Step(es[i - 1], ms[i - 1], es[i - 1 + 1]); }
    }
  }

  /** From every state some run of writes and timeouts alone reaches the end. */
  lemma {:induction false} SilentEnd(e: Engine) returns (es: seq<Engine>, ms: seq<Move>)
    requires Inv(e)
    ensures SilentRun(es, ms) && es[0] == e && Inv(es[|ms|]) && es[|ms|].total == 0
    decreases Work(e)
  {
    if Still(e) {
      StuckMeansDone(e);
      es, ms := [e], [];
    } else {
      var m: Move, e': Engine :| Unaided(m) && Step(e, m, e');
      StepInv(e, m, e');
      es, ms := SilentEnd(e');
      SilentStep(e, m, es, ms);
      es, ms := [e] + es, [m] + ms;
    }
  }

  /** A list of requests at one place is empty when no request is live. */
  lemma NoneListed(s: seq<Req>, at: map<Req, Place>, p: Place)
    requires ListOk(s, at, p) && |at| == 0
    ensures s == []
  {
    assert s == [] || s[0] in s;
    assert !IsAt(at, if s == [] then 0 else s[0], p);
  }

  lemma RecordsPoint(e: Engine)
    requires Inv(e)
    ensures forall id | id in e.records :: e.records[id].req in e.at
  {
    forall id | id in e.records ensures e.records[id].req in e.at { assert RecordOk(e, id); }
  }

  /** When no request is left, nothing is queued, being written or on the wire, and no record is
      kept: closing the servers loses nothing. */
  lemma AllDone(e: Engine)
    requires Inv(e) && e.total == 0
    ensures e.newReqs == [] && e.records == map[]
    ensures forall k: nat | k < |e.servs| ::
              e.servs[k].toProcess == [] && e.servs[k].inProcess == [] && e.servs[k].busy == None
  {
    RecordsPoint(e);
    NoneListed(e.newReqs, e.at, Fresh);
    forall k: nat | k < |e.servs|
      ensures e.servs[k].toProcess == [] && e.servs[k].inProcess == [] && e.servs[k].busy == None
    {
      var s := e.servs[k];
      assert ServerOk(s, e.at, k);
      NoneListed(s.toProcess, e.at, Waiting(k));
      NoneListed(s.inProcess, e.at, OnWire(k));
      assert !IsAt(e.at, if s.busy.Some? then s.busy.value else 0, Writing(k));
    }
  }

  // ---------- the start ----------

  /** Servers that are just connected, and `m` requests. */
  ghost predicate Starts(e: Engine, n: nat, m: nat) {
    && |e.servs| == n > 0 && (forall k: nat | k < n :: e.servs[k] == Server(0, CAPACITY_MIN, None, [], []))
    && |e.newReqs| == m == e.total == e.actual && e.ok == e.nx == e.dropped == 0 && e.deferred == []
    && NoDup(e.newReqs) && e.records == map[]
    && (forall r :: r in e.newReqs <==> r in e.at) && e.at.Keys == e.reqs.Keys == e.sent.Keys
    && forall r | r in e.at :: e.at[r] == Fresh && e.reqs[r].tries == 0 == e.reqs[r].tried && e.sent[r] == 0
  }

  /** The invariant holds at the start, where the work is `3 * MostSent(n) + 1` for each request:
      no run is longer. */
  lemma StartInv(e: Engine, n: nat, m: nat)
    requires Starts(e, n, m)
    ensures Inv(e) && Work(e) == m * (3 * MostSent(n) + 1)
  {
    StartServers(e, n, m);
    forall r: Req ensures r in e.newReqs <==> IsAt(e.at, r, Fresh) {}
    forall r | r in e.at ensures LiveOk(e, r) {}
    StartCount(e, n, m);
    StartWork(e, n, m);
  }

  lemma StartServers(e: Engine, n: nat, m: nat)
    requires Starts(e, n, m)
    ensures ServersOk(e)
  {
    var none: seq<Req> := [];
    forall k: nat | k < n ensures ServerOk(e.servs[k], e.at, k) {
      assert ListOk(none, e.at, Waiting(k)) && ListOk(none, e.at, OnWire(k));
    }
  }

  lemma StartCount(e: Engine, n: nat, m: nat)
    requires Starts(e, n, m)
    ensures |e.at| == m
  {
    Distinct(e.newReqs);
    assert e.at.Keys == Members(e.newReqs);
    assert |e.at| == |e.at.Keys|;
  }

  lemma StartWork(e: Engine, n: nat, m: nat)
    requires Starts(e, n, m) && |e.at| == m
    ensures Work(e) == m * (3 * MostSent(n) + 1)
  {
    var w := Weights(e.at, e.sent, n);
    assert w.Keys == e.at.Keys;
    assert |w| == |w.Keys| && |e.at| == |e.at.Keys|;
    SumSame(w, 3 * MostSent(n) + 1);
  }

  function Members(s: seq<Req>): set<Req> {
    set r | r in s
  }

  lemma {:induction false} Distinct(s: seq<Req>)
    requires NoDup(s)
    ensures |Members(s)| == |s|
    decreases |s|
  {
    if s != [] {
      var n := |s| - 1;
      var t := s[..n];
      Distinct(t);
      assert s == t + [s[n]];
      assert s[n] !in Members(t);
      assert Members(s) == Members(t) + {s[n]};
    }
  }

  lemma {:induction false} SumSame(m: map<Req, nat>, w: nat)
    requires forall r | r in m :: m[r] == w
    ensures Sum(m) == |m| * w
    decreases |m|
  {
    if m != map[] {
      var r :| r in m;
      SumAt(m, r);
      SumSame(m - {r}, w);
      assert |m - {r}| == |m| - 1;
    }
  }
}
