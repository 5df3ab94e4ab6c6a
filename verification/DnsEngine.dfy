/** The handlers of the parallel reverse-DNS engine (nmap/nmap_dns.cc): whatever events occur, in
    whatever order, each handler makes moves of module DnsWork only. */
module DnsEngine {
  import opened Wrappers
  import opened DnsCapacity
  import opened DnsState
  import opened DnsSteps
  import opened DnsWork

  class MassDns {
    var servs: seq<Server>
    var newReqs: seq<Req>
    var reqs: map<Req, Request>
    var records: map<nat, Record>
    var deferred: seq<Req>
    var total: int
    var actual: int
    var ok: int
    var nx: int
    var dropped: int
    var deadline: map<Req, int>
    var progressiveId: nat
    ghost var at: map<Req, Place>
    ghost var sent: map<Req, nat>

    /** No deadline lies after this time. */
    ghost var horizon: int

    /** `m` requests and `n` servers that are just connected */
    constructor (n: nat, m: nat, id: nat)
      requires n > 0
      ensures Valid() && |servs| == n && total == m && Work(State()) == m * (3 * MostSent(n) + 1)
      ensures progressiveId == id && |newReqs| == m && forall k: nat | k < n :: servs[k].capacity == 10
    {
      servs := seq(n, _ => Server(0, CAPACITY_MIN, None, [], []));
      var all: seq<Req> := seq(m, i => i);
      newReqs := all;
      reqs := map r | r in all :: Request(0, 0, 0, 0, 0);
      records, deferred, deadline := map[], [], map[];
      total, actual, ok, nx, dropped, progressiveId := m, m, 0, 0, 0, id;
      at := map r | r in all :: Fresh;
      sent := map r | r in all :: 0;
      horizon := 0;
      new;
      assert Starts(State(), n, m);
      StartInv(State(), n, m);
    }

    ghost function State(): Engine
      reads this
    {
      Engine(servs, newReqs, reqs, records, deferred, total, actual, ok, nx, dropped, at, sent)
    }

    ghost predicate Valid()
      reads this
    {
      Inv(State()) && Dated(deadline, horizon)
    }

    /** What every handler promises: it has made moves, and so kept the invariant and lowered the
        work, or it has changed nothing. */
    twostate predicate Moves()
      reads this
    {
      && Valid() && Reaches(old(State()), State()) && |servs| == |old(servs)|
      && (State() == old(State()) ==> horizon == old(horizon))
    }

    twostate predicate Untimed()
      reads this
    {
      deadline == old(deadline) && horizon == old(horizon)
    }

    /** Request `r` was counted, or deferred, according to its fate. */
    twostate predicate Counted(r: Req, fate: Fate)
      reads this
    {
      && ok == old(ok) + (if fate.Resolved? then 1 else 0) && nx == old(nx) + (if fate.NoName? then 1 else 0)
      && dropped == old(dropped) + (if fate.Dropped? then 1 else 0)
      && deferred == old(deferred) + (if fate.Deferred? then [r] else [])
    }

    twostate predicate Uncounted()
      reads this
    {
      ok == old(ok) && nx == old(nx) && dropped == old(dropped) && deferred == old(deferred)
    }

    /** `put_dns_packet_on_wire` for the request that server `k` has just taken */
    method PutOnWire(k: nat, r: Req, isNew: bool, now: int)
      requires k < |servs| && r in reqs && r in sent
      modifies this
      ensures State() == Put(old(State()), k, r, isNew, old(progressiveId))
      ensures deadline == old(deadline)[r := now + ReadTimeout(TimeoutRow(|servs|), old(reqs[r]).tries)]
      ensures horizon == LaterOf(old(horizon), now + ReadTimeout(TimeoutRow(|servs|), old(reqs[r]).tries))
      ensures progressiveId == if old(progressiveId) % 65536 == 65535 then 0 else old(progressiveId) % 65536 + 1
    {
      var q := reqs[r];
      var s := servs[k];
      var timeout := ReadTimeout(TimeoutRow(|servs|), q.tries);
      servs := servs[k := s.(busy := Some(r), onWire := s.onWire + 1)];
      deadline := deadline[r := now + timeout];
      horizon := LaterOf(horizon, now + timeout);
      reqs := reqs[r := SentRequest(q, isNew, k, progressiveId)];
      progressiveId := (progressiveId + 1) % 65536;
      at := at[r := Writing(k)];
      sent := sent[r := sent[r] + 1];
    }

    /** Deadlines that were set lie in the future: the sentinel of the table is never used. */
    twostate predicate Later(now: int)
      reads this
    {
      SetLater(old(deadline), deadline, now)
    }

    /** Server `k` takes a request that waits for it */
    method TakeWaiting(k: nat, now: int)
      requires Valid() && k < |servs| && servs[k].toProcess != [] && CanSend(State(), k, servs[k].toProcess[0])
      modifies this
      ensures Moves() && Work(State()) < old(Work(State()))
      ensures Later(now) && Uncounted() && servs[k].onWire > 0 && newReqs == old(newReqs) && SamePace(old(servs), servs)
      ensures forall j: nat | j < |servs| && j != k :: servs[j] == old(servs)[j]
    {
      ghost var e, id := State(), progressiveId;
      var s := servs[k];
      var r := s.toProcess[0];
      SendPlace(e, k, r);
      assert ServerOk(s, at, k);
      TableEnds(|servs|, reqs[r].tries);
      servs := servs[k := s.(toProcess := s.toProcess[1..])];
      DatedSet(deadline, horizon, r, now + ReadTimeout(TimeoutRow(|servs|), reqs[r].tries));
      PutOnWire(k, r, false, now);
      PutSends(e, k, r, id);
      SendReaches(e, k, r, id);
    }

    /** Server `k` takes a new request */
    method TakeNew(k: nat, now: int)
      requires Valid() && k < |servs| && servs[k].toProcess == [] && newReqs != [] && CanSend(State(), k, newReqs[0])
      modifies this
      ensures Moves() && Work(State()) < old(Work(State()))
      ensures Later(now) && Uncounted() && servs[k].onWire > 0 && newReqs == old(newReqs)[1..]
      ensures SamePace(old(servs), servs)
      ensures forall j: nat | j < |servs| && j != k :: servs[j] == old(servs)[j]
    {
      ghost var e, id := State(), progressiveId;
      var r := newReqs[0];
      SendPlace(e, k, r);
      assert ServerOk(servs[k], at, k);
      TableEnds(|servs|, reqs[r].tries);
      newReqs := newReqs[1..];
      DatedSet(deadline, horizon, r, now + ReadTimeout(TimeoutRow(|servs|), reqs[r].tries));
      PutOnWire(k, r, true, now);
      PutSends(e, k, r, id);
      SendReaches(e, k, r, id);
    }

    /** The work was lowered, or nothing has changed. */
    twostate predicate Lowers()
      reads this
    {
      Work(State()) < old(Work(State())) || (State() == old(State()) && horizon == old(horizon))
    }

    /** Server `k` takes a request if it may and finds one */
    method TakeOne(k: nat, now: int)
      requires Valid() && k < |servs|
      modifies this
      ensures Moves() && Lowers() && Later(now) && Uncounted() && Quiet(State(), k) && SamePace(old(servs), servs)
      ensures old(newReqs) == [] ==> newReqs == []
      ensures forall j: nat | j < |servs| && j != k :: servs[j] == old(servs)[j]
    {
      ReachesSelf(State());
      var s := servs[k];
      assert ServerOk(s, at, k);
      if s.busy == None && s.onWire < s.capacity {
        if s.toProcess != [] {
          TakeWaiting(k, now);
        } else if newReqs != [] {
          TakeNew(k, now);
        }
      }
    }

    /** `do_possible_writes`: every server that may take a request and finds one takes it */
    method DoPossibleWrites(now: int)
      requires Valid()
      modifies this
      ensures Moves() && Lowers() && Later(now) && Uncounted() && forall k: nat | k < |servs| :: Quiet(State(), k)
      ensures SamePace(old(servs), servs)
      ensures total > 0 ==> exists k: nat :: k < |servs| && servs[k].onWire > 0
    {
      ghost var e := State();
      ReachesSelf(e);
      var k := 0;
      while k < |servs|
        invariant k <= |servs| == |e.servs| && Valid() && Reaches(e, State()) && Lowers() && Later(now) && Uncounted()
        invariant QuietBelow(State(), k) && SamePace(e.servs, servs)
      {
        ghost var e1, d1 := State(), deadline;
        TakeOne(k, now);
        SamePaceBoth(e.servs, e1.servs, servs);
        ReachesTrans(e, e1, State());
        SetLaterBoth(old(deadline), d1, deadline, now);
        QuietMore(e1, State(), k);
        k := k + 1;
      }
      if total > 0 { Progress(State()); }
    }

    /** `write_evt_handler` for the write to server `k` */
    method WriteEvent(k: nat, now: int)
      requires Valid() && k < |servs| && servs[k].busy.Some?
      modifies this
      ensures Moves() && Later(now) && Work(State()) < old(Work(State())) && SamePace(old(servs), servs)
      ensures total > 0 ==> exists j: nat :: j < |servs| && servs[j].onWire > 0
    {
      ghost var e := State();
      EndWrite(k);
      ghost var e1 := State();
      DoPossibleWrites(now);
      SamePaceBoth(e.servs, e1.servs, servs);
      ReachesTrans(e, e1, State());
      ReachesInv(e1, State());
    }

    method EndWrite(k: nat)
      requires Valid() && k < |servs| && servs[k].busy.Some?
      modifies this
      ensures Moves() && Untimed() && Work(State()) < old(Work(State())) && SamePace(old(servs), servs)
    {
      ghost var e := State();
      var r := servs[k].busy.value;
      WrittenMoves(e, k, r);
      WrittenWork(e, k, r);
      PutInProcess(k, r);
      ReachesSelf(e);
      ReachesStep(e, e, Completing(k, r), State());
    }

    method PutInProcess(k: nat, r: Req)
      requires k < |servs| && r in reqs
      modifies this
      ensures State() == Written(old(State()), k, r) && Untimed()
    {
      servs := servs[k := WrittenServer(servs[k], r)];
      records := records[reqs[r].id := Record(k, r)];
      at := at[r := OnWire(k)];
    }

    /** The request on the wire of server `k` at `i` has timed out: it waits for the same server,
        or for the next one, or is given up after its last transmission */
    method Expire(k: nat, i: nat)
      requires Valid() && k < |servs| && i < |servs[k].inProcess|
      modifies this
      ensures Moves() && Work(State()) < old(Work(State())) && Untimed()
      ensures Unwired(old(servs), servs, k, i)
      ensures TimedOut(old(State()), k, i, old(servs)[k].inProcess[i], State())
      ensures SlowedOnly(old(servs), servs, k, IsAt(at, old(servs)[k].inProcess[i], Waiting(k)))
    {
      ghost var e := State();
      var s, n := servs[k], |servs|;
      var r := s.inProcess[i];
      WiredPlace(e, k, i, r);
      GivenUpMeans(e, k, i, r);
      var q := reqs[r];
      TableEnds(n, q.tries);
      if ReadTimeout(TimeoutRow(n), q.tries) != -1 {
        ExpireRetry(k, i, r);
      } else {
        var next := if k + 1 == n then 0 else k + 1;
        if next == q.first || q.tried + 1 == SERVERS_TO_TRY {
          ExpireDrop(k, i, r);
        } else {
          ExpireMoveOn(k, i, r, next);
        }
      }
      TimedOutSlows(e, k, i, r, State());
    }

    method ExpireRetry(k: nat, i: nat, r: Req)
      requires Valid() && Wired(State(), k, i, r) && r in reqs && reqs[r].tries < PerServer(|servs|)
      modifies this
      ensures Moves() && Work(State()) < old(Work(State())) && Untimed()
      ensures Unwired(old(servs), servs, k, i)
      ensures State() == Retry(old(State()), k, i, r)
    {
      ghost var e := State();
      RetryWork(e, k, i, r);
      GoBack(k, i, r);
      ReachesSelf(e);
      ReachesStep(e, e, Retrying(k, i, r), State());
    }

    method GoBack(k: nat, i: nat, r: Req)
      requires Wired(State(), k, i, r) && r in reqs
      modifies this
      ensures State() == Retry(old(State()), k, i, r) && Untimed()
    {
      var s := servs[k];
      servs := servs[k := OffServer(s, i, Down(s.capacity)).(toProcess := s.toProcess + [r])];
      records := records - {reqs[r].id};
      at := at[r := Waiting(k)];
    }

    method ExpireMoveOn(k: nat, i: nat, r: Req, next: nat)
      requires Valid() && MovesOn(State(), k, i, r) && next == NextServer(k, |servs|)
      modifies this
      ensures Moves() && Work(State()) < old(Work(State())) && Untimed()
      ensures Unwired(old(servs), servs, k, i)
      ensures next < |servs| && State() == MoveOn(old(State()), k, i, r)
    {
      ghost var e := State();
      MoveOnMoves(e, k, i, r);
      MoveOnWork(e, k, i, r);
      MoveOnUnwired(e, k, i, r);
      GoOn(k, i, r, next);
      ReachesSelf(e);
      ReachesStep(e, e, MovingOn(k, i, r), State());
    }

    method GoOn(k: nat, i: nat, r: Req, next: nat)
      requires Wired(State(), k, i, r) && r in reqs && next == NextServer(k, |servs|) < |servs|
      modifies this
      ensures State() == MoveOn(old(State()), k, i, r) && Untimed()
    {
      var s := servs[k];
      servs := servs[k := OffServer(s, i, DownFar(s.capacity))];
      servs := servs[next := servs[next].(toProcess := servs[next].toProcess + [r])];
      records := records - {reqs[r].id};
      reqs := reqs[r := MovedOn(reqs[r], next)];
      at := at[r := Waiting(next)];
    }

    method ExpireDrop(k: nat, i: nat, r: Req)
      requires Valid() && Wired(State(), k, i, r) && GivenUp(State(), k, r)
      modifies this
      ensures Moves() && Work(State()) < old(Work(State())) && Untimed()
      ensures Unwired(old(servs), servs, k, i)
      ensures State() == Leave(old(State()), k, i, r, DownFar(old(servs)[k].capacity), Dropped)
    {
      var capacity := DownFar(servs[k].capacity);
      TakeOff(k, i, r, capacity, Dropped);
    }

    /** A request leaves the wire for good */
    method TakeOff(k: nat, i: nat, r: Req, capacity: nat, fate: Fate)
      requires Valid() && Wired(State(), k, i, r) && r in reqs && CAPACITY_MIN <= capacity <= CAPACITY_MAX
      requires fate.Dropped? ==> GivenUp(State(), k, r)
      modifies this
      ensures Moves() && Work(State()) < old(Work(State())) && Untimed() && r !in reqs
      ensures Unwired(old(servs), servs, k, i) && State() == Leave(old(State()), k, i, r, capacity, fate)
      ensures Counted(r, fate)
    {
      ghost var e := State();
      LeaveWork(e, k, i, r, capacity, fate);
      Remove(k, i, r, capacity, fate);
      ReachesSelf(e);
      ReachesStep(e, e, Leaving(k, i, r, capacity, fate), State());
    }

    method Remove(k: nat, i: nat, r: Req, capacity: nat, fate: Fate)
      requires Wired(State(), k, i, r) && r in reqs
      modifies this
      ensures State() == Leave(old(State()), k, i, r, capacity, fate) && Untimed()
    {
      CountFate(r, fate);
      servs := servs[k := OffServer(servs[k], i, capacity)];
      total := total - 1;
      records := records - {reqs[r].id};
      reqs := reqs - {r};
      at := at - {r};
      sent := sent - {r};
    }

    method CountFate(r: Req, fate: Fate)
      modifies this
      ensures State() == old(State()).(ok := ok, nx := nx, dropped := dropped, deferred := deferred)
      ensures ok == (if fate.Resolved? then old(ok) + 1 else old(ok))
              && nx == if fate.NoName? then old(nx) + 1 else old(nx)
      ensures dropped == if fate.Dropped? then old(dropped) + 1 else old(dropped)
      ensures deferred == if fate.Deferred? then old(deferred) + [r] else old(deferred)
      ensures Untimed()
    {
      match fate {
        case Resolved => ok := ok + 1;
        case NoName => nx := nx + 1;
        case Dropped => dropped := dropped + 1;
        case Deferred => deferred := deferred + [r];
      }
    }

    /** `deal_with_timedout_reads`: afterwards no request on the wire is due, and the result is the
        time until the first becomes due, but at most 500; the servers of the requests that were due
        have slowed down */
    method DealWithTimedoutReads(now: int) returns (wait: int)
      requires Valid()
      modifies this
      ensures Moves() && Lowers() && Untimed() && 0 < wait <= 500 && WaitsFor(servs, deadline, now, wait)
      ensures SlowedAll(old(servs), servs, deadline, now)
      ensures old(AnyDue(servs, deadline, now)) ==> Work(State()) < old(Work(State()))
      ensures NoneDueBelow(servs, deadline, now + wait - 1, |servs|)
      ensures SweptAll(old(State()), State(), deadline, now)
    {
      ghost var e := State();
      ReachesSelf(e);
      SweptNone(e, deadline, now);
      wait := 500;
      var k := 0;
      while k < |servs|
        invariant Dealt(e, k, now, wait) && Untimed() && 0 < wait <= 500
      {
        wait := DealWithServer(k, now, wait, e);
        k := k + 1;
      }
      ReachesInv(e, State());
      DueSettled(servs, deadline, now, wait);
      SweptEnd(e, State(), deadline, now);
    }

    /** How long to wait if request `i` is not due yet */
    method Sooner(k: nat, i: nat, now: int, wait: int) returns (w: int)
      requires k < |servs| && i < |servs[k].inProcess| && !Due(servs[k].inProcess[i], deadline, now) && wait > 0
      requires NoneDue(servs[k].inProcess, deadline, now + wait - 1, i)
      requires NoneDueBelow(servs, deadline, now + wait - 1, k)
      requires WaitsFor(servs, deadline, now, wait)
      ensures 0 < w <= wait && NoneDue(servs[k].inProcess, deadline, now + w - 1, i + 1)
      ensures NoneDueBelow(servs, deadline, now + w - 1, k) && WaitsFor(servs, deadline, now, w)
    {
      var r := servs[k].inProcess[i];
      assert NextDeadline(servs, k, r, deadline, now, deadline[r] - now);
      w := if deadline[r] - now < wait then deadline[r] - now else wait;
      NoneDueSooner(servs, deadline, now + wait - 1, now + w - 1, k, i);
    }

    /** What holds when the first `k` servers have been dealt with. */
    ghost predicate Dealt(e: Engine, k: nat, now: int, wait: int)
      reads this
    {
      && k <= |servs| == |e.servs| && Valid() && Sweeps(e, State(), deadline, now)
      && NoneDueBelow(servs, deadline, now + wait - 1, k)
      && WaitsFor(servs, deadline, now, wait) && SlowedBelow(e.servs, servs, deadline, now, k)
    }

    /** What holds while server `k` is being dealt with: its first `i` requests are not due. */
    ghost predicate Dealing(e: Engine, k: nat, i: nat, now: int, wait: int)
      reads this
    {
      && k < |servs| == |e.servs| && Valid() && Sweeps(e, State(), deadline, now)
      && i <= |servs[k].inProcess| && NoneDue(servs[k].inProcess, deadline, now + wait - 1, i)
      && NoneDueBelow(servs, deadline, now + wait - 1, k)
      && WaitsFor(servs, deadline, now, wait) && Slowing(e.servs, servs, deadline, now, k)
    }

    /** A timeout in the course of a run from `e` */
    method ExpireFrom(ghost e: Engine, k: nat, i: nat, ghost now: int, ghost wait: int)
      requires Dealing(e, k, i, now, wait) && wait > 0
      requires i < |servs[k].inProcess| && Due(servs[k].inProcess[i], deadline, now)
      modifies this
      ensures Dealing(e, k, i, now, wait) && Untimed() && |servs[k].inProcess| == |old(servs)[k].inProcess| - 1
    {
      ghost var e1, r := State(), servs[k].inProcess[i];
      assert ServerOk(servs[k], at, k);
      Expire(k, i);
      ReachesTrans(e, e1, State());
      SweptNext(e, e1, State(), k, i, r, deadline, now);
      WaitKept(e1.servs, servs, deadline, now, wait, k, i);
      SlowingMore(e.servs, e1.servs, servs, deadline, now, k, i, IsAt(at, r, Waiting(k)));
      UnwiredNoneDue(e1.servs, servs, deadline, now + wait - 1, k, i);
    }

    method DealWithServer(k: nat, now: int, sofar: int, ghost e: Engine) returns (wait: int)
      requires k < |servs| && Dealt(e, k, now, sofar) && 0 < sofar <= 500
      modifies this
      ensures Dealt(e, k + 1, now, wait) && Untimed() && 0 < wait <= sofar
    {
      wait := sofar;
      var i := 0;
      while i < |servs[k].inProcess|
        invariant k < |servs| && Dealing(e, k, i, now, wait) && Untimed() && 0 < wait <= sofar
        decreases |servs[k].inProcess| - i
      {
        if Due(servs[k].inProcess[i], deadline, now) {
          ExpireFrom(e, k, i, now, wait);
        } else {
          wait := Sooner(k, i, now, wait);
          i := i + 1;
        }
      }
      NoneDueMore(servs, deadline, now + wait - 1, k);
      SlowingEnd(e.servs, servs, deadline, now, k, wait);
    }

    /** `close_dns_servers`, which clears the lists of the servers: they are empty already */
    method CloseServers()
      requires Valid() && total == 0
      modifies this
      ensures State() == old(State()) && Untimed()
    {
      AllDone(State());
      var k := 0;
      while k < |servs|
        invariant k <= |servs| && State() == old(State()) && Untimed()
      {
        servs := servs[k := servs[k].(toProcess := [], inProcess := [])];
        k := k + 1;
      }
    }

    /** The request of the record has left for good, with this fate, and its server may have two more
        requests on the wire. */
    twostate predicate Settled(id: nat, fate: Fate)
      reads this
    {
      && id in old(records) && old(records)[id].req !in reqs && Counted(old(records)[id].req, fate)
      && SpedUp(old(servs), servs, old(records)[id].server)
    }

    /** `process_result` when the answer settles the request: a name, no such name, or an answer
        that the system resolver has to complete */
    method SettleResult(id: nat, hasName: bool, matches: bool, fate: Fate, now: int) returns (hit: bool)
      requires Valid() && !fate.Dropped?
      modifies this
      ensures Moves() && Later(now) && hit == (id in old(records) && (hasName ==> matches))
      ensures !hit ==> State() == old(State())
      ensures hit ==> Work(State()) < old(Work(State())) && Settled(id, fate)
      ensures hit && total > 0 ==> exists k: nat :: k < |servs| && servs[k].onWire > 0
    {
      ReachesSelf(State());
      hit := id in records && (hasName ==> matches);
      if hit { Settle(id, fate, now); }
    }

    method Settle(id: nat, fate: Fate, now: int)
      requires Valid() && id in records && !fate.Dropped?
      modifies this
      ensures Moves() && Later(now) && Work(State()) < old(Work(State())) && Settled(id, fate)
      ensures total > 0 ==> exists k: nat :: k < |servs| && servs[k].onWire > 0
    {
      ghost var e := State();
      var rec := records[id];
      var r, k := rec.req, rec.server;
      RecordIndex(e, id);
      var i := IndexOf(servs[k].inProcess, r);
      TakeOff(k, i, r, Up(servs[k].capacity), fate);
      ghost var e1 := State();
      assert SpedUp(e.servs, servs, k);
      DoPossibleWrites(now);
      ReachesTrans(e, e1, State());
      ReachesInv(e1, State());
      ReachesKeys(e1, State());
      if total == 0 { CloseServers(); }
    }

    /** `process_result` when the server failed: the request counts as timed out now */
    method ServerFailed(id: nat, now: int) returns (hit: bool)
      requires Valid()
      modifies this
      ensures Moves() && hit == (id in old(records))
      ensures !hit ==> State() == old(State())
      ensures hit ==> Work(State()) < old(Work(State()))
      ensures hit ==> TimedOutBetween(old(State()), State(), old(records)[id].req)
      ensures hit ==> SlowedAll(old(servs), servs, old(deadline)[old(records)[id].req := now], now)
      ensures hit && total > 0 ==> exists k: nat :: k < |servs| && servs[k].onWire > 0
    {
      ghost var e := State();
      ReachesSelf(e);
      if id !in records { return false; }
      TimeOut(id, now);
      ghost var e1 := State();
      DoPossibleWrites(now);
      SlowedThen(e.servs, e1.servs, servs, old(deadline)[e.records[id].req := now], now);
      assert TimedOutAt(e, e1, State(), e.records[id].req);
      ReachesTrans(e, e1, State());
      ReachesInv(e1, State());
      if total == 0 { CloseServers(); }
      hit := true;
    }

    /** The request of the record is due now, and times out */
    method TimeOut(id: nat, now: int)
      requires Valid() && id in records
      modifies this
      ensures Valid() && Reaches(old(State()), State()) && Work(State()) < old(Work(State())) && |servs| == |old(servs)|
      ensures TimeoutOf(old(State()), State(), old(records)[id].req)
      ensures SlowedAll(old(servs), servs, old(deadline)[old(records)[id].req := now], now)
    {
      ghost var e := State();
      var r := records[id].req;
      RecordIndex(e, id);
      DatedSet(deadline, horizon, r, now);
      deadline := deadline[r := now];
      horizon := LaterOf(horizon, now);
      var wait := DealWithTimedoutReads(now);
      RecordTimedOut(e, State(), id, deadline, now);
      StillWired(e, State(), id, deadline, now, wait);
      ReachesInv(e, State());
    }

    /** One round of the main loop, before it waits for events */
    method Round(now: int) returns (wait: int, ghost swept: Engine)
      requires Valid()
      modifies this
      ensures Moves() && Lowers() && Later(now) && 0 < wait <= 500 && SlowedAll(old(servs), servs, old(deadline), now)
      ensures SweptAll(old(State()), swept, old(deadline), now) && Reaches(swept, State())
      ensures WaitsFor(swept.servs, old(deadline), now, wait)
      ensures NoneDueBelow(swept.servs, old(deadline), now + wait - 1, |swept.servs|)
      ensures old(AnyDue(servs, deadline, now)) ==> Work(State()) < old(Work(State()))
      ensures total > 0 ==> exists k: nat :: k < |servs| && servs[k].onWire > 0
      ensures State() == old(State()) && (exists k: nat :: k < |servs| && servs[k].inProcess != []) ==> horizon > now
    {
      ghost var e := State();
      wait := DealWithTimedoutReads(now);
      DueSettled(servs, deadline, now, wait);
      Horizon(servs, deadline, horizon, now);
      swept := State();
      DoPossibleWrites(now);
      SlowedThen(old(servs), swept.servs, servs, old(deadline), now);
      ReachesTrans(e, swept, State());
    }

    /** `read_evt_handler`: a reply to a request on the wire settles it, delays it, or has no
        effect, and anything else has no effect */
    method ReadEvent(reply: Reply, id: nat, now: int)
      requires Valid()
      modifies this
      ensures Moves()
      ensures id in old(records) && Meaning(reply).Some? ==> Settled(id, Meaning(reply).value)
      ensures id in old(records) && reply.ServerFailure? ==>
                && Work(State()) < old(Work(State())) && TimedOutBetween(old(State()), State(), old(records)[id].req)
                && SlowedAll(old(servs), servs, old(deadline)[old(records)[id].req := now], now)
      ensures id !in old(records) || (Meaning(reply) == None && !reply.ServerFailure?) ==> State() == old(State())
    {
      ReachesSelf(State());
      match reply {
        case Unusable =>
        case NameError => var _ := SettleResult(id, false, false, NoName, now);
        case ServerFailure => var _ := ServerFailed(id, now);
        case Answers(ptrs, fallback) =>
          var done := ReadAnswers(ptrs, id, now);
          if !done && fallback { var _ := SettleResult(id, false, false, Deferred, now); }
      }
    }

    /** The answers in turn, until one settles the request */
    method ReadAnswers(ptrs: seq<Ptr>, id: nat, now: int) returns (done: bool)
      requires Valid()
      modifies this
      ensures Moves() && done == (id in old(records) && SomeFits(ptrs))
      ensures if done then Settled(id, Resolved) else State() == old(State())
    {
      ghost var e := State();
      ReachesSelf(e);
      done := false;
      var i := 0;
      while i < |ptrs| && !done
        invariant i <= |ptrs| && (!done ==> State() == e && Moves())
        invariant done ==> Moves() && SomeFits(ptrs) && Settled(id, Resolved)
        invariant !done && id in e.records ==> forall j: nat | j < i :: !Fits(ptrs[j])
      {
        done := SettleResult(id, ptrs[i].hasName, ptrs[i].matches, Resolved, now);
        assert done ==> Fits(ptrs[i]);
        i := i + 1;
      }
    }

    /** The handler of one event; a write that is not under way is not reported */
    method Handle(event: Event)
      requires Valid()
      modifies this
      ensures Moves() && Lowers()
    {
      ghost var e := State();
      ReachesSelf(e);
      match event {
        case Wrote(k, time) => if k < |servs| && servs[k].busy.Some? { WriteEvent(k, time); }
        case Received(reply, id, time) => ReadEvent(reply, id, time);
      }
      ReachesInv(e, State());
    }

    method HandleAll(events: seq<Event>)
      requires Valid()
      modifies this
      ensures Moves() && Lowers()
    {
      ghost var e := State();
      ReachesSelf(e);
      var i := 0;
      while i < |events|
        invariant i <= |events| && Moves() && Lowers()
      {
        ghost var e1 := State();
        Handle(events[i]);
        ReachesTrans(e, e1, State());
        i := i + 1;
      }
    }

    /** Every write that is under way ends */
    method EndWrites(now: int)
      requires Valid()
      modifies this
      ensures Moves() && Lowers()
      ensures (exists k: nat :: k < |servs| && old(servs)[k].busy.Some?) ==> Work(State()) < old(Work(State()))
    {
      ghost var e := State();
      ReachesSelf(e);
      var k := 0;
      while k < |servs|
        invariant k <= |servs| && Moves() && Lowers()
        invariant (exists j: nat :: j < k && e.servs[j].busy.Some?) ==> Work(State()) < Work(e)
      {
        ghost var e1 := State();
        if servs[k].busy.Some? {
          WriteEvent(k, now);
          ReachesTrans(e, e1, State());
        }
        k := k + 1;
      }
    }

    /** One turn of the main loop: timeouts, writes, and whatever is reported while it waits */
    method Turn(now: int, events: seq<Event>)
      requires Valid()
      modifies this
      ensures Moves() && Lowers()
      ensures State() == old(State()) && total > 0 ==> horizon > now
    {
      ghost var e := State();
      ReachesSelf(e);
      var wait, _ := Round(now);
      ghost var e1 := State();
      if total > 0 {
        HandleAll(events);
        ReachesTrans(e, e1, State());
        ghost var e2 := State();
        EndWrites(now);
        ReachesTrans(e, e2, State());
        ReachesInv(e, e1);
        if State() == e { InFlight(e); }
      }
    }

    /** The main loop: when the clock passes every time for good (it may stand still for a while, or be
        set back) and every write that is under way ends, the loop ends, whatever else happens and
        if no server ever answers; then every request was resolved, has no name, was dropped or
        was deferred */
    method Resolve(clock: nat -> int, events: nat -> seq<Event>)
      requires Valid() && GoesOn(clock)
      modifies this
      ensures Moves() && total == 0 && actual == ok + nx + dropped + |deferred|
    {
      ghost var e := State();
      ReachesSelf(e);
      var i := 0;
      assert Passes(clock, horizon);
      ghost var last: nat :| PastFrom(clock, last, horizon);
      while total > 0
        invariant Moves() && PastFrom(clock, last, horizon)
        decreases Work(State()), if i <= last then last - i + 1 else 0
      {
        ghost var e1, h := State(), horizon;
        Turn(clock(i), events(i));
        ReachesTrans(e, e1, State());
        if horizon != h {
          assert Passes(clock, horizon);
          last :| PastFrom(clock, last, horizon);
        }
        i := i + 1;
      }
      CloseServers();
    }
  }

  /** From the `n`-th reading on, the clock is past the time `t`. */
  ghost predicate PastFrom(clock: nat -> int, n: nat, t: int) {
    forall i: nat | i >= n :: clock(i) > t
  }

  ghost predicate Passes(clock: nat -> int, t: int) {
    exists n: nat :: PastFrom(clock, n, t)
  }

  /** The clock passes every time for good. */
  ghost predicate GoesOn(clock: nat -> int) {
    forall t: int :: Passes(clock, t)
  }

  /** What nsock reports: a write has ended, or a packet has come. */
  datatype Event = Wrote(k: nat, time: int) | Received(reply: Reply, id: nat, time: int)

  /** What a packet amounts to: nothing usable, an error of one of two kinds, or pointer records,
      which may have a name and may be about the right address; without a match, a truncated
      packet or an alias is left to the system resolver. */
  datatype Reply = Unusable | NameError | ServerFailure | Answers(ptrs: seq<Ptr>, fallback: bool)

  datatype Ptr = Ptr(hasName: bool, matches: bool)

  /** The record is about the address that was asked for, as far as can be told. */
  predicate Fits(p: Ptr) {
    p.hasName ==> p.matches
  }

  predicate SomeFits(ptrs: seq<Ptr>) {
    exists j: nat :: j < |ptrs| && Fits(ptrs[j])
  }

  /** What a reply makes of its request, if it settles it at all. */
  function Meaning(reply: Reply): Option<Fate> {
    match reply
    case NameError => Some(NoName)
    case Answers(ptrs, fallback) =>
      if SomeFits(ptrs) then Some(Resolved) else if fallback then Some(Deferred) else None
    case _ => None
  }

  /** The request of a record was on the wire and is due, so dealing with timeouts has changed
      the state. */
  lemma StillWired(e: Engine, e1: Engine, id: nat, deadline: map<Req, int>, now: int, wait: int)
    requires Inv(e) && id in e.records && |e1.servs| == |e.servs|
    requires Due(e.records[id].req, deadline, now) && wait > 0
    requires NoneDueBelow(e1.servs, deadline, now + wait - 1, |e1.servs|)
    ensures e1 != e
  {
    RecordIndex(e, id);
    var rec := e.records[id];
    var list := e1.servs[rec.server].inProcess;
    assert NoneDue(list, deadline, now + wait - 1, |list|);
    assert forall i: nat | i < |list| :: !Due(list[i], deadline, now + wait - 1);
    assert rec.req !in list;
  }

  /** The move that a timeout amounts to. */
  ghost predicate TimedOut(e: Engine, k: nat, i: nat, r: Req, e': Engine) {
    && Wired(e, k, i, r) && r in e.reqs && r in e.sent
    && if e.sent[r] == MostSent(|e.servs|) then
         e' == Leave(e, k, i, r, DownFar(e.servs[k].capacity), Dropped)
       else if e.reqs[r].tries < PerServer(|e.servs|) then e' == Retry(e, k, i, r)
       else NextServer(k, |e.servs|) < |e.servs| && e' == MoveOn(e, k, i, r)
  }

  // ---------- what happens to the capacities ----------

  lemma SendReaches(e: Engine, k: nat, r: Req, id: nat)
    requires Inv(e) && CanSend(e, k, r)
    ensures r in e.reqs && r in e.sent
    ensures var e' := Send(e, k, r, id);
            Inv(e') && Reaches(e, e') && Work(e') < Work(e) && SamePace(e.servs, e'.servs)
  {
    SendWork(e, k, r, id);
    ReachesSelf(e);
    ReachesStep(e, e, Sending(k, r, id), Send(e, k, r, id));
  }

  /** Every server has the capacity that it had. */
  predicate SamePace(servs: seq<Server>, servs': seq<Server>) {
    |servs'| == |servs| && forall j: nat | j < |servs| :: servs'[j].capacity == servs[j].capacity
  }

  lemma SamePaceBoth(servs: seq<Server>, servs1: seq<Server>, servs2: seq<Server>)
    requires SamePace(servs, servs1) && SamePace(servs1, servs2)
    ensures SamePace(servs, servs2)
  {
    assert forall j: nat | j < |servs| :: servs1[j].capacity == servs[j].capacity;
  }

  /** An answer of server `k` has raised its capacity by 2, but not above 200, and no other. */
  predicate SpedUp(servs: seq<Server>, servs': seq<Server>, k: nat) {
    && k < |servs| == |servs'|
    && servs'[k].capacity == (if servs[k].capacity + 2 > 200 then 200 else servs[k].capacity + 2)
    && forall j: nat | j < |servs| && j != k :: servs'[j].capacity == servs[j].capacity
  }

  /** A timeout of server `k` has lowered its capacity, and no other. */
  predicate SlowedOnly(servs: seq<Server>, servs': seq<Server>, k: nat, stays: bool) {
    && k < |servs| == |servs'| && Slowed(servs[k].capacity, servs'[k].capacity, stays)
    && forall j: nat | j < |servs| && j != k :: servs'[j].capacity == servs[j].capacity
  }

  lemma TimedOutSlows(e: Engine, k: nat, i: nat, r: Req, e': Engine)
    requires Inv(e) && TimedOut(e, k, i, r, e')
    ensures SlowedOnly(e.servs, e'.servs, k, IsAt(e'.at, r, Waiting(k)))
  {
    WiredPlace(e, k, i, r);
    GivenUpMeans(e, k, i, r);
    DownSlows(e.servs[k].capacity);
    if e.sent[r] != MostSent(|e.servs|) && e.reqs[r].tries >= PerServer(|e.servs|) { MoveOnMoves(e, k, i, r); }
  }

  /** Some request on the wire of the server was due. */
  predicate HadDue(s: Server, deadline: map<Req, int>, now: int) {
    exists r | r in s.inProcess :: Due(r, deadline, now)
  }

  /** The capacity has fallen, unless it was as low as can be. */
  predicate Fell(s: Server, s': Server) {
    s'.capacity < s.capacity || s'.capacity == 10 == s.capacity
  }

  predicate ServerSlowed(s: Server, s': Server, deadline: map<Req, int>, now: int) {
    if HadDue(s, deadline, now) then Fell(s, s') else s'.capacity == s.capacity
  }

  /** Exactly the servers have slowed down that had a request on the wire that was due. */
  ghost predicate SlowedAll(servs: seq<Server>, servs': seq<Server>, deadline: map<Req, int>, now: int) {
    |servs'| == |servs| && forall j: nat | j < |servs| :: ServerSlowed(servs[j], servs'[j], deadline, now)
  }

  lemma SlowedThen(servs: seq<Server>, servs1: seq<Server>, servs2: seq<Server>, deadline: map<Req, int>, now: int)
    requires SlowedAll(servs, servs1, deadline, now) && SamePace(servs1, servs2)
    ensures SlowedAll(servs, servs2, deadline, now)
  {
    forall j: nat | j < |servs| ensures ServerSlowed(servs[j], servs2[j], deadline, now) {
      assert ServerSlowed(servs[j], servs1[j], deadline, now);
      assert servs2[j].capacity == servs1[j].capacity;
    }
  }

  predicate SameServer(s: Server, s': Server) {
    s'.capacity == s.capacity && s'.inProcess == s.inProcess
  }

  /** The first `n` servers have been dealt with. */
  ghost predicate SlowedBelow(servs: seq<Server>, servs': seq<Server>, deadline: map<Req, int>, now: int, n: nat) {
    && n <= |servs| == |servs'| && (forall j: nat | j < n :: ServerSlowed(servs[j], servs'[j], deadline, now))
    && forall j: nat | n <= j < |servs| :: SameServer(servs[j], servs'[j])
  }

  /** Server `k` is being dealt with. */
  ghost predicate Slowing(servs: seq<Server>, servs': seq<Server>, deadline: map<Req, int>, now: int, k: nat) {
    && k < |servs| == |servs'| && (forall j: nat | j < k :: ServerSlowed(servs[j], servs'[j], deadline, now))
    && (forall j: nat | k < j < |servs| :: SameServer(servs[j], servs'[j]))
    && (forall r | r in servs'[k].inProcess :: r in servs[k].inProcess)
    && (SameServer(servs[k], servs'[k]) || (HadDue(servs[k], deadline, now) && Fell(servs[k], servs'[k])))
  }

  lemma DropIn(s: seq<Req>, i: nat, r: Req)
    requires i < |s|
    ensures r in Drop(s, i) ==> r in s
    ensures r in s && r != s[i] ==> r in Drop(s, i)
  {
    var t := Drop(s, i);
    if k: nat :| k < |t| && t[k] == r { DropAt(s, i, k); }
    if r in s && r != s[i] {
      var k: nat :| k < |s| && s[k] == r;
      DropAt(s, i, if k < i then k else k - 1);
    }
  }

  lemma SlowingMore(servs: seq<Server>, servs1: seq<Server>, servs2: seq<Server>, deadline: map<Req, int>, now: int,
                    k: nat, i: nat, stays: bool)
    requires Slowing(servs, servs1, deadline, now, k) && Unwired(servs1, servs2, k, i)
    requires SlowedOnly(servs1, servs2, k, stays) && Due(servs1[k].inProcess[i], deadline, now)
    requires 10 <= servs1[k].capacity <= 200
    ensures Slowing(servs, servs2, deadline, now, k)
  {
    var r := servs1[k].inProcess[i];
    assert r in servs1[k].inProcess;
    SlowedFalls(servs1[k].capacity, servs2[k].capacity, stays);
    forall x | x in servs2[k].inProcess ensures x in servs[k].inProcess { DropIn(servs1[k].inProcess, i, x); }
    forall j: nat | j < k ensures ServerSlowed(servs[j], servs2[j], deadline, now) {
      assert ServerSlowed(servs[j], servs1[j], deadline, now);
    }
    forall j: nat | k < j < |servs| ensures SameServer(servs[j], servs2[j]) { assert SameServer(servs[j], servs1[j]); }
  }

  lemma SlowingEnd(servs: seq<Server>, servs': seq<Server>, deadline: map<Req, int>, now: int, k: nat, wait: int)
    requires Slowing(servs, servs', deadline, now, k) && wait > 0
    requires NoneDueBelow(servs', deadline, now + wait - 1, k + 1)
    ensures SlowedBelow(servs, servs', deadline, now, k + 1)
  {
    var list := servs'[k].inProcess;
    assert NoneDue(list, deadline, now + wait - 1, |list|);
    assert forall i: nat | i < |list| :: !Due(list[i], deadline, now + wait - 1);
    assert SameServer(servs[k], servs'[k]) ==> !HadDue(servs[k], deadline, now);
  }

  // ---------- how long to wait ----------

  /** The request is on the wire of server `k`, and its deadline comes after this time. */
  predicate NextDeadline(servs: seq<Server>, k: nat, r: Req, deadline: map<Req, int>, now: int, wait: int) {
    k < |servs| && r in servs[k].inProcess && r in deadline && deadline[r] == now + wait
  }

  /** The time ends with a deadline, unless it is as long as can be. */
  ghost predicate WaitsFor(servs: seq<Server>, deadline: map<Req, int>, now: int, wait: int) {
    wait == 500 || exists k: nat, r: Req :: NextDeadline(servs, k, r, deadline, now, wait)
  }

  lemma WaitKept(servs: seq<Server>, servs': seq<Server>, deadline: map<Req, int>, now: int, wait: int, k: nat, i: nat)
    requires Unwired(servs, servs', k, i) && Due(servs[k].inProcess[i], deadline, now) && wait > 0
    requires WaitsFor(servs, deadline, now, wait)
    ensures WaitsFor(servs', deadline, now, wait)
  {
    if wait != 500 {
      var j: nat, r: Req :| NextDeadline(servs, j, r, deadline, now, wait);
      if j == k { DropIn(servs[k].inProcess, i, r); }
      assert NextDeadline(servs', j, r, deadline, now, wait);
    }
  }

  // ---------- what timeouts do to each request ----------

  /** Nothing has happened to the request. */
  predicate Unmoved(e: Engine, e': Engine, r: Req) {
    && r in e.at && r in e.reqs && r in e.sent && r in e'.at && r in e'.reqs && r in e'.sent
    && e'.at[r] == e.at[r] && e'.reqs[r] == e.reqs[r] && e'.sent[r] == e.sent[r]
  }

  /** The request was on the wire and has timed out: after its last transmission it is gone, else it
      waits for the same server while it has tries there, or for the next one. */
  predicate TimeoutOf(e: Engine, e': Engine, r: Req) {
    && r in e.at && r in e.reqs && r in e.sent && e.at[r].OnWire?
    && var k, n := e.at[r].server, |e.servs|;
       if e.sent[r] == MostSent(n) then r !in e'.at && r !in e'.reqs
       else
         && r in e'.at && r in e'.reqs && r in e'.sent && e'.sent[r] == e.sent[r]
         && if e.reqs[r].tries < PerServer(n) then e'.at[r] == Waiting(k) && e'.reqs[r] == e.reqs[r]
            else
              var next := NextServer(k, n);
              e'.at[r] == Waiting(next) && e'.reqs[r] == MovedOn(e.reqs[r], next)
  }

  predicate SweptOne(e: Engine, e': Engine, r: Req, deadline: map<Req, int>, now: int) {
    Unmoved(e, e', r) || (Due(r, deadline, now) && TimeoutOf(e, e', r))
  }

  /** Some requests that were due have timed out, and nothing else has happened. */
  ghost predicate Swept(e: Engine, e': Engine, deadline: map<Req, int>, now: int) {
    |e'.servs| == |e.servs| && e'.at.Keys <= e.at.Keys && forall r | r in e.at :: SweptOne(e, e', r, deadline, now)
  }

  /** All requests on the wire that were due have timed out, and nothing else has happened. */
  ghost predicate SweptAll(e: Engine, e': Engine, deadline: map<Req, int>, now: int) {
    forall r | r in e.at ::
      if e.at[r].OnWire? && Due(r, deadline, now) then TimeoutOf(e, e', r) else Unmoved(e, e', r)
  }

  ghost predicate Sweeps(e: Engine, e': Engine, deadline: map<Req, int>, now: int) {
    Reaches(e, e') && Swept(e, e', deadline, now)
  }

  /** In the course of a run, the request has timed out. */
  ghost predicate TimedOutBetween(e: Engine, e': Engine, r: Req) {
    exists mid: Engine :: TimedOutAt(e, mid, e', r)
  }

  ghost predicate TimedOutAt(e: Engine, mid: Engine, e': Engine, r: Req) {
    Reaches(e, mid) && TimeoutOf(e, mid, r) && Reaches(mid, e')
  }

  lemma SweptNone(e: Engine, deadline: map<Req, int>, now: int)
    requires Inv(e)
    ensures Swept(e, e, deadline, now)
  {
    forall r | r in e.at ensures SweptOne(e, e, r, deadline, now) { assert LiveOk(e, r); }
  }

  lemma SweptNext(e: Engine, e1: Engine, e2: Engine, k: nat, i: nat, r: Req, deadline: map<Req, int>, now: int)
    requires Inv(e1) && Swept(e, e1, deadline, now) && TimedOut(e1, k, i, r, e2) && Due(r, deadline, now)
    ensures Swept(e, e2, deadline, now)
  {
    TimedOutOwn(e1, k, i, r, e2);
    forall x | x in e.at ensures SweptOne(e, e2, x, deadline, now) {
      assert SweptOne(e, e1, x, deadline, now);
      if x != r { TimedOutOther(e1, k, i, r, e2, x); }
    }
  }

  lemma TimedOutOwn(e: Engine, k: nat, i: nat, r: Req, e': Engine)
    requires Inv(e) && TimedOut(e, k, i, r, e')
    ensures TimeoutOf(e, e', r) && |e'.servs| == |e.servs| && e'.at.Keys <= e.at.Keys
  {
    WiredPlace(e, k, i, r);
  }

  lemma TimedOutOther(e: Engine, k: nat, i: nat, r: Req, e': Engine, x: Req)
    requires TimedOut(e, k, i, r, e') && x != r
    ensures (x in e'.at <==> x in e.at) && (x in e'.reqs <==> x in e.reqs) && (x in e'.sent <==> x in e.sent)
    ensures x in e.at && x in e.reqs && x in e.sent ==> Unmoved(e, e', x)
  {}

  lemma SweptEnd(e: Engine, e': Engine, deadline: map<Req, int>, now: int)
    requires Inv(e') && Swept(e, e', deadline, now) && !AnyDue(e'.servs, deadline, now)
    ensures SweptAll(e, e', deadline, now)
  {
    forall r | r in e.at
      ensures if e.at[r].OnWire? && Due(r, deadline, now) then TimeoutOf(e, e', r) else Unmoved(e, e', r)
    {
      assert SweptOne(e, e', r, deadline, now);
      if Unmoved(e, e', r) && e.at[r].OnWire? { StillDue(e', r, e.at[r].server, deadline, now); }
    }
  }

  /** The request of a record is on the wire; when it is due, it times out. */
  lemma RecordTimedOut(e: Engine, e': Engine, id: nat, deadline: map<Req, int>, now: int)
    requires Inv(e) && id in e.records && SweptAll(e, e', deadline, now) && Due(e.records[id].req, deadline, now)
    ensures TimeoutOf(e, e', e.records[id].req)
  {
    assert RecordOk(e, id);
  }

  lemma StillDue(e: Engine, r: Req, k: nat, deadline: map<Req, int>, now: int)
    requires Inv(e) && IsAt(e.at, r, OnWire(k)) && !AnyDue(e.servs, deadline, now)
    ensures !Due(r, deadline, now)
  {
    assert LiveOk(e, r);
    assert ServerOk(e.servs[k], e.at, k);
    assert r in e.servs[k].inProcess;
    var i: nat :| i < |e.servs[k].inProcess| && e.servs[k].inProcess[i] == r;
  }

  /** The first `n` servers are quiet. */
  ghost predicate QuietBelow(e: Engine, n: nat) {
    n <= |e.servs| && forall k: nat | k < n :: Quiet(e, k)
  }

  lemma QuietMore(e: Engine, e': Engine, n: nat)
    requires QuietBelow(e, n) && n < |e.servs| == |e'.servs| && Quiet(e', n) && (e.newReqs == [] ==> e'.newReqs == [])
    requires forall j: nat | j < |e.servs| && j != n :: e'.servs[j] == e.servs[j]
    ensures QuietBelow(e', n + 1)
  {
    assert forall j: nat | j < n :: Quiet(e, j) ==> Quiet(e', j);
  }

  /** No deadline lies after `t`. */
  predicate Dated(deadline: map<Req, int>, t: int) {
    forall r | r in deadline :: deadline[r] <= t
  }

  /** Deadlines that were set lie after `now`. */
  predicate SetLater(d: map<Req, int>, d': map<Req, int>, now: int) {
    forall r | r in d' :: (r in d && d'[r] == d[r]) || d'[r] > now
  }

  lemma SetLaterBoth(d: map<Req, int>, d1: map<Req, int>, d2: map<Req, int>, now: int)
    requires SetLater(d, d1, now) && SetLater(d1, d2, now)
    ensures SetLater(d, d2, now)
  {}

  function LaterOf(a: int, b: int): int {
    if a < b then b else a
  }

  lemma DatedSet(deadline: map<Req, int>, t: int, r: Req, at: int)
    requires Dated(deadline, t)
    ensures Dated(deadline[r := at], LaterOf(t, at))
  {}

  predicate Due(r: Req, deadline: map<Req, int>, now: int) {
    r !in deadline || deadline[r] <= now
  }

  /** None of the first `n` requests is due at the time `t`. */
  predicate NoneDue(s: seq<Req>, deadline: map<Req, int>, t: int, n: nat)
    requires n <= |s|
  {
    forall i: nat | i < n :: !Due(s[i], deadline, t)
  }

  /** Some request on a wire is due at the time `t`. */
  ghost predicate AnyDue(servs: seq<Server>, deadline: map<Req, int>, t: int) {
    exists k: nat, i: nat :: k < |servs| && i < |servs[k].inProcess| && Due(servs[k].inProcess[i], deadline, t)
  }

  /** Without a write under way, a busy wire has a request that waits for its answer. */
  lemma InFlight(e: Engine)
    requires Inv(e) && (exists k: nat :: k < |e.servs| && e.servs[k].onWire > 0)
    requires forall k: nat | k < |e.servs| :: e.servs[k].busy == None
    ensures exists k: nat :: k < |e.servs| && e.servs[k].inProcess != []
  {
    var k: nat :| k < |e.servs| && e.servs[k].onWire > 0;
    assert ServerOk(e.servs[k], e.at, k);
  }

  /** A request that waits for its answer and is not due has a deadline to come. */
  lemma Horizon(servs: seq<Server>, deadline: map<Req, int>, horizon: int, now: int)
    requires Dated(deadline, horizon) && !AnyDue(servs, deadline, now)
    ensures (exists k: nat :: k < |servs| && servs[k].inProcess != []) ==> horizon > now
  {
    if k: nat :| k < |servs| && servs[k].inProcess != [] {
      assert !Due(servs[k].inProcess[0], deadline, now);
    }
  }

  lemma DueSettled(servs: seq<Server>, deadline: map<Req, int>, now: int, wait: int)
    requires wait > 0
    requires NoneDueBelow(servs, deadline, now + wait - 1, |servs|)
    ensures !AnyDue(servs, deadline, now)
  {
    forall k: nat, i: nat | k < |servs| && i < |servs[k].inProcess| ensures !Due(servs[k].inProcess[i], deadline, now) {
      assert NoneDue(servs[k].inProcess, deadline, now + wait - 1, |servs[k].inProcess|);
    }
  }

  /** None of the requests on the wires of the first `n` servers is due. */
  predicate NoneDueBelow(servs: seq<Server>, deadline: map<Req, int>, t: int, n: nat) {
    n <= |servs| && forall k: nat | k < n :: NoneDue(servs[k].inProcess, deadline, t, |servs[k].inProcess|)
  }

  lemma NoneDueMore(servs: seq<Server>, deadline: map<Req, int>, t: int, n: nat)
    requires n < |servs| && NoneDueBelow(servs, deadline, t, n)
    requires NoneDue(servs[n].inProcess, deadline, t, |servs[n].inProcess|)
    ensures NoneDueBelow(servs, deadline, t, n + 1)
  {}

  lemma UnwiredNoneDue(servs: seq<Server>, servs': seq<Server>, deadline: map<Req, int>, t: int, k: nat, i: nat)
    requires Unwired(servs, servs', k, i) && NoneDueBelow(servs, deadline, t, k)
    requires NoneDue(servs[k].inProcess, deadline, t, i)
    ensures i <= |servs'[k].inProcess| && NoneDue(servs'[k].inProcess, deadline, t, i)
    ensures NoneDueBelow(servs', deadline, t, k)
  {
    DropNoneDue(servs[k].inProcess, deadline, t, i);
    forall j: nat | j < k ensures NoneDue(servs'[j].inProcess, deadline, t, |servs'[j].inProcess|) {
      assert NoneDue(servs[j].inProcess, deadline, t, |servs[j].inProcess|);
    }
  }

  /** What is not due at some time is not due earlier; one more request is not due. */
  lemma NoneDueSooner(servs: seq<Server>, deadline: map<Req, int>, t: int, u: int, k: nat, i: nat)
    requires u <= t && k < |servs| && i < |servs[k].inProcess|
    requires NoneDueBelow(servs, deadline, t, k) && NoneDue(servs[k].inProcess, deadline, t, i)
    requires !Due(servs[k].inProcess[i], deadline, u)
    ensures NoneDueBelow(servs, deadline, u, k) && NoneDue(servs[k].inProcess, deadline, u, i + 1)
  {
    forall j: nat | j < k ensures NoneDue(servs[j].inProcess, deadline, u, |servs[j].inProcess|) {
      assert NoneDue(servs[j].inProcess, deadline, t, |servs[j].inProcess|);
    }
  }

  lemma DropNoneDue(s: seq<Req>, deadline: map<Req, int>, t: int, i: nat)
    requires i < |s| && NoneDue(s, deadline, t, i)
    ensures NoneDue(Drop(s, i), deadline, t, i)
  {}

  method IndexOf(s: seq<Req>, r: Req) returns (i: nat)
    requires r in s
    ensures i < |s| && s[i] == r
  {
    i := 0;
    while s[i] != r
      invariant i < |s| && forall j: nat | j < i :: s[j] != r
      decreases |s| - i
    {
      i := i + 1;
    }
  }

  /** A record leads to a request on the wire of its server. */
  lemma RecordIndex(e: Engine, id: nat)
    requires Inv(e) && id in e.records
    ensures var rec := e.records[id];
            rec.server < |e.servs| && rec.req in e.servs[rec.server].inProcess && rec.req in e.reqs
  {
    var rec := e.records[id];
    assert RecordOk(e, id);
    assert LiveOk(e, rec.req);
    assert ServerOk(e.servs[rec.server], e.at, rec.server);
    assert IsAt(e.at, rec.req, OnWire(rec.server));
  }

  lemma MoveOnUnwired(e: Engine, k: nat, i: nat, r: Req)
    requires Wired(e, k, i, r) && r in e.reqs && NextServer(k, |e.servs|) < |e.servs| && NextServer(k, |e.servs|) != k
    ensures Unwired(e.servs, MoveOn(e, k, i, r).servs, k, i)
  {}

  /** The `i`-th request has gone off the wire of server `k`; no other wire has changed. */
  ghost predicate Unwired(servs: seq<Server>, servs': seq<Server>, k: nat, i: nat) {
    && k < |servs| == |servs'| && i < |servs[k].inProcess| && servs'[k].inProcess == Drop(servs[k].inProcess, i)
    && forall j: nat | j < |servs| && j != k :: servs'[j].inProcess == servs[j].inProcess
  }
}
