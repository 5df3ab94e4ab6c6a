/** The moves of a request through the reverse-DNS engine, one at a time, and that each keeps the
    invariant. */
module DnsSteps {
  import opened Wrappers
  import opened DnsCapacity
  import opened DnsState

  /** The place is not at server `k`. */
  predicate Elsewhere(p: Place, k: nat) {
    p.Fresh? || p.server != k
  }

  lemma BusySame(b: Option<Req>, at: map<Req, Place>, r: Req, q: Place, k: nat)
    requires BusyOk(b, at, k) && !IsAt(at, r, Writing(k)) && q != Writing(k)
    ensures BusyOk(b, at[r := q], k)
  {
    forall x: Req ensures b == Some(x)
        <==> IsAt(at[r := q], x, Writing(k)) { assert b == Some(x) <==> IsAt(at, x, Writing(k)); }
  }

  lemma BusyGone(b: Option<Req>, at: map<Req, Place>, r: Req, k: nat)
    requires BusyOk(b, at, k) && !IsAt(at, r, Writing(k))
    ensures BusyOk(b, at - {r}, k)
  {
    forall x: Req ensures b == Some(x)
        <==> IsAt(at - {r}, x, Writing(k)) { assert b == Some(x) <==> IsAt(at, x, Writing(k)); }
  }

  /** A server does not notice what happens elsewhere. */
  lemma ServerSame(s: Server, at: map<Req, Place>, r: Req, q: Place, k: nat)
    requires ServerOk(s, at, k) && (r in at ==> Elsewhere(at[r], k)) && Elsewhere(q, k)
    ensures ServerOk(s, at[r := q], k)
  {
    ListSame(s.toProcess, at, r, q, Waiting(k));
    ListSame(s.inProcess, at, r, q, OnWire(k));
    BusySame(s.busy, at, r, q, k);
  }

  lemma ServerGone(s: Server, at: map<Req, Place>, r: Req, k: nat)
    requires ServerOk(s, at, k) && (r in at ==> Elsewhere(at[r], k))
    ensures ServerOk(s, at - {r}, k)
  {
    ListGone(s.toProcess, at, r, Waiting(k));
    ListGone(s.inProcess, at, r, OnWire(k));
    BusyGone(s.busy, at, r, k);
  }

  // ---------- a request moves ----------

  /** Server `j` is not concerned, or is all right in the new state. */
  ghost predicate ServerKept(e: Engine, e': Engine, r: Req, j: nat) {
    && j < |e.servs| == |e'.servs|
    && (|| ServerOk(e'.servs[j], e'.at, j)
        || (e'.servs[j] == e.servs[j] && r in e.at && Elsewhere(e.at[r], j) && (r in e'.at ==> Elsewhere(e'.at[r], j))))
  }

  /** The state after request `r` has moved to `q`: nothing changes for other requests. */
  ghost predicate Moved(e: Engine, e': Engine, r: Req, q: Place, req: Request, sent: nat) {
    && r in e.at && |e'.servs| == |e.servs|
    && e'.at == e.at[r := q] && e'.reqs == e.reqs[r := req] && e'.sent == e.sent[r := sent]
    && (forall j: nat | j < |e.servs| :: ServerKept(e, e', r, j))
    && ListOk(e'.newReqs, e'.at, Fresh) && RequestOk(req, q, sent, |e.servs|)
    && e'.total == e.total && e'.deferred == e.deferred && e'.actual == e.actual
    && e'.ok == e.ok && e'.nx == e.nx && e'.dropped == e.dropped
  }

  lemma MovedServers(e: Engine, e': Engine, r: Req, q: Place, req: Request, sent: nat)
    requires Inv(e) && Moved(e, e', r, q, req, sent)
    ensures ServersOk(e')
  {
    forall j: nat | j < |e'.servs| ensures ServerOk(e'.servs[j], e'.at, j) {
      assert ServerKept(e, e', r, j);
      if !ServerOk(e'.servs[j], e'.at, j) {
        assert ServerOk(e.servs[j], e.at, j);
        ServerSame(e.servs[j], e.at, r, q, j);
      }
    }
  }

  lemma MovedLives(e: Engine, e': Engine, r: Req, q: Place, req: Request, sent: nat)
    requires Inv(e) && Moved(e, e', r, q, req, sent)
    ensures LivesOk(e') && CountsOk(e')
  {
    assert r in e.reqs.Keys && r in e.sent.Keys;
    forall x | x in e'.at ensures LiveOk(e', x) { assert LiveOk(e, x); }
    assert e'.at.Keys == e.at.Keys;
    assert |e'.at| == |e'.at.Keys| && |e.at| == |e.at.Keys|;
  }

  lemma MovedInv(e: Engine, e': Engine, r: Req, q: Place, req: Request, sent: nat)
    requires Inv(e) && Moved(e, e', r, q, req, sent) && RecordsOk(e')
    ensures Inv(e')
  {
    MovedServers(e, e', r, q, req, sent);
    MovedLives(e, e', r, q, req, sent);
  }

  /** Records about other requests stay right. */
  lemma RecordStays(e: Engine, e': Engine, r: Req, q: Place, req: Request, sent: nat, id: nat)
    requires Inv(e) && Moved(e, e', r, q, req, sent)
    requires id in e.records && id in e'.records && e'.records[id] == e.records[id] && e.records[id].req != r
    ensures RecordOk(e', id)
  {
    assert RecordOk(e, id);
  }

  // ---------- transmitting ----------

  /** Server `k` takes request `r` next. */
  ghost predicate CanSend(e: Engine, k: nat, r: Req) {
    && k < |e.servs| && e.servs[k].busy == None && e.servs[k].onWire < e.servs[k].capacity
    && if e.servs[k].toProcess != [] then r == e.servs[k].toProcess[0]
       else e.newReqs != [] && r == e.newReqs[0]
  }

  function SentServer(s: Server, r: Req): Server {
    s.(busy := Some(r), onWire := s.onWire + 1,
       toProcess := if s.toProcess == [] then [] else s.toProcess[1..])
  }

  function SentRequest(q: Request, isNew: bool, k: nat, id: nat): Request {
    q.(first := if isNew then k else q.first, curr := k, id := id, tries := q.tries + 1)
  }

  /** `do_possible_writes` for one server, and `put_dns_packet_on_wire` */
  function Send(e: Engine, k: nat, r: Req, id: nat): Engine
    requires k < |e.servs| && r in e.reqs && r in e.sent
  {
    var isNew := e.servs[k].toProcess == [];
    e.(servs := e.servs[k := SentServer(e.servs[k], r)],
       newReqs := if isNew && e.newReqs != [] then e.newReqs[1..] else e.newReqs,
       reqs := e.reqs[r := SentRequest(e.reqs[r], isNew, k, id)],
       at := e.at[r := Writing(k)],
       sent := e.sent[r := e.sent[r] + 1])
  }

  /** `put_dns_packet_on_wire` for a request that server `k` has taken. */
  function Put(e: Engine, k: nat, r: Req, isNew: bool, id: nat): Engine
    requires k < |e.servs| && r in e.reqs && r in e.sent
  {
    e.(servs := e.servs[k := e.servs[k].(busy := Some(r), onWire := e.servs[k].onWire + 1)],
       reqs := e.reqs[r := SentRequest(e.reqs[r], isNew, k, id)],
       at := e.at[r := Writing(k)],
       sent := e.sent[r := e.sent[r] + 1])
  }

  lemma PutSends(e: Engine, k: nat, r: Req, id: nat)
    requires k < |e.servs| && r in e.reqs && r in e.sent
    ensures e.servs[k].toProcess != [] ==>
              Put(e.(servs := e.servs[k := e.servs[k].(toProcess := e.servs[k].toProcess[1..])]), k, r, false, id)
              == Send(e, k, r, id)
    ensures e.servs[k].toProcess == [] && e.newReqs != [] ==>
              Put(e.(newReqs := e.newReqs[1..]), k, r, true, id) == Send(e, k, r, id)
  {}

  lemma SendPlace(e: Engine, k: nat, r: Req)
    requires Inv(e) && CanSend(e, k, r)
    ensures r in e.at && r in e.reqs && r in e.sent && LiveOk(e, r)
    ensures e.at[r] == if e.servs[k].toProcess != [] then Waiting(k) else Fresh
  {
    assert ServerOk(e.servs[k], e.at, k);
    if e.servs[k].toProcess != [] {
      assert r in e.servs[k].toProcess;
      assert IsAt(e.at, r, Waiting(k));
    } else {
      assert r in e.newReqs;
      assert IsAt(e.at, r, Fresh);
    }
    assert LiveOk(e, r);
  }

  lemma DropFirst(s: seq<Req>)
    requires s != []
    ensures Drop(s, 0) == s[1..]
  {}

  lemma SendServer(e: Engine, k: nat, r: Req)
    requires Inv(e) && CanSend(e, k, r)
    ensures ServerOk(SentServer(e.servs[k], r), e.at[r := Writing(k)], k)
  {
    SendPlace(e, k, r);
    var s, at' := e.servs[k], e.at[r := Writing(k)];
    assert ServerOk(s, e.at, k);
    if s.toProcess != [] {
      ListDrop(s.toProcess, e.at, 0, Writing(k), Waiting(k));
      DropFirst(s.toProcess);
    } else {
      ListSame(s.toProcess, e.at, r, Writing(k), Waiting(k));
    }
    ListSame(s.inProcess, e.at, r, Writing(k), OnWire(k));
    forall x: Req ensures Some(r) == Some(x) <==> IsAt(at', x, Writing(k)) {
      assert None == Some(x) <==> IsAt(e.at, x, Writing(k));
    }
  }

  lemma SendFresh(e: Engine, k: nat, r: Req)
    requires Inv(e) && CanSend(e, k, r)
    ensures r in e.reqs && r in e.sent && ListOk(Send(e, k, r, 0).newReqs, e.at[r := Writing(k)], Fresh)
  {
    SendPlace(e, k, r);
    if e.servs[k].toProcess == [] {
      ListDrop(e.newReqs, e.at, 0, Writing(k), Fresh);
      DropFirst(e.newReqs);
    } else {
      ListSame(e.newReqs, e.at, r, Writing(k), Fresh);
    }
  }

  lemma SendRequest(q: Request, isNew: bool, k: nat, sent: nat, n: nat, id: nat)
    requires k < n && RequestOk(q, if isNew then Fresh else Waiting(k), sent, n)
    ensures RequestOk(SentRequest(q, isNew, k, id), Writing(k), sent + 1, n)
  {}

  lemma SendMoves(e: Engine, k: nat, r: Req, id: nat)
    requires Inv(e) && CanSend(e, k, r)
    ensures r in e.reqs && r in e.sent
    ensures var e' := Send(e, k, r, id); Moved(e, e', r, Writing(k), e'.reqs[r], e.sent[r] + 1)
  {
    SendPlace(e, k, r);
    SendServer(e, k, r);
    SendFresh(e, k, r);
    SendRequest(e.reqs[r], e.servs[k].toProcess == [], k, e.sent[r], |e.servs|, id);
    var e' := Send(e, k, r, id);
    forall j: nat | j < |e.servs| ensures ServerKept(e, e', r, j) {}
  }

  lemma SendInv(e: Engine, k: nat, r: Req, id: nat)
    requires Inv(e) && CanSend(e, k, r)
    ensures r in e.reqs && r in e.sent && Inv(Send(e, k, r, id))
  {
    SendPlace(e, k, r);
    SendMoves(e, k, r, id);
    var e' := Send(e, k, r, id);
    var req, sent := e'.reqs[r], e.sent[r] + 1;
    forall i | i in e'.records ensures RecordOk(e', i) {
      assert RecordOk(e, i);
      RecordStays(e, e', r, Writing(k), req, sent, i);
    }
    MovedInv(e, e', r, Writing(k), req, sent);
  }

  // ---------- written ----------

  function WrittenServer(s: Server, r: Req): Server {
    s.(busy := None, inProcess := [r] + s.inProcess)
  }

  /** `write_evt_handler`, before it goes on to write more */
  function Written(e: Engine, k: nat, r: Req): Engine
    requires k < |e.servs| && r in e.reqs
  {
    e.(servs := e.servs[k := WrittenServer(e.servs[k], r)],
       records := e.records[e.reqs[r].id := Record(k, r)],
       at := e.at[r := OnWire(k)])
  }

  lemma WrittenMoves(e: Engine, k: nat, r: Req)
    requires Inv(e) && k < |e.servs| && e.servs[k].busy == Some(r)
    ensures r in e.reqs && r in e.sent && e.at[r] == Writing(k) && LiveOk(e, r)
    ensures Moved(e, Written(e, k, r), r, OnWire(k), e.reqs[r], e.sent[r])
  {
    var s := e.servs[k];
    assert ServerOk(s, e.at, k);
    assert IsAt(e.at, r, Writing(k));
    assert LiveOk(e, r);
    var e' := Written(e, k, r);
    ListSame(e.newReqs, e.at, r, OnWire(k), Fresh);
    ListSame(s.toProcess, e.at, r, OnWire(k), Waiting(k));
    ListPushFront(s.inProcess, e.at, r, OnWire(k));
    forall x: Req ensures None == Some(x) <==> IsAt(e'.at, x, Writing(k)) {
      assert s.busy == Some(x) <==> IsAt(e.at, x, Writing(k));
    }
    assert ServerOk(e'.servs[k], e'.at, k);
    forall j: nat | j < |e.servs| ensures ServerKept(e, e', r, j) {}
    assert e'.reqs == e.reqs[r := e.reqs[r]] && e'.sent == e.sent[r := e.sent[r]];
  }

  lemma WrittenInv(e: Engine, k: nat, r: Req)
    requires Inv(e) && k < |e.servs| && e.servs[k].busy == Some(r)
    ensures r in e.reqs && Inv(Written(e, k, r))
  {
    WrittenMoves(e, k, r);
    var e' := Written(e, k, r);
    forall i | i in e'.records ensures RecordOk(e', i) {
      if i != e.reqs[r].id {
        assert RecordOk(e, i);
        RecordStays(e, e', r, OnWire(k), e.reqs[r], e.sent[r], i);
      }
    }
    MovedInv(e, e', r, OnWire(k), e.reqs[r], e.sent[r]);
  }

  // ---------- off the wire ----------

  /** The server after its request at `i` has gone off the wire. */
  function OffServer(s: Server, i: nat, capacity: nat): Server
    requires i < |s.inProcess|
  {
    s.(inProcess := Drop(s.inProcess, i), onWire := s.onWire - 1, capacity := capacity)
  }

  /** Request `r` is the `i`-th on the wire of server `k`. */
  ghost predicate Wired(e: Engine, k: nat, i: nat, r: Req) {
    k < |e.servs| && i < |e.servs[k].inProcess| && e.servs[k].inProcess[i] == r
  }

  lemma WiredPlace(e: Engine, k: nat, i: nat, r: Req)
    requires Inv(e) && Wired(e, k, i, r)
    ensures IsAt(e.at, r, OnWire(k)) && r in e.reqs && r in e.sent && LiveOk(e, r)
    ensures ServerOk(e.servs[k], e.at, k)
  {
    assert ServerOk(e.servs[k], e.at, k);
    assert r in e.servs[k].inProcess;
    assert IsAt(e.at, r, OnWire(k));
    assert LiveOk(e, r);
  }

  /** The server is all right when the request waits somewhere else, */
  lemma OffElsewhere(s: Server, at: map<Req, Place>, k: nat, i: nat, q: Place, capacity: nat)
    requires ServerOk(s, at, k) && i < |s.inProcess| && Elsewhere(q, k) && CAPACITY_MIN <= capacity <= CAPACITY_MAX
    ensures ServerOk(OffServer(s, i, capacity), at[s.inProcess[i] := q], k)
  {
    var r := s.inProcess[i];
    assert r in s.inProcess;
    assert IsAt(at, r, OnWire(k));
    ListSame(s.toProcess, at, r, q, Waiting(k));
    ListDrop(s.inProcess, at, i, q, OnWire(k));
    BusySame(s.busy, at, r, q, k);
  }

  /** or for the server again, */
  lemma OffBack(s: Server, at: map<Req, Place>, k: nat, i: nat, capacity: nat)
    requires ServerOk(s, at, k) && i < |s.inProcess| && CAPACITY_MIN <= capacity <= CAPACITY_MAX
    ensures var r := s.inProcess[i];
            ServerOk(OffServer(s, i, capacity).(toProcess := s.toProcess + [r]), at[r := Waiting(k)], k)
  {
    var r := s.inProcess[i];
    assert r in s.inProcess;
    assert IsAt(at, r, OnWire(k));
    ListPush(s.toProcess, at, r, Waiting(k));
    ListDrop(s.inProcess, at, i, Waiting(k), OnWire(k));
    BusySame(s.busy, at, r, Waiting(k), k);
  }

  /** or is no longer live. */
  lemma OffGone(s: Server, at: map<Req, Place>, k: nat, i: nat, capacity: nat)
    requires ServerOk(s, at, k) && i < |s.inProcess| && CAPACITY_MIN <= capacity <= CAPACITY_MAX
    ensures ServerOk(OffServer(s, i, capacity), at - {s.inProcess[i]}, k)
  {
    var r := s.inProcess[i];
    assert r in s.inProcess;
    assert IsAt(at, r, OnWire(k));
    ListGone(s.toProcess, at, r, Waiting(k));
    ListDropGone(s.inProcess, at, i, OnWire(k));
    BusyGone(s.busy, at, r, k);
  }

  /** Without the record of its identifier, no record is about the request. */
  lemma NoRecord(e: Engine, r: Req, id: nat)
    requires Inv(e) && r in e.reqs && id in e.records && id != e.reqs[r].id
    ensures e.records[id].req != r
  {
    assert RecordOk(e, id);
  }

  // ---------- timeouts ----------

  /** The next server in turn. */
  function NextServer(k: nat, n: nat): nat {
    if k + 1 == n then 0 else k + 1
  }

  /** Another try at the same server. */
  function Retry(e: Engine, k: nat, i: nat, r: Req): Engine
    requires Wired(e, k, i, r) && r in e.reqs
  {
    var s := e.servs[k];
    e.(servs := e.servs[k := OffServer(s, i, Down(s.capacity)).(toProcess := s.toProcess + [r])],
       records := e.records - {e.reqs[r].id},
       at := e.at[r := Waiting(k)])
  }

  lemma RetryMoves(e: Engine, k: nat, i: nat, r: Req)
    requires Inv(e) && Wired(e, k, i, r) && r in e.reqs && e.reqs[r].tries < PerServer(|e.servs|)
    ensures IsAt(e.at, r, OnWire(k)) && r in e.sent && Moved(e, Retry(e, k, i, r), r, Waiting(k), e.reqs[r], e.sent[r])
  {
    WiredPlace(e, k, i, r);
    var s, e' := e.servs[k], Retry(e, k, i, r);
    OffBack(s, e.at, k, i, Down(s.capacity));
    ListSame(e.newReqs, e.at, r, Waiting(k), Fresh);
    forall j: nat | j < |e.servs| ensures ServerKept(e, e', r, j) {}
    assert e'.reqs == e.reqs[r := e.reqs[r]] && e'.sent == e.sent[r := e.sent[r]];
  }

  lemma RetryInv(e: Engine, k: nat, i: nat, r: Req)
    requires Inv(e) && Wired(e, k, i, r) && r in e.reqs && e.reqs[r].tries < PerServer(|e.servs|)
    ensures Inv(Retry(e, k, i, r))
  {
    RetryMoves(e, k, i, r);
    var e' := Retry(e, k, i, r);
    forall id | id in e'.records ensures RecordOk(e', id) {
      NoRecord(e, r, id);
      RecordStays(e, e', r, Waiting(k), e.reqs[r], e.sent[r], id);
    }
    MovedInv(e, e', r, Waiting(k), e.reqs[r], e.sent[r]);
  }

  function MovedOn(q: Request, next: nat): Request {
    q.(curr := next, tries := 0, tried := q.tried + 1)
  }

  /** The first try at the next server. */
  function MoveOn(e: Engine, k: nat, i: nat, r: Req): Engine
    requires Wired(e, k, i, r) && r in e.reqs && NextServer(k, |e.servs|) < |e.servs|
  {
    var s, next := e.servs[k], NextServer(k, |e.servs|);
    var servs := e.servs[k := OffServer(s, i, DownFar(s.capacity))];
    e.(servs := servs[next := servs[next].(toProcess := servs[next].toProcess + [r])],
       reqs := e.reqs[r := MovedOn(e.reqs[r], next)],
       records := e.records - {e.reqs[r].id},
       at := e.at[r := Waiting(next)])
  }

  /** The request has tried all servers that it may try. */
  predicate Exhausted(q: Request, k: nat, n: nat) {
    NextServer(k, n) == q.first || q.tried + 1 == SERVERS_TO_TRY
  }

  /** That is, it has used up its servers. */
  lemma ExhaustedMeans(q: Request, k: nat, sent: nat, n: nat)
    requires OnTour(q, k, sent, n)
    ensures Exhausted(q, k, n) <==> q.tried + 1 == ServersTried(n)
  {}

  lemma MoveOnRequest(q: Request, k: nat, sent: nat, n: nat)
    requires RequestOk(q, OnWire(k), sent, n) && q.tries == PerServer(n) && !Exhausted(q, k, n)
    ensures NextServer(k, n) < n && NextServer(k, n) != k
    ensures RequestOk(MovedOn(q, NextServer(k, n)), Waiting(NextServer(k, n)), sent, n)
  {
    ExhaustedMeans(q, k, sent, n);
  }

  /** The request moves on to the next server. */
  ghost predicate MovesOn(e: Engine, k: nat, i: nat, r: Req) {
    && Wired(e, k, i, r) && r in e.reqs
    && e.reqs[r].tries == PerServer(|e.servs|) && !Exhausted(e.reqs[r], k, |e.servs|)
  }

  lemma MoveOnMoves(e: Engine, k: nat, i: nat, r: Req)
    requires Inv(e) && MovesOn(e, k, i, r)
    ensures NextServer(k, |e.servs|) < |e.servs| && NextServer(k, |e.servs|) != k && IsAt(e.at, r, OnWire(k))
            && r in e.sent
    ensures var next := NextServer(k, |e.servs|);
            Moved(e, MoveOn(e, k, i, r), r, Waiting(next), MovedOn(e.reqs[r], next), e.sent[r])
  {
    WiredPlace(e, k, i, r);
    MoveOnRequest(e.reqs[r], k, e.sent[r], |e.servs|);
    var s, next := e.servs[k], NextServer(k, |e.servs|);
    var e' := MoveOn(e, k, i, r);
    OffElsewhere(s, e.at, k, i, Waiting(next), DownFar(s.capacity));
    MoveOnNext(e.servs[next], e.at, r, k, next);
    ListSame(e.newReqs, e.at, r, Waiting(next), Fresh);
    assert ServerOk(e.servs[next], e.at, next);
    forall j: nat | j < |e.servs| ensures ServerKept(e, e', r, j) {}
    assert e'.sent == e.sent[r := e.sent[r]];
  }

  lemma MoveOnInv(e: Engine, k: nat, i: nat, r: Req)
    requires Inv(e) && MovesOn(e, k, i, r)
    ensures NextServer(k, |e.servs|) < |e.servs| && Inv(MoveOn(e, k, i, r))
  {
    MoveOnMoves(e, k, i, r);
    var next := NextServer(k, |e.servs|);
    var e', req := MoveOn(e, k, i, r), MovedOn(e.reqs[r], next);
    forall id | id in e'.records ensures RecordOk(e', id) {
      NoRecord(e, r, id);
      RecordStays(e, e', r, Waiting(next), req, e.sent[r], id);
    }
    MovedInv(e, e', r, Waiting(next), req, e.sent[r]);
  }

  lemma MoveOnNext(s: Server, at: map<Req, Place>, r: Req, k: nat, next: nat)
    requires IsAt(at, r, OnWire(k)) && next != k
    ensures ServerOk(s, at, next) ==> ServerOk(s.(toProcess := s.toProcess + [r]), at[r := Waiting(next)], next)
  {
    if ServerOk(s, at, next) {
      ListPush(s.toProcess, at, r, Waiting(next));
      ListSame(s.inProcess, at, r, Waiting(next), OnWire(next));
      BusySame(s.busy, at, r, Waiting(next), next);
    }
  }

  // ---------- a request is gone ----------

  /** The state after request `r` has left: nothing changes for other requests. */
  ghost predicate Left(e: Engine, e': Engine, r: Req) {
    && r in e.at && |e'.servs| == |e.servs|
    && e'.at == e.at - {r} && e'.reqs == e.reqs - {r} && e'.sent == e.sent - {r}
    && (forall j: nat | j < |e.servs| :: ServerKept(e, e', r, j))
    && e'.newReqs == e.newReqs && !e.at[r].Fresh? && e'.total == e.total - 1 && e'.actual == e.actual
    && e'.ok + e'.nx + e'.dropped + |e'.deferred| == e.ok + e.nx + e.dropped + |e.deferred| + 1
  }

  lemma LeftInv(e: Engine, e': Engine, r: Req)
    requires Inv(e) && Left(e, e', r)
    requires forall id | id in e'.records ::
               id in e.records && e'.records[id] == e.records[id] && e.records[id].req != r
    ensures Inv(e')
  {
    forall j: nat | j < |e'.servs| ensures ServerOk(e'.servs[j], e'.at, j) {
      assert ServerKept(e, e', r, j);
      if !ServerOk(e'.servs[j], e'.at, j) {
        assert ServerOk(e.servs[j], e.at, j);
        ServerGone(e.servs[j], e.at, r, j);
      }
    }
    ListGone(e.newReqs, e.at, r, Fresh);
    LeftLives(e, e', r);
    forall id | id in e'.records ensures RecordOk(e', id) { assert RecordOk(e, id); }
  }

  lemma LeftLives(e: Engine, e': Engine, r: Req)
    requires Inv(e) && Left(e, e', r)
    ensures LivesOk(e') && CountsOk(e')
  {
    assert r in e.reqs.Keys && r in e.sent.Keys;
    forall x | x in e'.at ensures LiveOk(e', x) { assert LiveOk(e, x); }
    assert e'.at.Keys == e.at.Keys - {r};
    assert |e'.at| == |e'.at.Keys| && |e.at| == |e.at.Keys|;
  }

  datatype Fate = Resolved | NoName | Dropped | Deferred

  /** Request `r` leaves the wire of server `k` for good. */
  function Leave(e: Engine, k: nat, i: nat, r: Req, capacity: nat, fate: Fate): Engine
    requires Wired(e, k, i, r) && r in e.reqs
  {
    e.(servs := e.servs[k := OffServer(e.servs[k], i, capacity)],
       reqs := e.reqs - {r}, at := e.at - {r}, sent := e.sent - {r},
       records := e.records - {e.reqs[r].id},
       total := e.total - 1,
       ok := if fate.Resolved? then e.ok + 1 else e.ok,
       nx := if fate.NoName? then e.nx + 1 else e.nx,
       dropped := if fate.Dropped? then e.dropped + 1 else e.dropped,
       deferred := if fate.Deferred? then e.deferred + [r] else e.deferred)
  }

  lemma LeaveLeft(e: Engine, k: nat, i: nat, r: Req, capacity: nat, fate: Fate)
    requires Inv(e) && Wired(e, k, i, r) && r in e.reqs && CAPACITY_MIN <= capacity <= CAPACITY_MAX
    ensures Left(e, Leave(e, k, i, r, capacity, fate), r)
  {
    WiredPlace(e, k, i, r);
    var e' := Leave(e, k, i, r, capacity, fate);
    OffGone(e.servs[k], e.at, k, i, capacity);
    forall j: nat | j < |e.servs| ensures ServerKept(e, e', r, j) {}
  }

  lemma LeaveInv(e: Engine, k: nat, i: nat, r: Req, capacity: nat, fate: Fate)
    requires Inv(e) && Wired(e, k, i, r) && r in e.reqs && CAPACITY_MIN <= capacity <= CAPACITY_MAX
    ensures Inv(Leave(e, k, i, r, capacity, fate))
  {
    LeaveLeft(e, k, i, r, capacity, fate);
    var e' := Leave(e, k, i, r, capacity, fate);
    forall id | id in e'.records ensures e.records[id].req != r { NoRecord(e, r, id); }
    LeftInv(e, e', r);
  }
}
