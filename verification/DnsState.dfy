/**
 The state of the parallel reverse-DNS engine (nmap/nmap_dns.cc) and what holds between any two
 of its handlers, for every interleaving of events.

 A request is known by a number.  `at` and `sent` are history variables: where each live
 request is, and how often it has been transmitted.
 */
module DnsState {
  import opened Wrappers
  import opened DnsCapacity

  const SERVERS_TO_TRY: int := 3

  type Req = nat

  /** Where a live request is: new, waiting for a server, being written, or on the wire. */
  datatype Place = Fresh | Waiting(server: nat) | Writing(server: nat) | OnWire(server: nat)

  datatype Request = Request(tries: nat, tried: nat, first: nat, curr: nat, id: nat)

  datatype Server = Server(onWire: int, capacity: nat, busy: Option<Req>, toProcess: seq<Req>, inProcess: seq<Req>)

  datatype Record = Record(server: nat, req: Req)

  datatype Engine = Engine(
    servs: seq<Server>,
    newReqs: seq<Req>,
    reqs: map<Req, Request>,
    records: map<nat, Record>,
    deferred: seq<Req>,
    total: int,
    actual: int, ok: int, nx: int, dropped: int,
    at: map<Req, Place>,
    sent: map<Req, nat>)

  // ---------- timeouts ----------

  /** The table `read_timeouts`; the last entry of a row is -1. */
  function ReadTimeout(row: nat, tries: nat): int {
    match (row, tries)
    case (0, 0) => 4000
    case (0, 1) => 4000
    case (0, 2) => 5000
    case (1, 0) => 2500
    case (1, 1) => 4000
    case (2, 0) => 2500
    case (2, 1) => 3000
    case _ => -1
  }

  /** The row for a number of servers. */
  function TimeoutRow(servers: nat): nat
    requires servers > 0
  {
    if servers < 3 then servers - 1 else 2
  }

  /** How often a request is sent to one server before it moves on, */
  function PerServer(servers: nat): nat {
    if servers == 1 then 3 else 2
  }

  /** and how many servers it tries. */
  function ServersTried(servers: nat): nat {
    if servers < SERVERS_TO_TRY then servers else SERVERS_TO_TRY
  }

  /** The timeouts for one server, for two, and for more. */
  lemma Timeouts(servers: nat, tries: nat)
    requires servers > 0
    ensures var row := [[4000, 4000, 5000], [2500, 4000], [2500, 3000]][if servers < 3 then servers - 1 else 2];
            ReadTimeout(TimeoutRow(servers), tries) == if tries < |row| then row[tries] else -1
  {}

  /** The sentinel -1 stands exactly where a request has used up its tries on a server. */
  lemma TableEnds(servers: nat, tries: nat)
    requires servers > 0
    ensures tries < PerServer(servers) <==> ReadTimeout(TimeoutRow(servers), tries) != -1
    ensures tries < PerServer(servers) ==> ReadTimeout(TimeoutRow(servers), tries) > 0
  {}

  // ---------- lists ----------

  predicate NoDup(s: seq<Req>) {
    forall i: nat, j: nat | i < j < |s| :: s[i] != s[j]
  }

  /** The list holds exactly the requests that are at `p`, each once. */
  ghost predicate ListOk(s: seq<Req>, at: map<Req, Place>, p: Place) {
    NoDup(s) && forall r: Req :: r in s <==> IsAt(at, r, p)
  }

  predicate IsAt(at: map<Req, Place>, r: Req, p: Place) {
    r in at && at[r] == p
  }

  /** The list without the entry at `i`. */
  function Drop(s: seq<Req>, i: nat): (t: seq<Req>)
    requires i < |s|
    ensures |t| == |s| - 1
  {
    s[..i] + s[i + 1..]
  }

  /** Where an entry was before. */
  function Was(k: nat, i: nat): nat {
    if k < i then k else k + 1
  }

  lemma DropAt(s: seq<Req>, i: nat, k: nat)
    requires i < |s| && k < |s| - 1
    ensures Drop(s, i)[k] == s[Was(k, i)]
  {}

  lemma DropNoDup(s: seq<Req>, i: nat)
    requires i < |s| && NoDup(s)
    ensures NoDup(Drop(s, i))
  {
    var t := Drop(s, i);
    forall a: nat, b: nat | a < b < |t| ensures t[a] != t[b] {
      DropAt(s, i, a);
      DropAt(s, i, b);
    }
  }

  lemma DropOne(s: seq<Req>, i: nat, r: Req)
    requires i < |s| && NoDup(s)
    ensures r in Drop(s, i) <==> r in s && r != s[i]
  {
    var t := Drop(s, i);
    if k: nat :| k < |t| && t[k] == r { DropAt(s, i, k); }
    if r in s && r != s[i] {
      var k: nat :| k < |s| && s[k] == r;
      DropAt(s, i, if k < i then k else k - 1);
    }
  }

  lemma DropMembers(s: seq<Req>, i: nat)
    requires i < |s| && NoDup(s)
    ensures NoDup(Drop(s, i)) && forall r: Req :: r in Drop(s, i) <==> r in s && r != s[i]
  {
    DropNoDup(s, i);
    forall r: Req ensures r in Drop(s, i) <==> r in s && r != s[i] { DropOne(s, i, r); }
  }

  /** Another request moved: the list is as before. */
  lemma ListSame(s: seq<Req>, at: map<Req, Place>, r: Req, q: Place, p: Place)
    requires ListOk(s, at, p) && !IsAt(at, r, p) && q != p
    ensures ListOk(s, at[r := q], p)
  {
    forall x: Req ensures x in s <==> IsAt(at[r := q], x, p) { assert x in s <==> IsAt(at, x, p); }
  }

  /** A request left the list. */
  lemma ListDrop(s: seq<Req>, at: map<Req, Place>, i: nat, q: Place, p: Place)
    requires i < |s| && ListOk(s, at, p) && q != p
    ensures ListOk(Drop(s, i), at[s[i] := q], p)
  {
    DropMembers(s, i);
    forall x: Req ensures x in Drop(s, i) <==> IsAt(at[s[i] := q], x, p) { assert x in s <==> IsAt(at, x, p); }
  }

  /** A request came to the end of the list, */
  lemma ListPush(s: seq<Req>, at: map<Req, Place>, r: Req, p: Place)
    requires ListOk(s, at, p) && !IsAt(at, r, p)
    ensures ListOk(s + [r], at[r := p], p)
  {
    assert r in s <==> IsAt(at, r, p);
    forall x: Req ensures x in s + [r] <==> IsAt(at[r := p], x, p) { assert x in s <==> IsAt(at, x, p); }
  }

  /** or to its front. */
  lemma ListPushFront(s: seq<Req>, at: map<Req, Place>, r: Req, p: Place)
    requires ListOk(s, at, p) && !IsAt(at, r, p)
    ensures ListOk([r] + s, at[r := p], p)
  {
    assert r in s <==> IsAt(at, r, p);
    forall x: Req ensures x in [r] + s <==> IsAt(at[r := p], x, p) { assert x in s <==> IsAt(at, x, p); }
  }

  /** A request that is elsewhere is no longer live. */
  lemma ListGone(s: seq<Req>, at: map<Req, Place>, r: Req, p: Place)
    requires ListOk(s, at, p) && !IsAt(at, r, p)
    ensures ListOk(s, at - {r}, p)
  {
    forall x: Req ensures x in s <==> IsAt(at - {r}, x, p) { assert x in s <==> IsAt(at, x, p); }
  }

  /** A request of the list is no longer live. */
  lemma ListDropGone(s: seq<Req>, at: map<Req, Place>, i: nat, p: Place)
    requires i < |s| && ListOk(s, at, p)
    ensures ListOk(Drop(s, i), at - {s[i]}, p)
  {
    DropMembers(s, i);
    forall x: Req ensures x in Drop(s, i) <==> IsAt(at - {s[i]}, x, p) { assert x in s <==> IsAt(at, x, p); }
  }

  // ---------- the invariant ----------

  function Busy(b: Option<Req>): int {
    if b.Some? then 1 else 0
  }

  /** The request being written to server `k`, if any. */
  ghost predicate BusyOk(b: Option<Req>, at: map<Req, Place>, k: nat) {
    forall r: Req :: b == Some(r) <==> IsAt(at, r, Writing(k))
  }

  ghost predicate ServerOk(s: Server, at: map<Req, Place>, k: nat) {
    && ListOk(s.toProcess, at, Waiting(k)) && ListOk(s.inProcess, at, OnWire(k)) && BusyOk(s.busy, at, k)
    && s.onWire == |s.inProcess| + Busy(s.busy) && s.onWire <= CAPACITY_MAX
    && CAPACITY_MIN <= s.capacity <= CAPACITY_MAX
  }

  /** The bookkeeping of a live request agrees with its place and with its transmissions. */
  predicate RequestOk(q: Request, p: Place, sent: nat, n: nat) {
    match p
    case Fresh => q.tries == 0 && q.tried == 0 && sent == 0
    case Waiting(k) => OnTour(q, k, sent, n) && q.tries < PerServer(n)
    case Writing(k) => OnTour(q, k, sent, n) && 1 <= q.tries <= PerServer(n)
    case OnWire(k) => OnTour(q, k, sent, n) && 1 <= q.tries <= PerServer(n)
  }

  /** The request has gone from its first server to server `k`, using up its tries on the way. */
  predicate OnTour(q: Request, k: nat, sent: nat, n: nat) {
    && q.curr == k < n && q.first < n && q.tried < ServersTried(n)
    && k == (if q.first + q.tried < n then q.first + q.tried else q.first + q.tried - n)
    && sent == q.tried * PerServer(n) + q.tries
  }

  predicate RecordOk(e: Engine, id: nat)
    requires id in e.records
  {
    var rec := e.records[id];
    IsAt(e.at, rec.req, OnWire(rec.server)) && rec.req in e.reqs && e.reqs[rec.req].id == id
  }

  predicate LiveOk(e: Engine, r: Req) {
    r in e.at && r in e.reqs && r in e.sent && RequestOk(e.reqs[r], e.at[r], e.sent[r], |e.servs|)
  }

  ghost predicate ServersOk(e: Engine) {
    |e.servs| > 0 && forall k: nat | k < |e.servs| :: ServerOk(e.servs[k], e.at, k)
  }

  ghost predicate LivesOk(e: Engine) {
    e.at.Keys == e.reqs.Keys == e.sent.Keys && forall r | r in e.at :: LiveOk(e, r)
  }

  ghost predicate RecordsOk(e: Engine) {
    forall id | id in e.records :: RecordOk(e, id)
  }

  /** Every request that was made is live, answered, dropped or deferred. */
  ghost predicate CountsOk(e: Engine) {
    e.total == |e.at| && e.actual == e.total + e.ok + e.nx + e.dropped + |e.deferred|
  }

  ghost predicate Inv(e: Engine) {
    ServersOk(e) && ListOk(e.newReqs, e.at, Fresh) && LivesOk(e) && RecordsOk(e) && CountsOk(e)
  }

  /** Every transmission is one of at most 3, 4 or 6. */
  lemma SentBound(e: Engine, r: Req)
    requires Inv(e) && r in e.sent
    ensures var n := |e.servs|; e.sent[r] <= if n == 1 then 3 else if n == 2 then 4 else 6
  {
    assert LiveOk(e, r);
  }
}
