/** Reverse requests: building one and parsing it again gives the address (nmap/nmap_dns.cc). */
module DnsRequest {
  import opened Wrappers
  import opened TargetOctet
  import opened TargetText
  import opened DnsPtr
  import opened DnsWire

  const PTR: nat := 12
  const CLASS_IN: nat := 1
  const RECURSION_DESIRED: nat := 0x0100
  const HEADER: nat := 12

  // ---------- the labels of reverse names ----------

  /** The labels, with a dot before each. */
  function Before(ls: seq<string>): string {
    if ls == [] then "" else "." + ls[0] + Before(ls[1..])
  }

  lemma {:induction false} DottedJoin(ls: seq<string>)
    requires ls != []
    ensures Before(ls) == "." + JoinLabels(ls)
    decreases ls
  {
    if |ls| == 1 {
      assert Before(ls[1..]) == "" && "." + ls[0] + "" == "." + ls[0];
    } else {
      DottedJoin(ls[1..]);
      assert "." + ls[0] + ("." + JoinLabels(ls[1..])) == "." + (ls[0] + "." + JoinLabels(ls[1..]));
    }
  }

  lemma {:induction false} DottedAppend(a: seq<string>, b: seq<string>)
    ensures Before(a + b) == Before(a) + Before(b)
    decreases a
  {
    if a == [] {
      assert a + b == b;
    } else {
      assert (a + b)[1..] == a[1..] + b;
      DottedAppend(a[1..], b);
      assert "." + a[0] + (Before(a[1..]) + Before(b)) == "." + a[0] + Before(a[1..]) + Before(b);
    }
  }

  function Labels4(a: seq<Octet>): seq<string>
    requires |a| == 4
  {
    [Dec(a[3]), Dec(a[2]), Dec(a[1]), Dec(a[0]), "in-addr", "arpa"]
  }

  /** The labels of the bytes from the last one to `k`. */
  function NibbleLabels(b: seq<Octet>, k: nat): seq<string>
    requires k <= |b|
    decreases |b| - k
  {
    if k == |b| then [] else NibbleLabels(b, k + 1) + [[Hex(b[k] % 16)], [Hex(b[k] / 16)]]
  }

  function Labels6(b: seq<Octet>): seq<string>
    requires |b| == 16
  {
    NibbleLabels(b, 0) + ["ip6", "arpa"]
  }

  function LabelsOf(ip: Address): seq<string>
    requires IsAddress(ip)
  {
    if ip.V4? then Labels4(ip.a) else Labels6(ip.b)
  }

  lemma DottedTwo(x: string, y: string)
    ensures Before([x, y]) == "." + x + "." + y
  {
    assert [x, y][1..] == [y] && [y][1..] == [];
    assert Before([y]) == "." + y + "";
    assert "." + x + ("." + y) == "." + x + "." + y;
  }

  lemma {:induction false} NibblesDotted(b: seq<Octet>, k: nat)
    requires k <= |b|
    ensures Before(NibbleLabels(b, k)) == Nibbles(b, k)
    decreases |b| - k
  {
    if k < |b| {
      NibblesDotted(b, k + 1);
      var x, y := [Hex(b[k] % 16)], [Hex(b[k] / 16)];
      DottedAppend(NibbleLabels(b, k + 1), [x, y]);
      DottedTwo(x, y);
      assert Nibbles(b, k + 1) + ("." + x + "." + y) == Nibbles(b, k + 1) + "." + x + "." + y;
    }
  }

  /** The name of an address has these labels. */
  lemma NameLabels(ip: Address)
    requires IsAddress(ip)
    ensures LabelsOf(ip) != [] && JoinLabels(LabelsOf(ip)) == IpToPtr(ip)
  {
    if ip.V6? {
      var b := ip.b;
      NibblesDotted(b, 0);
      NibblesNonEmpty(b, 0);
      DottedAppend(NibbleLabels(b, 0), ["ip6", "arpa"]);
      DottedTwo("ip6", "arpa");
      DottedJoin(Labels6(b));
      assert "." + "ip6" + "." + "arpa" == V6_DOMAIN;
      var n := Nibbles(b, 0);
      assert (n + V6_DOMAIN)[1..] == n[1..] + V6_DOMAIN;
      assert ("." + JoinLabels(Labels6(b)))[1..] == JoinLabels(Labels6(b));
    } else {
      Labels4Join(Dec(ip.a[3]), Dec(ip.a[2]), Dec(ip.a[1]), Dec(ip.a[0]));
    }
  }

  lemma DotFirst(d3: string, d2: string, d1: string, d0: string, domain: string)
    ensures "." + d3 + "." + d2 + ("." + d1 + "." + d0 + domain) == "." + (d3 + "." + d2 + "." + d1 + "." + d0 + domain)
  {}

  lemma SameTail(s: string, t: string)
    requires "." + s == "." + t
    ensures s == t
  {
    assert ("." + s)[1..] == s && ("." + t)[1..] == t;
  }

  lemma Labels4Join(d3: string, d2: string, d1: string, d0: string)
    ensures JoinLabels([d3, d2, d1, d0, "in-addr", "arpa"]) == d3 + "." + d2 + "." + d1 + "." + d0 + V4_DOMAIN
  {
    var ls := [d3, d2, d1, d0, "in-addr", "arpa"];
    assert ls == [d3, d2] + ([d1, d0] + ["in-addr", "arpa"]);
    DottedAppend([d3, d2], [d1, d0] + ["in-addr", "arpa"]);
    DottedAppend([d1, d0], ["in-addr", "arpa"]);
    DottedTwo(d3, d2);
    DottedTwo(d1, d0);
    DottedTwo("in-addr", "arpa");
    DottedJoin(ls);
    assert "." + "in-addr" + "." + "arpa" == V4_DOMAIN;
    var name := d3 + "." + d2 + "." + d1 + "." + d0 + V4_DOMAIN;
    DotFirst(d3, d2, d1, d0, V4_DOMAIN);
    SameTail(JoinLabels(ls), name);
  }

  predicate GoodLabel(l: string) {
    IsLabel(l) && 1 <= |l| < 192
  }

  lemma DecLabel(x: Octet)
    ensures GoodLabel(Dec(x))
  {
    DecNumber(x);
    DecShort(x);
  }

  lemma HexLabel(n: nat)
    requires n < 16
    ensures GoodLabel([Hex(n)])
  {
    HexRound(n);
  }

  lemma DomainLabels()
    ensures GoodLabel("in-addr") && GoodLabel("ip6") && GoodLabel("arpa")
  {}

  lemma {:induction false} NibbleLabelsGood(b: seq<Octet>, k: nat)
    requires k <= |b|
    ensures forall l | l in NibbleLabels(b, k) :: GoodLabel(l)
    decreases |b| - k
  {
    if k < |b| {
      NibbleLabelsGood(b, k + 1);
      HexLabel(b[k] % 16);
      HexLabel(b[k] / 16);
    }
  }

  lemma LabelsGood(ip: Address)
    requires IsAddress(ip)
    ensures IsLabels(LabelsOf(ip))
  {
    DomainLabels();
    if ip.V4? {
      DecLabel(ip.a[0]);
      DecLabel(ip.a[1]);
      DecLabel(ip.a[2]);
      DecLabel(ip.a[3]);
      assert forall l | l in Labels4(ip.a) :: GoodLabel(l);
    } else {
      NibbleLabelsGood(ip.b, 0);
      assert forall l | l in Labels6(ip.b) :: GoodLabel(l);
    }
  }

  // ---------- requests ----------

  function Short(n: nat): seq<Byte> {
    [n / 256 % 256, n % 256]
  }

  function Header(id: nat): (h: seq<Byte>)
    ensures |h| == HEADER
  {
    Short(id) + Short(RECURSION_DESIRED) + Short(1) + Short(0) + Short(0) + Short(0)
  }

  /** `buildSimpleRequest` */
  function Request(id: nat, name: string, rt: nat): seq<Byte>
    requires IsText(name)
  {
    Header(id) + PutName(name) + (Short(rt) + Short(CLASS_IN))
  }

  datatype Query = Query(name: string, record_type: nat, record_class: nat)

  datatype Packet = Packet(id: nat, flags: nat, queries: seq<Query>)

  function ParseShort(buf: seq<Byte>, offset: nat): Option<nat> {
    if offset + 1 < |buf| then Some(buf[offset] as int * 256 + buf[offset + 1]) else None
  }

  datatype Asked = Asked(q: Query, used: nat)

  /** `Query::parseFromBuffer` */
  function ParseQuery(buf: seq<Byte>, offset: nat): Option<Asked> {
    if |buf| - offset <= 5 then None
    else
      match ParseName(buf, offset)
      case None => None
      case Some(n) =>
        var t, c := ParseShort(buf, offset + n.used), ParseShort(buf, offset + n.used + 2);
        if t.Some? && c.Some? then Some(Asked(Query(n.name, t.value, c.value), n.used + 4)) else None
  }

  function ParseQueries(buf: seq<Byte>, offset: nat, count: nat): Option<seq<Query>>
    decreases count
  {
    if count == 0 then Some([])
    else
      match ParseQuery(buf, offset)
      case None => None
      case Some(a) =>
        match ParseQueries(buf, offset + a.used, count - 1)
        case None => None
        case Some(qs) => Some([a.q] + qs)
  }

  /** `Packet::parseFromBuffer`, up to the queries */
  function ParsePacket(buf: seq<Byte>): Option<Packet> {
    if |buf| < HEADER then None
    else
      var id, flags, count := ParseShort(buf, 0), ParseShort(buf, 2), ParseShort(buf, 4);
      if id == None || flags == None || count == None then None
      else
        match ParseQueries(buf, HEADER, count.value)
        case None => None
        case Some(qs) => Some(Packet(id.value, flags.value, qs))
  }

  lemma ShortRound(buf: seq<Byte>, pre: seq<Byte>, n: nat, post: seq<Byte>)
    requires n < 65536 && buf == pre + Short(n) + post
    ensures ParseShort(buf, |pre|) == Some(n)
  {
    assert buf[|pre|] == n / 256 && buf[|pre| + 1] == n % 256;
  }

  /** A name that is read back, with type and class after it. */
  lemma QueryOf(pre: seq<Byte>, e: seq<Byte>, name: string, rt: nat, cl: nat)
    requires rt < 65536 && cl < 65536 && |e| >= 2
    requires ParseName(pre + e + (Short(rt) + Short(cl)), |pre|) == Some(Named(name, |e|))
    ensures ParseQuery(pre + e + (Short(rt) + Short(cl)), |pre|) == Some(Asked(Query(name, rt, cl), |e| + 4))
  {
    var buf := pre + e + (Short(rt) + Short(cl));
    assert buf == (pre + e) + Short(rt) + Short(cl);
    ShortRound(buf, pre + e, rt, Short(cl));
    assert buf == (pre + e + Short(rt)) + Short(cl) + [];
    ShortRound(buf, pre + e + Short(rt), cl, []);
    assert |pre + e| == |pre| + |e| && |pre + e + Short(rt)| == |pre| + |e| + 2;
  }

  lemma QueryRound(pre: seq<Byte>, ls: seq<string>, rt: nat, cl: nat)
    requires IsLabels(ls) && ls != [] && IsText(JoinLabels(ls)) && rt < 65536 && cl < 65536
    ensures var e := PutName(JoinLabels(ls));
            ParseQuery(pre + e + (Short(rt) + Short(cl)), |pre|) == Some(Asked(Query(JoinLabels(ls), rt, cl), |e| + 4))
  {
    var e := PutName(JoinLabels(ls));
    PutNameLabels(ls);
    EncodeCons(ls);
    NameRound(pre, ls, Short(rt) + Short(cl));
    QueryOf(pre, e, JoinLabels(ls), rt, cl);
  }

  lemma HeaderRound(id: nat, rest: seq<Byte>)
    requires id < 65536
    ensures var buf := Header(id) + rest;
            ParseShort(buf, 0) == Some(id) && ParseShort(buf, 2) == Some(RECURSION_DESIRED)
              && ParseShort(buf, 4) == Some(1)
  {
    var buf := Header(id) + rest;
    assert buf[0] == id / 256 && buf[1] == id % 256 && buf[2] == 1 && buf[3] == 0 && buf[4] == 0 && buf[5] == 1;
  }

  lemma OneQuery(buf: seq<Byte>, offset: nat, a: Asked)
    requires ParseQuery(buf, offset) == Some(a)
    ensures ParseQueries(buf, offset, 1) == Some([a.q])
  {
    assert ParseQueries(buf, offset + a.used, 0) == Some([]);
    assert [a.q] + [] == [a.q];
  }

  lemma PacketOf(buf: seq<Byte>, id: nat, flags: nat, qs: seq<Query>)
    requires |buf| >= HEADER && ParseQueries(buf, HEADER, |qs|) == Some(qs)
    requires ParseShort(buf, 0) == Some(id) && ParseShort(buf, 2) == Some(flags) && ParseShort(buf, 4) == Some(|qs|)
    ensures ParsePacket(buf) == Some(Packet(id, flags, qs))
  {}

  /** A request for any name whose labels fit is parsed as it was built. */
  lemma SimpleRound(id: nat, ls: seq<string>, rt: nat)
    requires id < 65536 && rt < 65536 && IsLabels(ls) && ls != [] && IsText(JoinLabels(ls))
    ensures ParsePacket(Request(id, JoinLabels(ls), rt))
            == Some(Packet(id, RECURSION_DESIRED, [Query(JoinLabels(ls), rt, CLASS_IN)]))
  {
    var e, tail := PutName(JoinLabels(ls)), Short(rt) + Short(CLASS_IN);
    var buf := Header(id) + e + tail;
    QueryRound(Header(id), ls, rt, CLASS_IN);
    var a := Asked(Query(JoinLabels(ls), rt, CLASS_IN), |e| + 4);
    OneQuery(buf, HEADER, a);
    assert buf == Header(id) + (e + tail);
    HeaderRound(id, e + tail);
    PacketOf(buf, id, RECURSION_DESIRED, [a.q]);
  }

  /** What was built for an address is one query for a pointer in the Internet class, with a name
      that leads back to the address. */
  lemma RequestRound(id: nat, ip: Address)
    requires id < 65536 && IsAddress(ip)
    ensures IsText(IpToPtr(ip))
    ensures ParsePacket(Request(id, IpToPtr(ip), PTR))
            == Some(Packet(id, RECURSION_DESIRED, [Query(IpToPtr(ip), PTR, CLASS_IN)]))
    ensures PtrToIp(IpToPtr(ip)) == Good(ip)
  {
    var ls := LabelsOf(ip);
    NameLabels(ip);
    LabelsGood(ip);
    PutNameLabels(ls);
    PtrRound(ip);
    SimpleRound(id, ls, PTR);
  }

  /** Five bytes are enough for a query about the root, but it is read only if another byte follows. */
  lemma ShortQuery(buf: seq<Byte>, offset: nat)
    ensures |buf| <= offset + 5 ==> ParseQuery(buf, offset) == None
    ensures |buf| >= offset + 6 && buf[offset..offset + 5] == [0, 0, 12, 0, 1] ==>
              ParseQuery(buf, offset) == Some(Asked(Query("", 12, 1), 5))
  {
    if |buf| >= offset + 6 && buf[offset..offset + 5] == [0, 0, 12, 0, 1] {
      var q := buf[offset..offset + 5];
      assert buf[offset] == q[0] && buf[offset + 1] == q[1] && buf[offset + 2] == q[2];
      assert buf[offset + 3] == q[3] && buf[offset + 4] == q[4];
      LabelsEnd(buf, offset, offset, "");
    }
  }

  // ---------- the bytes of a reverse request ----------

  /** The labels stand in the buffer from `p` on, each after its length, and an empty one ends at
      `end`. */
  predicate Written(buf: seq<Byte>, p: nat, ls: seq<string>, end: nat)
    decreases ls
  {
    if ls == [] then p + 1 == end <= |buf| && buf[p] == 0
    else
      var next := p + 1 + |ls[0]|;
      && next <= |buf| && buf[p] == |ls[0]| && (forall j: nat | j < |ls[0]| :: buf[p + 1 + j] == ls[0][j] as int)
      && Written(buf, next, ls[1..], end)
  }

  /** `Written`, in statements that do not look into it. */
  predicate Stands(buf: seq<Byte>, p: nat, ls: seq<string>, end: nat) {
    Written(buf, p, ls, end)
  }

  /** The label stands at `p`, and `next` comes after it. */
  predicate LabelAt(buf: seq<Byte>, p: nat, l: string, next: nat) {
    && next == p + 1 + |l| <= |buf| && buf[p] == |l|
    && forall j: nat | j < |l| :: buf[p + 1 + j] == l[j] as int
  }

  lemma LabelWritten(buf: seq<Byte>, pre: seq<Byte>, l: string, post: seq<Byte>)
    requires IsLabel(l) && |l| < 192 && buf == pre + LabelBytes(l) + post
    ensures LabelAt(buf, |pre|, l, |pre + LabelBytes(l)|)
  {
    assert l[..|l|] == l;
    forall j: nat | j < |l| ensures buf[|pre| + 1 + j] == l[j] as int {
      assert buf[|pre| + 1 + j] == LabelBytes(l)[1 + j] == Bytes(l)[j];
    }
  }

  lemma WrittenCons(buf: seq<Byte>, p: nat, ls: seq<string>, next: nat, end: nat)
    requires ls != [] && LabelAt(buf, p, ls[0], next) && Stands(buf, next, ls[1..], end)
    ensures Stands(buf, p, ls, end)
  {}

  lemma SplitLabel(buf: seq<Byte>, pre: seq<Byte>, enc: seq<Byte>, tail: seq<Byte>, head: seq<Byte>, e: seq<Byte>)
    requires buf == pre + enc + tail && enc == head + e
    ensures buf == pre + head + (e + tail) && buf == (pre + head) + e + tail
    ensures |(pre + head) + e| == |pre + enc|
  {
    Regroup(pre, head, e, tail);
  }

  lemma WrittenEnd(buf: seq<Byte>, pre: seq<Byte>, none: seq<Byte>, tail: seq<Byte>)
    requires none == [] && buf == pre + none + tail && tail != [] && tail[0] == 0
    ensures Stands(buf, |pre|, [], |pre + none| + 1)
  {
    assert buf[|pre|] == tail[0];
  }

  /** The first label stands where it should, and the rest comes after it. */
  lemma FirstWritten(buf: seq<Byte>, pre: seq<Byte>, ls: seq<string>, enc: seq<Byte>, tail: seq<Byte>, end: nat)
    returns (head: seq<Byte>, e: seq<Byte>)
    requires ls != [] && IsLabels(ls) && enc == Encoded(ls) && buf == pre + enc + tail
    ensures IsLabels(ls[1..]) && e == Encoded(ls[1..]) && buf == (pre + head) + e + tail
    ensures |(pre + head) + e| == |pre + enc|
    ensures Stands(buf, |pre + head|, ls[1..], end) ==> Stands(buf, |pre|, ls, end)
  {
    EncodeCons(ls);
    head, e := LabelBytes(ls[0]), Encoded(ls[1..]);
    SplitLabel(buf, pre, enc, tail, head, e);
    LabelWritten(buf, pre, ls[0], e + tail);
    if Stands(buf, |pre + head|, ls[1..], end) { WrittenCons(buf, |pre|, ls, |pre + head|, end); }
  }

  lemma {:induction false} EncodedWritten(buf: seq<Byte>, pre: seq<Byte>, ls: seq<string>, enc: seq<Byte>,
                                          tail: seq<Byte>)
    requires IsLabels(ls) && enc == Encoded(ls) && buf == pre + enc + tail && tail != [] && tail[0] == 0
    ensures Stands(buf, |pre|, ls, |pre + enc| + 1)
    decreases ls
  {
    if ls == [] {
      WrittenEnd(buf, pre, enc, tail);
    } else {
      var head, e := FirstWritten(buf, pre, ls, enc, tail, |pre + enc| + 1);
      EncodedWritten(buf, pre + head, ls[1..], e, tail);
    }
  }

  /** These bytes, the labels of the name, and these last bytes. */
  predicate BytesAre(buf: seq<Byte>, first: seq<Byte>, ip: Address, last: seq<Byte>)
    requires IsAddress(ip)
  {
    && |buf| >= 16 && |last| == 4 && buf[..12] == first && Written(buf, 12, LabelsOf(ip), |buf| - 4)
    && buf[|buf| - 4..] == last
  }

  /** The identifier, a query with recursion, one question and nothing else; then the labels of the
      name, the type of pointer records, and the Internet class. */
  predicate AsksPointer(buf: seq<Byte>, id: nat, ip: Address)
    requires IsAddress(ip)
  {
    id < 65536 && BytesAre(buf, [id / 256, id % 256, 1, 0, 0, 1, 0, 0, 0, 0, 0, 0], ip, [0, 12, 0, 1])
  }

  lemma HeaderBytes(id: nat)
    requires id < 65536
    ensures Header(id) == [id / 256, id % 256, 1, 0, 0, 1, 0, 0, 0, 0, 0, 0]
    ensures Short(PTR) + Short(CLASS_IN) == [0, 12, 0, 1]
  {}

  lemma BytesAround(buf: seq<Byte>, h: seq<Byte>, e: seq<Byte>, tail: seq<Byte>)
    requires buf == h + e + ([0] + tail) && |h| == 12 && |tail| == 4
    ensures |buf| >= 16 && buf[..12] == h && buf[|buf| - 4..] == tail && |h + e| + 1 == |buf| - 4
  {}

  lemma BytesOf(buf: seq<Byte>, ip: Address, h: seq<Byte>, tail: seq<Byte>)
    requires IsAddress(ip) && |h| == 12 && |tail| == 4 && IsLabels(LabelsOf(ip))
    requires buf == h + Encoded(LabelsOf(ip)) + ([0] + tail)
    ensures BytesAre(buf, h, ip, tail)
  {
    BytesAround(buf, h, Encoded(LabelsOf(ip)), tail);
    EncodedWritten(buf, h, LabelsOf(ip), Encoded(LabelsOf(ip)), [0] + tail);
  }

  lemma RequestGrouped(id: nat, name: string, rt: nat, e: seq<Byte>)
    requires IsText(name) && PutName(name) == e + [0]
    ensures Request(id, name, rt) == Header(id) + e + ([0] + (Short(rt) + Short(CLASS_IN)))
  {}

  lemma RequestBytes(id: nat, ip: Address)
    requires id < 65536 && IsAddress(ip) && IsText(IpToPtr(ip))
    ensures AsksPointer(Request(id, IpToPtr(ip), PTR), id, ip)
  {
    NameLabels(ip);
    LabelsGood(ip);
    PutNameLabels(LabelsOf(ip));
    RequestGrouped(id, IpToPtr(ip), PTR, Encoded(LabelsOf(ip)));
    HeaderBytes(id);
    BytesOf(Request(id, IpToPtr(ip), PTR), ip, Header(id), Short(PTR) + Short(CLASS_IN));
  }

  /** The labels of an IPv6 address: the hexadecimal digits of its last byte first, the low one
      before the high one. */
  lemma {:induction false} NibbleLabelsAt(b: seq<Octet>, k: nat, j: nat)
    requires k <= j < |b|
    ensures var ls, n := NibbleLabels(b, k), 2 * (|b| - 1 - j);
            && |ls| == 2 * (|b| - k) && ls[n] == ["0123456789abcdef"[b[j] % 16]]
            && ls[n + 1] == ["0123456789abcdef"[b[j] / 16]]
    decreases |b| - k
  {
    HexRound(b[k] % 16);
    HexRound(b[k] / 16);
    if k < |b| - 1 { NibbleLabelsAt(b, k + 1, if j == k then k + 1 else j); }
  }

  // ---------- the code ----------

  /** `putUnsignedShort` */
  method PutUnsignedShort(num: nat, buf: array<Byte>, offset: nat) returns (n: nat)
    modifies buf
    ensures n == if offset + 1 < buf.Length then 2 else 0
    ensures n == 2 ==> buf[..offset + 2] == old(buf[..offset]) + Short(num)
  {
    if offset + 1 >= buf.Length { return 0; }
    buf[offset] := num / 256 % 256;
    buf[offset + 1] := num % 256;
    n := 2;
  }

  /** The header of a request */
  method PutHeader(id: nat, buf: array<Byte>) returns (n: nat)
    modifies buf
    ensures n == if buf.Length >= HEADER then HEADER else 0
    ensures n == HEADER ==> buf[..HEADER] == Header(id)
  {
    var k := PutUnsignedShort(id, buf, 0);
    if k < 1 { return 0; }
    ghost var h := Short(id);
    assert buf[..2] == h;
    k := PutUnsignedShort(RECURSION_DESIRED, buf, 2);
    if k < 1 { return 0; }
    h := h + Short(RECURSION_DESIRED);
    assert buf[..4] == h;
    k := PutUnsignedShort(1, buf, 4);
    if k < 1 { return 0; }
    h := h + Short(1);
    assert buf[..6] == h;
    k := PutUnsignedShort(0, buf, 6);
    if k < 1 { return 0; }
    h := h + Short(0);
    assert buf[..8] == h;
    k := PutUnsignedShort(0, buf, 8);
    if k < 1 { return 0; }
    h := h + Short(0);
    assert buf[..10] == h;
    k := PutUnsignedShort(0, buf, 10);
    if k < 1 { return 0; }
    n := HEADER;
  }

  /** `buildSimpleRequest` */
  method BuildSimpleRequest(id: nat, name: string, rt: nat, buf: array<Byte>) returns (n: nat)
    requires IsText(name)
    modifies buf
    ensures n > 0 ==> n == |Request(id, name, rt)| <= buf.Length && buf[..n] == Request(id, name, rt)
    ensures buf.Length >= HEADER + |name| + 2 && buf.Length >= |Request(id, name, rt)| ==> n > 0
  {
    n := PutHeader(id, buf);
    if n < 1 { return 0; }
    var k := PutDomainName(name, buf, HEADER);
    if k < 1 { return 0; }
    ghost var body := Header(id) + PutName(name);
    assert buf[..HEADER + k] == body;
    n := n + k;
    k := PutUnsignedShort(rt, buf, n);
    if k < 1 { return 0; }
    assert buf[..n + 2] == body + Short(rt);
    n := n + k;
    k := PutUnsignedShort(CLASS_IN, buf, n);
    if k < 1 { return 0; }
    assert buf[..n + 2] == body + Short(rt) + Short(CLASS_IN);
    assert body + Short(rt) + Short(CLASS_IN) == body + (Short(rt) + Short(CLASS_IN));
    n := n + k;
  }

  /** `buildReverseRequest` and what the other side makes of the packet: it asks for a pointer
      record, under a name that leads back to the address. */
  method ReverseRequest(id: nat, ip: Address, buf: array<Byte>) returns (n: nat)
    requires id < 65536 && (ip.Unspecified? || IsAddress(ip))
    modifies buf
    ensures ip.Unspecified? ==> n == 0
    ensures buf.Length >= 512 && !ip.Unspecified? ==> n > 0
    ensures n > 0 ==>
              && n <= buf.Length
              && ParsePacket(buf[..n]) == Some(Packet(id, RECURSION_DESIRED, [Query(IpToPtr(ip), PTR, CLASS_IN)]))
              && PtrToIp(IpToPtr(ip)) == Good(ip) && AsksPointer(buf[..n], id, ip)
  {
    if ip.Unspecified? { return 0; }
    RequestRound(id, ip);
    RequestBytes(id, ip);
    ReverseSize(ip);
    RequestSize(id, ip);
    var name;
    if ip.V4? {
      TurnDotted(ip.a);
      name := IpToPtr4(Dotted(ip.a));
    } else {
      name := IpToPtr6(ip.b);
    }
    assert name == IpToPtr(ip);
    n := BuildSimpleRequest(id, name, PTR, buf);
  }

  lemma {:induction false} NibblesSize(b: seq<Octet>, k: nat)
    requires k <= |b|
    ensures |Nibbles(b, k)| == 4 * (|b| - k)
    decreases |b| - k
  {
    if k < |b| { NibblesSize(b, k + 1); }
  }

  lemma ReverseSize(ip: Address)
    requires IsAddress(ip)
    ensures |IpToPtr(ip)| <= 72
  {
    if ip.V4? {
      DecShort(ip.a[0]);
      DecShort(ip.a[1]);
      DecShort(ip.a[2]);
      DecShort(ip.a[3]);
    } else {
      NibblesSize(ip.b, 0);
    }
  }

  lemma RequestSize(id: nat, ip: Address)
    requires IsAddress(ip) && IsText(IpToPtr(ip)) && |IpToPtr(ip)| <= 72
    ensures |Request(id, IpToPtr(ip), PTR)| <= 90
  {
    var ls := LabelsOf(ip);
    NameLabels(ip);
    LabelsGood(ip);
    PutNameLabels(ls);
    EncodedShort(ls);
    JoinDots(ls);
  }
}
