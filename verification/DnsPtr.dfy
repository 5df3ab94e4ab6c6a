/** Names of reverse lookups: from an address to its name and back (`ipToPtr` and `ptrToIp` of
    nmap/nmap_dns.cc; section 3.5 of RFC 1035 and section 2.5 of RFC 3596). */
module DnsPtr {
  import opened Wrappers
  import opened TargetOctet
  import opened TargetOrder
  import opened TargetText

  /** An address, or none, when a name is in neither reverse domain. */
  datatype Address = Unspecified | V4(a: seq<Octet>) | V6(b: seq<Octet>)

  datatype Result = Bad | Good(ip: Address)

  const V4_DOMAIN: string := ".in-addr.arpa"
  const V6_DOMAIN: string := ".ip6.arpa"

  // ---------- from an address to a name ----------

  /** The text of an IPv4 address. */
  function Dotted(a: seq<Octet>): string
    requires |a| == 4
  {
    Dec(a[0]) + ("." + (Dec(a[1]) + ("." + (Dec(a[2]) + ("." + Dec(a[3]))))))
  }

  datatype Turning = Turning(octet: string, ptr: string)

  /** What the loop over the text, from its end, has made of `s`: the part before the first dot,
      and the other parts in reverse order. */
  function Turn(s: string): Turning {
    if s == "" then Turning("", "")
    else
      var r := Turn(s[1..]);
      if s[0] == '.' then Turning("", r.ptr + r.octet + ".") else Turning([s[0]] + r.octet, r.ptr)
  }

  predicate NoDot(s: string) {
    forall k: nat | k < |s| :: s[k] != '.'
  }

  lemma {:induction false} TurnLabel(l: string, t: string)
    requires NoDot(l)
    ensures Turn(l + t) == Turning(l + Turn(t).octet, Turn(t).ptr)
    decreases l
  {
    if l == "" {
      assert l + t == t;
    } else {
      assert (l + t)[1..] == l[1..] + t;
      TurnLabel(l[1..], t);
      assert [l[0]] + (l[1..] + Turn(t).octet) == l + Turn(t).octet;
    }
  }

  lemma TurnStep(l: string, t: string)
    requires NoDot(l)
    ensures Turn(l + ("." + t)) == Turning(l, Turn(t).ptr + Turn(t).octet + ".")
  {
    TurnLabel(l, "." + t);
    assert ("." + t)[1..] == t;
    assert l + "" == l;
  }

  lemma TurnLast(l: string)
    requires NoDot(l)
    ensures Turn(l) == Turning(l, "")
  {
    TurnLabel(l, "");
    assert l + "" == l;
  }

  /** The name of an IPv4 address: its octets in reverse order. */
  function Name4(a: seq<Octet>): string
    requires |a| == 4
  {
    Dec(a[3]) + "." + Dec(a[2]) + "." + Dec(a[1]) + "." + Dec(a[0])
  }

  lemma DecNoDot(n: nat)
    ensures NoDot(Dec(n))
  {
    DecNumber(n);
  }

  lemma TurnDotted(a: seq<Octet>)
    requires |a| == 4
    ensures var r := Turn(Dotted(a)); r.ptr + r.octet == Name4(a)
  {
    var d0, d1, d2, d3 := Dec(a[0]), Dec(a[1]), Dec(a[2]), Dec(a[3]);
    DecNoDot(a[0]);
    DecNoDot(a[1]);
    DecNoDot(a[2]);
    DecNoDot(a[3]);
    TurnLast(d3);
    TurnStep(d2, d3);
    TurnStep(d1, d2 + ("." + d3));
    TurnStep(d0, d1 + ("." + (d2 + ("." + d3))));
    assert "" + d3 == d3;
  }

  /** `ipToPtr` for an IPv4 address, given as text */
  method IpToPtr4(ipv4: string) returns (ptr: string)
    ensures ptr == Turn(ipv4).ptr + Turn(ipv4).octet + V4_DOMAIN
  {
    var octet := "";
    ptr := "";
    var i := |ipv4|;
    while i > 0
      invariant 0 <= i <= |ipv4| && Turning(octet, ptr) == Turn(ipv4[i..])
    {
      i := i - 1;
      assert ipv4[i..][1..] == ipv4[i + 1..];
      if ipv4[i] == '.' {
        ptr := ptr + octet + ".";
        octet := "";
      } else {
        octet := [ipv4[i]] + octet;
      }
    }
    assert ipv4[0..] == ipv4;
    ptr := ptr + octet + V4_DOMAIN;
  }

  // ---------- and back ----------

  function Place(k: nat): nat {
    match k
    case 0 => 1
    case 1 => 10
    case _ => 100
  }

  /** The digits of an IPv4 name, from its end: octet `i` is being read, at decimal place `place`.
      A fourth digit has no place. */
  function Read4(s: string, i: nat, place: nat, v: seq<Octet>): Option<seq<Octet>>
    requires |v| == 4
    decreases |s|
  {
    if i >= 4 || s == "" then Some(v)
    else if s[|s| - 1] == '.' then
      if |s| == 1 then Some(v) else ReadDigit4(s[..|s| - 1], i + 1, 0, v)
    else ReadDigit4(s, i, place, v)
  }

  function ReadDigit4(s: string, i: nat, place: nat, v: seq<Octet>): Option<seq<Octet>>
    requires |v| == 4 && s != ""
    decreases |s|, 0
  {
    var c := s[|s| - 1];
    if !IsDigit(c) || place > 2 then None
    else
      var n := (c - '0') as int;
      Read4(s[..|s| - 1], i, place + 1, if i < 4 then v[i := (v[i] + n * Place(place)) % 256] else v)
  }

  predicate IsNumber(l: string) {
    forall k: nat | k < |l| :: IsDigit(l[k])
  }

  /** `Read4`, in statements that do not look into it. */
  function Octets4(s: string, i: nat, place: nat, v: seq<Octet>): Option<seq<Octet>>
    requires |v| == 4
  {
    Read4(s, i, place, v)
  }

  lemma ReadOne(t: string, c: char, i: nat, place: nat, v: seq<Octet>)
    requires |v| == 4 && i < 4 && c != '.'
    ensures Octets4(t + [c], i, place, v)
            == if !IsDigit(c) || place > 2 then None
               else Octets4(t, i, place + 1, v[i := (v[i] + (c - '0') as int * Place(place)) % 256])
  {
    var s := t + [c];
    assert s[..|s| - 1] == t && s[|s| - 1] == c;
    assert Read4(s, i, place, v) == ReadDigit4(s, i, place, v);
  }

  lemma PartSum(v: seq<Octet>, i: nat, place: nat, n: nat, d: nat)
    requires i < |v| && place <= 2 && (place == 2 ==> n == 0)
    ensures var w := v[i := (v[i] + d * Place(place)) % 256];
            w[i := (w[i] + n * Place(place + 1)) % 256] == v[i := (v[i] + (n * 10 + d) * Place(place)) % 256]
  {
    Decimal(v[i], n, d, place);
  }

  lemma NumberInit(l: string)
    requires l != ""
    ensures l == Init(l) + [Last(l)] && (IsNumber(l) <==> IsNumber(Init(l)) && IsDigit(Last(l)))
    ensures IsDigit(Last(l)) ==> Number(l) == Number(Init(l)) * 10 + (Last(l) - '0') as int
    ensures NoDot(l) ==> NoDot(Init(l)) && Last(l) != '.'
  {}

  lemma AddNothing(v: seq<Octet>, i: nat)
    requires i < |v|
    ensures v[i := (v[i] + 0) % 256] == v
  {}

  /** The part after the last dot: a number of at most three digits, or an error. */
  lemma {:induction false} ReadPart(t: string, l: string, i: nat, place: nat, v: seq<Octet>)
    requires |v| == 4 && i < 4 && place <= 3 && NoDot(l)
    ensures Octets4(t + l, i, place, v)
            == if IsNumber(l) && place + |l| <= 3 then
                 Octets4(t, i, place + |l|, v[i := (v[i] + Number(l) * Place(place)) % 256])
               else None
    decreases l
  {
    if l == "" {
      assert t + l == t;
      AddNothing(v, i);
    } else {
      var m, c := Init(l), Last(l);
      NumberInit(l);
      assert t + l == (t + m) + [c];
      ReadOne(t + m, c, i, place, v);
      if IsDigit(c) && place <= 2 {
        var d := (c - '0') as int;
        ReadPart(t, m, i, place + 1, v[i := (v[i] + d * Place(place)) % 256]);
        if IsNumber(m) && place + |l| <= 3 { PartSum(v, i, place, Number(m), d); }
      }
    }
  }

  lemma Decimal(x: nat, n: nat, d: nat, place: nat)
    requires place <= 2 && (place == 2 ==> n == 0)
    ensures ((x + d * Place(place)) % 256 + n * Place(place + 1)) % 256 == (x + (n * 10 + d) * Place(place)) % 256
  {
    var a, b := x + d * Place(place), n * Place(place + 1);
    assert a + b == x + (n * 10 + d) * Place(place) by {
      if place == 0 {
        assert Place(0) == 1 && Place(1) == 10;
      } else if place == 1 {
        assert Place(1) == 10 && Place(2) == 100;
      }
    }
    ModLeft(a, b);
  }

  lemma ModLeft(a: nat, b: nat)
    ensures (a % 256 + b) % 256 == (a + b) % 256
  {
    var q, c := a / 256, a % 256 + b;
    assert a + b == 256 * q + c;
  }

  lemma DecShort(x: Octet)
    ensures |Dec(x)| <= 3
  {
    if x >= 10 {
      assert Dec(x) == Dec(x / 10) + ['0' + (x % 10) as char];
      if x >= 100 { assert Dec(x / 10) == Dec(x / 100) + ['0' + (x / 10 % 10) as char]; }
    }
  }

  /** One octet at the end of a name. */
  lemma ReadOctet4(t: string, x: Octet, i: nat, v: seq<Octet>)
    requires |v| == 4 && i < 4 && v[i] == 0
    ensures Read4(t + Dec(x), i, 0, v) == Read4(t, i, |Dec(x)|, v[i := x])
  {
    DecShort(x);
    DecNumber(x);
    DecNoDot(x);
    ReadPart(t, Dec(x), i, 0, v);
  }

  /** A dot at the end of a name, with a digit before it. */
  lemma ReadDot4(t: string, i: nat, place: nat, v: seq<Octet>)
    requires |v| == 4 && i < 3 && t != "" && IsDigit(t[|t| - 1])
    ensures Read4(t + ".", i, place, v) == Read4(t, i + 1, 0, v)
  {
    var s := t + ".";
    assert s[..|s| - 1] == t && s[|s| - 1] == '.';
    assert Read4(t, i + 1, 0, v) == ReadDigit4(t, i + 1, 0, v);
  }

  lemma DecEnds(t: string, n: nat)
    ensures t + Dec(n) != "" && IsDigit((t + Dec(n))[|t + Dec(n)| - 1])
  {
    DecNumber(n);
  }

  /** The name of an IPv4 address leads back to it. */
  lemma Name4Read(a: seq<Octet>)
    requires |a| == 4
    ensures Read4(Name4(a), 0, 0, [0, 0, 0, 0]) == Some(a)
  {
    var d3, d2, d1, d0 := Dec(a[3]), Dec(a[2]), Dec(a[1]), Dec(a[0]);
    var t3 := d3;
    var t2 := t3 + "." + d2;
    var t1 := t2 + "." + d1;
    assert Name4(a) == t1 + "." + d0;
    var v0: seq<Octet> := [0, 0, 0, 0];
    var v1, v2, v3 := v0[0 := a[0]], v0[0 := a[0]][1 := a[1]], v0[0 := a[0]][1 := a[1]][2 := a[2]];
    var v4 := v3[3 := a[3]];
    ReadOctet4(t1 + ".", a[0], 0, v0);
    DecEnds(t2 + ".", a[1]);
    ReadDot4(t1, 0, |d0|, v1);
    ReadOctet4(t2 + ".", a[1], 1, v1);
    DecEnds(t3 + ".", a[2]);
    ReadDot4(t2, 1, |d1|, v2);
    ReadOctet4(t3 + ".", a[2], 2, v2);
    DecEnds("", a[3]);
    assert "" + d3 == d3;
    ReadDot4(t3, 2, |d2|, v3);
    ReadOctet4("", a[3], 3, v3);
    assert Read4("", 3, |d3|, v4) == Some(v4);
    assert v4 == a;
  }

  // ---------- IPv6 ----------

  function Hex(n: nat): char
    requires n < 16
  {
    if n < 10 then '0' + n as char else 'a' + (n - 10) as char
  }

  /** What a character counts for, in arithmetic on bytes. */
  function HexValue(c: char): int {
    var n := c as int;
    if n < 0x3A then n - 0x30 else if n < 0x47 then n - 0x37 else if n < 0x67 then n - 0x57 else -1
  }

  /** The value is a nibble; a byte that went below zero is not. */
  predicate IsNibble(n: int) {
    0 <= n <= 15
  }

  lemma HexRound(n: nat)
    requires n < 16
    ensures HexValue(Hex(n)) == n && Hex(n) != '.' && Hex(n) == "0123456789abcdef"[n]
  {}

  /** The code accepts the hexadecimal digits, and two more runs of characters that its
      subtractions map into the range: from ':' on they count for 3 and more, from 'W' on for 0
      and more. */
  lemma HexAccepts(c: char)
    ensures IsNibble(HexValue(c)) <==> '0' <= c <= 'F' || 'W' <= c <= 'f'
    ensures '0' <= c <= '9' ==> HexValue(c) == c as int - '0' as int
    ensures ':' <= c <= 'F' ==> HexValue(c) == 3 + c as int - ':' as int
    ensures 'W' <= c <= 'f' ==> HexValue(c) == c as int - 'W' as int
    ensures HexValue('A') == HexValue('a') == 10 && HexValue('F') == HexValue('f') == 15
  {}

  /** The text that the loop of `ipToPtr` has written for the bytes from the last one to `k`. */
  function Nibbles(b: seq<Octet>, k: nat): string
    requires k <= |b|
    decreases |b| - k
  {
    if k == |b| then "" else Nibbles(b, k + 1) + "." + [Hex(b[k] % 16)] + "." + [Hex(b[k] / 16)]
  }

  /** The name of an IPv6 address: its nibbles in reverse order. */
  function Name6(b: seq<Octet>): string
    requires |b| == 16
  {
    Nibbles(b, 0)[1..]
  }

  /** `ipToPtr` for an IPv6 address */
  method IpToPtr6(b: seq<Octet>) returns (ptr: string)
    requires |b| == 16
    ensures ptr == Name6(b) + V6_DOMAIN
  {
    ptr := "";
    var i := 16;
    while i > 0
      invariant 0 <= i <= 16 && ptr == Nibbles(b, i)
    {
      i := i - 1;
      var high, low := Hex(b[i] / 16), Hex(b[i] % 16);
      ptr := ptr + ".";
      ptr := ptr + [low];
      ptr := ptr + ".";
      ptr := ptr + [high];
    }
    ptr := ptr[1..] + V6_DOMAIN;
  }

  /** The nibbles of an IPv6 name, from its end: byte `i` is being read, its low nibble if `low`. */
  function Read6(s: string, i: nat, low: bool, v: seq<Octet>): Option<seq<Octet>>
    requires |v| == 16
    decreases |s|
  {
    if i >= 16 || s == "" then Some(v)
    else
      var t := if s[|s| - 1] == '.' then s[..|s| - 1] else s;
      if t == "" then Some(v)
      else
        var n := HexValue(t[|t| - 1]);
        if !IsNibble(n) then None
        else
          var add := if low then n else 16 * n;
          Read6(t[..|t| - 1], if low then i + 1 else i, !low, v[i := (v[i] + add) % 256])
  }

  /** `Read6`, in statements that do not look into it. */
  function Octets6(s: string, i: nat, low: bool, v: seq<Octet>): Option<seq<Octet>>
    requires |v| == 16
  {
    Read6(s, i, low, v)
  }

  lemma ReadNibble(t: string, n: nat, i: nat, low: bool, v: seq<Octet>)
    requires |v| == 16 && i < 16 && n < 16
    ensures var w := v[i := (v[i] + if low then n else 16 * n) % 256];
            && Octets6(t + [Hex(n)], i, low, v) == Octets6(t, if low then i + 1 else i, !low, w)
            && Octets6(t + [Hex(n)] + ".", i, low, v) == Octets6(t, if low then i + 1 else i, !low, w)
  {
    HexRound(n);
    var s := t + [Hex(n)];
    assert s[..|s| - 1] == t && s[|s| - 1] == Hex(n);
    assert (s + ".")[..|s|] == s && (s + ".")[|s|] == '.';
  }

  /** The two nibbles of a byte, with or without a dot after them. */
  lemma ReadByte6(t: string, x: Octet, i: nat, v: seq<Octet>)
    requires |v| == 16 && i < 16 && v[i] == 0
    ensures var s := t + [Hex(x % 16)] + "." + [Hex(x / 16)];
            Octets6(s, i, false, v) == Octets6(s + ".", i, false, v) == Octets6(t, i + 1, false, v[i := x])
  {
    var u := t + [Hex(x % 16)];
    var w := v[i := 16 * (x / 16)];
    assert w == v[i := (v[i] + 16 * (x / 16)) % 256];
    ReadNibble(u + ".", x / 16, i, false, v);
    ReadNibble(t, x % 16, i, true, w);
    assert w[i := (w[i] + x % 16) % 256] == v[i := x];
  }

  lemma {:induction false} NibblesRead(b: seq<Octet>, k: nat, v: seq<Octet>)
    requires |b| == 16 == |v| && k < 16 && v[..k] == b[..k] && forall j: nat | k <= j < 16 :: v[j] == 0
    ensures var s := Nibbles(b, k)[1..];
            Octets6(s, k, false, v) == Octets6(s + ".", k, false, v) == Some(b)
    decreases 16 - k
  {
    var w := v[k := b[k]];
    var t := Nibbles(b, k + 1);
    var last := [Hex(b[k] % 16)] + "." + [Hex(b[k] / 16)];
    assert w[..k + 1] == b[..k + 1];
    if k == 15 {
      assert Nibbles(b, k)[1..] == "" + [Hex(b[k] % 16)] + "." + [Hex(b[k] / 16)];
      ReadByte6("", b[k], k, v);
      assert Octets6("", 16, false, w) == Some(w) && w == b;
    } else {
      NibblesRead(b, k + 1, w);
      var u := t[1..] + ".";
      NibblesNonEmpty(b, k + 1);
      assert Nibbles(b, k)[1..] == u + [Hex(b[k] % 16)] + "." + [Hex(b[k] / 16)];
      ReadByte6(u, b[k], k, v);
    }
  }

  lemma NibblesNonEmpty(b: seq<Octet>, k: nat)
    requires k < |b|
    ensures Nibbles(b, k) != ""
  {}

  /** The name of an IPv6 address leads back to it. */
  lemma Name6Read(b: seq<Octet>)
    requires |b| == 16
    ensures Octets6(Name6(b), 0, false, Zeros6()) == Some(b)
  {
    NibblesRead(b, 0, Zeros6());
  }

  function Zeros6(): (v: seq<Octet>)
    ensures |v| == 16 && forall j: nat | j < 16 :: v[j] == 0
  {
    [0, 0, 0, 0, 0, 0, 0, 0, 0, 0, 0, 0, 0, 0, 0, 0]
  }

  // ---------- names with their domains ----------

  function Lower(c: char): char {
    if 'A' <= c <= 'Z' then 'a' + (c - 'A') else c
  }

  /** The name ends in the domain, in upper or lower case. */
  predicate EndsIn(s: string, domain: string) {
    |s| >= |domain| && forall k: nat | k < |domain| :: SameAt(s, domain, k)
  }

  predicate SameAt(s: string, domain: string, k: nat)
    requires |s| >= |domain| > k
  {
    Lower(s[|s| - |domain| + k]) == domain[k]
  }

  /** What a name leads to. */
  function PtrToIp(s: string): Result {
    if EndsIn(s, V4_DOMAIN) then
      match Read4(s[..|s| - |V4_DOMAIN|], 0, 0, [0, 0, 0, 0])
      case None => Bad
      case Some(v) => Good(V4(v))
    else if EndsIn(s, V6_DOMAIN) then
      match Octets6(s[..|s| - |V6_DOMAIN|], 0, false, Zeros6())
      case None => Bad
      case Some(v) => Good(V6(v))
    else Good(Unspecified)
  }

  /** `ipToPtr` */
  function IpToPtr(ip: Address): string
    requires IsAddress(ip)
  {
    if ip.V4? then Name4(ip.a) + V4_DOMAIN else Name6(ip.b) + V6_DOMAIN
  }

  predicate IsAddress(ip: Address) {
    (ip.V4? && |ip.a| == 4) || (ip.V6? && |ip.b| == 16)
  }

  predicate IsLower(d: string) {
    forall k: nat | k < |d| :: Lower(d[k]) == d[k]
  }

  lemma DomainsLower()
    ensures IsLower(V4_DOMAIN) && IsLower(V6_DOMAIN)
  {}

  // ---------- upper and lower case ----------

  /** The characters are the same, but for the case of a letter. */
  predicate SameLetter(c: char, d: char) {
    c == d || ('A' <= c <= 'Z' && d as int == c as int + 32) || ('A' <= d <= 'Z' && c as int == d as int + 32)
  }

  predicate SameText(s: string, t: string) {
    |s| == |t| && forall k: nat | k < |s| :: SameLetter(s[k], t[k])
  }

  /** The name ends like this, in whatever case. */
  predicate EndsLike(s: string, domain: string) {
    |s| >= |domain| && SameText(s[|s| - |domain|..], domain)
  }

  lemma EndsInMeans(s: string, domain: string)
    requires IsLower(domain)
    ensures EndsIn(s, domain) <==> EndsLike(s, domain)
  {
    if |s| >= |domain| {
      var n := |s| - |domain|;
      forall k: nat | k < |domain| ensures SameAt(s, domain, k) <==> SameLetter(s[n + k], domain[k]) {
        assert Lower(domain[k]) == domain[k];
      }
      assert forall k: nat | k < |domain| :: s[n..][k] == s[n + k];
    }
  }

  /** A name in neither of the two domains leads to no address. */
  lemma NoDomain(s: string)
    requires !EndsLike(s, ".in-addr.arpa") && !EndsLike(s, ".ip6.arpa")
    ensures PtrToIp(s) == Good(Unspecified)
  {
    DomainsLower();
    EndsInMeans(s, V4_DOMAIN);
    EndsInMeans(s, V6_DOMAIN);
  }

  /** A character of an IPv6 name. */
  predicate IsNibbleChar(c: char) {
    c == '.' || '0' <= c <= '9' || 'a' <= c <= 'f'
  }

  predicate NibbleText(t: string) {
    forall k: nat | k < |t| :: IsNibbleChar(t[k])
  }

  lemma {:induction false} NibblesText(b: seq<Octet>, k: nat)
    requires k <= |b|
    ensures NibbleText(Nibbles(b, k))
    decreases |b| - k
  {
    if k < |b| { NibblesText(b, k + 1); }
  }

  lemma NibbleCase(c: char, d: char)
    requires SameLetter(c, d) && IsNibbleChar(d)
    ensures (c == '.' <==> d == '.') && HexValue(c) == HexValue(d)
  {}

  lemma ShorterText(s: string, t: string, n: nat)
    requires SameText(s, t) && NibbleText(t) && n <= |t|
    ensures SameText(s[..n], t[..n]) && NibbleText(t[..n])
  {
    forall k: nat | k < n ensures SameLetter(s[..n][k], t[..n][k]) && IsNibbleChar(t[..n][k]) {
      assert SameLetter(s[k], t[k]) && IsNibbleChar(t[k]);
    }
  }

  /** The case of the digits does not matter. */
  lemma {:induction false} AnyCase6(s: string, t: string, i: nat, low: bool, v: seq<Octet>)
    requires |v| == 16 && SameText(s, t) && NibbleText(t)
    ensures Octets6(s, i, low, v) == Octets6(t, i, low, v)
    decreases |t|, 1
  {
    if t != "" {
      assert SameLetter(s[|s| - 1], t[|t| - 1]) && IsNibbleChar(t[|t| - 1]);
      NibbleCase(s[|s| - 1], t[|t| - 1]);
      var n := if t[|t| - 1] == '.' then |t| - 1 else |t|;
      ShorterText(s, t, n);
      if i < 16 && n > 0 {
        assert SameLetter(s[..n][n - 1], t[..n][n - 1]) && IsNibbleChar(t[..n][n - 1]);
        NibbleCase(s[n - 1], t[n - 1]);
        AnyCaseDigit(s, t, n, i, low, v);
      }
    }
  }

  lemma {:induction false} AnyCaseDigit(s: string, t: string, n: nat, i: nat, low: bool, v: seq<Octet>)
    requires |v| == 16 && SameText(s, t) && NibbleText(t) && i < 16 && 0 < n <= |t|
    requires HexValue(s[n - 1]) == HexValue(t[n - 1])
    requires n == (if t[|t| - 1] == '.' then |t| - 1 else |t|) && n == if s[|s| - 1] == '.' then |s| - 1 else |s|
    ensures Octets6(s, i, low, v) == Octets6(t, i, low, v)
    decreases |t|, 0
  {
    var d := HexValue(t[n - 1]);
    OneDigit6(s, n, i, low, v);
    OneDigit6(t, n, i, low, v);
    if IsNibble(d) {
      ShorterText(s, t, n - 1);
      AnyCase6(s[..n - 1], t[..n - 1], if low then i + 1 else i, !low, Nibbled(v, i, low, d));
    }
  }

  /** The bytes after one more nibble. */
  function Nibbled(v: seq<Octet>, i: nat, low: bool, d: nat): (w: seq<Octet>)
    requires i < |v| && IsNibble(d)
    ensures |w| == |v|
  {
    v[i := (v[i] + if low then d else 16 * d) % 256]
  }

  lemma OneDigit6(s: string, n: nat, i: nat, low: bool, v: seq<Octet>)
    requires |v| == 16 && i < 16 && 0 < n <= |s| && n == if s[|s| - 1] == '.' then |s| - 1 else |s|
    ensures var d := HexValue(s[n - 1]);
            Octets6(s, i, low, v)
            == if IsNibble(d) then Octets6(s[..n - 1], if low then i + 1 else i, !low, Nibbled(v, i, low, d)) else None
  {
    assert s[..n][..n - 1] == s[..n - 1];
  }

  /** A character of an IPv4 name has no case. */
  lemma AnyCase4(s: string, t: string)
    requires SameText(s, t) && forall k: nat | k < |t| :: t[k] == '.' || IsDigit(t[k])
    ensures s == t
  {
    forall k: nat | k < |s| ensures s[k] == t[k] { assert SameLetter(s[k], t[k]); }
  }

  lemma Name4Text(a: seq<Octet>)
    requires |a| == 4
    ensures forall k: nat | k < |Name4(a)| :: Name4(a)[k] == '.' || IsDigit(Name4(a)[k])
  {
    DecNumber(a[0]);
    DecNumber(a[1]);
    DecNumber(a[2]);
    DecNumber(a[3]);
  }

  /** The name of an address, in upper or lower case or both, leads back to it. */
  lemma AnyCaseRound(ip: Address, s: string)
    requires IsAddress(ip) && SameText(s, IpToPtr(ip))
    ensures PtrToIp(s) == Good(ip)
  {
    if ip.V4? { AnyCaseV4(ip.a, s); } else { AnyCaseV6(ip.b, s); }
  }

  lemma AnyCaseV4(a: seq<Octet>, s: string)
    requires |a| == 4 && SameText(s, Name4(a) + V4_DOMAIN)
    ensures PtrToIp(s) == Good(V4(a))
  {
    var t := Name4(a);
    SplitText(s, t, V4_DOMAIN);
    DomainsLower();
    EndsInMeans(s, V4_DOMAIN);
    Name4Text(a);
    AnyCase4(s[..|t|], t);
    Name4Read(a);
  }

  lemma AnyCaseV6(b: seq<Octet>, s: string)
    requires |b| == 16 && SameText(s, Name6(b) + V6_DOMAIN)
    ensures PtrToIp(s) == Good(V6(b))
  {
    var t := Name6(b);
    SplitText(s, t, V6_DOMAIN);
    NotLikeV4(s, t);
    DomainsLower();
    EndsInMeans(s, V4_DOMAIN);
    EndsInMeans(s, V6_DOMAIN);
    NibblesText(b, 0);
    AnyCase6(s[..|t|], t, 0, false, Zeros6());
    Name6Read(b);
  }

  lemma SplitText(s: string, t: string, domain: string)
    requires SameText(s, t + domain)
    ensures SameText(s[..|t|], t) && |s| - |domain| == |t| && EndsLike(s, domain)
  {
    assert forall k: nat | k < |t| :: SameLetter(s[k], (t + domain)[k]);
    forall k: nat | k < |domain| ensures SameLetter(s[|t|..][k], domain[k]) {
      assert SameLetter(s[|t| + k], (t + domain)[|t| + k]);
    }
  }

  lemma NotLikeV4(s: string, t: string)
    requires SameText(s, t + V6_DOMAIN)
    ensures !EndsLike(s, V4_DOMAIN)
  {
    assert SameLetter(s[|t|], (t + V6_DOMAIN)[|t|]);
    if |s| >= |V4_DOMAIN| { assert !SameLetter(s[|s| - |V4_DOMAIN|..][4], V4_DOMAIN[4]); }
  }

  /** The name of an address leads back to it. */
  lemma PtrRound(ip: Address)
    requires IsAddress(ip)
    ensures PtrToIp(IpToPtr(ip)) == Good(ip)
  {
    AnyCaseRound(ip, IpToPtr(ip));
  }

  // ---------- the code ----------

  /** The loop of `ptrToIp` over an IPv4 name */
  method ReadName4(s: string) returns (r: Option<seq<Octet>>)
    ensures r == Read4(s, 0, 0, [0, 0, 0, 0])
  {
    var v: seq<Octet> := [0, 0, 0, 0];
    var p, i, place := |s|, 0, 0;
    assert s[..p] == s;
    while i < 4 && p > 0
      invariant 0 <= p <= |s| && 0 <= i && 0 <= place && |v| == 4
      invariant Read4(s[..p], i, place, v) == Read4(s, 0, 0, [0, 0, 0, 0])
      decreases p
    {
      assert s[..p][..p - 1] == s[..p - 1];
      if s[p - 1] == '.' {
        place, i, p := 0, i + 1, p - 1;
        if p == 0 { break; }
        assert s[..p][..p - 1] == s[..p - 1];
      }
      assert ReadDigit4(s[..p], i, place, v) == Read4(s, 0, 0, [0, 0, 0, 0]);
      if !IsDigit(s[p - 1]) || place > 2 { return None; }
      var n := (s[p - 1] - '0') as int;
      if i < 4 { v := v[i := (v[i] + n * Place(place)) % 256]; }
      place, p := place + 1, p - 1;
    }
    r := Some(v);
  }

  /** The loop of `ptrToIp` over an IPv6 name */
  method ReadName6(s: string) returns (r: Option<seq<Octet>>)
    ensures r == Octets6(s, 0, false, Zeros6())
  {
    var v: seq<Octet> := Zeros6();
    var p, i, low := |s|, 0, false;
    assert s[..p] == s;
    while i < 16 && p > 0
      invariant 0 <= p <= |s| && 0 <= i && |v| == 16
      invariant Octets6(s[..p], i, low, v) == Octets6(s, 0, false, Zeros6())
      decreases p
    {
      assert s[..p][..p - 1] == s[..p - 1];
      var q := if s[p - 1] == '.' then p - 1 else p;
      if q == 0 { break; }
      assert s[..q][..q - 1] == s[..q - 1];
      var n := HexValue(s[q - 1]);
      if !IsNibble(n) { return None; }
      v := v[i := (v[i] + if low then n else 16 * n) % 256];
      if low { i := i + 1; }
      low, p := !low, q - 1;
    }
    r := Some(v);
  }

  /** `ptrToIp` */
  method ReadPtr(s: string) returns (r: Result)
    ensures r == PtrToIp(s)
  {
    if EndsIn(s, V4_DOMAIN) {
      var v := ReadName4(s[..|s| - |V4_DOMAIN|]);
      r := if v.None? then Bad else Good(V4(v.value));
    } else if EndsIn(s, V6_DOMAIN) {
      var v := ReadName6(s[..|s| - |V6_DOMAIN|]);
      r := if v.None? then Bad else Good(V6(v.value));
    } else {
      r := Good(Unspecified);
    }
  }
}
