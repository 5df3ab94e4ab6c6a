/** What any name in the IPv4 reverse domain leads to, part by part (`ptrToIp` of nmap/nmap_dns.cc). */
module DnsReverse {
  import opened Wrappers
  import opened TargetOctet
  import opened TargetOrder
  import opened TargetText
  import opened DnsPtr

  /** Parts of a name: none is empty or has a dot. */
  predicate AreParts(ls: seq<string>) {
    ls != [] && forall l | l in ls :: l != "" && NoDot(l)
  }

  /** The parts with dots between them. */
  function Joined(ls: seq<string>): string
    requires ls != []
  {
    if |ls| == 1 then ls[0] else Joined(Init(ls)) + "." + Last(ls)
  }

  /** The `j`-th part from the end. */
  function Part(ls: seq<string>, j: nat): string
    requires j < |ls|
  {
    ls[|ls| - 1 - j]
  }

  /** A number of at most three digits. */
  predicate IsPart(l: string) {
    |l| <= 3 && IsNumber(l)
  }

  /** The last `n` parts are such numbers; of the part before them only the last character is read. */
  predicate Readable(ls: seq<string>, n: nat) {
    && (forall j: nat | j < |ls| && j < n :: IsPart(Part(ls, j)))
    && (|ls| > n && Part(ls, n) != "" ==> IsDigit(Last(Part(ls, n))))
  }

  /** The octets that the parts stand for, from `i` on, the last part first. */
  function OctetsFrom(ls: seq<string>, i: nat, v: seq<Octet>): (w: seq<Octet>)
    requires |v| == 4
    ensures |w| == 4
  {
    seq(4, k requires 0 <= k < 4 => if i <= k < i + |ls| then Number(Part(ls, k - i)) % 256 else v[k])
  }

  /** A text of parts ends like its last one. */
  lemma JoinedEnds(ls: seq<string>)
    requires AreParts(ls)
    ensures Last(ls) != "" && Joined(ls) != "" && Last(Joined(ls)) == Last(Last(ls)) != '.'
  {
    assert Last(ls) in ls;
  }

  /** Going on before a dot. */
  lemma ReadBefore(t: string, i: nat, place: nat, v: seq<Octet>)
    requires |v| == 4 && i < 4 && t != "" && Last(t) != '.'
    ensures Read4(t + ".", i, place, v)
            == if i < 3 then Read4(t, i + 1, 0, v) else if IsDigit(Last(t)) then Some(v) else None
  {
    var s := t + ".";
    assert s[..|s| - 1] == t && s[|s| - 1] == '.';
    assert Read4(s, i, place, v) == ReadDigit4(t, i + 1, 0, v);
  }

  lemma InitParts(ls: seq<string>)
    requires AreParts(ls) && |ls| > 1
    ensures AreParts(Init(ls)) && forall j: nat | j < |ls| - 1 :: Part(Init(ls), j) == Part(ls, j + 1)
  {
    forall l | l in Init(ls) ensures l != "" && NoDot(l) { assert l in ls; }
  }

  lemma {:induction false} PartsFrom(ls: seq<string>, i: nat, v: seq<Octet>)
    requires AreParts(ls) && |v| == 4 && i < 4 && forall k: nat | i <= k < 4 :: v[k] == 0
    ensures Read4(Joined(ls), i, 0, v) == if Readable(ls, 4 - i) then Some(OctetsFrom(ls, i, v)) else None
    decreases ls
  {
    var l := Last(ls);
    assert l in ls && Part(ls, 0) == l;
    var w := v[i := Number(l) % 256];
    if |ls| == 1 {
      assert "" + l == l;
      ReadPart("", l, i, 0, v);
      if IsPart(l) { assert OctetsFrom(ls, i, v) == w; }
    } else {
      var init := Init(ls);
      InitParts(ls);
      JoinedEnds(init);
      ReadPart(Joined(init) + ".", l, i, 0, v);
      ReadBefore(Joined(init), i, |l|, w);
      if IsPart(l) {
        if i < 3 {
          PartsFrom(init, i + 1, w);
          ReadableInit(ls, 4 - i);
          OctetsInit(ls, i, v, w);
        } else {
          assert Part(ls, 1) == Last(init);
          assert init[|init| - 1] in init;
          assert OctetsFrom(ls, i, v) == w;
        }
      }
    }
  }

  lemma ReadableInit(ls: seq<string>, n: nat)
    requires AreParts(ls) && |ls| > 1 && n > 0 && IsPart(Part(ls, 0))
    ensures Readable(ls, n) <==> Readable(Init(ls), n - 1)
  {
    InitParts(ls);
    if Readable(Init(ls), n - 1) {
      forall j: nat | j < |ls| && j < n ensures IsPart(Part(ls, j)) {
        if j > 0 { assert IsPart(Part(Init(ls), j - 1)); }
      }
    }
    if Readable(ls, n) {
      forall j: nat | j < |ls| - 1 && j < n - 1 ensures IsPart(Part(Init(ls), j)) { assert IsPart(Part(ls, j + 1)); }
    }
  }

  lemma OctetsInit(ls: seq<string>, i: nat, v: seq<Octet>, w: seq<Octet>)
    requires AreParts(ls) && |ls| > 1 && |v| == 4 && i < 4 && w == v[i := Number(Part(ls, 0)) % 256]
    ensures OctetsFrom(Init(ls), i + 1, w) == OctetsFrom(ls, i, v)
  {
    InitParts(ls);
  }

  /** A name in the IPv4 domain leads to the octets that its last four parts stand for, in reverse
      order and 0 where a part is missing, if these are numbers of at most three digits and any
      part before them ends in a digit; else it is an error. */
  lemma PartsExact(ls: seq<string>)
    requires AreParts(ls)
    ensures PtrToIp(Joined(ls) + ".in-addr.arpa")
            == if Readable(ls, 4) then Good(V4(OctetsFrom(ls, 0, [0, 0, 0, 0]))) else Bad
  {
    var s := Joined(ls) + V4_DOMAIN;
    DomainsLower();
    SplitText(s, Joined(ls), V4_DOMAIN);
    EndsInMeans(s, V4_DOMAIN);
    assert s[..|s| - |V4_DOMAIN|] == Joined(ls);
    PartsFrom(ls, 0, [0, 0, 0, 0]);
  }
}
