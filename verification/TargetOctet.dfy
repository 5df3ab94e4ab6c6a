/**
 One octet of an IPv4 target: the set of its values as 256 bits, and the closure of that set
 under a netmask (`apply_ipv4_netmask_octet` of nmap/TargetGroup.cc).
 */
module TargetOctet {

  type Octet = x: int | 0 <= x < 256

  /** A bit vector holds the values of an octet. */
  predicate IsVector(s: seq<bool>) {
    |s| == 256
  }

  // ---------- bits ----------

  function Two(k: nat): (c: nat)
    ensures c > 0
  {
    if k == 0 then 1 else 2 * Two(k - 1)
  }

  predicate Bit(x: nat, k: nat) {
    if k == 0 then x % 2 == 1 else Bit(x / 2, k - 1)
  }

  /** The number with bit `k` inverted. */
  function Flip(x: nat, k: nat): nat {
    if k == 0 then if x % 2 == 0 then x + 1 else x - 1
    else 2 * Flip(x / 2, k - 1) + x % 2
  }

  /** `x` and `y` agree on the lowest `k` bits that the mask has, and on all higher bits. */
  predicate Agree(mask: nat, k: nat, x: nat, y: nat) {
    if k == 0 then x == y
    else (mask % 2 == 1 ==> x % 2 == y % 2) && Agree(mask / 2, k - 1, x / 2, y / 2)
  }

  /** `x & mask == y & mask` */
  predicate SameNet(mask: nat, x: Octet, y: Octet) {
    Agree(mask, 8, x, y)
  }

  /** Without bit `k` of the mask, a number agrees with what it or its flipped form agrees with. */
  lemma {:induction false} AgreeStep(mask: nat, k: nat, x: nat, y: nat)
    ensures Agree(mask, k + 1, x, y)
            <==> Agree(mask, k, x, y) || (!Bit(mask, k) && Agree(mask, k, Flip(x, k), y))
    decreases k
  {
    if k == 0 {
      assert Agree(mask / 2, 0, x / 2, y / 2) <==> x / 2 == y / 2;
    } else {
      AgreeStep(mask / 2, k - 1, x / 2, y / 2);
      assert Flip(x, k) / 2 == Flip(x / 2, k - 1) && Flip(x, k) % 2 == x % 2;
    }
  }

  /** `x >> z` */
  function Shr(x: nat, z: nat): nat {
    if z == 0 then x else Shr(x / 2, z - 1)
  }

  /** Agreement under a mask of `n - z` ones before `z` zeros is agreement of the leading bits. */
  lemma {:induction false} AgreePrefix(n: nat, z: nat, x: nat, y: nat)
    requires z <= n && x < Two(n) && y < Two(n)
    ensures Two(n) >= Two(z) && (Agree(Two(n) - Two(z), n, x, y) <==> Shr(x, z) == Shr(y, z))
    decreases n
  {
    if n > 0 {
      var t := Two(n - 1);
      assert Two(n) == 2 * t;
      if z > 0 {
        var u := Two(z - 1);
        AgreePrefix(n - 1, z - 1, x / 2, y / 2);
        assert Two(z) == 2 * u && (2 * t - 2 * u) / 2 == t - u && (2 * t - 2 * u) % 2 == 0;
      } else {
        AgreePrefix(n - 1, 0, x / 2, y / 2);
        assert (2 * t - 1) / 2 == t - 1 && (2 * t - 1) % 2 == 1;
        assert Shr(x, 0) == x && Shr(x / 2, 0) == x / 2;
      }
    }
  }

  /** Agreement of numbers is agreement of their last octets and of what is before them. */
  lemma AgreeSplit(n: nat, m: nat, m0: Octet, x: nat, x0: Octet, y: nat, y0: Octet)
    ensures Agree(m * 256 + m0, n + 8, x * 256 + x0, y * 256 + y0) <==> Agree(m0, 8, x0, y0) && Agree(m, n, x, y)
  {
    assert Two(4) == 16;
    assert Two(8) == 16 * Two(4);
    Times256(m);
    Times256(x);
    Times256(y);
    AgreeJoin(8, n, m * 256, m0, x * 256, x0, y * 256, y0, m, x, y);
  }

  /** `m2` is `m` times 2^k. */
  predicate Times(k: nat, m: nat, m2: nat) {
    if k == 0 then m2 == m else m2 % 2 == 0 && Times(k - 1, m, m2 / 2)
  }

  lemma TimesStep(k: nat, m: nat, m2: nat)
    requires Times(k, m, m2)
    ensures Times(k + 1, m, 2 * m2)
  {
    assert 2 * m2 / 2 == m2;
  }

  lemma Times256(m: nat)
    ensures Times(8, m, m * 256)
  {
    TimesStep(0, m, m);
    TimesStep(1, m, 2 * m);
    TimesStep(2, m, 4 * m);
    TimesStep(3, m, 8 * m);
    TimesStep(4, m, 16 * m);
    TimesStep(5, m, 32 * m);
    TimesStep(6, m, 64 * m);
    TimesStep(7, m, 128 * m);
  }

  lemma {:induction false} AgreeJoin(k: nat, n: nat, m2: nat, m0: nat, x2: nat, x0: nat, y2: nat, y0: nat, m: nat,
                                     x: nat, y: nat)
    requires Times(k, m, m2) && Times(k, x, x2) && Times(k, y, y2) && m0 < Two(k) && x0 < Two(k) && y0 < Two(k)
    ensures Agree(m2 + m0, n + k, x2 + x0, y2 + y0) <==> Agree(m0, k, x0, y0) && Agree(m, n, x, y)
    decreases k
  {
    if k > 0 {
      AgreeJoin(k - 1, n, m2 / 2, m0 / 2, x2 / 2, x0 / 2, y2 / 2, y0 / 2, m, x, y);
      assert (m2 + m0) / 2 == m2 / 2 + m0 / 2 && (x2 + x0) / 2 == x2 / 2 + x0 / 2 && (y2 + y0) / 2 == y2 / 2 + y0 / 2;
    }
  }

  /** A multiple of 2^(k+1). */
  predicate Aligned(i: nat, k: nat) {
    i % 2 == 0 && (k > 0 ==> Aligned(i / 2, k - 1))
  }

  lemma {:induction false} NextAligned(i: nat, k: nat)
    requires Aligned(i, k)
    ensures Aligned(i + Two(k + 1), k)
    decreases k
  {
    assert Two(k + 1) == 2 * Two(k);
    assert (i + Two(k + 1)) / 2 == i / 2 + Two(k);
    if k > 0 { NextAligned(i / 2, k - 1); }
  }

  /** Flipping bit `k` exchanges the halves of an aligned chunk of 2^(k+1) numbers. */
  lemma {:induction false} FlipPair(k: nat, i: nat, j: nat)
    requires Aligned(i, k) && j < Two(k)
    ensures Flip(i + j, k) == i + j + Two(k) && Flip(i + j + Two(k), k) == i + j
    decreases k
  {
    if k > 0 {
      var c := Two(k - 1);
      assert Two(k) == 2 * c;
      FlipPair(k - 1, i / 2, j / 2);
      FlipUp(i, j, k, c);
    }
  }

  lemma FlipUp(i: nat, j: nat, k: nat, c: nat)
    requires k > 0 && i % 2 == 0
    requires Flip(i / 2 + j / 2, k - 1) == i / 2 + j / 2 + c && Flip(i / 2 + j / 2 + c, k - 1) == i / 2 + j / 2
    ensures Flip(i + j, k) == i + j + 2 * c && Flip(i + j + 2 * c, k) == i + j
  {
    assert (i + j) / 2 == i / 2 + j / 2 && (i + j + 2 * c) / 2 == i / 2 + j / 2 + c;
  }

  // ---------- the closure ----------

  lemma {:induction false} FlipSmall(x: nat, k: nat, n: nat)
    requires k < n && x < Two(n)
    ensures Flip(x, k) < Two(n)
    decreases k
  {
    var t := Two(n - 1);
    assert Two(n) == 2 * t;
    if k > 0 {
      FlipSmall(x / 2, k - 1, n - 1);
      var f := Flip(x / 2, k - 1);
      assert f < t && Flip(x, k) == 2 * f + x % 2;
    } else {
      assert Flip(x, k) <= x + 1 - x % 2;
    }
  }

  lemma FlipOctet(x: Octet, k: nat)
    requires k < 8
    ensures 0 <= Flip(x, k) < 256
  {
    assert Two(4) == 16;
    assert Two(8) == 16 * Two(4);
    FlipSmall(x, k, 8);
  }

  /** Bit `x` of `t` is set when it or its partner is set in `s`. */
  predicate MergedAt(s: seq<bool>, t: seq<bool>, k: nat, x: nat)
    requires IsVector(s) && IsVector(t) && x < 256
  {
    Flip(x, k) < 256 && t[x] == (s[x] || s[Flip(x, k)])
  }

  /** The first `j` pairs of the chunks of size `c` at `i` are merged. */
  predicate PairsMerged(s: seq<bool>, t: seq<bool>, k: nat, c: nat, i: nat, j: nat)
    requires IsVector(s) && IsVector(t)
  {
    forall x: nat | x < 256 ::
      if i <= x < i + j || i + c <= x < i + c + j then MergedAt(s, t, k, x) else t[x] == s[x]
  }

  /** The code for one pair */
  function MergeOne(t: seq<bool>, a: nat, b: nat): (r: seq<bool>)
    requires IsVector(t) && a < 256 && b < 256
    ensures IsVector(r)
  {
    if t[a] then t[b := true] else if t[b] then t[a := true] else t
  }

  lemma MergeOneMerges(s: seq<bool>, t: seq<bool>, k: nat, c: nat, i: nat, j: nat)
    requires IsVector(s) && IsVector(t) && c == Two(k) && Aligned(i, k) && i + 2 * c <= 256 && j < c
    requires PairsMerged(s, t, k, c, i, j)
    ensures PairsMerged(s, MergeOne(t, i + j, i + j + c), k, c, i, j + 1)
  {
    FlipPair(k, i, j);
    var a, b := i + j, i + j + c;
    var u := MergeOne(t, a, b);
    assert t[a] == s[a] && t[b] == s[b];
    assert u[a] == u[b] == (s[a] || s[b]);
    forall x: nat | x < 256
      ensures if i <= x < i + (j + 1) || i + c <= x < i + c + (j + 1) then MergedAt(s, u, k, x) else u[x] == s[x]
    {
      if x != a && x != b { assert u[x] == t[x]; }
    }
  }

  lemma {:induction false} AlignedFits(i: nat, k: nat, n: nat)
    requires Aligned(i, k) && k < n && i < Two(n)
    ensures i + Two(k + 1) <= Two(n)
    decreases k
  {
    assert Two(n) == 2 * Two(n - 1) && Two(k + 1) == 2 * Two(k);
    if k > 0 { AlignedFits(i / 2, k - 1, n - 1); }
  }

  /** The bits below `hi` are merged. */
  predicate Merged(s: seq<bool>, t: seq<bool>, k: nat, hi: nat)
    requires IsVector(s) && IsVector(t)
  {
    forall x: nat | x < 256 :: if x < hi then MergedAt(s, t, k, x) else t[x] == s[x]
  }

  lemma ChunkMerged(s: seq<bool>, cur: seq<bool>, t: seq<bool>, k: nat, c: nat, i: nat)
    requires IsVector(s) && IsVector(cur) && IsVector(t) && c == Two(k) && Aligned(i, k) && i + 2 * c <= 256
    requires Merged(s, cur, k, i) && PairsMerged(cur, t, k, c, i, c)
    ensures Merged(s, t, k, i + 2 * c)
  {
    forall x: nat | x < 256 ensures if x < i + 2 * c then MergedAt(s, t, k, x) else t[x] == s[x] {
      if i <= x < i + 2 * c {
        var j := if x < i + c then x - i else x - i - c;
        FlipPair(k, i, j);
        assert MergedAt(cur, t, k, x);
      } else if x < i {
        assert MergedAt(s, cur, k, x);
        assert t[x] == cur[x];
      }
    }
  }

  /** The two inner loops: pair up the chunks of size `c` */
  method MergeChunks(bits: array<bool>, ghost k: nat, c: nat)
    requires IsVector(bits[..]) && k < 8 && c == Two(k)
    modifies bits
    ensures Merged(old(bits[..]), bits[..], k, 256)
  {
    ghost var was := bits[..];
    assert Two(4) == 16;
    assert Two(8) == 16 * Two(4);
    var i := 0;
    AlignedZero(k);
    while i < 256
      invariant i <= 256 && Aligned(i, k) && Merged(was, bits[..], k, i)
    {
      AlignedFits(i, k, 8);
      MergePair(bits, k, c, i, was);
      NextAligned(i, k);
      i := i + 2 * c;
    }
  }

  lemma {:induction false} AlignedZero(k: nat)
    ensures Aligned(0, k)
    decreases k
  {
    if k > 0 { AlignedZero(k - 1); }
  }

  /** The innermost loop */
  method MergePair(bits: array<bool>, ghost k: nat, c: nat, i: nat, ghost was: seq<bool>)
    requires IsVector(bits[..]) && IsVector(was) && c == Two(k) && Aligned(i, k) && i + 2 * c <= 256
    requires Merged(was, bits[..], k, i)
    modifies bits
    ensures Merged(was, bits[..], k, i + 2 * c)
  {
    ghost var cur := bits[..];
    var j := 0;
    while j < c
      invariant j <= c && PairsMerged(cur, bits[..], k, c, i, j)
    {
      ghost var t := bits[..];
      MergeOneMerges(cur, t, k, c, i, j);
      if bits[i + j] {
        bits[i + j + c] := true;
      } else if bits[i + j + c] {
        bits[i + j] := true;
      }
      assert bits[..] == MergeOne(t, i + j, i + j + c);
      j := j + 1;
    }
    ChunkMerged(was, cur, bits[..], k, c, i);
  }

  /** `t` has the values that agree, up to bit `k` under the mask, with a value in `s`. */
  ghost predicate Closed(s: seq<bool>, t: seq<bool>, mask: nat, k: nat)
    requires IsVector(s) && IsVector(t)
  {
    forall x: Octet :: t[x] <==> Reaches(s, mask, k, x)
  }

  ghost predicate Reaches(s: seq<bool>, mask: nat, k: nat, x: nat)
    requires IsVector(s)
  {
    exists y: Octet :: s[y] && Agree(mask, k, x, y)
  }

  lemma ClosedStep(s: seq<bool>, t: seq<bool>, u: seq<bool>, mask: nat, k: nat)
    requires IsVector(s) && IsVector(t) && IsVector(u) && k < 8 && Closed(s, t, mask, k)
    requires if Bit(mask, k) then u == t else Merged(t, u, k, 256)
    ensures Closed(s, u, mask, k + 1)
  {
    forall x: Octet ensures u[x] <==> Reaches(s, mask, k + 1, x) {
      FlipOctet(x, k);
      assert !Bit(mask, k) ==> MergedAt(t, u, k, x);
      assert t[x] <==> Reaches(s, mask, k, x);
      assert t[Flip(x, k)] <==> Reaches(s, mask, k, Flip(x, k));
      forall y: Octet
        ensures Agree(mask, k + 1, x, y) <==>
                Agree(mask, k, x, y) || (!Bit(mask, k) && Agree(mask, k, Flip(x, k), y))
      {
        AgreeStep(mask, k, x, y);
      }
    }
  }

  /** `apply_ipv4_netmask_octet`: afterwards the vector holds exactly the values that agree with
      one of its old values under the mask. */
  method ApplyNetmaskOctet(bits: array<bool>, mask: Octet)
    requires IsVector(bits[..])
    modifies bits
    ensures forall x: Octet :: bits[x] <==> exists y: Octet :: old(bits[y]) && SameNet(mask, x, y)
  {
    ghost var was := bits[..];
    var chunk, k := 1, 0;
    assert Closed(was, was, mask, 0);
    while k < 8
      invariant k <= 8 && chunk == Two(k) && Closed(was, bits[..], mask, k)
    {
      ghost var t := bits[..];
      if !Bit(mask, k) { MergeChunks(bits, k, chunk); }
      ClosedStep(was, t, bits[..], mask, k);
      chunk := chunk * 2;
      k := k + 1;
    }
    forall x: Octet ensures bits[x] <==> exists y: Octet :: old(bits[y]) && SameNet(mask, x, y) {
      assert bits[x] == bits[..][x];
      assert forall y: Octet :: was[y] == old(bits[y]);
    }
  }
}
