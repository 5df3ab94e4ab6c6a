/** A CIDR netmask on the vectors of a target: octet by octet, and as numbers. */
module TargetNetmask {
  import opened TargetOctet
  import opened TargetOrder

  /** A negative number of bits stands for 32. */
  function PrefixLength(bits: int): (n: nat)
    requires bits <= 32
    ensures n <= 32
  {
    if bits < 0 then 32 else bits
  }

  lemma Two32()
    ensures Two(32) == 4294967296
  {
    assert Two(8) == 256;
    assert Two(16) == 256 * Two(8);
    assert Two(24) == 256 * Two(16);
    assert Two(32) == 256 * Two(24);
  }

  lemma {:induction false} TwoMono(z: nat, n: nat)
    requires z <= n
    ensures Two(z) <= Two(n)
    decreases n
  {
    if z < n { TwoMono(z, n - 1); }
  }

  /** `0xFFFFFFFF << (32 - n)`, or 0 for no bits, as four octets */
  function Mask(n: nat): (m: seq<Octet>)
    requires n <= 32
    ensures |m| == 4
  {
    Two32();
    TwoMono(32 - n, 32);
    var mask := 4294967296 - Two(32 - n);
    [mask / 256 / 256 / 256, mask / 256 / 256 % 256, mask / 256 % 256, mask % 256]
  }

  lemma MaskValue(n: nat)
    requires n <= 32
    ensures Value(Mask(n)) == Two(32) - Two(32 - n)
  {
    Two32();
    TwoMono(32 - n, 32);
    FourDigits(Mask(n));
    FourBytes(4294967296 - Two(32 - n));
  }

  /** A number from its four bytes. */
  lemma FourBytes(m: nat)
    ensures ((m / 256 / 256 / 256 * 256 + m / 256 / 256 % 256) * 256 + m / 256 % 256) * 256 + m % 256 == m
  {
    var a := m / 256;
    var b := a / 256;
    assert m == a * 256 + m % 256 && a == b * 256 + a % 256 && b == b / 256 * 256 + b % 256;
  }

  lemma FourDigits(a: Address)
    requires |a| == 4
    ensures Value(a) == ((a[0] as int * 256 + a[1]) * 256 + a[2]) * 256 + a[3]
    ensures Value(a) < 4294967296
  {
    assert Init(Init(Init(a))) == [a[0]] && Init([a[0]]) == [];
    assert Value([a[0]]) == a[0];
    assert Value(Init(Init(a))) == a[0] as int * 256 + a[1];
    assert Value(Init(a)) == (a[0] as int * 256 + a[1]) * 256 + a[2];
  }

  /** `w` has exactly the values that agree with one of `v` under the mask. */
  ghost predicate OctetWidened(v: seq<bool>, w: seq<bool>, mask: Octet)
    requires IsVector(v) && IsVector(w)
  {
    forall x: Octet :: w[x] <==> HasPartner(v, mask, x)
  }

  ghost predicate HasPartner(v: seq<bool>, mask: Octet, x: Octet)
    requires IsVector(v)
  {
    exists y: Octet :: v[y] && SameNet(mask, x, y)
  }

  ghost function Partner(v: seq<bool>, mask: Octet, x: Octet): (y: Octet)
    requires IsVector(v) && HasPartner(v, mask, x)
    ensures v[y] && SameNet(mask, x, y)
  {
    var y: Octet :| v[y] && SameNet(mask, x, y); y
  }

  /** `ws` selects exactly the addresses that share all but the last `z` bits with one that
      `vs` selects. */
  ghost predicate Widened(vs: seq<seq<bool>>, ws: seq<seq<bool>>, z: nat)
    requires IsVectors(vs) && IsVectors(ws)
  {
    forall a: Address | |a| == 4 ::
      Selects(ws, a) <==> NearOne(vs, a, z)
  }

  /** The address shares all but the last `z` bits with a selected one. */
  ghost predicate NearOne(vs: seq<seq<bool>>, a: Address, z: nat)
    requires IsVectors(vs)
  {
    exists b: Address :: Selects(vs, b) && SameNetwork(a, b, z)
  }

  predicate SameNetwork(a: Address, b: Address, z: nat) {
    Shr(Value(a), z) == Shr(Value(b), z)
  }

  ghost predicate DigitsAgree(m: Address, a: Address, b: Address)
    requires |m| == |a| == |b|
  {
    forall k: nat | k < |m| :: SameNet(m[k], a[k], b[k])
  }

  lemma {:induction false} AgreeDigits(m: Address, a: Address, b: Address)
    requires |m| == |a| == |b|
    ensures Agree(Value(m), 8 * |m|, Value(a), Value(b)) <==> DigitsAgree(m, a, b)
    decreases m
  {
    if m != [] {
      AgreeDigits(Init(m), Init(a), Init(b));
      AgreeSplit(8 * (|m| - 1), Value(Init(m)), Last(m), Value(Init(a)), Last(a), Value(Init(b)), Last(b));
      if DigitsAgree(Init(m), Init(a), Init(b)) && SameNet(Last(m), Last(a), Last(b)) {
        forall k: nat | k < |m| ensures SameNet(m[k], a[k], b[k]) {
          if k < |m| - 1 { assert SameNet(Init(m)[k], Init(a)[k], Init(b)[k]); }
        }
      }
      if DigitsAgree(m, a, b) {
        forall k: nat | k < |m| - 1 ensures SameNet(Init(m)[k], Init(a)[k], Init(b)[k]) {
          assert SameNet(m[k], a[k], b[k]);
        }
      }
    }
  }

  lemma NetworkDigits(n: nat, a: Address, b: Address)
    requires n <= 32 && |a| == 4 == |b|
    ensures SameNetwork(a, b, 32 - n) <==> DigitsAgree(Mask(n), a, b)
  {
    AgreeDigits(Mask(n), a, b);
    MaskValue(n);
    FourDigits(a);
    FourDigits(b);
    Two32();
    AgreePrefix(32, 32 - n, Value(a), Value(b));
  }

  /** Widening every octet under its part of the mask widens the set of addresses. */
  lemma MaskWidens(vs: seq<seq<bool>>, ws: seq<seq<bool>>, n: nat)
    requires |vs| == 4 == |ws| && IsVectors(vs) && IsVectors(ws) && n <= 32
    requires forall k: nat | k < 4 :: OctetWidened(vs[k], ws[k], Mask(n)[k])
    ensures Widened(vs, ws, 32 - n)
  {
    var m := Mask(n);
    forall a: Address | |a| == 4
      ensures Selects(ws, a) <==> NearOne(vs, a, 32 - n)
    {
      if Selects(ws, a) {
        WidenedBack(vs, ws, m, a);
        var b := PartnerAddress(vs, m, a);
        NetworkDigits(n, a, b);
        assert Selects(vs, b) && SameNetwork(a, b, 32 - n);
      }
      forall b: Address | Selects(vs, b) && SameNetwork(a, b, 32 - n) ensures Selects(ws, a) {
        NetworkDigits(n, a, b);
        forall k: nat | k < 4 ensures ws[k][a[k]] {
          assert OctetWidened(vs[k], ws[k], m[k]) && vs[k][b[k]] && SameNet(m[k], a[k], b[k]);
          assert HasPartner(vs[k], m[k], a[k]);
        }
      }
    }
  }

  /** Every octet of the address has a partner. */
  ghost predicate HasPartners(vs: seq<seq<bool>>, m: Address, a: Address)
    requires |vs| == 4 == |m| == |a| && IsVectors(vs)
  {
    forall k: nat | k < 4 :: HasPartner(vs[k], m[k], a[k])
  }

  lemma WidenedBack(vs: seq<seq<bool>>, ws: seq<seq<bool>>, m: Address, a: Address)
    requires |vs| == 4 == |ws| == |m| && IsVectors(vs) && IsVectors(ws) && Selects(ws, a)
    requires forall k: nat | k < 4 :: OctetWidened(vs[k], ws[k], m[k])
    ensures HasPartners(vs, m, a)
  {
    forall k: nat | k < 4 ensures HasPartner(vs[k], m[k], a[k]) {
      assert OctetWidened(vs[k], ws[k], m[k]) && ws[k][a[k]];
    }
  }

  ghost function PartnerAddress(vs: seq<seq<bool>>, m: Address, a: Address): (b: Address)
    requires |vs| == 4 == |m| == |a| && IsVectors(vs) && HasPartners(vs, m, a)
    ensures |b| == 4 && Selects(vs, b) && DigitsAgree(m, a, b)
  {
    [Partner(vs[0], m[0], a[0]), Partner(vs[1], m[1], a[1]), Partner(vs[2], m[2], a[2]), Partner(vs[3], m[3], a[3])]
  }
}
