/**
 A target expression with ranges (class NetBlockIPv4Ranges of nmap/TargetGroup.cc): four bit
 vectors, and counters that run through the selected addresses like an odometer.
 */
module TargetBlock {
  import opened Wrappers
  import opened TargetOctet
  import opened TargetOrder
  import opened TargetNetmask

  /** The counters after the last address. */
  const SPENT: seq<nat> := [256, 256, 256, 256]

  /** The counters before the first address. */
  const FRESH: seq<nat> := [0, 0, 0, 0]

  predicate AreOctets(c: seq<nat>) {
    forall k: nat | k < |c| :: c[k] < 256
  }

  /** The counters are where `next` leaves them. */
  predicate InStep(vs: seq<seq<bool>>, c: seq<nat>)
    requires |vs| == 4 && IsVectors(vs)
  {
    AllInhabited(vs) ==> c == FRESH || c == SPENT || (AreOctets(c) && Selects(vs, c))
  }

  /** The address that `next` returns next. */
  function Upcoming(vs: seq<seq<bool>>, c: seq<nat>): (r: Option<Address>)
    requires |vs| == 4 && IsVectors(vs)
    ensures r.Some? ==> AllInhabited(vs) && Selects(vs, r.value)
  {
    if !AllInhabited(vs) || c == SPENT then None
    else if AreOctets(c) && Selects(vs, c) then Some(c)
    else
      LeastIsLeast(vs);
      Some(Least(vs))
  }

  /** If a counter finds no set bit, there is no address left. */
  lemma Stopped(vs: seq<seq<bool>>, c: seq<nat>, i: nat)
    requires |vs| == 4 == |c| && IsVectors(vs) && i < 4 && InStep(vs, c) && FirstFrom(vs[i], c[i]) >= 256
    ensures Upcoming(vs, c) == None && (AllInhabited(vs) ==> c == SPENT)
  {
    if AllInhabited(vs) { assert FirstFrom(vs[i], 0) < 256; }
  }

  /** If all counters find a set bit, they show the next address. */
  lemma Settled(vs: seq<seq<bool>>, c: seq<nat>, d: seq<nat>)
    requires |vs| == 4 == |c| == |d| && IsVectors(vs) && InStep(vs, c)
    requires forall k: nat | k < 4 :: d[k] == FirstFrom(vs[k], c[k]) && d[k] < 256
    ensures AreOctets(d) && Selects(vs, d) && Upcoming(vs, c) == Some(d)
  {
    forall k: nat | k < 4 ensures FirstFrom(vs[k], 0) < 256 {
      if FirstFrom(vs[k], 0) >= 256 { NothingFrom(vs[k], c[k]); }
    }
    if c == FRESH {
      LeastDigits(vs, d);
      if Selects(vs, c) { assert c == d; }
    } else {
      assert c != SPENT;
      assert c == d;
    }
  }

  /** The last `i` digits of `a` could not grow and start again; the others are as in `a`. */
  predicate Carried(vs: seq<seq<bool>>, a: Address, c: seq<nat>, i: nat)
    requires |vs| == 4 == |a| && IsVectors(vs) && i <= 4
  {
    && |c| == 4 && c[..4 - i] == a[..4 - i]
    && forall k: nat | 4 - i <= k < 4 :: Wraps(vs, a, c, k)
  }

  lemma CarriedDigit(vs: seq<seq<bool>>, a: Address, c: seq<nat>, i: nat)
    requires |vs| == 4 && IsVectors(vs) && Selects(vs, a) && i < 4 && Carried(vs, a, c, i)
    ensures c[3 - i] == a[3 - i] && vs[3 - i][c[3 - i]]
  {
    assert c[3 - i] == c[..4 - i][3 - i] && a[3 - i] == a[..4 - i][3 - i];
  }

  /** A change of digit `3 - i` leaves the others as they are. */
  lemma CarriedOthers(vs: seq<seq<bool>>, a: Address, c: seq<nat>, i: nat, x: nat)
    requires |vs| == 4 == |a| && IsVectors(vs) && i < 4 && Carried(vs, a, c, i)
    ensures var c2 := c[3 - i := x];
            c2[..3 - i] == a[..3 - i] && forall k: nat | 3 - i < k < 4 :: Wraps(vs, a, c2, k)
  {
    var d, c2 := 3 - i, c[3 - i := x];
    forall k: nat | d < k < 4 ensures Wraps(vs, a, c2, k) { assert Wraps(vs, a, c, k); }
    assert c2[..d] == c[..d + 1][..d] && a[..d] == a[..d + 1][..d];
  }

  lemma CarryOn(vs: seq<seq<bool>>, a: Address, c: seq<nat>, c2: seq<nat>, i: nat)
    requires |vs| == 4 && IsVectors(vs) && AllInhabited(vs) && Selects(vs, a) && i < 4 && Carried(vs, a, c, i)
    requires var x := FirstFrom(vs[3 - i], a[3 - i] as int + 1);
             c2 == c[3 - i := if x >= 256 then FirstFrom(vs[3 - i], 0) else x]
    ensures if FirstFrom(vs[3 - i], a[3 - i] as int + 1) >= 256 then Carried(vs, a, c2, i + 1)
            else AreOctets(c2) && Successor(vs, a) == Some(c2)
  {
    var d := 3 - i;
    CarriedOthers(vs, a, c, i, c2[d]);
    assert c2 == c[d := c2[d]];
    if FirstFrom(vs[d], a[d] as int + 1) < 256 {
      forall k: nat | k < 4 ensures c2[k] < 256 {
        if k < d { assert c2[k] == c2[..d][k]; } else if k > d { assert Wraps(vs, a, c2, k); }
      }
      SuccessorDigits(vs, a, c2, d);
    }
  }

  lemma CarriedOut(vs: seq<seq<bool>>, a: Address, c: seq<nat>)
    requires |vs| == 4 == |a| && IsVectors(vs) && AllInhabited(vs) && Carried(vs, a, c, 4)
    ensures Successor(vs, a) == None
  {
    forall k: nat | k < 4 ensures FirstFrom(vs[k], a[k] as int + 1) >= 256 { assert Wraps(vs, a, c, k); }
    SuccessorNone(vs, a);
  }

  /** The list holds, in increasing order, the selected addresses below `bound`. */
  ghost predicate Below(vs: seq<seq<bool>>, list: seq<nat>, bound: nat)
    requires IsVectors(vs)
  {
    && (forall i: nat, j: nat | i < j < |list| :: list[i] < list[j])
    && forall n: nat :: n in list <==> n < bound && IsSelected(vs, n)
  }

  ghost predicate IsSelected(vs: seq<seq<bool>>, n: nat)
    requires IsVectors(vs)
  {
    exists a: Address :: SelectedAs(vs, a, n)
  }

  predicate SelectedAs(vs: seq<seq<bool>>, a: Address, n: nat)
    requires IsVectors(vs)
  {
    Selects(vs, a) && Value(a) == n
  }

  /** The next address, or the number of all addresses. */
  function Bound(p: Option<Address>): nat {
    match p
    case Some(a) => Value(a)
    case None => 4294967296
  }

  /** Nothing selected lies between an address and its successor. */
  lemma BelowNext(vs: seq<seq<bool>>, list: seq<nat>, a: Address, bound: nat)
    requires |vs| == 4 && IsVectors(vs) && AllInhabited(vs) && Selects(vs, a) && Below(vs, list, Value(a))
    requires bound == Bound(Successor(vs, a))
    ensures Below(vs, list + [Value(a)], bound) && Value(a) < bound <= 4294967296
  {
    SuccessorIsNext(vs, a);
    FourDigits(a);
    if Successor(vs, a).Some? { FourDigits(Successor(vs, a).value); }
    var l := list + [Value(a)];
    forall n: nat ensures n in l <==> n < bound && IsSelected(vs, n) {
      if n < bound && IsSelected(vs, n) {
        var b: Address :| SelectedAs(vs, b, n);
        assert Value(b) <= Value(a);
      }
      if n == Value(a) { assert SelectedAs(vs, a, n); }
    }
    forall i: nat, j: nat | i < j < |l| ensures l[i] < l[j] {
      if j == |list| { assert list[i] in list; }
    }
  }

  /** The smallest selected address, if any, is the first one. */
  lemma BelowFirst(vs: seq<seq<bool>>)
    requires |vs| == 4 && IsVectors(vs)
    ensures Below(vs, [], Bound(Upcoming(vs, FRESH)))
  {
    forall n: nat | IsSelected(vs, n)
      ensures Bound(Upcoming(vs, FRESH)) <= n
    {
      var b: Address :| SelectedAs(vs, b, n);
      forall k: nat | k < 4 ensures FirstFrom(vs[k], 0) < 256 { assert vs[k][b[k]]; }
      LeastIsLeast(vs);
      if Selects(vs, FRESH) { assert Value(FRESH) == 0 by { FourDigits(FRESH); } }
    }
  }

  class NetBlockIPv4Ranges {
    const octets: seq<array<bool>>
    const counter: array<nat>

    constructor ()
      ensures Apart() && fresh(octets[0]) && fresh(octets[1]) && fresh(octets[2]) && fresh(octets[3]) && fresh(counter)
      ensures counter[..] == FRESH && forall k: nat, x: Octet | k < 4 :: !octets[k][x]
    {
      var a, b := new bool[256](_ => false), new bool[256](_ => false);
      var c, d := new bool[256](_ => false), new bool[256](_ => false);
      octets := [a, b, c, d];
      counter := new nat[4](_ => 0);
    }

    /** The four vectors are different arrays of the right size. */
    ghost predicate Apart() {
      && |octets| == 4 && counter.Length == 4
      && (forall k: nat | k < 4 :: octets[k].Length == 256)
      && forall k: nat, j: nat | k < j < 4 :: octets[k] != octets[j]
    }

    ghost function Vectors(): (vs: seq<seq<bool>>)
      requires Apart()
      reads octets
      ensures |vs| == 4 && IsVectors(vs)
    {
      [octets[0][..], octets[1][..], octets[2][..], octets[3][..]]
    }

    ghost predicate Valid()
      reads octets, counter
    {
      Apart() && InStep(Vectors(), counter[..])
    }

    /** The address that `next` returns next. */
    ghost function Pending(): Option<Address>
      requires Valid()
      reads octets, counter
    {
      Upcoming(Vectors(), counter[..])
    }

    /** The loop that looks for a set bit, for one counter */
    method Settle(i: nat)
      requires Apart() && i < 4
      modifies counter
      ensures counter[..] == old(counter[..])[i := FirstFrom(octets[i][..], old(counter[i]))]
    {
      var c := SettleAt(octets[i], counter[i]);
      counter[i] := c;
    }

    /** One digit goes to its next value, or starts again with a carry */
    method Advance(d: nat) returns (carry: bool)
      requires Apart() && d < 4 && counter[d] < 256 && octets[d][counter[d]]
      modifies counter
      ensures var v, c := octets[d][..], old(counter[d]);
              var x := FirstFrom(v, c + 1);
              && carry == (x >= 256)
              && counter[..] == old(counter[..])[d := if carry then FirstFrom(v, 0) else x]
    {
      var c;
      c, carry := AdvanceFrom(octets[d], counter[d]);
      counter[d] := c;
    }

    /** The first loop of `next` */
    method SettleAll() returns (ok: bool)
      requires Valid()
      modifies counter
      ensures Valid() && ok == old(Pending()).Some?
      ensures ok ==> AreOctets(counter[..]) && Some(counter[..]) == old(Pending())
      ensures !ok ==> Pending() == None
    {
      ghost var vs, c := Vectors(), counter[..];
      var i := 0;
      while i < 4
        invariant i <= 4 && forall k: nat | i <= k < 4 :: counter[k] == c[k]
        invariant forall k: nat | k < i :: counter[k] < 256 && counter[k] == FirstFrom(vs[k], c[k])
      {
        Settle(i);
        if counter[i] >= 256 {
          Stopped(vs, c, i);
          assert c == SPENT ==> counter[..] == SPENT;
          return false;
        }
        i := i + 1;
      }
      Settled(vs, c, counter[..]);
      ok := true;
    }

    /** The second loop of `next`: one more, with carry */
    method Increment(ghost a: Address) returns (carried: bool)
      requires Apart() && counter[..] == a && AllInhabited(Vectors()) && Selects(Vectors(), a)
      modifies counter
      ensures if carried then Successor(Vectors(), a) == None
              else AreOctets(counter[..]) && Successor(Vectors(), a) == Some(counter[..])
    {
      ghost var vs := Vectors();
      var i := 0;
      while i < 4
        invariant i <= 4 && Carried(vs, a, counter[..], i)
      {
        ghost var c := counter[..];
        CarriedDigit(vs, a, c, i);
        var carry := Advance(3 - i);
        CarryOn(vs, a, c, counter[..], i);
        if !carry { return false; }
        i := i + 1;
      }
      CarriedOut(vs, a, counter[..]);
      carried := true;
    }

    /** The address that the counters show */
    method Shown() returns (addr: nat)
      requires Apart() && AreOctets(counter[..])
      ensures addr == Value(counter[..])
    {
      addr := ((counter[0] * 256 + counter[1]) * 256 + counter[2]) * 256 + counter[3];
      ghost var a := counter[..];
      FourDigits(a);
    }

    /** The counters go on to the next address */
    method Proceed(ghost a: Address)
      requires Apart() && counter[..] == a && AllInhabited(Vectors()) && Selects(Vectors(), a)
      modifies counter
      ensures Valid() && Pending() == Successor(Vectors(), a)
    {
      ghost var vs := Vectors();
      SuccessorIsNext(vs, a);
      var carried := Increment(a);
      if carried {
        counter[0], counter[1], counter[2], counter[3] := 256, 256, 256, 256;
        assert counter[..] == SPENT;
      }
    }

    /** `next`, without a list of resolved addresses */
    method Next() returns (ok: bool, addr: nat)
      requires Valid()
      modifies counter
      ensures Valid() && ok == old(Pending()).Some?
      ensures ok ==> addr == Value(old(Pending()).value) && Pending() == Successor(Vectors(), old(Pending()).value)
      ensures !ok ==> Pending() == None
    {
      addr := 0;
      ok := SettleAll();
      if ok {
        addr := Shown();
        Proceed(counter[..]);
      }
    }

    /** `apply_netmask`: the block then selects the addresses that share their first `bits` bits
        with one that it selected before. */
    method ApplyNetmask(bits: int)
      requires Apart()
      modifies octets
      ensures bits > 32 ==> Vectors() == old(Vectors())
      ensures bits <= 32 ==> Widened(old(Vectors()), Vectors(), 32 - PrefixLength(bits))
    {
      if bits > 32 { return; }
      var n := PrefixLength(bits);
      var mask := Mask(n);
      ghost var vs := Vectors();
      var i := 0;
      while i < 4
        invariant i <= 4
        invariant forall k: nat | i <= k < 4 :: octets[k][..] == vs[k]
        invariant forall k: nat | k < i :: OctetWidened(vs[k], octets[k][..], mask[k])
      {
        ApplyNetmaskOctet(octets[i], mask[i]);
        assert OctetWidened(vs[i], octets[i][..], mask[i]);
        i := i + 1;
      }
      MaskWidens(vs, Vectors(), n);
    }

    /** All calls of `next` until it returns false */
    method Enumerate() returns (list: seq<nat>)
      requires Valid() && counter[..] == FRESH
      modifies counter
      ensures Valid() && Pending() == None
      ensures forall i: nat, j: nat | i < j < |list| :: list[i] < list[j]
      ensures forall n: nat :: n in list <==> IsSelected(Vectors(), n)
    {
      ghost var vs := Vectors();
      list := [];
      BelowFirst(vs);
      var more := true;
      while more
        invariant Valid() && Vectors() == vs && Below(vs, list, Bound(Pending()))
        invariant !more ==> Pending() == None
        decreases more, 4294967296 - Bound(Pending())
      {
        ghost var p := Pending();
        var ok, addr := Next();
        if ok {
          BelowNext(vs, list, p.value, Bound(Pending()));
          list := list + [addr];
        } else {
          more := false;
        }
      }
      SelectedSmall(vs);
    }
  }

  lemma SelectedSmall(vs: seq<seq<bool>>)
    requires |vs| == 4 && IsVectors(vs)
    ensures forall n: nat | IsSelected(vs, n) :: n < 4294967296
  {
    forall n: nat | IsSelected(vs, n) ensures n < 4294967296 {
      var b: Address :| SelectedAs(vs, b, n);
      FourDigits(b);
    }
  }

  method SettleAt(v: array<bool>, from: nat) returns (c: nat)
    requires v.Length == 256
    ensures c == FirstFrom(v[..], from)
  {
    c := from;
    while c < 256 && !v[c]
      invariant FirstFrom(v[..], c) == FirstFrom(v[..], from)
      decreases 256 - c
    {
      assert !v[..][c];
      c := c + 1;
    }
    assert c < 256 ==> v[..][c];
  }

  method AdvanceFrom(v: array<bool>, from: nat) returns (c: nat, carry: bool)
    requires v.Length == 256 && from < 256 && v[from]
    ensures var x := FirstFrom(v[..], from + 1);
            carry == (x >= 256) && c == if carry then FirstFrom(v[..], 0) else x
  {
    ghost var s := v[..];
    assert s[from];
    carry := false;
    c := from;
    c := (c + 1) % 256;
    if c == 0 { carry := true; }
    while !v[c]
      invariant c < 256
      invariant if carry then FirstFrom(s, from + 1) >= 256 && FirstFrom(s, c) == FirstFrom(s, 0) && c <= from
                else c > from && FirstFrom(s, c) == FirstFrom(s, from + 1)
      decreases if carry then 0 else 1, 256 - c
    {
      assert !s[c];
      assert (c + 1) % 256 == if c == 255 then 0 else c + 1;
      c := (c + 1) % 256;
      if c == 0 { carry := true; }
    }
    assert s[c];
  }
}
