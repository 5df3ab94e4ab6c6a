/**
 Addresses as digits to the base 256, the addresses that four (or any number of) bit vectors
 select, and the next one of them in increasing order.
 */
module TargetOrder {
  import opened Wrappers
  import opened TargetOctet

  type Address = seq<Octet>

  predicate IsVectors(vs: seq<seq<bool>>) {
    forall k: nat | k < |vs| :: IsVector(vs[k])
  }

  /** The vectors select the address. */
  predicate Selects(vs: seq<seq<bool>>, a: Address)
    requires IsVectors(vs)
  {
    |a| == |vs| && forall k: nat | k < |vs| :: vs[k][a[k]]
  }

  function Init<T>(s: seq<T>): seq<T>
    requires s != []
  {
    s[..|s| - 1]
  }

  function Last<T>(s: seq<T>): T
    requires s != []
  {
    s[|s| - 1]
  }

  /** The number that the digits stand for. */
  function Value(a: Address): nat {
    if a == [] then 0 else Value(Init(a)) * 256 + Last(a)
  }

  lemma {:induction false} ValueInjective(a: Address, b: Address)
    requires |a| == |b| && Value(a) == Value(b)
    ensures a == b
    decreases a
  {
    if a != [] {
      ValueInjective(Init(a), Init(b));
      assert a == Init(a) + [Last(a)] && b == Init(b) + [Last(b)];
    }
  }

  // ---------- the next address ----------

  /** The first value from `c` on in a vector, or 256. */
  function FirstFrom(v: seq<bool>, c: nat): (x: nat)
    requires IsVector(v)
    ensures x < 256 ==> c <= x && v[x]
    ensures forall y: nat | c <= y < 256 && y < x :: !v[y]
    ensures x <= 256 || x == c
    decreases |v| - c
  {
    if c >= 256 then c else if v[c] then c else FirstFrom(v, c + 1)
  }

  /** Every vector has a value. */
  predicate AllInhabited(vs: seq<seq<bool>>)
    requires IsVectors(vs)
  {
    forall k: nat | k < |vs| :: FirstFrom(vs[k], 0) < 256
  }

  /** The first address. */
  function Least(vs: seq<seq<bool>>): (a: Address)
    requires IsVectors(vs) && AllInhabited(vs)
    ensures |a| == |vs|
  {
    if vs == [] then [] else Least(Init(vs)) + [FirstFrom(Last(vs), 0)]
  }

  lemma SelectsParts(vs: seq<seq<bool>>, a: Address)
    requires IsVectors(vs) && vs != [] && |a| == |vs|
    ensures Selects(vs, a) <==> Selects(Init(vs), Init(a)) && Last(vs)[Last(a)]
  {
    var n := |vs| - 1;
    assert forall k: nat | k < n :: Init(vs)[k] == vs[k] && Init(a)[k] == a[k];
    if Selects(Init(vs), Init(a)) && Last(vs)[Last(a)] {
      forall k: nat | k < |vs| ensures vs[k][a[k]] {
        if k < n { assert Init(vs)[k][Init(a)[k]]; }
      }
    }
  }

  lemma {:induction false} LeastIsLeast(vs: seq<seq<bool>>)
    requires IsVectors(vs) && AllInhabited(vs)
    ensures Selects(vs, Least(vs))
    ensures forall b: Address | Selects(vs, b) :: Value(Least(vs)) <= Value(b)
    decreases vs
  {
    if vs != [] {
      LeastIsLeast(Init(vs));
      var a := Least(vs);
      assert Init(a) == Least(Init(vs)) && Last(a) == FirstFrom(Last(vs), 0);
      SelectsParts(vs, a);
      forall b: Address | Selects(vs, b) ensures Value(a) <= Value(b) {
        SelectsParts(vs, b);
      }
    }
  }

  /** The address after `a`: the last digit that can grow grows, and the digits after it start
      again. */
  function Successor(vs: seq<seq<bool>>, a: Address): (r: Option<Address>)
    requires IsVectors(vs) && AllInhabited(vs) && |a| == |vs|
    ensures r.Some? ==> |r.value| == |vs|
  {
    if vs == [] then None
    else
      var x := FirstFrom(Last(vs), Last(a) as int + 1);
      if x < 256 then Some(Init(a) + [x])
      else
        match Successor(Init(vs), Init(a))
        case Some(t) => Some(t + [FirstFrom(Last(vs), 0)])
        case None => None
  }

  /** It is the least selected address above `a`. */
  ghost predicate IsNext(vs: seq<seq<bool>>, a: Address, r: Option<Address>)
    requires IsVectors(vs)
  {
    && (r.Some? ==> Selects(vs, r.value) && Value(a) < Value(r.value))
    && forall b: Address | Selects(vs, b) && Value(a) < Value(b) :: r.Some? && Value(r.value) <= Value(b)
  }

  lemma {:induction false} SuccessorIsNext(vs: seq<seq<bool>>, a: Address)
    requires IsVectors(vs) && AllInhabited(vs) && Selects(vs, a)
    ensures IsNext(vs, a, Successor(vs, a))
    decreases vs
  {
    if vs != [] {
      SelectsParts(vs, a);
      SuccessorIsNext(Init(vs), Init(a));
      var r := Successor(vs, a);
      if r.Some? {
        assert r.value == Init(r.value) + [Last(r.value)];
        SelectsParts(vs, r.value);
      }
      forall b: Address | Selects(vs, b) && Value(a) < Value(b)
        ensures r.Some? && Value(r.value) <= Value(b)
      {
        SelectsParts(vs, b);
        NextDigit(vs, a, b);
      }
    }
  }

  lemma NextDigit(vs: seq<seq<bool>>, a: Address, b: Address)
    requires IsVectors(vs) && AllInhabited(vs) && vs != [] && |a| == |vs| == |b|
    requires Selects(Init(vs), Init(b)) && Last(vs)[Last(b)] && Value(a) < Value(b)
    requires IsNext(Init(vs), Init(a), Successor(Init(vs), Init(a)))
    ensures var r := Successor(vs, a); r.Some? && Value(r.value) <= Value(b)
  {
    var r, x := Successor(vs, a), FirstFrom(Last(vs), Last(a) as int + 1);
    if x < 256 {
      assert Init(r.value) == Init(a) && Last(r.value) == x;
      if Value(Init(a)) == Value(Init(b)) { assert Last(b) >= x; }
    } else {
      assert Value(Init(a)) < Value(Init(b));
      var t := Successor(Init(vs), Init(a));
      assert t.Some?;
      assert Init(r.value) == t.value && Last(r.value) == FirstFrom(Last(vs), 0);
    }
  }

  // ---------- digit by digit ----------

  lemma {:induction false} LeastDigits(vs: seq<seq<bool>>, c: seq<nat>)
    requires IsVectors(vs) && AllInhabited(vs) && |c| == |vs|
    requires forall k: nat | k < |vs| :: c[k] == FirstFrom(vs[k], 0)
    ensures c == Least(vs)
    decreases vs
  {
    if vs != [] {
      LeastDigits(Init(vs), Init(c));
      assert c == Init(c) + [Last(c)];
    }
  }

  /** Digit `d` is the last one of `a` that can grow, and `c` is what the odometer shows after
      it has grown. */
  predicate GrownAt(vs: seq<seq<bool>>, a: Address, c: seq<nat>, d: nat)
    requires IsVectors(vs) && |a| == |vs| == |c| && d < |vs|
  {
    && c[..d] == a[..d] && c[d] == FirstFrom(vs[d], a[d] as int + 1) && c[d] < 256
    && forall k: nat | d < k < |vs| :: Wraps(vs, a, c, k)
  }

  /** Digit `k` could not grow and starts again. */
  predicate Wraps(vs: seq<seq<bool>>, a: Address, c: seq<nat>, k: nat)
    requires IsVectors(vs) && |a| == |vs| == |c| && k < |vs|
  {
    FirstFrom(vs[k], a[k] as int + 1) >= 256 && c[k] == FirstFrom(vs[k], 0)
  }

  lemma GrownInit(vs: seq<seq<bool>>, a: Address, c: seq<nat>, d: nat)
    requires IsVectors(vs) && |a| == |vs| == |c| && d < |vs| - 1 && GrownAt(vs, a, c, d)
    ensures IsVectors(Init(vs)) && GrownAt(Init(vs), Init(a), Init(c), d) && Wraps(vs, a, c, |vs| - 1)
  {
    assert Init(c)[..d] == c[..d] && Init(a)[..d] == a[..d];
    forall k: nat | d < k < |vs| - 1 ensures Wraps(Init(vs), Init(a), Init(c), k) { assert Wraps(vs, a, c, k); }
  }

  lemma {:induction false} SuccessorDigits(vs: seq<seq<bool>>, a: Address, c: seq<nat>, d: nat)
    requires IsVectors(vs) && AllInhabited(vs) && |a| == |vs| == |c| && d < |vs| && GrownAt(vs, a, c, d)
    ensures Successor(vs, a) == Some(c)
    decreases vs
  {
    assert c == Init(c) + [Last(c)];
    if d < |vs| - 1 {
      GrownInit(vs, a, c, d);
      SuccessorDigits(Init(vs), Init(a), Init(c), d);
    } else {
      assert Init(c) == c[..d] && Init(a) == a[..d];
    }
  }

  lemma {:induction false} SuccessorNone(vs: seq<seq<bool>>, a: Address)
    requires IsVectors(vs) && AllInhabited(vs) && |a| == |vs|
    requires forall k: nat | k < |vs| :: FirstFrom(vs[k], a[k] as int + 1) >= 256
    ensures Successor(vs, a) == None
    decreases vs
  {
    if vs != [] { SuccessorNone(Init(vs), Init(a)); }
  }

  /** A vector without a value has none from any value on. */
  lemma NothingFrom(v: seq<bool>, c: nat)
    requires IsVector(v) && FirstFrom(v, 0) >= 256
    ensures FirstFrom(v, c) >= 256
  {}
}
