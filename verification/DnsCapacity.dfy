/** How many requests may be on the wire to a server at once: up a step with every answer, down by a
    factor with every timeout, and always between two bounds (nmap/nmap_dns.cc). */
module DnsCapacity {

  const CAPACITY_MIN: nat := 10
  const CAPACITY_MAX: nat := 200
  const CAPACITY_UP_STEP: nat := 2

  // ---------- products in double precision ----------

  const TWO_53: nat := 0x20_0000_0000_0000

  /** The doubles next to 0.9 and 0.7, in units of 2^-53. */
  const MINOR_DOWN_SCALE: nat := 8106479329266893
  const MAJOR_DOWN_SCALE: nat := 6305039478318694

  /** The multiple of `u` next to `p`; half way between two, the even one. */
  function Nearest(p: nat, u: nat): nat
    requires u > 0
  {
    var q, r := p / u, p % u;
    if 2 * r < u || (2 * r == u && q % 2 == 0) then q * u else (q + 1) * u
  }

  /** The number rounded to 53 binary digits, when the last of them counts for `u` or more. */
  function Rounded(p: nat, u: nat): nat
    requires u > 0
    decreases p - u
  {
    if p < TWO_53 * u then Nearest(p, u) else Rounded(p, 2 * u)
  }

  /** A number times a double, cut to an integer. */
  function Times(c: nat, x: nat): nat {
    Rounded(c * x, 1) / TWO_53
  }

  predicate PowerOfTwo(u: nat) {
    u in {1, 2, 4, 8, 16, 32, 64, 128, 256}
  }

  /** The unit of the last digit of a number. */
  lemma {:induction false} RoundedFrom(p: nat, u: nat, v: nat)
    requires PowerOfTwo(u) && PowerOfTwo(v) && u <= v && p < TWO_53 * v && (v > u ==> p >= TWO_53 * v / 2)
    ensures Rounded(p, u) == Nearest(p, v)
    decreases v - u
  {
    if u < v {
      assert PowerOfTwo(2 * u) && 2 * u <= v;
      assert p >= TWO_53 * u;
      RoundedFrom(p, 2 * u, v);
    }
  }

  lemma NearestBounds(p: nat, v: nat)
    requires PowerOfTwo(v)
    ensures p - v < Nearest(p, v) <= p + v && p / v * v <= Nearest(p, v)
  {}

  /** A whole number is a multiple of the last digit. */
  lemma {:induction false} Multiple(n: nat, v: nat) returns (m: nat)
    requires PowerOfTwo(v)
    ensures n * TWO_53 == m * v
    decreases 256 - v
  {
    if v == 256 {
      m := n * (TWO_53 / 256);
    } else {
      m := Multiple(n, 2 * v);
      m := 2 * m;
    }
  }

  lemma FloorAtLeast(p: nat, v: nat, m: nat)
    requires PowerOfTwo(v) && p >= m * v
    ensures p / v * v >= m * v
  {
    AtLeastAs(p / v, m, v, p);
    Grows(m, p / v, v);
  }

  lemma AtLeastAs(q: nat, m: nat, v: nat, p: nat)
    requires p < q * v + v && m * v <= p
    ensures q >= m
  {
    if q < m { Grows(q + 1, m, v); }
  }

  lemma Grows(a: nat, b: nat, v: nat)
    requires a <= b
    ensures a * v <= b * v && (a > 0 ==> a * v == (a - 1) * v + v)
  {}

  lemma CutAt(w: nat, n: nat)
    requires n * TWO_53 <= w < n * TWO_53 + TWO_53
    ensures w / TWO_53 == n
  {}

  /** What is cut off the product has nothing to do with a whole number below it. */
  lemma NearestCut(n: nat, rest: nat, v: nat)
    requires PowerOfTwo(v) && rest < TWO_53 - 256
    ensures Nearest(n * TWO_53 + rest, v) / TWO_53 == n
  {
    var p := n * TWO_53 + rest;
    var m := Multiple(n, v);
    NearestBounds(p, v);
    FloorAtLeast(p, v, m);
    CutAt(Nearest(p, v), n);
  }

  lemma UnitOf(p: nat) returns (v: nat)
    requires p < TWO_53 * 256
    ensures PowerOfTwo(v) && p < TWO_53 * v && (v > 1 ==> p >= TWO_53 * v / 2)
  {
    v := 256;
    while v > 1 && p < TWO_53 * v / 2
      invariant PowerOfTwo(v) && p < TWO_53 * v
      decreases v
    {
      v := v / 2;
    }
  }

  /** A product that is not just below a whole number is cut as it should be. */
  lemma TimesCut(c: nat, x: nat, n: nat, rest: nat)
    requires c * x == n * TWO_53 + rest && rest < TWO_53 - 256 && n < 256
    ensures Times(c, x) == n
  {
    var v := UnitOf(c * x);
    RoundedFrom(c * x, 1, v);
    NearestCut(n, rest, v);
  }

  /** A tenth of `k` times a number, except for a few of the last digits. */
  lemma TenthsCut(c: nat, x: nat, n: nat, f: nat, off: int)
    requires 10 * (c * x) == (10 * n + f) * TWO_53 + off && 0 <= f < 10 && -800 <= off <= 800 && n < 256
    requires f == 0 ==> off >= 0
    ensures Times(c, x) == n
  {
    TimesCut(c, x, n, c * x - n * TWO_53);
  }

  /** Nine tenths, rounded down. */
  lemma MinorDown(c: nat)
    requires c <= 200
    ensures Times(c, MINOR_DOWN_SCALE) == 9 * c / 10
  {
    TenthsCut(c, MINOR_DOWN_SCALE, 9 * c / 10, 9 * c % 10, 2 * c);
  }

  lemma MajorOthers(c: nat, n: nat, f: nat)
    requires c <= 200 && 7 * c == 10 * n + f && 0 < f < 10
    ensures Times(c, MAJOR_DOWN_SCALE) == n
  {
    TenthsCut(c, MAJOR_DOWN_SCALE, n, f, -4 * c);
  }

  /** Seven tenths, rounded down; but three products come out just below the whole number. */
  lemma MajorDown(c: nat)
    requires c <= 200
    ensures Times(c, MAJOR_DOWN_SCALE) == if c == 90 || c == 170 || c == 180 then 7 * c / 10 - 1 else 7 * c / 10
  {
    var n, f := 7 * c / 10, 7 * c % 10;
    if f != 0 {
      MajorOthers(c, n, f);
    } else if c > 0 {
      var t := c / 10;
      assert c == 10 * t;
      MajorTens(t);
    }
  }

  lemma Divided(q: nat, v: nat, r: nat)
    requires PowerOfTwo(v) && r < v
    ensures (q * v + r) / v == q && (q * v + r) % v == r
  {}

  /** A number just below an even multiple of the last digit reaches it if half that digit makes up
      for it. */
  lemma JustBelow(top: nat, q: nat, d: nat, v: nat)
    requires PowerOfTwo(v) && q % 2 == 1 && 0 < d <= v && top == q * v + v
    ensures Nearest(top - d, v) == if 2 * d <= v then top else top - v
  {
    if d < v { Divided(q, v, v - d); } else { Divided(q, v, 0); }
  }

  lemma {:induction false} WholeUnits(m: nat, v: nat) returns (q: nat)
    requires PowerOfTwo(v) && m > 0
    ensures q % 2 == 1 && m * TWO_53 == q * v + v
    decreases 256 - v
  {
    if v == 256 {
      q := m * (TWO_53 / 256) - 1;
    } else {
      q := WholeUnits(m, 2 * v);
      q := 2 * q + 1;
    }
  }

  /** The last digit of a product near `7 * t`, and when half of it makes up for `4 * t`. */
  lemma LastDigit(t: nat, v: nat)
    requires 1 <= t <= 20 && PowerOfTwo(v) && 7 * t <= v < 14 * t
    ensures 4 * t <= v && (8 * t <= v <==> t != 9 && t != 17 && t != 18)
  {}

  lemma UnitNear(t: nat, v: nat)
    requires 1 <= t <= 20 && PowerOfTwo(v)
    requires 7 * t * TWO_53 - 4 * t < TWO_53 * v && (v > 1 ==> 7 * t * TWO_53 - 4 * t >= TWO_53 * v / 2)
    ensures 7 * t <= v < 14 * t
  {}

  lemma MajorTens(t: nat)
    requires 1 <= t <= 20
    ensures Times(10 * t, MAJOR_DOWN_SCALE) == if t == 9 || t == 17 || t == 18 then 7 * t - 1 else 7 * t
  {
    var top := 7 * t * TWO_53;
    var p := 10 * t * MAJOR_DOWN_SCALE;
    assert p == top - 4 * t;
    var v := UnitOf(p);
    UnitNear(t, v);
    LastDigit(t, v);
    RoundedFrom(p, 1, v);
    var q := WholeUnits(7 * t, v);
    JustBelow(top, q, 4 * t, v);
    CutAt(Nearest(p, v), if 8 * t <= v then 7 * t else 7 * t - 1);
  }

  // ---------- steps ----------

  /** `check_capacities` */
  function Clamp(c: nat): (r: nat)
    ensures CAPACITY_MIN <= r <= CAPACITY_MAX
  {
    if c < CAPACITY_MIN then CAPACITY_MIN else if c > CAPACITY_MAX then CAPACITY_MAX else c
  }

  /** The capacity after a timeout, */
  function Down(c: nat): nat {
    Clamp(Times(c, MINOR_DOWN_SCALE))
  }

  /** after a timeout that makes the request leave the server, */
  function DownFar(c: nat): nat {
    Clamp(Times(Down(c), MAJOR_DOWN_SCALE))
  }

  /** and after an answer. */
  function Up(c: nat): nat {
    Clamp(c + CAPACITY_UP_STEP)
  }

  function AtLeast(c: nat, least: nat): nat {
    if c < least then least else c
  }

  /** A timeout leaves nine tenths of the capacity, and seven tenths of these if the request does not
      stay, but never less than 10; the fractions are cut off, and the product of 90, 170 or 180
      and 0.7 falls just short of its whole number. */
  predicate Slowed(c: nat, c': nat, stays: bool) {
    var m := AtLeast(9 * c / 10, 10);
    c' == if stays then m else AtLeast(7 * m / 10 - (if m == 90 || m == 170 || m == 180 then 1 else 0), 10)
  }

  lemma DownSlows(c: nat)
    requires 10 <= c <= 200
    ensures Slowed(c, Down(c), true) && Slowed(c, DownFar(c), false)
  {
    MinorDown(c);
    MajorDown(Down(c));
  }

  /** It falls with every timeout unless it is as low as can be. */
  lemma SlowedFalls(c: nat, c': nat, stays: bool)
    requires 10 <= c <= 200 && Slowed(c, c', stays)
    ensures c' < c || c' == 10 == c
  {}
}
