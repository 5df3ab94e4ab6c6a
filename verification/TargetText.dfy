/**
 Target expressions as text (`parse_ipv4_ranges`, `bitvector_to_range_string` and `str` of
 nmap/TargetGroup.cc), and that parsing undoes printing.
 */
module TargetText {
  import opened Wrappers
  import opened TargetOrder

  type Vector = v: seq<bool> | |v| == 256 witness Clear(256)

  /** No bit set. */
  function Clear(n: nat): (v: seq<bool>)
    ensures |v| == n && forall k: nat | k < n :: !v[k]
  {
    if n == 0 then [] else Clear(n - 1) + [false]
  }

  // ---------- numbers ----------

  predicate IsDigit(c: char) {
    '0' <= c <= '9'
  }

  /** The number of digits that the text starts with. */
  function Digits(s: string): (n: nat)
    ensures n <= |s|
  {
    if s != [] && IsDigit(s[0]) then 1 + Digits(s[1..]) else 0
  }

  function Number(s: string): nat {
    if s == [] then 0 else Number(Init(s)) * 10 + if IsDigit(Last(s)) then (Last(s) - '0') as int else 0
  }

  /** Decimal text */
  function Dec(n: nat): (s: string)
    ensures s != []
  {
    var d := ['0' + (n % 10) as char];
    if n < 10 then d else Dec(n / 10) + d
  }

  predicate NoDigit(s: string) {
    s == [] || !IsDigit(s[0])
  }

  lemma {:induction false} DecNumber(n: nat)
    ensures Number(Dec(n)) == n && forall k: nat | k < |Dec(n)| :: IsDigit(Dec(n)[k])
    decreases n
  {
    var d := '0' + (n % 10) as char;
    if n >= 10 {
      DecNumber(n / 10);
      assert Init(Dec(n)) == Dec(n / 10) && Last(Dec(n)) == d;
    } else {
      assert Dec(n) == [d] && Init([d]) == [] && Number([]) == 0;
    }
  }

  lemma {:induction false} DigitsOf(a: string, t: string)
    requires (forall k: nat | k < |a| :: IsDigit(a[k])) && NoDigit(t)
    ensures Digits(a + t) == |a|
    decreases a
  {
    if a == [] {
      assert a + t == t;
    } else {
      assert (a + t)[1..] == a[1..] + t;
      DigitsOf(a[1..], t);
    }
  }

  // ---------- parsing ----------

  datatype Item = Item(lo: nat, hi: nat, rest: string)

  predicate Starts(s: string, c: char) {
    s != [] && s[0] == c
  }

  /** A number or a range, which may be open on the left or on the right. */
  function ParseItem(s: string): (r: Option<Item>)
    ensures r.Some? ==> r.value.lo <= r.value.hi <= 255 && |r.value.rest| < |s|
  {
    var n := Digits(s);
    var start := Number(s[..n]);
    if (n == 0 && !Starts(s, '-')) || start > 255 then None
    else if !Starts(s[n..], '-') then Some(Item(start, start, s[n..]))
    else
      var t := s[n + 1..];
      var m := Digits(t);
      var end := if m == 0 then 255 else Number(t[..m]);
      if end > 255 || end < start then None else Some(Item(start, end, t[m..]))
  }

  /** The vector with the bits from `lo` to `hi` set. */
  function SetRange(v: Vector, lo: nat, hi: nat): Vector {
    seq(256, x requires 0 <= x < 256 => v[x] || lo <= x <= hi)
  }

  datatype Parsed = Parsed(v: Vector, rest: string)

  function ParseItems(s: string, v: Vector): (r: Option<Parsed>)
    ensures r.Some? ==> |r.value.rest| < |s|
    decreases |s|, 0
  {
    match ParseItem(s)
    case None => None
    case Some(item) => After(item.rest, SetRange(v, item.lo, item.hi))
  }

  /** More items after a comma, or the end. */
  function After(t: string, w: Vector): (r: Option<Parsed>)
    ensures r.Some? ==> |r.value.rest| <= |t|
    decreases |t|, 1
  {
    if Starts(t, ',') then ParseItems(t[1..], w) else Some(Parsed(w, t))
  }

  function ParseOctet(s: string, v: Vector): (r: Option<Parsed>)
    ensures r.Some? ==> |r.value.rest| < |s|
  {
    if Starts(s, '*') then Some(Parsed(SetRange(v, 0, 255), s[1..])) else ParseItems(s, v)
  }

  /** The octets from the `k`-th on. */
  function ParseOctets(s: string, vs: seq<Vector>, k: nat): (r: Option<seq<Vector>>)
    requires |vs| == 4 && k <= 4
    ensures r.Some? ==> |r.value| == 4
    decreases 4 - k
  {
    if s == [] || k == 4 then if s == [] && k == 4 then Some(vs) else None
    else
      match ParseOctet(s, vs[k])
      case None => None
      case Some(p) =>
        var ws := vs[k := p.v];
        if k == 3 then ParseOctets(p.rest, ws, 4)
        else if Starts(p.rest, '.') then ParseOctets(p.rest[1..], ws, k + 1)
        else None
  }

  function Empty(): (v: Vector)
    ensures forall x: nat | x < 256 :: !v[x]
  {
    seq(256, x requires 0 <= x < 256 => false)
  }

  /** What `parse_ipv4_ranges` makes of a text. */
  function Parse(s: string): Option<seq<Vector>> {
    ParseOctets(s, [Empty(), Empty(), Empty(), Empty()], 0)
  }

  // ---------- printing ----------

  /** The first value from `c` on that is not in the vector, or 256. */
  function ClearFrom(v: Vector, c: nat): (x: nat)
    requires c <= 256
    ensures c <= x <= 256 && (x < 256 ==> !v[x]) && forall y: nat | c <= y < x :: v[y]
    decreases |v| - c
  {
    if c == 256 || !v[c] then c else ClearFrom(v, c + 1)
  }

  /** The text of the values from `i` to `j - 1`, and then `t`. */
  function RunText(i: nat, j: nat, t: string): string
    requires i < j
  {
    if i == j - 1 then Dec(i) + t
    else if i + 1 == j - 1 then Dec(i) + ("," + (Dec(j - 1) + t))
    else Dec(i) + ("-" + (Dec(j - 1) + t))
  }

  /** The runs of the vector from `i` on, with commas between them, and before them unless they
      are the first; and then `t`. */
  function Runs(v: Vector, i: nat, first: bool, t: string): string
    requires i <= 256
    decreases |v| - i
  {
    var a := FirstFrom(v, i);
    if a >= 256 then t
    else
      var b := ClearFrom(v, a + 1);
      var run := RunText(a, b, Runs(v, b, false, t));
      if first then run else "," + run
  }

  /** `Runs`, in statements that do not look into it. */
  function Shown(v: Vector, i: nat, first: bool, t: string): string
    requires i <= 256
  {
    Runs(v, i, first, t)
  }

  /** `str` */
  function Text(vs: seq<Vector>): string
    requires |vs| == 4
  {
    Shown(vs[0], 0, true, "." + Shown(vs[1], 0, true, "." + Shown(vs[2], 0, true, "." + Shown(vs[3], 0, true, ""))))
  }

  // ---------- round trip ----------

  /** What may follow an item. */
  predicate Ends(t: string) {
    NoDigit(t) && !Starts(t, '-')
  }

  predicate Numeral(d: string) {
    d != [] && forall k: nat | k < |d| :: IsDigit(d[k])
  }

  lemma Prefix(d: string, t: string)
    ensures (d + t)[..|d|] == d && (d + t)[|d|..] == t
  {}

  lemma ItemSingle(d: string, t: string)
    requires Numeral(d) && Number(d) < 256 && Ends(t)
    ensures ParseItem(d + t) == Some(Item(Number(d), Number(d), t))
  {
    DigitsOf(d, t);
    Prefix(d, t);
  }

  lemma ItemRange(d: string, e: string, t: string)
    requires Numeral(d) && Numeral(e) && Number(d) <= Number(e) < 256 && Ends(t)
    ensures ParseItem(d + ("-" + (e + t))) == Some(Item(Number(d), Number(e), t))
  {
    var u := "-" + (e + t);
    DigitsOf(d, u);
    Prefix(d, u);
    DigitsOf(e, t);
    Prefix(e, t);
    assert (d + u)[|d| + 1..] == u[1..] == e + t;
  }

  lemma RunItems(a: nat, b: nat, t: string, w: Vector)
    requires a < b <= 256 && Ends(t)
    ensures ParseItems(RunText(a, b, t), w) == After(t, SetRange(w, a, b - 1))
  {
    DecNumber(a);
    DecNumber(b - 1);
    var d, e := Dec(a), Dec(b - 1);
    if a == b - 1 {
      ItemSingle(d, t);
    } else if a + 1 == b - 1 {
      var u := "," + (e + t);
      ItemSingle(d, u);
      assert Starts(u, ',') && u[1..] == e + t;
      assert ParseItems(d + u, w) == ParseItems(e + t, SetRange(w, a, a));
      ItemSingle(e, t);
      assert SetRange(SetRange(w, a, a), b - 1, b - 1) == SetRange(w, a, b - 1);
    } else {
      ItemRange(d, e, t);
    }
  }

  /** The bits of `v` from `i` on, together with those of `w`. */
  function Join(w: Vector, v: Vector, i: nat): Vector {
    seq(256, x requires 0 <= x < 256 => w[x] || (i <= x && v[x]))
  }

  /** A run, and the rest. */
  lemma JoinRun(w: Vector, v: Vector, i: nat)
    requires i <= 256 && FirstFrom(v, i) < 256
    ensures var a := FirstFrom(v, i);
            var b := ClearFrom(v, a + 1);
            Join(SetRange(w, a, b - 1), v, b) == Join(w, v, i)
  {
    var a := FirstFrom(v, i);
    var b := ClearFrom(v, a + 1);
    var l, r := Join(SetRange(w, a, b - 1), v, b), Join(w, v, i);
    forall x: nat | x < 256 ensures l[x] == r[x] {}
  }

  lemma JoinNothing(w: Vector, v: Vector, i: nat)
    requires FirstFrom(v, i) >= 256
    ensures Join(w, v, i) == w
  {}

  predicate Inhabited(v: Vector, i: nat) {
    FirstFrom(v, i) < 256
  }

  /** The first run of a vector, and the text after it. */
  lemma FirstRun(v: Vector, i: nat, w: Vector, t: string) returns (a: nat, b: nat, rest: string)
    requires i <= 256 && Inhabited(v, i) && Ends(t)
    ensures i <= a < b <= 256 && Shown(v, i, true, t) == RunText(a, b, rest) && Ends(rest)
    ensures Inhabited(v, b) ==> Starts(rest, ',') && rest[1..] == Shown(v, b, true, t)
    ensures !Inhabited(v, b) ==> rest == t
    ensures Join(w, v, i) == if Inhabited(v, b) then Join(SetRange(w, a, b - 1), v, b) else SetRange(w, a, b - 1)
  {
    a := FirstFrom(v, i);
    b := ClearFrom(v, a + 1);
    rest := Runs(v, b, false, t);
    JoinRun(w, v, i);
    if Inhabited(v, b) {
      var run := Runs(v, b, true, t);
      assert rest == "," + run;
      assert ("," + run)[1..] == run;
    } else {
      JoinNothing(SetRange(w, a, b - 1), v, b);
    }
  }

  lemma {:induction false} RunsParse(v: Vector, i: nat, w: Vector, t: string)
    requires i <= 256 && Inhabited(v, i) && Ends(t) && !Starts(t, ',')
    ensures ParseItems(Shown(v, i, true, t), w) == Some(Parsed(Join(w, v, i), t))
    decreases 256 - i
  {
    var a, b, rest := FirstRun(v, i, w, t);
    RunItems(a, b, rest, w);
    if Inhabited(v, b) { RunsParse(v, b, SetRange(w, a, b - 1), t); }
  }

  /** The text of an octet, parsed into an empty vector: the octet itself, or an error if it is
      empty. */
  lemma OctetParse(v: Vector, t: string)
    requires Ends(t) && !Starts(t, ',') && !Starts(t, '*')
    ensures ParseOctet(Shown(v, 0, true, t), Empty()) == if FirstFrom(v, 0) < 256 then Some(Parsed(v, t)) else None
  {
    if FirstFrom(v, 0) < 256 {
      RunsParse(v, 0, Empty(), t);
      assert Join(Empty(), v, 0) == v;
      var a, b, rest := FirstRun(v, 0, Empty(), t);
      DecNumber(a);
      assert !Starts(Shown(v, 0, true, t), '*');
    } else {
      assert Shown(v, 0, true, t) == t && Digits(t) == 0;
    }
  }

  /** The texts of the octets from the `k`-th on. */
  function TextFrom(vs: seq<Vector>, k: nat): string
    requires |vs| == 4 && k < 4
    decreases 4 - k
  {
    Shown(vs[k], 0, true, if k == 3 then "" else "." + TextFrom(vs, k + 1))
  }

  predicate InhabitedFrom(vs: seq<Vector>, k: nat) {
    forall j: nat | k <= j < |vs| :: FirstFrom(vs[j], 0) < 256
  }

  /** One round of the loop over the octets. */
  lemma ParseRound(s: string, vs: seq<Vector>, k: nat, r: Option<Parsed>)
    requires |vs| == 4 && k < 4 && r == ParseOctet(s, vs[k])
    ensures r == None ==> ParseOctets(s, vs, k) == None
    ensures r.Some? && k == 3 ==>
              ParseOctets(s, vs, k) == if r.value.rest == [] then Some(vs[k := r.value.v]) else None
    ensures r.Some? && k < 3 ==>
              ParseOctets(s, vs, k)
                  == if Starts(r.value.rest, '.') then ParseOctets(r.value.rest[1..], vs[k := r.value.v],
                                                            k + 1) else None
  {}

  /** The first `k` octets are done. */
  predicate Done(vs: seq<Vector>, done: seq<Vector>, k: nat)
    requires |vs| == 4
  {
    |done| == 4 && forall j: nat | j < 4 :: done[j] == if j < k then vs[j] else Empty()
  }

  lemma DoneNext(vs: seq<Vector>, done: seq<Vector>, k: nat)
    requires |vs| == 4 && k < 4 && Done(vs, done, k)
    ensures Done(vs, done[k := vs[k]], k + 1) && (k == 3 ==> done[k := vs[k]] == vs)
  {}

  lemma InhabitedNext(vs: seq<Vector>, k: nat)
    requires k < |vs|
    ensures InhabitedFrom(vs, k) <==> FirstFrom(vs[k], 0) < 256 && InhabitedFrom(vs, k + 1)
  {}

  lemma {:induction false} TextParse(vs: seq<Vector>, done: seq<Vector>, k: nat)
    requires |vs| == 4 && k < 4 && Done(vs, done, k)
    ensures ParseOctets(TextFrom(vs, k), done, k) == if InhabitedFrom(vs, k) then Some(vs) else None
    decreases 4 - k
  {
    var t := if k == 3 then "" else "." + TextFrom(vs, k + 1);
    var s := TextFrom(vs, k);
    OctetParse(vs[k], t);
    assert s == Shown(vs[k], 0, true, t) && done[k] == Empty();
    var r := ParseOctet(s, done[k]);
    ParseRound(s, done, k, r);
    DoneNext(vs, done, k);
    InhabitedNext(vs, k);
    if k < 3 {
      assert t[1..] == TextFrom(vs, k + 1);
      TextParse(vs, done[k := vs[k]], k + 1);
    }
  }

  /** Parsing the text of four octets gives them back, unless one of them is empty: then the
      text is not accepted. */
  lemma RoundTrip(vs: seq<Vector>)
    requires |vs| == 4
    ensures Parse(Text(vs)) == if AllInhabited(vs) then Some(vs) else None
  {
    assert Text(vs) == TextFrom(vs, 0) by {
      assert TextFrom(vs, 3) == Shown(vs[3], 0, true, "");
      assert TextFrom(vs, 2) == Shown(vs[2], 0, true, "." + TextFrom(vs, 3));
      assert TextFrom(vs, 1) == Shown(vs[1], 0, true, "." + TextFrom(vs, 2));
    }
    assert InhabitedFrom(vs, 0) <==> AllInhabited(vs);
    var none: seq<Vector> := [Empty(), Empty(), Empty(), Empty()];
    assert Done(vs, none, 0);
    TextParse(vs, none, 0);
  }

  // ---------- the parser ----------

  /** `parse_long` */
  method ParseLong(s: string, p: nat) returns (value: nat, tail: nat)
    requires p <= |s|
    ensures tail == p + Digits(s[p..]) && tail <= |s| && value == Number(s[p..tail])
  {
    value, tail := 0, p;
    assert s[p..p] == [];
    while tail < |s| && IsDigit(s[tail])
      invariant p <= tail <= |s| && Digits(s[p..]) == tail - p + Digits(s[tail..])
      invariant value == Number(s[p..tail])
    {
      assert s[tail..][1..] == s[tail + 1..];
      assert Init(s[p..tail + 1]) == s[p..tail] && Last(s[p..tail + 1]) == s[tail];
      value := value * 10 + (s[tail] - '0') as int;
      tail := tail + 1;
    }
  }

  method FillRange(v: array<bool>, lo: nat, hi: nat)
    requires v.Length == 256 && hi < 256
    modifies v
    ensures v[..] == SetRange(old(v[..]), lo, hi)
  {
    var i := lo;
    while i <= hi
      invariant lo <= i && (i <= hi + 1 || i == lo)
      invariant forall x: nat | x < 256 :: v[x] == (old(v[x]) || (lo <= x < i && x <= hi))
    {
      v[i] := true;
      i := i + 1;
    }
  }

  lemma Cut(s: string, p: nat, q: nat)
    requires p <= q <= |s|
    ensures s[p..][..q - p] == s[p..q] && s[p..][q - p..] == s[q..]
    ensures q < |s| ==> s[p..][q - p] == s[q] && s[p..][q - p + 1..] == s[q + 1..]
  {}

  /** A first number, without a range. */
  lemma ItemStart(s: string, p: nat, q: nat, start: nat)
    requires p <= q <= |s| && q - p == Digits(s[p..]) && start == Number(s[p..q])
    ensures (q == p && (p == |s| || s[p] != '-')) || start > 255 ==> ParseItem(s[p..]) == None
    ensures q > p && start <= 255 && (q == |s| || s[q] != '-') ==> ParseItem(s[p..]) == Some(Item(start, start, s[q..]))
  {
    Cut(s, p, q);
  }

  /** A range from a first number to a last one. */
  lemma ItemEnd(s: string, p: nat, q: nat, start: nat, r: nat, end: nat)
    requires p <= q < r <= |s| && q - p == Digits(s[p..]) && start == Number(s[p..q]) && start <= 255
    requires s[q] == '-' && r - (q + 1) == Digits(s[q + 1..]) && end == if r == q + 1 then 255 else Number(s[q + 1..r])
    ensures ParseItem(s[p..]) == if end > 255 || end < start then None else Some(Item(start, end, s[r..]))
  {
    var t, n, u, m := s[p..], q - p, s[q + 1..], r - (q + 1);
    assert t[..n] == s[p..q] && t[n] == s[q] && t[n + 1..] == u;
    assert u[..m] == s[q + 1..r] && u[m..] == s[r..];
    ItemParts(t, n, start, u, m, end);
  }

  lemma ItemParts(t: string, n: nat, start: nat, u: string, m: nat, end: nat)
    requires n < |t| && n == Digits(t) && start == Number(t[..n]) && start <= 255 && t[n] == '-' && u == t[n + 1..]
    requires m <= |u| && m == Digits(u) && end == if m == 0 then 255 else Number(u[..m])
    ensures ParseItem(t) == if end > 255 || end < start then None else Some(Item(start, end, u[m..]))
  {}

  /** One number or range */
  method ReadItem(s: string, p: nat, ghost t: string) returns (ok: bool, start: nat, end: nat, q: nat)
    requires p <= |s| && t == s[p..]
    ensures ok == ParseItem(t).Some?
    ensures ok ==> q <= |s| && ParseItem(t).value == Item(start, end, s[q..])
  {
    end := 0;
    start, q := ParseLong(s, p);
    ItemStart(s, p, q, start);
    if q == p && (p == |s| || s[p] != '-') { return false, start, end, q; }
    if start > 255 { return false, start, end, q; }
    if q < |s| && s[q] == '-' {
      var mid, from := q, q + 1;
      end, q := ParseLong(s, from);
      if q == from { end := 255; }
      ItemEnd(s, p, mid, start, q, end);
      if end > 255 || end < start { return false, start, end, q; }
    } else {
      end := start;
    }
    ok := true;
  }

  /** What parsing goes on to from position `q`. */
  function Continued(s: string, q: nat, w: Vector): Option<Parsed>
    requires q <= |s|
  {
    if q < |s| && s[q] == ',' then ParseItems(s[q + 1..], w) else Some(Parsed(w, s[q..]))
  }

  lemma ItemsStep(s: string, t: string, v: Vector, w: Vector, ok: bool, start: nat, end: nat, q: nat,
                  goal: Option<Parsed>)
    requires ParseItems(t, v) == goal && ok == ParseItem(t).Some?
    requires ok ==> q <= |s| && ParseItem(t).value == Item(start, end, s[q..]) && w == SetRange(v, start, end)
    ensures !ok ==> goal == None
    ensures ok ==> start <= end <= 255 && |s| - q < |t| && goal == Continued(s, q, w)
  {
    if ok && q < |s| { assert s[q..][1..] == s[q + 1..]; }
  }

  /** One item, and what it makes of the vector `v` */
  method ReadNext(s: string, p: nat, ghost t: string, ghost v: Vector, ghost goal: Option<Parsed>)
    returns (ok: bool, start: nat, end: nat, q: nat)
    requires p <= |s| && t == s[p..] && ParseItems(t, v) == goal
    ensures !ok ==> goal == None
    ensures ok ==> start <= end <= 255 && q <= |s| && |s| - q < |t|
    ensures ok ==> goal == Continued(s, q, SetRange(v, start, end))
  {
    ok, start, end, q := ReadItem(s, p, t);
    ItemsStep(s, t, v, SetRange(v, start, end), ok, start, end, q, goal);
  }

  /** One item, into the vector; `more` if a comma follows */
  method ReadItemInto(v: array<bool>, s: string, p: nat, ghost goal: Option<Parsed>) returns (ok: bool, q: nat,
                      more: bool)
    requires v.Length == 256 && p <= |s| && ParseItems(s[p..], v[..]) == goal
    modifies v
    ensures more ==> p < q <= |s| && ParseItems(s[q..], v[..]) == goal
    ensures !more ==> ok == goal.Some? && (ok ==> q <= |s| && goal.value == Parsed(v[..], s[q..]))
  {
    var start, end;
    ok, start, end, q := ReadNext(s, p, s[p..], v[..], goal);
    if ok { FillRange(v, start, end); }
    more := ok && q < |s| && s[q] == ',';
    if more { q := q + 1; }
  }

  /** The items of one octet */
  method ReadItems(v: array<bool>, s: string, p: nat) returns (ok: bool, q: nat)
    requires v.Length == 256 && p <= |s|
    modifies v
    ensures ok == ParseItems(s[p..], old(v[..])).Some?
    ensures ok ==> q <= |s| && ParseItems(s[p..], old(v[..])).value == Parsed(v[..], s[q..])
  {
    ghost var goal := ParseItems(s[p..], v[..]);
    q := p;
    ok := false;
    var more := true;
    while more
      invariant q <= |s| || !more
      invariant more ==> ParseItems(s[q..], v[..]) == goal
      invariant !more ==> ok == goal.Some? && (ok ==> q <= |s| && goal.value == Parsed(v[..], s[q..]))
      decreases if more then |s| - q + 1 else 0
    {
      ok, q, more := ReadItemInto(v, s, q, goal);
    }
  }

  /** One octet */
  method ReadOctet(v: array<bool>, s: string, p: nat) returns (ok: bool, q: nat)
    requires v.Length == 256 && p < |s|
    modifies v
    ensures ok == ParseOctet(s[p..], old(v[..])).Some?
    ensures ok ==> q <= |s| && ParseOctet(s[p..], old(v[..])).value == Parsed(v[..], s[q..])
  {
    if s[p] == '*' {
      FillRange(v, 0, 255);
      assert s[p..][1..] == s[p + 1..];
      ok, q := true, p + 1;
    } else {
      ok, q := ReadItems(v, s, p);
    }
  }
}
