/**
 Which target expressions are accepted and what they select (nmap/TargetGroup.cc), said without
 reference to parsing: four octets with dots between them, each a star or a list of numbers and
 ranges with commas between them.
 */
module TargetLanguage {
  import opened Wrappers
  import opened TargetText

  /** A number, or a range whose ends may be missing. */
  datatype Piece = One(a: string) | Range(a: string, b: string)

  datatype OctetText = Star | List(ps: seq<Piece>)

  predicate AllDigits(a: string) {
    forall k: nat | k < |a| :: IsDigit(a[k])
  }

  function Lowest(p: Piece): nat {
    Number(p.a)
  }

  function Highest(p: Piece): nat {
    match p
    case One(a) => Number(a)
    case Range(_, b) => if b == "" then 255 else Number(b)
  }

  predicate PieceOk(p: Piece) {
    && AllDigits(p.a) && Lowest(p) <= Highest(p) <= 255
    && match p
       case One(a) => a != ""
       case Range(_, b) => AllDigits(b)
  }

  /** The text of a piece, and then `t`. */
  function PieceThen(p: Piece, t: string): string {
    match p
    case One(a) => a + t
    case Range(a, b) => a + ("-" + (b + t))
  }

  function PiecesThen(ps: seq<Piece>, t: string): string {
    if ps == [] then t
    else if |ps| == 1 then PieceThen(ps[0], t)
    else PieceThen(ps[0], "," + PiecesThen(ps[1..], t))
  }

  predicate PiecesOk(ps: seq<Piece>) {
    forall i: nat | i < |ps| :: PieceOk(ps[i])
  }

  predicate OctetOk(o: OctetText) {
    o.List? ==> o.ps != [] && PiecesOk(o.ps)
  }

  function OctetThen(o: OctetText, t: string): string {
    match o
    case Star => "*" + t
    case List(ps) => PiecesThen(ps, t)
  }

  /** The text of some octets, with dots between them. */
  function Spelled(os: seq<OctetText>): string {
    if os == [] then ""
    else if |os| == 1 then OctetThen(os[0], "")
    else OctetThen(os[0], "." + Spelled(os[1..]))
  }

  predicate OctetsOk(os: seq<OctetText>) {
    forall i: nat | i < |os| :: OctetOk(os[i])
  }

  predicate InPiece(p: Piece, x: nat) {
    Lowest(p) <= x <= Highest(p)
  }

  /** The value is selected. */
  predicate Selects(o: OctetText, x: nat) {
    o.List? ==> exists i: nat :: i < |o.ps| && InPiece(o.ps[i], x)
  }

  predicate Means(o: OctetText, v: Vector) {
    forall x: nat | x < 256 :: v[x] <==> Selects(o, x)
  }

  // ---------- pieces ----------

  lemma PieceParsed(p: Piece, t: string)
    requires PieceOk(p) && Ends(t)
    ensures ParseItem(PieceThen(p, t)) == Some(Item(Lowest(p), Highest(p), t))
  {
    match p
    case One(a) => ItemSingle(a, t);
    case Range(a, b) =>
      var u := "-" + (b + t);
      DigitsOf(a, u);
      Prefix(a, u);
      DigitsOf(b, t);
      Prefix(b, t);
      assert (a + u)[|a| + 1..] == u[1..] == b + t;
  }

  lemma {:induction false} DigitsAre(s: string)
    ensures AllDigits(s[..Digits(s)])
    decreases s
  {
    if s != [] && IsDigit(s[0]) {
      var n := Digits(s[1..]);
      DigitsAre(s[1..]);
      assert s[..1 + n] == [s[0]] + s[1..][..n];
    }
  }

  lemma PieceFound(s: string) returns (p: Piece)
    requires ParseItem(s).Some?
    ensures PieceOk(p) && ParseItem(s) == Some(Item(Lowest(p), Highest(p), ParseItem(s).value.rest))
    ensures s == PieceThen(p, ParseItem(s).value.rest)
  {
    var n := Digits(s);
    DigitsAre(s);
    if !Starts(s[n..], '-') {
      p := One(s[..n]);
      assert s == s[..n] + s[n..];
    } else {
      var t := s[n + 1..];
      var m := Digits(t);
      DigitsAre(t);
      p := Range(s[..n], t[..m]);
      RangeText(s, n, t, m);
      assert t[..m] == "" <==> m == 0;
    }
  }

  lemma RangeText(s: string, n: nat, t: string, m: nat)
    requires n < |s| && s[n] == '-' && t == s[n + 1..] && m <= |t|
    ensures s == s[..n] + ("-" + (t[..m] + t[m..]))
  {
    assert t[..m] + t[m..] == t;
    assert s[n..] == "-" + t;
    assert s == s[..n] + s[n..];
  }

  /** The vector with the values of some pieces added. */
  function With(v: Vector, ps: seq<Piece>): Vector
    decreases ps
  {
    if ps == [] then v else With(SetRange(v, Lowest(ps[0]), Highest(ps[0])), ps[1..])
  }

  predicate InPieces(ps: seq<Piece>, x: nat) {
    exists i: nat :: i < |ps| && InPiece(ps[i], x)
  }

  lemma {:induction false} WithMeans(v: Vector, ps: seq<Piece>, x: nat)
    requires x < 256
    ensures With(v, ps)[x] <==> v[x] || InPieces(ps, x)
    decreases ps
  {
    if ps != [] {
      var w := SetRange(v, Lowest(ps[0]), Highest(ps[0]));
      WithMeans(w, ps[1..], x);
      if InPieces(ps[1..], x) {
        var i: nat :| i < |ps[1..]| && InPiece(ps[1..][i], x);
        assert InPiece(ps[i + 1], x);
      }
      if InPieces(ps, x) {
        var i: nat :| i < |ps| && InPiece(ps[i], x);
        if i > 0 { assert InPiece(ps[1..][i - 1], x); }
      }
    }
  }

  /** What may follow an octet. */
  predicate OctetEnds(t: string) {
    t == "" || t[0] == '.'
  }

  lemma {:induction false} PiecesParsed(ps: seq<Piece>, t: string, v: Vector)
    requires ps != [] && PiecesOk(ps) && OctetEnds(t)
    ensures ParseItems(PiecesThen(ps, t), v) == Some(Parsed(With(v, ps), t))
    decreases ps
  {
    var p, rest := ps[0], ps[1..];
    var w := SetRange(v, Lowest(p), Highest(p));
    if |ps| == 1 {
      PieceParsed(p, t);
      assert rest == [] && With(w, rest) == w;
      ItemThen(PieceThen(p, t), v, p, t);
    } else {
      var u := PiecesThen(rest, t);
      PieceParsed(p, "," + u);
      PiecesParsed(rest, t, w);
      ItemThen(PieceThen(p, "," + u), v, p, "," + u);
      assert ("," + u)[1..] == u;
    }
  }

  lemma ItemThen(s: string, v: Vector, p: Piece, t: string)
    requires ParseItem(s) == Some(Item(Lowest(p), Highest(p), t))
    ensures ParseItems(s, v) == After(t, SetRange(v, Lowest(p), Highest(p)))
  {}

  lemma FirstFound(s: string, v: Vector) returns (p: Piece, t: string)
    requires ParseItems(s, v).Some?
    ensures PieceOk(p) && s == PieceThen(p, t) && |t| < |s|
    ensures ParseItems(s, v) == After(t, SetRange(v, Lowest(p), Highest(p)))
  {
    p := PieceFound(s);
    t := ParseItem(s).value.rest;
    ItemThen(s, v, p, t);
  }

  lemma {:induction false} PiecesFound(s: string, v: Vector) returns (ps: seq<Piece>)
    requires ParseItems(s, v).Some?
    ensures ps != [] && PiecesOk(ps)
    ensures var r := ParseItems(s, v).value; s == PiecesThen(ps, r.rest) && r.v == With(v, ps)
    decreases |s|
  {
    var p, t := FirstFound(s, v);
    var w := SetRange(v, Lowest(p), Highest(p));
    if Starts(t, ',') {
      var rest := PiecesFound(t[1..], w);
      ps := [p] + rest;
      assert ps[1..] == rest && t == "," + t[1..];
    } else {
      ps := [p];
      assert ps[1..] == [] && With(w, []) == w;
    }
  }

  // ---------- octets ----------

  function OctetWith(v: Vector, o: OctetText): Vector {
    match o
    case Star => SetRange(v, 0, 255)
    case List(ps) => With(v, ps)
  }

  lemma NoStar(ps: seq<Piece>, t: string)
    requires ps != [] && PiecesOk(ps)
    ensures PiecesThen(ps, t) != "" && !Starts(PiecesThen(ps, t), '*')
  {
    var p := ps[0];
    assert PieceOk(p);
    var u := if |ps| == 1 then t else "," + PiecesThen(ps[1..], t);
    assert PiecesThen(ps, t) == PieceThen(p, u);
    if p.a != "" {
      assert PieceThen(p, u)[0] == p.a[0] && IsDigit(p.a[0]);
    } else {
      assert PieceThen(p, u)[0] == '-';
    }
  }

  lemma OctetParsed(o: OctetText, t: string, v: Vector)
    requires OctetOk(o) && OctetEnds(t)
    ensures OctetThen(o, t) != "" && ParseOctet(OctetThen(o, t), v) == Some(Parsed(OctetWith(v, o), t))
  {
    match o
    case Star => assert ("*" + t)[1..] == t;
    case List(ps) =>
      NoStar(ps, t);
      PiecesParsed(ps, t, v);
  }

  lemma OctetFound(s: string, v: Vector) returns (o: OctetText)
    requires ParseOctet(s, v).Some?
    ensures OctetOk(o)
    ensures var r := ParseOctet(s, v).value; s == OctetThen(o, r.rest) && r.v == OctetWith(v, o)
  {
    if Starts(s, '*') {
      o := Star;
      assert s == "*" + s[1..];
    } else {
      var ps := PiecesFound(s, v);
      o := List(ps);
    }
  }

  /** The vectors with the octets from the `k`-th on filled in. */
  predicate Filled(vs: seq<Vector>, ws: seq<Vector>, os: seq<OctetText>, k: nat) {
    && |vs| == |ws| == 4 && k + |os| == 4
    && forall j: nat | j < 4 :: ws[j] == if j < k then vs[j] else OctetWith(vs[j], os[j - k])
  }

  lemma {:induction false} OctetsParsed(os: seq<OctetText>, vs: seq<Vector>, ws: seq<Vector>, k: nat)
    requires k < 4 && OctetsOk(os) && Filled(vs, ws, os, k)
    ensures ParseOctets(Spelled(os), vs, k) == Some(ws)
    decreases 4 - k
  {
    var t := if k == 3 then "" else "." + Spelled(os[1..]);
    var s := OctetThen(os[0], t);
    assert s == Spelled(os);
    OctetParsed(os[0], t, vs[k]);
    var v' := vs[k := OctetWith(vs[k], os[0])];
    ParseRound(s, vs, k, ParseOctet(s, vs[k]));
    if k < 3 {
      assert t[1..] == Spelled(os[1..]);
      assert Filled(v', ws, os[1..], k + 1);
      OctetsParsed(os[1..], v', ws, k + 1);
    } else {
      assert ws == v';
    }
  }

  lemma {:induction false} OctetsFound(s: string, vs: seq<Vector>, k: nat) returns (os: seq<OctetText>)
    requires |vs| == 4 && k < 4 && ParseOctets(s, vs, k).Some?
    ensures OctetsOk(os) && s == Spelled(os) && Filled(vs, ParseOctets(s, vs, k).value, os, k)
    decreases 4 - k
  {
    var r := ParseOctet(s, vs[k]);
    ParseRound(s, vs, k, r);
    var o := OctetFound(s, vs[k]);
    var v' := vs[k := r.value.v];
    if k == 3 {
      os := [o];
    } else {
      var t := r.value.rest;
      var rest := OctetsFound(t[1..], v', k + 1);
      os := [o] + rest;
      assert os[1..] == rest && t == "." + t[1..] && |os| > 1;
    }
  }

  // ---------- expressions ----------

  /** The text is spelled like this, and the vectors hold what it selects. */
  predicate Expresses(os: seq<OctetText>, s: string, vs: seq<Vector>) {
    && |os| == |vs| == 4 && OctetsOk(os) && s == Spelled(os)
    && forall k: nat | k < 4 :: Means(os[k], vs[k])
  }

  lemma OctetMeans(o: OctetText, v: Vector)
    ensures OctetWith(Empty(), o) == v <==> Means(o, v)
  {
    var w := OctetWith(Empty(), o);
    forall x: nat | x < 256 ensures w[x] <==> Selects(o, x) {
      if o.List? { WithMeans(Empty(), o.ps, x); }
    }
  }

  lemma ParsedSpelled(s: string, vs: seq<Vector>, none: seq<Vector>) returns (os: seq<OctetText>)
    requires none == [Empty(), Empty(), Empty(), Empty()] && ParseOctets(s, none, 0) == Some(vs)
    ensures Expresses(os, s, vs)
  {
    os := OctetsFound(s, none, 0);
    forall k: nat | k < 4 ensures Means(os[k], vs[k]) { OctetMeans(os[k], vs[k]); }
  }

  lemma SpelledParsed(os: seq<OctetText>, s: string, vs: seq<Vector>, none: seq<Vector>)
    requires none == [Empty(), Empty(), Empty(), Empty()] && Expresses(os, s, vs)
    ensures ParseOctets(s, none, 0) == Some(vs)
  {
    forall k: nat | k < 4 ensures vs[k] == OctetWith(none[k], os[k]) { OctetMeans(os[k], vs[k]); }
    assert Filled(none, vs, os, 0);
    OctetsParsed(os, none, vs, 0);
  }

  /** A text is accepted exactly if it can be spelled as four octets, and the vectors then hold exactly
      what the octets select. */
  lemma ParseExact(s: string, vs: seq<Vector>)
    ensures Parse(s) == Some(vs) <==> exists os :: Expresses(os, s, vs)
  {
    var none: seq<Vector> := [Empty(), Empty(), Empty(), Empty()];
    if Parse(s) == Some(vs) {
      var os := ParsedSpelled(s, vs, none);
    }
    if os: seq<OctetText> :| Expresses(os, s, vs) { SpelledParsed(os, s, vs, none); }
  }

  /** Every spelling of four octets is accepted. */
  lemma SpelledAccepted(os: seq<OctetText>)
    requires |os| == 4 && OctetsOk(os)
    ensures Parse(Spelled(os)).Some?
  {
    var none: seq<Vector> := [Empty(), Empty(), Empty(), Empty()];
    var vs := seq(4, k requires 0 <= k < 4 => OctetWith(none[k], os[k]));
    OctetsParsed(os, none, vs, 0);
  }
}
