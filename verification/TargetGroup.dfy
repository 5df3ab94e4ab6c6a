/** Target expressions as a whole: parsing, netmask, enumeration and printing together
    (nmap/TargetGroup.cc). */
module TargetGroup {
  import opened Wrappers
  import opened TargetOctet
  import opened TargetOrder
  import opened TargetNetmask
  import opened TargetBlock
  import opened TargetText

  /** The vectors of a block, as values. */
  ghost function State(block: NetBlockIPv4Ranges): (vs: seq<Vector>)
    requires block.Apart()
    reads block.octets
    ensures |vs| == 4 && vs == block.Vectors()
  {
    [block.octets[0][..], block.octets[1][..], block.octets[2][..], block.octets[3][..]]
  }

  /** One octet of a block; the others stay as they are */
  method ReadInto(block: NetBlockIPv4Ranges, k: nat, spec: string, p: nat) returns (ok: bool, q: nat)
    requires block.Apart() && k < 4 && p < |spec|
    modifies block.octets
    ensures ok == ParseOctet(spec[p..], old(State(block))[k]).Some?
    ensures ok ==> q <= |spec| && ParseOctet(spec[p..], old(State(block))[k]).value.rest == spec[q..]
    ensures ok ==> State(block) == old(State(block))[k := ParseOctet(spec[p..], old(State(block))[k]).value.v]
  {
    ghost var vs := State(block);
    ok, q := ReadOctet(block.octets[k], spec, p);
    forall j: nat | j < 4 && j != k ensures block.octets[j][..] == vs[j] {
      assert block.octets[j] != block.octets[k];
    }
  }

  /** What is left to parse after the `k`-th octet. */
  lemma OctetStep(spec: string, s: string, q: nat, vs: seq<Vector>, ws: seq<Vector>, k: nat, ok: bool)
    requires |vs| == 4 && k < 4 && ok == ParseOctet(s, vs[k]).Some?
    requires ok ==> q <= |spec| && ParseOctet(s, vs[k]).value.rest == spec[q..]
    requires ok ==> ws == vs[k := ParseOctet(s, vs[k]).value.v]
    ensures !ok ==> ParseOctets(s, vs, k) == None
    ensures ok && k == 3 ==> ParseOctets(s, vs, k) == if q == |spec| then Some(ws) else None
    ensures ok && k < 3 ==>
              ParseOctets(s, vs, k) == if q
                  == |spec| || spec[q] != '.' then None else ParseOctets(spec[q + 1..], ws, k + 1)
  {
    ParseRound(s, vs, k, ParseOctet(s, vs[k]));
    if ok && q < |spec| { assert spec[q..][1..] == spec[q + 1..]; }
  }

  /** `parse_ipv4_ranges` */
  method ParseIPv4Ranges(block: NetBlockIPv4Ranges, spec: string) returns (ok: bool)
    requires block.Apart()
    modifies block.octets
    ensures ok == ParseOctets(spec, old(State(block)), 0).Some?
    ensures ok ==> ParseOctets(spec, old(State(block)), 0) == Some(State(block))
  {
    ghost var goal := ParseOctets(spec, State(block), 0);
    var p: nat, k: nat := 0, 0;
    assert spec[0..] == spec;
    while p < |spec| && k < 4
      invariant p <= |spec| && k <= 4
      invariant if k < 4 then ParseOctets(spec[p..], State(block), k) == goal
                else goal == if p == |spec| then Some(State(block)) else None
      decreases 4 - k
    {
      ghost var vs, s := State(block), spec[p..];
      ok, p := ReadInto(block, k, spec, p);
      OctetStep(spec, s, p, vs, State(block), k, ok);
      if !ok { return; }
      k := k + 1;
      if k < 4 {
        if p == |spec| || spec[p] != '.' { return false; }
        p := p + 1;
      }
    }
    if k < 4 { assert spec[p..] == []; }
    ok := p == |spec| && k == 4;
  }

  // ---------- printing ----------

  function Comma(first: bool): string {
    if first then "" else ","
  }

  lemma RunTextTail(a: nat, b: nat, t: string)
    requires a < b
    ensures RunText(a, b, t) == RunText(a, b, "") + t
  {
    assert Dec(a) + ("," + (Dec(b - 1) + t)) == Dec(a) + ("," + (Dec(b - 1) + "")) + t;
    assert Dec(a) + ("-" + (Dec(b - 1) + t)) == Dec(a) + ("-" + (Dec(b - 1) + "")) + t;
    assert Dec(a) + t == Dec(a) + "" + t;
  }

  lemma Assoc(c: string, run: string, rest: string, t: string)
    ensures c + (run + (rest + t)) == c + run + rest + t && c + (run + rest) == c + run + rest
  {}

  lemma ShownCase(v: Vector, i: nat, first: bool, t: string)
    requires i <= 256
    ensures var a := FirstFrom(v, i);
            if a >= 256 then Shown(v, i, first, t) == t
            else
              var b := ClearFrom(v, a + 1);
              b > i && Shown(v, i, first, t) == Comma(first) + RunText(a, b, Shown(v, b, false, t))
  {}

  /** One more run in front of the rest. */
  lemma ShownStep(v: Vector, i: nat, first: bool, a: nat, b: nat)
    requires i <= 256 && a == FirstFrom(v, i) && a < 256 && b == ClearFrom(v, a + 1)
    ensures Shown(v, i, first, "") == Comma(first) + RunText(a, b, "") + Shown(v, b, false, "")
  {
    ShownCase(v, i, first, "");
    var rest := Shown(v, b, false, "");
    RunTextTail(a, b, rest);
    Assoc(Comma(first), RunText(a, b, ""), rest, "");
  }

  lemma RunJoin(first: bool, a: nat, b: nat, rest: string, t: string, s: string, s0: string)
    requires a < b && s == Comma(first) + RunText(a, b, rest + t) && s0 == Comma(first) + RunText(a, b, "") + rest
    ensures s == s0 + t
  {
    RunTextTail(a, b, rest + t);
    Assoc(Comma(first), RunText(a, b, ""), rest, t);
  }

  lemma {:induction false} ShownTail(v: Vector, i: nat, first: bool, t: string)
    requires i <= 256
    ensures Shown(v, i, first, t) == Shown(v, i, first, "") + t
    decreases 256 - i
  {
    ShownCase(v, i, first, t);
    var a := FirstFrom(v, i);
    if a < 256 {
      var b := ClearFrom(v, a + 1);
      ShownTail(v, b, false, t);
      ShownStep(v, i, first, a, b);
      RunJoin(first, a, b, Shown(v, b, false, ""), t, Shown(v, i, first, t), Shown(v, i, first, ""));
    } else {
      ShownCase(v, i, first, "");
    }
  }

  method AppendRun(result: string, a: nat, b: nat) returns (r: string)
    requires a < b
    ensures r == result + Comma(result == "") + RunText(a, b, "") && r != ""
  {
    r := if result != "" then result + "," else result;
    ghost var s := r;
    if a == b - 1 {
      r := r + Dec(a);
    } else if a + 1 == b - 1 {
      r := r + Dec(a) + "," + Dec(b - 1);
      assert s + Dec(a) + "," + Dec(b - 1) == s + (Dec(a) + ("," + (Dec(b - 1) + "")));
    } else {
      r := r + Dec(a) + "-" + Dec(b - 1);
      assert s + Dec(a) + "-" + Dec(b - 1) == s + (Dec(a) + ("-" + (Dec(b - 1) + "")));
    }
  }

  /** The end of the run that starts at `a` */
  method RunEnd(v: array<bool>, a: nat) returns (b: nat)
    requires v.Length == 256 && a < 256
    ensures b == ClearFrom(v[..], a + 1)
  {
    ghost var s := v[..];
    b := a + 1;
    while b < 256 && v[b]
      invariant a < b <= 256 && ClearFrom(s, b) == ClearFrom(s, a + 1)
    {
      assert s[b];
      b := b + 1;
    }
    assert b < 256 ==> !s[b];
  }

  /** `bitvector_to_range_string` */
  method BitvectorToRangeString(v: array<bool>) returns (result: string)
    requires v.Length == 256
    ensures result == Shown(v[..], 0, true, "")
  {
    ghost var s := v[..];
    result := "";
    var i := 0;
    while i < 256
      invariant i <= 256 && result + Shown(s, i, result == "", "") == Shown(s, 0, true, "")
    {
      var a := SettleAt(v, i);
      assert a == FirstFrom(s, i);
      ShownCase(s, i, result == "", "");
      if a >= 256 { break; }
      var b := RunEnd(v, a);
      ghost var rest := Shown(s, b, false, "");
      ShownStep(s, i, result == "", a, b);
      Assoc(result, Comma(result == ""), RunText(a, b, ""), rest);
      Assoc(Comma(result == ""), RunText(a, b, ""), rest, "");
      result := AppendRun(result, a, b);
      i := b;
    }
    ShownCase(s, i, result == "", "");
  }

  /** `str` */
  method Str(block: NetBlockIPv4Ranges) returns (s: string)
    requires block.Apart()
    ensures s == Text(State(block))
  {
    var s0 := BitvectorToRangeString(block.octets[0]);
    var s1 := BitvectorToRangeString(block.octets[1]);
    var s2 := BitvectorToRangeString(block.octets[2]);
    var s3 := BitvectorToRangeString(block.octets[3]);
    s := s0 + "." + s1 + "." + s2 + "." + s3;
    TextJoins(State(block));
  }

  lemma Dots(s0: string, s1: string, s2: string, s3: string)
    ensures s0 + ("." + (s1 + ("." + (s2 + ("." + s3))))) == s0 + "." + s1 + "." + s2 + "." + s3
  {}

  lemma TextJoins(vs: seq<Vector>)
    requires |vs| == 4
    ensures Text(vs) == Shown(vs[0], 0, true, "") + "." + Shown(vs[1], 0, true, "") + "."
                        + Shown(vs[2], 0, true, "") + "." + Shown(vs[3], 0, true, "")
  {
    var s0, s1 := Shown(vs[0], 0, true, ""), Shown(vs[1], 0, true, "");
    var s2, s3 := Shown(vs[2], 0, true, ""), Shown(vs[3], 0, true, "");
    ShownTail(vs[2], 0, true, "." + s3);
    ShownTail(vs[1], 0, true, "." + (s2 + ("." + s3)));
    ShownTail(vs[0], 0, true, "." + (s1 + ("." + (s2 + ("." + s3)))));
    Dots(s0, s1, s2, s3);
  }

  /** Printing a block and parsing the text into a new one gives the same vectors, exactly when
      no octet of the block is empty. */
  method Reparse(block: NetBlockIPv4Ranges) returns (ok: bool, copy: NetBlockIPv4Ranges)
    requires block.Apart()
    ensures fresh(copy) && copy.Apart()
    ensures ok == AllInhabited(State(block)) && (ok ==> State(copy) == State(block))
  {
    var s := Str(block);
    copy := new NetBlockIPv4Ranges();
    RoundTrip(State(block));
    EmptyState(copy);
    ok := ParseIPv4Ranges(copy, s);
  }

  lemma EmptyState(block: NetBlockIPv4Ranges)
    requires block.Apart() && forall k: nat, x: Octet | k < 4 :: !block.octets[k][x]
    ensures State(block) == [Empty(), Empty(), Empty(), Empty()]
  {
    forall k: nat | k < 4 ensures State(block)[k] == Empty() {}
  }

  /** The number is an address that shares its first bits with one that the vectors select. */
  ghost predicate IsTarget(vs: seq<Vector>, bits: int, n: nat)
    requires |vs| == 4 && bits <= 32
  {
    exists a: Address :: TargetAs(vs, a, bits, n)
  }

  ghost predicate TargetAs(vs: seq<Vector>, a: Address, bits: int, n: nat)
    requires bits <= 32
  {
    |a| == 4 && Value(a) == n && NearOne(vs, a, 32 - PrefixLength(bits))
  }

  /** An expression with `bits` after the slash (-1 without a slash; too many stand for none):
      the addresses that all calls of `next` return. */
  method Targets(spec: string, bits: int) returns (ok: bool, list: seq<nat>)
    ensures ok == Parse(spec).Some?
    ensures ok ==> forall i: nat, j: nat | i < j < |list| :: list[i] < list[j]
    ensures ok ==> forall n: nat :: n in list <==> IsTarget(Parse(spec).value, if bits > 32 then -1 else bits, n)
  {
    list := [];
    var block := new NetBlockIPv4Ranges();
    EmptyState(block);
    ok := ParseIPv4Ranges(block, spec);
    if ok {
      ghost var vs := State(block);
      var b := if bits > 32 then -1 else bits;
      block.ApplyNetmask(b);
      list := block.Enumerate();
      WidenedTargets(vs, State(block), b);
    }
  }

  lemma WidenedTargets(vs: seq<Vector>, ws: seq<Vector>, bits: int)
    requires |vs| == 4 == |ws| && bits <= 32 && Widened(vs, ws, 32 - PrefixLength(bits))
    ensures forall n: nat :: IsSelected(ws, n) <==> IsTarget(vs, bits, n)
  {
    forall n: nat ensures IsSelected(ws, n) <==> IsTarget(vs, bits, n) {
      if IsSelected(ws, n) {
        var a: Address :| SelectedAs(ws, a, n);
        assert TargetAs(vs, a, bits, n);
      }
      if IsTarget(vs, bits, n) {
        var a: Address :| TargetAs(vs, a, bits, n);
        assert SelectedAs(ws, a, n);
      }
    }
  }
}
