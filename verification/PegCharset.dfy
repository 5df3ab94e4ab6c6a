/** Character sets as the library stores them, 256 bits in 32 bytes, and their classification
    (`charsettype` of nmap/lpeg.c). */
module PegCharset {
  import opened PegTree
  import opened PegCode

  const CHARSETSIZE: nat := 32
  const BITSPERCHAR: nat := 8

  function Mask(k: nat): bv8 {
    match k
    case 0 => 0x01
    case 1 => 0x02
    case 2 => 0x04
    case 3 => 0x08
    case 4 => 0x10
    case 5 => 0x20
    case 6 => 0x40
    case _ => 0x80
  }

  predicate Bit(b: bv8, k: nat) {
    b & Mask(k) != 0
  }

  /** `testchar` */
  predicate TestChar(cs: seq<bv8>, c: Byte)
    requires |cs| == CHARSETSIZE
  {
    Bit(cs[c / BITSPERCHAR], c % BITSPERCHAR)
  }

  function SetOf(cs: seq<bv8>): Charset
    requires |cs| == CHARSETSIZE
  {
    set c: Byte | 0 <= c < 256 && TestChar(cs, c)
  }

  lemma InSet(cs: seq<bv8>, j: nat, k: nat)
    requires |cs| == CHARSETSIZE && j < CHARSETSIZE && k < BITSPERCHAR
    ensures j * BITSPERCHAR + k in SetOf(cs) <==> Bit(cs[j], k)
  {
    var c: Byte := j * BITSPERCHAR + k;
    assert c / BITSPERCHAR == j && c % BITSPERCHAR == k;
  }

  // ---------- bits of a byte ----------

  function SomeBit(b: bv8): (k: nat)
    requires b != 0
    ensures k < 8 && Bit(b, k)
  {
    if Bit(b, 0) then 0 else if Bit(b, 1) then 1 else if Bit(b, 2) then 2 else if Bit(b, 3) then 3
    else if Bit(b, 4) then 4 else if Bit(b, 5) then 5 else if Bit(b, 6) then 6 else 7
  }

  function MissingBit(b: bv8): (k: nat)
    requires b != 0xFF
    ensures k < 8 && !Bit(b, k)
  {
    if !Bit(b, 0) then 0 else if !Bit(b, 1) then 1 else if !Bit(b, 2) then 2 else if !Bit(b, 3) then 3
    else if !Bit(b, 4) then 4 else if !Bit(b, 5) then 5 else if !Bit(b, 6) then 6 else 7
  }

  /** The test for a single bit. */
  predicate OneBit(b: bv8) {
    b != 0 && b & (b - 1) == 0
  }

  function OtherBit(b: bv8): (k: nat)
    requires b != 0 && !OneBit(b)
    ensures k < 8 && Bit(b, k) && k != SomeBit(b)
  {
    if Bit(b, 7) then 7 else if Bit(b, 6) then 6 else if Bit(b, 5) then 5 else if Bit(b, 4) then 4
    else if Bit(b, 3) then 3 else if Bit(b, 2) then 2 else if Bit(b, 1) then 1 else 0
  }

  lemma OneBitOnly(b: bv8, k: nat)
    requires OneBit(b) && k < 8
    ensures Bit(b, k) <==> k == SomeBit(b)
  {}

  // ---------- kinds of sets ----------

  lemma KindOne(c: Byte)
    ensures Classify({c}) == OneChar(c)
  {}

  lemma KindOther(cs: Charset, x: Byte, y: Byte, z: Byte)
    requires x in cs && y in cs && x != y && z !in cs
    ensures Classify(cs) == OtherSet
  {
    if |cs| == 1 { SameElement(cs, x, y); }
  }

  lemma KindAll()
    ensures Classify(FULL) == AllChars
  {
    var a: Byte, b: Byte := 0, 1;
    assert a in FULL && b in FULL;
    if |FULL| == 1 { SameElement(FULL, a, b); }
  }

  /** The position of the only bit of a byte */
  method BitPosition(b: bv8) returns (k: nat)
    requires OneBit(b)
    ensures k == SomeBit(b)
  {
    var r := b;
    k := 0;
    if r & 0xF0 != 0 { k := k + 4; r := r >> 4; }
    if r & 0x0C != 0 { k := k + 2; r := r >> 2; }
    if r & 0x02 != 0 { k := k + 1; }
  }

  /** What `count` and `candidate` say about the first `i` bytes: all are zero, or one of them
      has a single bit and the others are zero, or all are full. */
  ghost predicate SoFar(s: seq<bv8>, i: nat, count: nat, candidate: int)
    requires |s| == CHARSETSIZE && i <= CHARSETSIZE
  {
    if count == 0 then Zeros(s, i, -1)
    else if count == 1 then 0 <= candidate < i && OneBit(s[candidate]) && Zeros(s, i, candidate)
    else count == i * BITSPERCHAR && forall j: nat | j < i :: s[j] == 0xFF
  }

  ghost predicate Zeros(s: seq<bv8>, i: nat, except: int)
    requires i <= |s|
  {
    forall j: nat | j < i && j != except :: s[j] == 0
  }

  /** The next byte goes on with what was found before. */
  predicate Continues(b: bv8, i: nat, count: nat) {
    if b == 0 then count <= 1
    else if b == 0xFF then count >= i * BITSPERCHAR
    else OneBit(b) && count == 0
  }

  lemma StopHere(s: seq<bv8>, i: nat, count: nat, candidate: int)
    requires |s| == CHARSETSIZE && i < CHARSETSIZE && SoFar(s, i, count, candidate)
    requires !Continues(s[i], i, count)
    ensures Classify(SetOf(s)) == OtherSet
  {
    var b := s[i];
    if b == 0 {
      Other(s, 0, 0, 0, 1, i, 0);
    } else if b == 0xFF {
      if count == 1 {
        Other(s, i, 0, i, 1, candidate, MissingBit(s[candidate]));
      } else {
        Other(s, i, 0, i, 1, 0, 0);
      }
    } else if !OneBit(b) {
      Other(s, i, SomeBit(b), i, OtherBit(b), i, MissingBit(b));
    } else if count == 1 {
      Other(s, candidate, SomeBit(s[candidate]), i, SomeBit(b), i, MissingBit(b));
    } else {
      Other(s, 0, 0, 0, 1, i, MissingBit(b));
    }
  }

  lemma GoOn(s: seq<bv8>, i: nat, count: nat, candidate: int)
    requires |s| == CHARSETSIZE && i < CHARSETSIZE && SoFar(s, i, count, candidate)
    requires Continues(s[i], i, count)
    ensures var b := s[i];
            if b == 0 then SoFar(s, i + 1, count, candidate)
            else if b == 0xFF then SoFar(s, i + 1, count + BITSPERCHAR, candidate)
            else SoFar(s, i + 1, count + 1, i)
  {}

  lemma Found(s: seq<bv8>, count: nat, candidate: int)
    requires |s| == CHARSETSIZE && SoFar(s, CHARSETSIZE, count, candidate)
    ensures count == 0 ==> Classify(SetOf(s)) == EmptySet
    ensures count == 1 ==> Classify(SetOf(s)) == OneChar(candidate * BITSPERCHAR + SomeBit(s[candidate]))
    ensures count > 1 ==> Classify(SetOf(s)) == AllChars
  {
    if count == 0 {
      NoBits(s);
    } else if count == 1 {
      SingleBit(s, candidate);
      KindOne(candidate * BITSPERCHAR + SomeBit(s[candidate]));
    } else {
      AllBits(s);
      KindAll();
    }
  }

  /** `charsettype` */
  method CharsetType(cs: seq<bv8>) returns (kind: CharsetKind)
    requires |cs| == CHARSETSIZE
    ensures kind == Classify(SetOf(cs))
  {
    var count, candidate, i := 0, -1, 0;
    while i < CHARSETSIZE
      invariant i <= CHARSETSIZE && count >= 0 && SoFar(cs, i, count, candidate)
    {
      var b := cs[i];
      if Continues(b, i, count) { GoOn(cs, i, count, candidate); } else { StopHere(cs, i, count, candidate); }
      if b == 0 {
        if count > 1 { return OtherSet; }
      } else if b == 0xFF {
        if count < i * BITSPERCHAR { return OtherSet; }
        count := count + BITSPERCHAR;
      } else if b & (b - 1) == 0 {
        if count > 0 { return OtherSet; }
        count := count + 1;
        candidate := i;
      } else {
        return OtherSet;
      }
      i := i + 1;
    }
    Found(cs, count, candidate);
    if count == 0 {
      kind := EmptySet;
    } else if count == 1 {
      var k := BitPosition(cs[candidate]);
      kind := OneChar(candidate * BITSPERCHAR + k);
    } else {
      kind := AllChars;
    }
  }

  /** Two characters of the set, and one that is not in it. */
  lemma Other(s: seq<bv8>, j1: nat, k1: nat, j2: nat, k2: nat, j3: nat, k3: nat)
    requires |s| == CHARSETSIZE && j1 < CHARSETSIZE && j2 < CHARSETSIZE && j3 < CHARSETSIZE
    requires k1 < BITSPERCHAR && k2 < BITSPERCHAR && k3 < BITSPERCHAR && (j1 != j2 || k1 != k2)
    requires Bit(s[j1], k1) && Bit(s[j2], k2) && !Bit(s[j3], k3)
    ensures Classify(SetOf(s)) == OtherSet
  {
    InSet(s, j1, k1);
    InSet(s, j2, k2);
    InSet(s, j3, k3);
    KindOther(SetOf(s), j1 * BITSPERCHAR + k1, j2 * BITSPERCHAR + k2, j3 * BITSPERCHAR + k3);
  }

  lemma NoBits(s: seq<bv8>)
    requires |s| == CHARSETSIZE && forall j: nat | j < CHARSETSIZE :: s[j] == 0
    ensures SetOf(s) == {}
  {}

  lemma SingleBit(s: seq<bv8>, candidate: nat)
    requires |s| == CHARSETSIZE && candidate < CHARSETSIZE && OneBit(s[candidate])
    requires forall j: nat | j < CHARSETSIZE && j != candidate :: s[j] == 0
    ensures SetOf(s) == {candidate * BITSPERCHAR + SomeBit(s[candidate])}
  {
    var x := candidate * BITSPERCHAR + SomeBit(s[candidate]);
    InSet(s, candidate, SomeBit(s[candidate]));
    forall c: Byte | c in SetOf(s) ensures c == x {
      if c / BITSPERCHAR == candidate { OneBitOnly(s[candidate], c % BITSPERCHAR); }
    }
  }

  lemma AllBits(s: seq<bv8>)
    requires |s| == CHARSETSIZE && forall j: nat | j < CHARSETSIZE :: s[j] == 0xFF
    ensures SetOf(s) == FULL
  {}
}
