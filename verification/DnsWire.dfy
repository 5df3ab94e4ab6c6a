/** DNS names and requests as bytes (`putDomainName`, `parseDomainName`, `buildSimpleRequest` and
    the parsers of nmap/nmap_dns.cc; sections 4.1.1 to 4.1.4 of RFC 1035). */
module DnsWire {
  import opened Wrappers
  import opened TargetOctet
  import opened DnsPtr

  type Byte = Octet

  // ---------- names ----------

  /** All characters are bytes, and none is a dot. */
  predicate IsLabel(l: string) {
    NoDot(l) && IsText(l)
  }

  predicate IsText(l: string) {
    forall k: nat | k < |l| :: (l[k] as int) < 256
  }

  function Bytes(l: string): (b: seq<Byte>)
    requires IsText(l)
    ensures |b| == |l|
  {
    seq(|l|, k requires 0 <= k < |l| => l[k] as int)
  }

  function Chars(b: seq<Byte>): (l: string)
    ensures |l| == |b|
  {
    seq(|b|, k requires 0 <= k < |b| => b[k] as char)
  }

  lemma CharsBytes(l: string)
    requires IsText(l)
    ensures Chars(Bytes(l)) == l
  {}

  /** What `putDomainName` writes for the rest `s` of a name, after the characters `acc` of a
      label.  The length of a label is kept in one byte. */
  function PutText(s: string, acc: string): seq<Byte>
    requires IsText(s) && IsText(acc)
    decreases s
  {
    if s == "" then []
    else if s[0] == '.' then
      var n := |acc| % 256;
      [n] + Bytes(acc[..n]) + PutText(s[1..], "")
    else PutText(s[1..], acc + [s[0]])
  }

  function PutName(name: string): seq<Byte>
    requires IsText(name)
  {
    PutText(name + ".", "") + [0]
  }

  /** The labels of a name, with a dot after each. */
  function Dots(ls: seq<string>): string {
    if ls == [] then "" else ls[0] + "." + Dots(ls[1..])
  }

  /** The name with these labels. */
  function JoinLabels(ls: seq<string>): string {
    if ls == [] then "" else if |ls| == 1 then ls[0] else ls[0] + "." + JoinLabels(ls[1..])
  }

  /** Any labels: the pieces of a text between its dots. */
  predicate AreLabels(ls: seq<string>) {
    forall l | l in ls :: IsLabel(l)
  }

  /** Labels that a length byte can describe: not empty, and not a pointer. */
  predicate IsLabels(ls: seq<string>) {
    forall l | l in ls :: IsLabel(l) && 1 <= |l| < 192
  }

  /** A label with its length before it, as far as the length fits into a byte. */
  function LabelBytes(l: string): (b: seq<Byte>)
    requires IsLabel(l)
    ensures |b| == 1 + |l| % 256
  {
    [|l| % 256] + Bytes(l[..|l| % 256])
  }

  function Encode(ls: seq<string>): seq<Byte>
    requires AreLabels(ls)
  {
    if ls == [] then [] else LabelBytes(ls[0]) + Encode(ls[1..])
  }

  lemma {:induction false} PutLabel(l: string, t: string, acc: string)
    requires IsLabel(l) && IsText(t) && IsText(acc)
    ensures PutText(l + t, acc) == PutText(t, acc + l)
    decreases l
  {
    if l == "" {
      assert l + t == t && acc + l == acc;
    } else {
      assert (l + t)[1..] == l[1..] + t;
      PutLabel(l[1..], t, acc + [l[0]]);
      assert acc + [l[0]] + l[1..] == acc + l;
    }
  }

  /** `Encode`, in statements that do not look into it. */
  function Encoded(ls: seq<string>): seq<Byte>
    requires AreLabels(ls)
  {
    Encode(ls)
  }

  lemma PutDot(l: string, t: string)
    requires IsLabel(l) && IsText(t)
    ensures PutText(l + ("." + t), "") == LabelBytes(l) + PutText(t, "")
  {
    PutLabel(l, "." + t, "");
    assert "" + l == l && ("." + t)[1..] == t;
  }

  lemma EncodeCons(ls: seq<string>)
    requires AreLabels(ls) && ls != []
    ensures AreLabels(ls[1..]) && IsLabel(ls[0])
    ensures IsLabels(ls) ==> IsLabels(ls[1..]) && 1 <= |ls[0]| < 192
    ensures Encoded(ls) == LabelBytes(ls[0]) + Encoded(ls[1..])
  {
    assert ls[0] in ls;
  }

  lemma {:induction false} PutDots(ls: seq<string>)
    requires AreLabels(ls)
    ensures IsText(Dots(ls)) && PutText(Dots(ls), "") == Encoded(ls)
    decreases ls
  {
    if ls != [] {
      var l, t := ls[0], Dots(ls[1..]);
      EncodeCons(ls);
      PutDots(ls[1..]);
      DotsCons(ls);
      PutDot(l, t);
    }
  }

  lemma DotsCons(ls: seq<string>)
    requires ls != []
    ensures Dots(ls) == ls[0] + ("." + Dots(ls[1..]))
  {
    assert ls[0] + "." + Dots(ls[1..]) == ls[0] + ("." + Dots(ls[1..]));
  }

  lemma {:induction false} JoinDots(ls: seq<string>)
    requires ls != []
    ensures JoinLabels(ls) + "." == Dots(ls)
    decreases ls
  {
    if |ls| == 1 {
      assert Dots(ls[1..]) == "" && ls[0] + "." + "" == ls[0] + ".";
    } else {
      JoinDots(ls[1..]);
      assert ls[0] + "." + JoinLabels(ls[1..]) + "." == ls[0] + "." + (JoinLabels(ls[1..]) + ".");
    }
  }

  /** What is written for a name: its labels, and an empty label. */
  lemma PutNameLabels(ls: seq<string>)
    requires AreLabels(ls) && ls != []
    ensures IsText(JoinLabels(ls)) && PutName(JoinLabels(ls)) == Encoded(ls) + [0]
  {
    PutDots(ls);
    JoinDots(ls);
    var j := JoinLabels(ls);
    forall k: nat | k < |j| ensures (j[k] as int) < 256 { assert j[k] == Dots(ls)[k]; }
  }

  // ---------- parsing names ----------

  datatype Named = Named(name: string, used: nat)

  function Strip(name: string): string {
    if name != "" && name[|name| - 1] == '.' then name[..|name| - 1] else name
  }

  /** `parseDomainName` for a name that starts at `start`, from `pos` on, after the labels
      `name`.  Reading past the end of the buffer is an error. */
  function ParseLabels(buf: seq<Byte>, start: nat, pos: nat, name: string): Option<Named>
    requires start <= pos
    decreases start, |buf| - pos
  {
    if pos >= |buf| then None
    else if buf[pos] == 0 then Some(Named(Strip(name), pos + 1 - start))
    else if buf[pos] >= 192 then
      if pos + 1 >= |buf| then None
      else
        var to := (buf[pos] - 192) as int * 256 + buf[pos + 1];
        if to >= start then None
        else
          match ParseLabels(buf, to, to, "")
          case None => None
          case Some(val) => Some(Named(name + val.name, pos + 2 - start))
    else if pos + 1 + buf[pos] as int > |buf| then None
    else
      var next := pos + 1 + buf[pos] as int;
      ParseLabels(buf, start, next, name + Chars(buf[pos + 1..next]) + ".")
  }

  /** `ParseLabels`, in statements that do not look into it. */
  function Labels(buf: seq<Byte>, start: nat, pos: nat, name: string): Option<Named>
    requires start <= pos
  {
    ParseLabels(buf, start, pos, name)
  }

  /** `parseDomainName` */
  function ParseName(buf: seq<Byte>, offset: nat): Option<Named> {
    Labels(buf, offset, offset, "")
  }

  lemma LabelStep(buf: seq<Byte>, pre: seq<Byte>, l: string, post: seq<Byte>, start: nat, name: string)
    requires IsLabel(l) && 1 <= |l| < 192 && start <= |pre| && buf == pre + LabelBytes(l) + post
    ensures Labels(buf, start, |pre|, name) == Labels(buf, start, |pre + LabelBytes(l)|, name + l + ".")
  {
    var pos := |pre|;
    assert buf[pos] == |l| && l[..|l|] == l;
    assert buf[pos + 1..pos + 1 + |l|] == Bytes(l);
    CharsBytes(l);
  }

  lemma Regroup(pre: seq<Byte>, head: seq<Byte>, e: seq<Byte>, post: seq<Byte>)
    ensures pre + (head + e) + post == pre + head + (e + post)
    ensures pre + (head + e) + post == (pre + head) + e + post
  {}

  /** Parsing goes through labels as they were written. */
  lemma {:induction false} LabelsSteps(buf: seq<Byte>, pre: seq<Byte>, ls: seq<string>, post: seq<Byte>, start: nat,
                                       name: string)
    requires IsLabels(ls) && start <= |pre| && buf == pre + Encoded(ls) + post
    ensures Labels(buf, start, |pre|, name) == Labels(buf, start, |pre + Encoded(ls)|, name + Dots(ls))
    decreases ls
  {
    if ls == [] {
      assert name + "" == name;
    } else {
      var l, rest := ls[0], ls[1..];
      EncodeCons(ls);
      var head, e := LabelBytes(l), Encoded(rest);
      Regroup(pre, head, e, post);
      LabelStep(buf, pre, l, e + post, start, name);
      LabelsSteps(buf, pre + head, rest, post, start, name + l + ".");
      DotsCons(ls);
      NameParts(name, l, Dots(rest));
      SameLength(pre, head, e);
    }
  }

  lemma NameParts(name: string, l: string, dots: string)
    ensures name + l + "." + dots == name + (l + ("." + dots))
  {}

  lemma SameLength(pre: seq<Byte>, head: seq<Byte>, e: seq<Byte>)
    ensures |pre + head + e| == |pre + (head + e)|
  {}

  lemma StripDots(ls: seq<string>)
    requires ls != []
    ensures Strip(Dots(ls)) == JoinLabels(ls)
  {
    JoinDots(ls);
  }

  /** A name that was written is read back, wherever it stands. */
  lemma NameRound(pre: seq<Byte>, ls: seq<string>, post: seq<Byte>)
    requires IsLabels(ls) && ls != [] && IsText(JoinLabels(ls))
    ensures ParseName(pre + PutName(JoinLabels(ls)) + post, |pre|)
              == Some(Named(JoinLabels(ls), |PutName(JoinLabels(ls))|))
  {
    PutNameLabels(ls);
    var e, tail := Encoded(ls), [0] + post;
    var buf := pre + e + tail;
    assert pre + (e + [0]) + post == buf;
    StripDots(ls);
    EncodedRound(buf, pre, ls, post, Dots(ls));
  }

  lemma EncodedRound(buf: seq<Byte>, pre: seq<Byte>, ls: seq<string>, post: seq<Byte>, dots: string)
    requires IsLabels(ls) && buf == pre + Encoded(ls) + ([0] + post) && dots == Dots(ls)
    ensures ParseName(buf, |pre|) == Some(Named(Strip(dots), |Encoded(ls)| + 1))
  {
    LabelsSteps(buf, pre, ls, [0] + post, |pre|, "");
    assert "" + dots == dots;
    LabelsEnd(buf, |pre|, |pre + Encoded(ls)|, dots);
  }

  lemma LabelsEnd(buf: seq<Byte>, start: nat, pos: nat, name: string)
    requires start <= pos < |buf| && buf[pos] == 0
    ensures Labels(buf, start, pos, name) == Some(Named(Strip(name), pos + 1 - start))
  {}

  lemma LabelsPointer(buf: seq<Byte>, start: nat, pos: nat, name: string, to: nat, val: Named)
    requires start <= pos && pos + 1 < |buf| && to < start && to < 16384
    requires buf[pos] == 192 + to / 256 && buf[pos + 1] == to % 256 && Labels(buf, to, to, "") == Some(val)
    ensures Labels(buf, start, pos, name) == Some(Named(name + val.name, pos + 2 - start))
  {}

  /** A name that ends in a pointer to an earlier name is read as its labels followed by that
      name (section 4.1.4 of RFC 1035). */
  lemma PointerRound(pre: seq<Byte>, ls: seq<string>, to: nat, post: seq<Byte>, val: Named)
    requires IsLabels(ls) && to < |pre| && to < 16384
    requires ParseName(pre + Encoded(ls) + ([192 + to / 256, to % 256] + post), to) == Some(val)
    ensures ParseName(pre + Encoded(ls) + ([192 + to / 256, to % 256] + post), |pre|)
            == Some(Named(Dots(ls) + val.name, |Encoded(ls)| + 2))
  {
    var tail: seq<Byte> := [192 + to / 256, to % 256] + post;
    var buf := pre + Encoded(ls) + tail;
    LabelsSteps(buf, pre, ls, tail, |pre|, "");
    assert "" + Dots(ls) == Dots(ls);
    var pos := |pre + Encoded(ls)|;
    assert buf[pos] == tail[0] && buf[pos + 1] == tail[1];
    LabelsPointer(buf, |pre|, pos, Dots(ls), to, val);
  }

  /** With compression: labels and a pointer to the labels of a name that was written earlier are
      read as the name with all these labels. */
  lemma CompressedRound(pre: seq<Byte>, ls2: seq<string>, name: string, mid: seq<Byte>, ls1: seq<string>,
                        post: seq<Byte>)
    requires IsLabels(ls1) && IsLabels(ls2) && ls2 != [] && name == JoinLabels(ls2) && IsText(name) && |pre| < 16384
    ensures var to, start := |pre|, pre + PutName(name) + mid;
            ParseName(start + Encoded(ls1) + ([192 + to / 256, to % 256] + post), |start|)
            == Some(Named(JoinLabels(ls1 + ls2), |Encoded(ls1)| + 2))
  {
    var to := |pre|;
    NameAt(pre, ls2, name, mid + Encoded(ls1) + ([192 + to / 256, to % 256] + post));
    CompressedAt(pre, PutName(name), mid, ls1, post, name);
    JoinAppend(ls1, ls2);
  }

  lemma NameAt(pre: seq<Byte>, ls: seq<string>, name: string, post: seq<Byte>)
    requires IsLabels(ls) && ls != [] && name == JoinLabels(ls) && IsText(name)
    ensures PutName(name) != [] && ParseName(pre + PutName(name) + post, |pre|) == Some(Named(name, |PutName(name)|))
  {
    NameRound(pre, ls, post);
    PutNameLabels(ls);
  }

  lemma CompressedAt(pre: seq<Byte>, e: seq<Byte>, mid: seq<Byte>, ls: seq<string>, post: seq<Byte>, name: string)
    requires IsLabels(ls) && |pre| < 16384 && e != []
    requires ParseName(pre + e + (mid + Encoded(ls) + ([192 + |pre| / 256, |pre| % 256] + post)), |pre|)
             == Some(Named(name, |e|))
    ensures var to, start := |pre|, pre + e + mid;
            ParseName(start + Encoded(ls) + ([192 + to / 256, to % 256] + post), |start|)
            == Some(Named(Dots(ls) + name, |Encoded(ls)| + 2))
  {
    var to := |pre|;
    var tail: seq<Byte> := [192 + to / 256, to % 256] + post;
    FiveParts(pre, e, mid, Encoded(ls), tail);
    PointerRound(pre + e + mid, ls, to, post, Named(name, |e|));
  }

  lemma FiveParts(a: seq<Byte>, b: seq<Byte>, c: seq<Byte>, d: seq<Byte>, e: seq<Byte>)
    ensures a + b + c + d + e == a + b + (c + d + e)
  {}

  lemma {:induction false} JoinAppend(ls1: seq<string>, ls2: seq<string>)
    requires ls2 != []
    ensures Dots(ls1) + JoinLabels(ls2) == JoinLabels(ls1 + ls2)
    decreases ls1
  {
    if ls1 == [] {
      assert [] + ls2 == ls2 && "" + JoinLabels(ls2) == JoinLabels(ls2);
    } else {
      var l, rest := ls1[0], ls1[1..];
      JoinAppend(rest, ls2);
      DotsCons(ls1);
      var all := ls1 + ls2;
      assert all[1..] == rest + ls2 && |all| > 1 && all[0] == l;
      JoinCons(all);
      DotAssoc(l, Dots(rest), JoinLabels(ls2));
    }
  }

  lemma DotAssoc(l: string, a: string, b: string)
    ensures l + ("." + a) + b == l + ("." + (a + b))
  {}

  lemma JoinCons(ls: seq<string>)
    requires |ls| > 1
    ensures JoinLabels(ls) == ls[0] + ("." + JoinLabels(ls[1..]))
  {
    assert ls[0] + "." + JoinLabels(ls[1..]) == ls[0] + ("." + JoinLabels(ls[1..]));
  }

  // ---------- which names are read back ----------

  /** Nothing was read yet, or whole labels. */
  predicate AfterDot(name: string) {
    name == "" || name[|name| - 1] == '.'
  }

  /** If parsing takes all that was written for some labels, then no length byte was 0 or looked
      like a pointer, and the name read is as long as what was written. */
  lemma {:induction false} ReadWhole(buf: seq<Byte>, pre: seq<Byte>, ls: seq<string>, post: seq<Byte>, start: nat,
                                     name: string)
    requires AreLabels(ls) && start <= |pre| && buf == pre + Encoded(ls) + ([0] + post) && AfterDot(name)
    requires TakesAll(Labels(buf, start, |pre|, name), |pre + Encoded(ls)| + 1 - start)
    ensures forall l | l in ls :: 1 <= |l| % 256 < 192
    ensures |Labels(buf, start, |pre|, name).value.name|
            == if name == "" && ls == [] then 0 else |name| + |Encoded(ls)| - 1
    decreases ls
  {
    if ls != [] {
      var l, rest, n := ls[0], ls[1..], |ls[0]| % 256;
      EncodeCons(ls);
      var head, e := LabelBytes(l), Encoded(rest);
      Regroup(pre, head, e, [0] + post);
      LabelTaken(buf, pre, l, e + ([0] + post), start, name, |pre + Encoded(ls)| + 1 - start);
      assert |pre + head + e| == |pre + (head + e)|;
      ReadWhole(buf, pre + head, rest, post, start, name + l[..n] + ".");
      forall x | x in ls ensures 1 <= |x| % 256 < 192 { if x != l { assert x in rest; } }
    }
  }

  predicate TakesAll(r: Option<Named>, n: int) {
    r.Some? && r.value.used == n
  }

  /** A label that does not end the name has a length from 1 to 191. */
  lemma LabelTaken(buf: seq<Byte>, pre: seq<Byte>, l: string, post: seq<Byte>, start: nat, name: string, all: int)
    requires IsLabel(l) && start <= |pre| && buf == pre + LabelBytes(l) + post
    requires TakesAll(Labels(buf, start, |pre|, name), all) && all > |pre| + |l| % 256 + 1 - start
    ensures 1 <= |l| % 256 < 192
    ensures Labels(buf, start, |pre|, name) == Labels(buf, start, |pre + LabelBytes(l)|, name + l[..|l| % 256] + ".")
  {
    var pos, n := |pre|, |l| % 256;
    assert buf[pos] == n;
    if 1 <= n < 192 {
      LabelStep(buf, pre, l[..n], post, start, name);
    }
  }

  lemma {:induction false} EncodedShort(ls: seq<string>)
    requires AreLabels(ls)
    ensures |Encoded(ls)| <= |Dots(ls)| && (|Encoded(ls)| == |Dots(ls)| <==> forall l | l in ls :: |l| < 256)
    decreases ls
  {
    if ls != [] {
      var l, rest := ls[0], ls[1..];
      EncodeCons(ls);
      DotsCons(ls);
      EncodedShort(rest);
      assert l in ls && forall x | x in rest :: x in ls;
      assert forall x | x in ls :: x == l || x in rest;
    }
  }

  /** A name is read back as it was written exactly if its labels have 1 to 191 bytes. */
  lemma NameExact(pre: seq<Byte>, ls: seq<string>, post: seq<Byte>)
    requires AreLabels(ls) && ls != [] && IsText(JoinLabels(ls))
    ensures ParseName(pre + PutName(JoinLabels(ls)) + post, |pre|)
              == Some(Named(JoinLabels(ls), |PutName(JoinLabels(ls))|))
            <==> IsLabels(ls)
  {
    PutNameLabels(ls);
    var e := Encoded(ls);
    var buf := pre + e + ([0] + post);
    assert pre + (e + [0]) + post == buf;
    JoinDots(ls);
    if IsLabels(ls) {
      NameRound(pre, ls, post);
    } else if ParseName(buf, |pre|) == Some(Named(JoinLabels(ls), |e| + 1)) {
      ReadBack(buf, pre, ls, post, JoinLabels(ls));
    }
  }

  /** A name as long as its labels was read from all that was written. */
  lemma ReadBack(buf: seq<Byte>, pre: seq<Byte>, ls: seq<string>, post: seq<Byte>, name: string)
    requires AreLabels(ls) && ls != [] && buf == pre + Encoded(ls) + ([0] + post) && |name| + 1 == |Dots(ls)|
    requires ParseName(buf, |pre|) == Some(Named(name, |Encoded(ls)| + 1))
    ensures IsLabels(ls)
  {
    assert |pre + Encoded(ls)| + 1 - |pre| == |Encoded(ls)| + 1;
    ReadWhole(buf, pre, ls, post, |pre|, "");
    EncodedShort(ls);
    AllGood(ls, |Dots(ls)|, |Encoded(ls)|);
  }

  lemma AllGood(ls: seq<string>, n: nat, m: nat)
    requires AreLabels(ls) && (forall l | l in ls :: 1 <= |l| % 256 < 192) && n == m
    requires n == m <==> forall l | l in ls :: |l| < 256
    ensures IsLabels(ls)
  {}

  // ---------- the code ----------

  /** `parseDomainName` */
  method ParseDomainName(buf: seq<Byte>, offset: nat) returns (r: Option<Named>)
    ensures r == ParseName(buf, offset)
    decreases offset
  {
    var name, pos := "", offset;
    while pos < |buf| && buf[pos] != 0
      invariant offset <= pos && Labels(buf, offset, pos, name) == ParseName(buf, offset)
      decreases |buf| - pos
    {
      if buf[pos] >= 192 {
        if pos + 1 >= |buf| { return None; }
        var to := (buf[pos] - 192) as int * 256 + buf[pos + 1];
        if to >= offset { return None; }
        var val := ParseDomainName(buf, to);
        return if val == None then None else Some(Named(name + val.value.name, pos + 2 - offset));
      }
      var next := pos + 1 + buf[pos] as int;
      if next > |buf| { return None; }
      var text := ReadLabel(buf, pos + 1, next);
      name := name + text + ".";
      pos := next;
    }
    if pos >= |buf| { return None; }
    r := Some(Named(Strip(name), pos + 1 - offset));
  }

  method ReadLabel(buf: seq<Byte>, from: nat, to: nat) returns (text: string)
    requires from <= to <= |buf|
    ensures text == Chars(buf[from..to])
  {
    text := "";
    var i := from;
    while i < to
      invariant from <= i <= to && text == Chars(buf[from..i])
    {
      text := text + [buf[i] as char];
      i := i + 1;
    }
  }

  /** memcpy into the buffer */
  method CopyText(l: string, buf: array<Byte>, at: nat)
    requires IsText(l) && at + |l| <= buf.Length
    modifies buf
    ensures buf[..at + |l|] == old(buf[..at]) + Bytes(l)
  {
    var i := 0;
    while i < |l|
      invariant 0 <= i <= |l| && buf[..at + i] == old(buf[..at]) + Bytes(l)[..i]
    {
      buf[at + i] := l[i] as int;
      i := i + 1;
      assert Bytes(l)[..i] == Bytes(l)[..i - 1] + [l[i - 1] as int];
    }
    assert Bytes(l)[..|l|] == Bytes(l);
  }

  /** A label, with its length before it */
  method PutLabelAt(l: string, buf: array<Byte>, at: nat) returns (n: nat)
    requires IsText(l) && at + 1 + |l| % 256 <= buf.Length
    modifies buf
    ensures n == 1 + |l| % 256
    ensures buf[..at + n] == old(buf[..at]) + ([|l| % 256] + Bytes(l[..|l| % 256]))
  {
    var length := |l| % 256;
    buf[at] := length;
    assert buf[..at + 1] == old(buf[..at]) + [length];
    CopyText(l[..length], buf, at + 1);
    n := 1 + length;
  }

  /** The loop of `putDomainName` */
  method PutPieces(s: string, buf: array<Byte>, offset: nat) returns (n: nat)
    requires IsText(s) && offset + |s| <= buf.Length
    modifies buf
    ensures n == |PutText(s, "")| <= |s| && buf[..offset + n] == old(buf[..offset]) + PutText(s, "")
  {
    ghost var pre, goal := buf[..offset], PutText(s, "");
    ghost var done: seq<Byte> := [];
    var acc, c := "", 0;
    n := 0;
    assert s[0..] == s && [] + goal == goal;
    while c < |s|
      invariant 0 <= c <= |s| && IsText(acc)
      invariant n == |done| && n + |s| - c + |acc| <= |s| && buf[..offset + n] == pre + done
      invariant done + PutText(s[c..], acc) == goal
    {
      ghost var rest := s[c + 1..];
      PutStep(s[c..], acc);
      assert s[c..][1..] == rest;
      if s[c] == '.' {
        ghost var piece: seq<Byte> := [|acc| % 256] + Bytes(acc[..|acc| % 256]);
        AddPiece(pre, done, piece, PutText(rest, ""));
        var k := PutLabelAt(acc, buf, offset + n);
        n := n + k;
        done := done + piece;
        acc := "";
      } else {
        acc := acc + [s[c]];
      }
      c := c + 1;
    }
    assert done + [] == done;
  }

  lemma AddPiece(pre: seq<Byte>, done: seq<Byte>, piece: seq<Byte>, rest: seq<Byte>)
    ensures pre + done + piece == pre + (done + piece) && done + (piece + rest) == done + piece + rest
  {}

  /** `putDomainName`: nothing is written unless the name fits */
  method PutDomainName(name: string, buf: array<Byte>, offset: nat) returns (n: nat)
    requires IsText(name)
    modifies buf
    ensures offset + |name| + 1 >= buf.Length ==> n == 0 && buf[..] == old(buf[..])
    ensures offset + |name| + 1 < buf.Length ==>
              && n == |PutName(name)| && offset + n <= buf.Length
              && buf[..offset + n] == old(buf[..offset]) + PutName(name)
  {
    if offset + |name| + 1 >= buf.Length { return 0; }
    n := PutPieces(name + ".", buf, offset);
    buf[offset + n] := 0;
    assert buf[..offset + n + 1] == buf[..offset + n] + [0];
    n := n + 1;
  }

  lemma PutStep(s: string, acc: string)
    requires IsText(s) && IsText(acc) && s != ""
    ensures IsText(s[1..])
    ensures s[0] == '.' ==> PutText(s, acc) == [|acc| % 256] + Bytes(acc[..|acc| % 256]) + PutText(s[1..], "")
    ensures s[0] != '.' ==> PutText(s, acc) == PutText(s[1..], acc + [s[0]])
  {}
}
