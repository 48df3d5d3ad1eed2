/** dns.c: encoding a hostname into a query, walking over an encoded name, comparing the two.
    Encoded names are described in sections 2.3.4 and 3.1 of RFC 1035. */
module DnsName {

  const DOT: int := 46
  const MAX_NAME_LENGTH: nat := 256     // DNS_MAX_NAME_LENGTH, terminator included

  /** A hostname without its terminator: bytes, none of them zero. */
  ghost predicate IsHostname(name: seq<int>) {
    |name| < MAX_NAME_LENGTH && forall i :: 0 <= i < |name| ==> 0 < name[i] < 256
  }

  /** Length of the first label. */
  function LabelLen(name: seq<int>): (k: nat)
    ensures k <= |name| && (k < |name| ==> name[k] == DOT)
    ensures forall i :: 0 <= i < k ==> name[i] != DOT
  {
    if name == [] || name[0] == DOT then 0 else 1 + LabelLen(name[1..])
  }

  /** The labels between the dots; there is always at least one. */
  function Labels(name: seq<int>): (ls: seq<seq<int>>)
    ensures 0 < |ls|
  {
    var k := LabelLen(name);
    if k == |name| then [name] else [name[..k]] + Labels(name[k + 1..])
  }

  /** What an unsigned char keeps of a count: it wraps around at 256. */
  function LowByte(n: nat): nat {
    if n < 256 then n else LowByte(n - 256)
  }

  lemma SmallLowByte(n: nat)
    requires n < 256
    ensures LowByte(n) == n
  {
  }

  /** The encoding: each label behind its length byte, then a zero byte. */
  function Encode(name: seq<int>): (r: seq<int>)
    ensures |r| == |name| + 2
    decreases |name|, 1
  {
    [LowByte(LabelLen(name))] + (name[..LabelLen(name)] + EncodeRest(name))
  }

  /** What follows the first label in the encoding. */
  function EncodeRest(name: seq<int>): (r: seq<int>)
    ensures |r| == |name| - LabelLen(name) + 1
    decreases |name|, 0
  {
    if LabelLen(name) == |name| then [0] else Encode(name[LabelLen(name) + 1..])
  }

  /** The same by way of the list of labels. */
  function EncodeLabels(ls: seq<seq<int>>): seq<int> {
    if ls == [] then [0] else [LowByte(|ls[0]|)] + (ls[0] + EncodeLabels(ls[1..]))
  }

  lemma {:induction false} EncodeIsByLabels(name: seq<int>)
    ensures Encode(name) == EncodeLabels(Labels(name))
    decreases |name|
  {
    var k := LabelLen(name);
    if k == |name| {
      assert name[..k] == name && [name][1..] == [];
    } else {
      EncodeIsByLabels(name[k + 1..]);
      assert ([name[..k]] + Labels(name[k + 1..]))[1..] == Labels(name[k + 1..]);
    }
  }

  /** dns_send reserves DNS_MAX_NAME_LENGTH bytes for the name: enough exactly for names below 255 bytes. */
  lemma EncodingFitsReserve(name: seq<int>)
    ensures |Encode(name)| <= MAX_NAME_LENGTH <==> |name| < MAX_NAME_LENGTH - 1
  {
  }

  lemma {:induction false} LabelLenIs(name: seq<int>, k: nat)
    requires k <= |name| && (k < |name| ==> name[k] == DOT)
    requires forall i :: 0 <= i < k ==> name[i] != DOT
    ensures LabelLen(name) == k
  {
    if 0 < k {
      assert name[0] != DOT;
      LabelLenIs(name[1..], k - 1);
    }
  }

  /** The inner loop of the encoder: copy the label that starts at p. */
  method CopyLabel(name: seq<int>, p: nat, query: array<int>, at: nat) returns (n: nat)
    requires p <= |name| && at + |name| - p <= query.Length
    modifies query
    ensures n == LabelLen(name[p..]) && p + n <= |name|
    ensures query[..at] == old(query[..at]) && query[at..at + n] == name[p..p + n]
    ensures query[at + n..] == old(query[at + n..])
  {
    n := 0;
    while p + n < |name| && name[p + n] != DOT
      invariant p + n <= |name|
      invariant forall i :: p <= i < p + n ==> name[i] != DOT && query[at + (i - p)] == name[i]
      invariant forall k :: 0 <= k < at || at + n <= k < query.Length ==> query[k] == old(query[k])
    {
      query[at + n] := name[p + n];
      n := n + 1;
    }
    LabelEnds(name, p, n);
    assert query[..at] == old(query[..at]);
    assert query[at + n..] == old(query[at + n..]);
    assert query[at..at + n] == name[p..p + n];
  }

  lemma LabelEnds(name: seq<int>, p: nat, n: nat)
    requires p + n <= |name| && (p + n < |name| ==> name[p + n] == DOT)
    requires forall i :: p <= i < p + n ==> name[i] != DOT
    ensures LabelLen(name[p..]) == n
  {
    var rest := name[p..];
    forall i | 0 <= i < n
      ensures rest[i] != DOT
    {
      assert rest[i] == name[p + i];
    }
    LabelLenIs(rest, n);
  }

  lemma EncodeFrom(name: seq<int>, p: nat, k: nat)
    requires p <= |name| && k == LabelLen(name[p..])
    ensures p + k <= |name|
    ensures Encode(name[p..]) == [LowByte(k)] + (name[p..p + k] + EncodeRest(name[p..]))
    ensures EncodeRest(name[p..]) == if p + k == |name| then [0] else Encode(name[p + k + 1..])
  {
    assert name[p..][..k] == name[p..p + k];
    if p + k < |name| {
      assert name[p..][k + 1..] == name[p + k + 1..];
    }
  }

  /** One turn of the encoder loop: the label at p behind its length byte, which is patched in afterwards. */
  method EncodeLabel(name: seq<int>, p: nat, query: array<int>) returns (n: nat)
    requires p <= |name| && |name| + 2 <= query.Length
    modifies query
    ensures n == LabelLen(name[p..]) && p + n <= |name|
    ensures query[..p + 1 + n] == old(query[..p]) + ([LowByte(n)] + name[p..p + n])
    ensures query[|name| + 2..] == old(query[|name| + 2..])
  {
    n := CopyLabel(name, p, query, p + 1);
    assert query[..p] == query[..p + 1][..p] == old(query[..p + 1])[..p] == old(query[..p]);
    assert query[|name| + 2..] == query[p + 1 + n..][|name| + 1 - p - n..] == old(query[|name| + 2..]);
    query[p] := LowByte(n);
  }

  /** The encoder loop of dns_send. */
  method EncodeInto(name: seq<int>, query: array<int>)
    requires |name| + 2 <= query.Length
    modifies query
    ensures query[..|name| + 2] == Encode(name)
    ensures query[|name| + 2..] == old(query[|name| + 2..])
  {
    var p := 0;
    assert name[0..] == name;
    ghost var full := Encode(name);
    ghost var left := full;
    while true
      invariant p <= |name|
      invariant left == Encode(name[p..])
      invariant query[..p] + left == full
      invariant query[|name| + 2..] == old(query[|name| + 2..])
      decreases |name| - p
    {
      var n := AppendLabel(name, p, query, left, full);
      p := p + n;
      if p == |name| {
        break;
      }
      p := p + 1;
      left := Encode(name[p..]);
    }
    ghost var all := query[..p + 1];
    query[p + 1] := 0;
    assert query[..p + 2] == all + [0];
  }

  method AppendLabel(name: seq<int>, p: nat, query: array<int>, ghost left: seq<int>, ghost full: seq<int>) returns (n: nat)
    requires p <= |name| && |name| + 2 <= query.Length && left == Encode(name[p..]) && query[..p] + left == full
    modifies query
    ensures p + n <= |name|
    ensures query[..p + 1 + n] + (if p + n == |name| then [0] else Encode(name[p + n + 1..])) == full
    ensures query[|name| + 2..] == old(query[|name| + 2..])
  {
    ghost var written := query[..p];
    n := EncodeLabel(name, p, query);
    EncodeFrom(name, p, n);
    Regroup(written, [LowByte(n)] + name[p..p + n], EncodeRest(name[p..]));
    Regroup([LowByte(n)], name[p..p + n], EncodeRest(name[p..]));
  }

  lemma Regroup(a: seq<int>, b: seq<int>, c: seq<int>)
    ensures a + (b + c) == a + b + c
  {
  }

  // ---------------------------------------------------------------- walking

  /** The byte at offset i of a message; there is nothing but zeros behind it. */
  function ByteAt(b: seq<int>, i: nat): int {
    if i < |b| && 0 <= b[i] < 256 then b[i] else 0
  }

  /** The two top bits of a length byte mark a compressed name. */
  predicate IsPointer(n: int) {
    0xc0 <= n
  }

  /** dns_parse_name: where the name that starts at p ends. */
  function WalkName(b: seq<int>, p: nat): nat
    decreases |b| - p
  {
    var n := ByteAt(b, p);
    if IsPointer(n) then p + 2
    else if ByteAt(b, p + 1 + n) != 0 then WalkName(b, p + 1 + n)
    else p + 2 + n
  }

  method ParseName(b: seq<int>, start: nat) returns (end: nat)
    ensures end == WalkName(b, start)
  {
    var p: nat := start;
    while true
      invariant WalkName(b, p) == WalkName(b, start)
      decreases |b| - p
    {
      var n := ByteAt(b, p);
      ghost var next: nat := p + 1 + n;
      p := p + 1;
      if IsPointer(n) {
        break;
      }
      while n > 0
        invariant 0 <= n && p + n == next
      {
        p := p + 1;
        n := n - 1;
      }
      if ByteAt(b, p) == 0 {
        break;
      }
    }
    end := p + 1;
  }

  /** The i-th byte of the label at p is the i-th byte of the name from qi on. */
  predicate SameByte(name: seq<int>, qi: nat, b: seq<int>, p: nat, i: nat) {
    ByteAt(name, qi + i) == ByteAt(b, p + 1 + i)
  }

  /** dns_compare_name: whether it reports the dotted name from qi on and the encoded one at p as different. */
  function Differs(name: seq<int>, qi: nat, b: seq<int>, p: nat): bool
    decreases |b| - p
  {
    var n := ByteAt(b, p);
    if IsPointer(n) then false
    else if exists i :: 0 <= i < n && !SameByte(name, qi, b, p, i) then true
    else if ByteAt(b, p + 1 + n) != 0 then Differs(name, qi + n + 1, b, p + 1 + n)
    else false
  }

  method CompareName(name: seq<int>, b: seq<int>, start: nat) returns (differs: bool)
    ensures differs == Differs(name, 0, b, start)
  {
    var qi: nat, p: nat := 0, start;
    while true
      invariant Differs(name, qi, b, p) == Differs(name, 0, b, start)
      decreases |b| - p
    {
      var n := ByteAt(b, p);
      ghost var qi0, p0, n0 := qi, p, n;
      p := p + 1;
      if IsPointer(n) {
        break;
      }
      while n > 0
        invariant 0 <= n <= n0 && qi == qi0 + n0 - n && p == p0 + 1 + n0 - n
        invariant forall i :: 0 <= i < n0 - n ==> SameByte(name, qi0, b, p0, i)
      {
        if ByteAt(name, qi) != ByteAt(b, p) {
          assert !SameByte(name, qi0, b, p0, n0 - n);
          return true;
        }
        assert SameByte(name, qi0, b, p0, n0 - n);
        p, qi, n := p + 1, qi + 1, n - 1;
      }
      qi := qi + 1;
      if ByteAt(b, p) == 0 {
        break;
      }
    }
    return false;
  }

  // ---------------------------------------------------------------- round trips

  /** The message has the bytes e at p. */
  ghost predicate Holds(b: seq<int>, p: nat, e: seq<int>) {
    forall i :: 0 <= i < |e| ==> HoldsByte(b, p, e, i)
  }

  predicate HoldsByte(b: seq<int>, p: nat, e: seq<int>, i: nat)
    requires i < |e|
  {
    ByteAt(b, p + i) == e[i]
  }

  /** Bytes held as one piece are held as two. */
  lemma HoldsParts(b: seq<int>, p: nat, x: seq<int>, y: seq<int>)
    requires Holds(b, p, x + y)
    ensures Holds(b, p, x) && Holds(b, p + |x|, y)
  {
    forall i | 0 <= i < |x|
      ensures HoldsByte(b, p, x, i)
    {
      assert HoldsByte(b, p, x + y, i);
    }
    var q := p + |x|;
    forall i | 0 <= i < |y|
      ensures HoldsByte(b, q, y, i)
    {
      assert HoldsByte(b, p, x + y, |x| + i);
    }
  }

  lemma EncodeIs(name: seq<int>, k: nat)
    requires k == LabelLen(name) && k < 256
    ensures Encode(name) == [k] + (name[..k] + EncodeRest(name))
  {
    SmallLowByte(k);
  }

  /** What a message with an encoded name has at its start: a length byte, the label, and what follows it. */
  lemma EncodedHead(name: seq<int>, b: seq<int>, p: nat, k: nat)
    requires k == LabelLen(name) && k < 256 && Holds(b, p, Encode(name))
    ensures ByteAt(b, p) == k && Holds(b, p + 1, name[..k]) && Holds(b, p + 1 + k, EncodeRest(name))
    ensures ByteAt(b, p + 1 + k) == EncodeRest(name)[0]
  {
    EncodeIs(name, k);
    Head(b, p, k, name[..k], EncodeRest(name), Encode(name));
  }

  lemma Head(b: seq<int>, p: nat, k: nat, text: seq<int>, rest: seq<int>, e: seq<int>)
    requires Holds(b, p, e) && e == [k] + (text + rest) && |text| == k && rest != []
    ensures ByteAt(b, p) == k && Holds(b, p + 1, text) && Holds(b, p + 1 + k, rest)
    ensures ByteAt(b, p + 1 + k) == rest[0]
  {
    HoldsParts(b, p, [k], text + rest);
    HoldsParts(b, p + 1, text, rest);
    assert HoldsByte(b, p, [k], 0);
    assert HoldsByte(b, p + 1 + k, rest, 0);
  }

  /** Labels the walker gets over: none longer than 191 bytes, and none empty but perhaps the first. */
  ghost predicate WalkableLabels(ls: seq<seq<int>>) {
    forall i :: 0 <= i < |ls| ==> |ls[i]| < 0xc0 && (0 < i ==> ls[i] != [])
  }

  ghost predicate Walkable(name: seq<int>) {
    WalkableLabels(Labels(name))
  }

  lemma WalkableCons(x: seq<int>, ls: seq<seq<int>>)
    requires 0 < |ls|
    ensures WalkableLabels([x] + ls) <==> |x| < 0xc0 && ls[0] != [] && WalkableLabels(ls)
  {
    var all := [x] + ls;
    assert all[0] == x && forall i :: 0 <= i < |ls| ==> all[i + 1] == ls[i];
    if WalkableLabels(all) {
      forall i | 0 <= i < |ls|
        ensures |ls[i]| < 0xc0 && ls[i] != []
      {
        assert ls[i] == all[i + 1];
      }
    }
  }

  /** Walkable, one label at a time. */
  lemma WalkableStep(name: seq<int>, k: nat)
    requires k == LabelLen(name)
    ensures Walkable(name) <==>
      k < 0xc0 && (k < |name| ==> LabelLen(name[k + 1..]) != 0 && Walkable(name[k + 1..]))
  {
    if k < |name| {
      FirstLabel(name[k + 1..]);
      WalkableCons(name[..k], Labels(name[k + 1..]));
    } else {
      assert Labels(name) == [name];
    }
  }

  lemma FirstLabel(name: seq<int>)
    ensures |Labels(name)[0]| == LabelLen(name)
  {
  }

  /** The walker ends exactly behind the encoded name if and only if the name is walkable; every hostname of
      non-empty labels of at most 63 bytes is. */
  lemma {:induction false} WalkFindsTheEnd(name: seq<int>, b: seq<int>, p: nat)
    requires |name| < MAX_NAME_LENGTH && Holds(b, p, Encode(name))
    ensures WalkName(b, p) == p + |name| + 2 <==> Walkable(name)
    decreases |name|
  {
    var k := LabelLen(name);
    EncodedHead(name, b, p, k);
    WalkableStep(name, k);
    if k < 0xc0 && k < |name| {
      var rest := name[k + 1..];
      assert EncodeRest(name) == Encode(rest);
      SmallLowByte(LabelLen(rest));
      if LabelLen(rest) != 0 {
        WalkFindsTheEnd(rest, b, p + 1 + k);
      }
    }
  }

  /** Comparing a hostname with its own encoding never reports a difference, whatever its labels. */
  lemma {:induction false} CompareAcceptsOwnEncoding(name: seq<int>, qi: nat, b: seq<int>, p: nat)
    requires IsHostname(name) && qi <= |name| && Holds(b, p, Encode(name[qi..]))
    ensures !Differs(name, qi, b, p)
    decreases |name| - qi
  {
    var k := LabelLen(name[qi..]);
    EncodedHead(name[qi..], b, p, k);
    forall i | 0 <= i < k
      ensures SameByte(name, qi, b, p, i)
    {
      assert HoldsByte(b, p + 1, name[qi..][..k], i);
    }
    EncodeFrom(name, qi, k);
    if qi + k < |name| {
      CompareAcceptsOwnEncoding(name, qi + k + 1, b, p + 1 + k);
    }
  }

  ghost predicate AreBytes(e: seq<int>) {
    forall i :: 0 <= i < |e| ==> 0 <= e[i] < 256
  }

  lemma {:induction false} EncodedBytes(name: seq<int>)
    requires IsHostname(name)
    ensures AreBytes(Encode(name))
    decreases |name|
  {
    var k := LabelLen(name);
    EncodeIs(name, k);
    if k < |name| {
      EncodedBytes(name[k + 1..]);
    }
  }

  /** The round trip of RFC 1035 names: encode, then walk and compare, in a message with anything around. */
  lemma NameRoundTrip(name: seq<int>, before: seq<int>, after: seq<int>)
    requires IsHostname(name)
    requires forall l :: l in Labels(name) ==> 0 < |l| <= 63
    ensures var b := before + Encode(name) + after;
      WalkName(b, |before|) == |before| + |Encode(name)| && !Differs(name, 0, b, |before|)
  {
    var b := before + Encode(name) + after;
    EncodedBytes(name);
    assert Holds(b, |before|, Encode(name));
    WalkFindsTheEnd(name, b, |before|);
    assert name[0..] == name;
    CompareAcceptsOwnEncoding(name, 0, b, |before|);
    assert forall i :: 0 <= i < |Labels(name)| ==> Labels(name)[i] in Labels(name);
  }

  // ---------------------------------------------------------------- names by their labels, compressed ones too

  /** Labels as they stand in a message, each behind its length byte. */
  function Prefixed(ls: seq<seq<int>>): seq<int> {
    if ls == [] then [] else [|ls[0]|] + (ls[0] + Prefixed(ls[1..]))
  }

  ghost predicate ArePlain(ls: seq<seq<int>>) {
    forall i :: 0 <= i < |ls| ==> 0 < |ls[i]| < 0xc0
  }

  /** A message holds labels at p, none of them empty or over 191 bytes, and behind them a zero or, with its two
      top bits set, the first byte of a pointer. */
  ghost predicate HasLabels(b: seq<int>, p: nat, ls: seq<seq<int>>) {
    && ArePlain(ls) && Holds(b, p, Prefixed(ls))
    && (0xc0 <= ByteAt(b, p + |Prefixed(ls)|) || (ls != [] && ByteAt(b, p + |Prefixed(ls)|) == 0))
  }

  lemma LabelsHead(b: seq<int>, p: nat, ls: seq<seq<int>>, text: seq<int>, rest: seq<seq<int>>)
    requires HasLabels(b, p, ls) && ls == [text] + rest
    ensures ByteAt(b, p) == |text| < 0xc0 && Holds(b, p + 1, text)
    ensures |Prefixed(ls)| == 1 + |text| + |Prefixed(rest)|
    ensures if ByteAt(b, p + 1 + |text|) == 0 then rest == [] else HasLabels(b, p + 1 + |text|, rest)
  {
    var e := Prefixed(ls);
    FirstOfLabels(b, p, ls, text, rest, e);
    LabelsTail(b, p + 1 + |text|, p + |e|, rest);
  }

  lemma FirstOfLabels(b: seq<int>, p: nat, ls: seq<seq<int>>, text: seq<int>, rest: seq<seq<int>>, e: seq<int>)
    requires ArePlain(ls) && ls == [text] + rest && e == Prefixed(ls) && Holds(b, p, e)
    ensures ByteAt(b, p) == |text| < 0xc0 && Holds(b, p + 1, text)
    ensures |e| == 1 + |text| + |Prefixed(rest)| && ArePlain(rest) && Holds(b, p + 1 + |text|, Prefixed(rest))
  {
    assert ls[0] == text && ls[1..] == rest;
    assert forall i :: 0 <= i < |rest| ==> rest[i] == ls[i + 1];
    Parts(b, p, |text|, text, Prefixed(rest), e);
  }

  /** The labels that are left, unless there are none and a zero has come. */
  lemma LabelsTail(b: seq<int>, p: nat, end: nat, ls: seq<seq<int>>)
    requires ArePlain(ls) && Holds(b, p, Prefixed(ls)) && end == p + |Prefixed(ls)|
    requires 0xc0 <= ByteAt(b, end) || ByteAt(b, end) == 0
    ensures if ByteAt(b, p) == 0 then ls == [] else HasLabels(b, p, ls)
  {
    if ls != [] {
      assert Prefixed(ls)[0] == |ls[0]| && HoldsByte(b, p, Prefixed(ls), 0);
    }
  }

  lemma Parts(b: seq<int>, p: nat, k: nat, text: seq<int>, rest: seq<int>, e: seq<int>)
    requires Holds(b, p, e) && e == [k] + (text + rest) && |text| == k
    ensures ByteAt(b, p) == k && Holds(b, p + 1, text) && Holds(b, p + 1 + k, rest)
  {
    HoldsParts(b, p, [k], text + rest);
    HoldsParts(b, p + 1, text, rest);
    assert HoldsByte(b, p, [k], 0);
  }

  /** The walker ends behind the zero, or behind the two bytes of the pointer. */
  lemma {:induction false} WalkEndsBehindLabels(b: seq<int>, p: nat, ls: seq<seq<int>>)
    requires HasLabels(b, p, ls)
    ensures var end := p + |Prefixed(ls)|;
      WalkName(b, p) == if ByteAt(b, end) == 0 then end + 1 else end + 2
    decreases |ls|
  {
    if ls != [] {
      LabelsHead(b, p, ls, ls[0], ls[1..]);
      if ByteAt(b, p + 1 + |ls[0]|) != 0 {
        WalkEndsBehindLabels(b, p + 1 + |ls[0]|, ls[1..]);
      }
    }
  }

  /** The dotted name from qi on has the labels ls, whatever stands between and behind them. */
  ghost predicate Matches(name: seq<int>, qi: nat, ls: seq<seq<int>>)
    decreases |ls|
  {
    ls == [] ||
    ((forall i :: 0 <= i < |ls[0]| ==> ByteAt(name, qi + i) == ls[0][i]) && Matches(name, qi + |ls[0]| + 1, ls[1..]))
  }

  /** The comparison reports a difference exactly if a label before the zero or the pointer differs. */
  lemma {:induction false} DiffersInALabel(name: seq<int>, qi: nat, b: seq<int>, p: nat, ls: seq<seq<int>>)
    requires HasLabels(b, p, ls)
    ensures Differs(name, qi, b, p) <==> !Matches(name, qi, ls)
    decreases |ls|
  {
    if ls != [] {
      var k := |ls[0]|;
      LabelsHead(b, p, ls, ls[0], ls[1..]);
      forall i | 0 <= i < k
        ensures SameByte(name, qi, b, p, i) <==> ByteAt(name, qi + i) == ls[0][i]
      {
        assert HoldsByte(b, p + 1, ls[0], i);
      }
      if ByteAt(b, p + 1 + k) != 0 {
        DiffersInALabel(name, qi + k + 1, b, p + 1 + k, ls[1..]);
      }
    }
  }

  /** The name from qi on has the bytes of another one, its dots aside. */
  ghost predicate SameBytes(name: seq<int>, qi: nat, other: seq<int>) {
    forall i :: 0 <= i < |other| ==> other[i] == DOT || ByteAt(name, qi + i) == other[i]
  }

  /** Having the labels of another name is having its bytes, the dots between them aside. */
  lemma {:induction false} MatchesByBytes(name: seq<int>, qi: nat, other: seq<int>)
    ensures Matches(name, qi, Labels(other)) <==> SameBytes(name, qi, other)
    decreases |other|
  {
    var k := LabelLen(other);
    if k < |other| {
      var rest := other[k + 1..];
      MatchesByBytes(name, qi + k + 1, rest);
      assert Labels(other) == [other[..k]] + Labels(rest) && Labels(other)[1..] == Labels(rest);
      SplitBytes(name, qi, other, k);
    } else {
      assert Labels(other) == [other] && Labels(other)[1..] == [];
    }
  }

  lemma SplitBytes(name: seq<int>, qi: nat, other: seq<int>, k: nat)
    requires k < |other| && other[k] == DOT
    ensures SameBytes(name, qi, other) <==> SameBytes(name, qi, other[..k]) && SameBytes(name, qi + k + 1, other[k + 1..])
  {
    var rest := other[k + 1..];
    if SameBytes(name, qi, other[..k]) && SameBytes(name, qi + k + 1, rest) {
      forall i | 0 <= i < |other|
        ensures other[i] == DOT || ByteAt(name, qi + i) == other[i]
      {
        assert i < k ==> other[..k][i] == other[i];
        assert k < i ==> rest[i - k - 1] == other[i] && ByteAt(name, qi + k + 1 + (i - k - 1)) == ByteAt(name, qi + i);
      }
    }
  }

  /** Comparing a hostname with the encoding of another one, of labels of 1 to 191 bytes, reports a difference exactly
      if a byte of the other one that is no dot differs. */
  lemma ComparesBytes(name: seq<int>, other: seq<int>, b: seq<int>, p: nat)
    requires Holds(b, p, Encode(other)) && forall l :: l in Labels(other) ==> 0 < |l| < 0xc0
    ensures Differs(name, 0, b, p) <==> !SameBytes(name, 0, other)
  {
    EncodedHasLabels(b, p, other, Labels(other));
    DiffersInALabel(name, 0, b, p, Labels(other));
    MatchesByBytes(name, 0, other);
  }

  lemma EncodedHasLabels(b: seq<int>, p: nat, other: seq<int>, ls: seq<seq<int>>)
    requires Holds(b, p, Encode(other)) && ls == Labels(other) && forall l :: l in ls ==> 0 < |l| < 0xc0
    ensures HasLabels(b, p, ls)
  {
    EncodeIsByLabels(other);
    EncodedLabels(ls);
    HoldsParts(b, p, Prefixed(ls), [0]);
    assert HoldsByte(b, p + |Prefixed(ls)|, [0], 0);
    assert forall i :: 0 <= i < |ls| ==> ls[i] in ls;
  }

  lemma {:induction false} EncodedLabels(ls: seq<seq<int>>)
    requires forall l :: l in ls ==> |l| < 256
    ensures EncodeLabels(ls) == Prefixed(ls) + [0]
    decreases |ls|
  {
    if ls != [] {
      assert ls[0] in ls;
      EncodedLabels(ls[1..]);
      SmallLowByte(|ls[0]|);
      Regroup(ls[0], Prefixed(ls[1..]), [0]);
      Regroup([|ls[0]|], ls[0] + Prefixed(ls[1..]), [0]);
    }
  }
}
