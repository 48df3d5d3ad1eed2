/** dhcp.c: the format of DHCP options (section 2 of RFC 2132), and what the parser makes of a list of them. */
module DhcpOptions {
  import opened Common

  newtype Byte = b: int | 0 <= b < 256

  const PAD: Byte := 0
  const SUBNET_MASK: Byte := 1
  const ROUTER: Byte := 3
  const DNS_SERVER: Byte := 6
  const LEASE_TIME: Byte := 51
  const OVERLOAD: Byte := 52
  const MESSAGE_TYPE: Byte := 53
  const SERVER_ID: Byte := 54
  const T1: Byte := 58
  const T2: Byte := 59
  const END: Byte := 255

  const DNS_MAX_SERVERS: nat := 2
  // DHCP_OPTION_IDX_DNS_SERVER and DHCP_OPTION_IDX_MAX
  const IDX_DNS_SERVER: nat := 8
  const IDX_MAX: nat := IDX_DNS_SERVER + DNS_MAX_SERVERS

  /** An option as the parser sees it: its code, its length byte, and those of its bytes that lie in the packet. */
  datatype Opt = Pad | Opt(code: Byte, len: Byte, data: seq<Byte>)

  /** An option as it is written: all its bytes are there. */
  predicate Complete(o: Opt) {
    o.Opt? ==> o.code != PAD && o.code != END && |o.data| == o.len as int
  }

  predicate AllComplete(opts: seq<Opt>) {
    forall i :: 0 <= i < |opts| ==> Complete(opts[i])
  }

  function EncodeOpt(o: Opt): seq<Byte> {
    if o.Pad? then [PAD] else [o.code, o.len] + o.data
  }

  function Encode(opts: seq<Opt>): seq<Byte> {
    if opts == [] then [] else EncodeOpt(opts[0]) + Encode(opts[1..])
  }

  /** The length byte at an offset; one behind the packet reads as zero. */
  function LenAt(buf: seq<Byte>, offset: nat): Byte
    requires offset < |buf|
  {
    if offset + 1 < |buf| then buf[offset + 1] else 0
  }

  /** The part [from, from + n) of the packet, as far as it goes: pbuf_copy_partial. */
  function Part(buf: seq<Byte>, from: nat, n: nat): (part: seq<Byte>)
    ensures |part| <= n
  {
    if from >= |buf| then [] else if from + n <= |buf| then buf[from..from + n] else buf[from..]
  }

  function OptAt(buf: seq<Byte>, offset: nat): Opt
    requires offset < |buf| && buf[offset] != END
  {
    if buf[offset] == PAD then Pad
    else Opt(buf[offset], LenAt(buf, offset), Part(buf, offset + 2, LenAt(buf, offset) as int))
  }

  function Size(o: Opt): nat {
    if o.Pad? then 1 else o.len as int + 2
  }

  /** The options in a packet from an offset up to the end mark or the end of the packet. */
  function Scan(buf: seq<Byte>, offset: nat): seq<Opt>
    decreases |buf| - offset
  {
    if offset >= |buf| || buf[offset] == END then []
    else [OptAt(buf, offset)] + Scan(buf, offset + Size(OptAt(buf, offset)))
  }

  /** Scanning is the inverse of writing, wherever the options stand and whatever is behind the end mark. */
  lemma {:induction false} ScanEncoded(buf: seq<Byte>, offset: nat, opts: seq<Opt>, rest: seq<Byte>)
    requires AllComplete(opts)
    requires offset <= |buf| && buf[offset..] == Encode(opts) + ([END] + rest)
    ensures Scan(buf, offset) == opts
    decreases |opts|
  {
    if opts == [] {
      EndIsHere(buf, offset, rest);
    } else {
      var next, more := FirstEncoded(buf, offset, opts, rest);
      ScanEncoded(buf, next, more, rest);
      HeadAndTail(opts, more);
      ScanFirst(buf, offset, opts[0], next, more);
    }
  }

  lemma FirstEncoded(buf: seq<Byte>, offset: nat, opts: seq<Opt>, rest: seq<Byte>) returns (next: nat, more: seq<Opt>)
    requires AllComplete(opts) && opts != []
    requires offset <= |buf| && buf[offset..] == Encode(opts) + ([END] + rest)
    ensures offset < |buf| && buf[offset] != END && OptAt(buf, offset) == opts[0]
    ensures next == offset + Size(opts[0]) && more == opts[1..] && |more| < |opts| && AllComplete(more)
    ensures next <= |buf| && buf[next..] == Encode(more) + ([END] + rest)
  {
    next, more := offset + Size(opts[0]), opts[1..];
    assert Complete(opts[0]);
    EncodeFirst(opts, [END] + rest);
    FirstOption(buf, offset, opts[0], Encode(opts[1..]) + ([END] + rest));
    forall i | 0 <= i < |opts[1..]|
      ensures Complete(opts[1..][i])
    {
      assert Complete(opts[i + 1]);
    }
  }

  lemma EndIsHere(buf: seq<Byte>, offset: nat, rest: seq<Byte>)
    requires offset <= |buf| && buf[offset..] == [] + ([END] + rest)
    ensures Scan(buf, offset) == []
  {
    assert buf[offset] == buf[offset..][0] == END;
  }

  lemma ScanFirst(buf: seq<Byte>, offset: nat, o: Opt, next: nat, more: seq<Opt>)
    requires offset < |buf| && buf[offset] != END && OptAt(buf, offset) == o
    requires next == offset + Size(o) && Scan(buf, next) == more
    ensures Scan(buf, offset) == [o] + more
  {
  }

  lemma HeadAndTail(opts: seq<Opt>, more: seq<Opt>)
    requires opts != [] && more == opts[1..]
    ensures [opts[0]] + more == opts
  {
  }

  lemma EncodeFirst(opts: seq<Opt>, rest: seq<Byte>)
    requires opts != []
    ensures Encode(opts) + rest == EncodeOpt(opts[0]) + (Encode(opts[1..]) + rest)
  {
    Regroup(EncodeOpt(opts[0]), Encode(opts[1..]), rest);
  }

  lemma Regroup(a: seq<Byte>, b: seq<Byte>, c: seq<Byte>)
    ensures a + b + c == a + (b + c)
  {
  }

  /** What a packet that goes on with head and tail holds. */
  lemma GoesOnWith(buf: seq<Byte>, offset: nat, head: seq<Byte>, tail: seq<Byte>)
    requires offset <= |buf| && buf[offset..] == head + tail
    ensures offset + |head| <= |buf| && buf[offset..offset + |head|] == head && buf[offset + |head|..] == tail
    ensures forall k :: 0 <= k < |head| ==> buf[offset + k] == head[k]
  {
    var from := buf[offset..];
    forall k | 0 <= k < |head|
      ensures buf[offset + k] == head[k]
    {
      assert from[k] == head[k];
    }
    forall k | 0 <= k < |tail|
      ensures buf[offset + |head|..][k] == tail[k]
    {
      assert from[|head| + k] == tail[k];
    }
  }

  lemma FirstOption(buf: seq<Byte>, offset: nat, o: Opt, tail: seq<Byte>)
    requires Complete(o) && offset <= |buf| && buf[offset..] == EncodeOpt(o) + tail
    ensures offset < |buf| && buf[offset] != END && OptAt(buf, offset) == o
    ensures offset + Size(o) <= |buf| && buf[offset + Size(o)..] == tail
  {
    GoesOnWith(buf, offset, EncodeOpt(o), tail);
    if o.Opt? {
      assert buf[offset] == o.code && buf[offset + 1] == o.len;
      DataAt(buf, offset, o);
    }
  }

  lemma DataAt(buf: seq<Byte>, offset: nat, o: Opt)
    requires o.Opt? && Complete(o) && offset + Size(o) <= |buf| && buf[offset..offset + Size(o)] == EncodeOpt(o)
    ensures Part(buf, offset + 2, o.len as int) == o.data
  {
    var all := buf[offset..offset + Size(o)];
    forall k | 0 <= k < |o.data|
      ensures buf[offset + 2..offset + 2 + |o.data|][k] == o.data[k]
    {
      assert all[2 + k] == o.data[k];
    }
  }

  // ------------------------------------------------------------ the 16-bit offset

  const MAX_OFFSET: nat := 0xffff

  /** What a u16_t keeps of the sum of two of them. */
  function Wrapped(sum: nat): nat
    requires sum <= 2 * MAX_OFFSET
  {
    if sum <= MAX_OFFSET then sum else sum - (MAX_OFFSET + 1)
  }

  /** The offset behind an option, as a u16_t has it. */
  function NextOffset(offset: nat, o: Opt): nat
    requires offset <= MAX_OFFSET
  {
    Wrapped(offset + Size(o))
  }

  /** A step of the loop goes forward exactly if the sum fits the offset. */
  lemma GoesForward(buf: seq<Byte>, offset: nat)
    requires offset < |buf| <= MAX_OFFSET && buf[offset] != END
    ensures var o := OptAt(buf, offset);
      && (offset < NextOffset(offset, o) <==> offset + Size(o) <= MAX_OFFSET)
      && (offset + Size(o) <= MAX_OFFSET ==> NextOffset(offset, o) == offset + Size(o))
  {
  }

  /** The offset never wraps on the way from here to the end mark, the end of the packet or a bad length. */
  predicate Advances(buf: seq<Byte>, offset: nat)
    decreases |buf| - offset
  {
    if offset >= |buf| || buf[offset] == END then true
    else
      var o := OptAt(buf, offset);
      if o.Opt? && !LenFits(o.code, o.len) then true
      else offset + Size(o) <= MAX_OFFSET && Advances(buf, offset + Size(o))
  }

  /** A packet of this length or less is too short for the offset to wrap: 65280, that is. */
  const LONGEST_SAFE: nat := MAX_OFFSET - 0xff

  lemma {:induction false} ShortPacketsAdvance(buf: seq<Byte>, offset: nat)
    requires |buf| <= LONGEST_SAFE
    ensures Advances(buf, offset)
    decreases |buf| - offset
  {
    if offset < |buf| && buf[offset] != END {
      StepIsBounded(buf, offset);
      ShortPacketsAdvance(buf, offset + Size(OptAt(buf, offset)));
    }
  }

  /** The longest step is made by an option whose length byte is still in the packet. */
  lemma StepIsBounded(buf: seq<Byte>, offset: nat)
    requires offset < |buf| && buf[offset] != END
    ensures offset + Size(OptAt(buf, offset)) <= |buf| + 0xff
  {
  }

  /** Pads from the offset on, up to an unknown option at the end of a packet that announces 255 bytes. */
  ghost predicate PadsThenUnknown(buf: seq<Byte>, offset: nat) {
    && offset + 2 <= |buf| && buf[|buf| - 2] == 12 && buf[|buf| - 1] == 255
    && forall k :: offset <= k < |buf| - 2 ==> buf[k] == PAD
  }

  lemma {:induction false} PadsLeadOn(buf: seq<Byte>, offset: nat)
    requires PadsThenUnknown(buf, offset) && LONGEST_SAFE < |buf| <= MAX_OFFSET
    ensures !Advances(buf, offset)
    decreases |buf| - offset
  {
    if offset < |buf| - 2 {
      assert buf[offset] == PAD && OptAt(buf, offset) == Pad;
      PadsLeadOn(buf, offset + 1);
    } else {
      assert OptAt(buf, offset).code == 12 && OptAt(buf, offset).len == 255;
    }
  }

  /** The bound is tight: in a packet of any greater length the offset can wrap, wherever the options start. */
  lemma LongPacketNeedNotAdvance(n: nat, start: nat) returns (buf: seq<Byte>)
    requires LONGEST_SAFE < n <= MAX_OFFSET && start + 2 <= n
    ensures |buf| == n && !Advances(buf, start)
  {
    buf := seq(n, i => if i == n - 2 then 12 else if i == n - 1 then 255 else PAD);
    PadsLeadOn(buf, start);
  }

  // ------------------------------------------------------------ meaning

  /** What has been received: dhcp_rx_options_given and dhcp_rx_options_val. */
  datatype Rx = Rx(given: seq<bool>, value: seq<nat>)

  predicate Shaped(rx: Rx) {
    |rx.given| == |rx.value| == IDX_MAX
  }

  predicate Known(code: Byte) {
    code in {SUBNET_MASK, ROUTER, DNS_SERVER, LEASE_TIME, OVERLOAD, MESSAGE_TYPE, SERVER_ID, T1, T2}
  }

  /** The DHCP_OPTION_IDX of a known option. */
  function IndexOf(code: Byte): (i: nat)
    requires Known(code)
    ensures i <= IDX_DNS_SERVER && (i == IDX_DNS_SERVER <==> code == DNS_SERVER)
  {
    if code == OVERLOAD then 0
    else if code == MESSAGE_TYPE then 1
    else if code == SERVER_ID then 2
    else if code == LEASE_TIME then 3
    else if code == T1 then 4
    else if code == T2 then 5
    else if code == SUBNET_MASK then 6
    else if code == ROUTER then 7
    else IDX_DNS_SERVER
  }

  /** The lengths a known option may have; others make the parser give up with ERR_VAL. */
  predicate LenFits(code: Byte, len: Byte) {
    if code == ROUTER then len >= 4
    else if code == DNS_SERVER then len % 4 == 0
    else if code == OVERLOAD || code == MESSAGE_TYPE then len == 1
    else Known(code) ==> len == 4
  }

  /** The options of RFC 2132 that are understood, and the lengths they may have: one byte for the overload option
      (52) and the message type (53), four for the subnet mask (1), the lease time (51), the server (54) and the
      renewal times (58, 59), at least four for routers (3) and any number of fours for DNS servers (6). */
  lemma UnderstoodOptions(code: Byte, len: Byte)
    ensures Known(code) <==> code in {1, 3, 6, 51, 52, 53, 54, 58, 59}
    ensures LenFits(code, len) <==>
      && (code in {52, 53} ==> len == 1)
      && (code in {1, 51, 54, 58, 59} ==> len == 4)
      && (code == 3 ==> 4 <= len)
      && (code == 6 ==> exists n: nat :: len as int == 4 * n)
  {
    assert len % 4 == 0 ==> len as int == 4 * (len as int / 4);
  }

  /** How many bytes of an option are decoded. */
  function DecodeLen(code: Byte, len: Byte): (n: nat)
    requires LenFits(code, len)
    ensures n <= len as int && (n == 0 || n == 1 || n == 4 || (n == 8 && code == DNS_SERVER))
    ensures n > 0 ==> Known(code)
  {
    if !Known(code) then 0
    else if code == ROUTER then 4
    else if code == DNS_SERVER then if len as int > 4 * DNS_MAX_SERVERS then 4 * DNS_MAX_SERVERS else len as int
    else len as int
  }

  function BigEndian(w: seq<Byte>): nat
    requires |w| == 4
  {
    ((w[0] as int * 256 + w[1] as int) * 256 + w[2] as int) * 256 + w[3] as int
  }

  /** A copy of fewer bytes leaves the rest of the window as it was. */
  function Overlay(window: seq<Byte>, part: seq<Byte>): (w: seq<Byte>)
    requires |part| <= |window|
    ensures |w| == |window|
  {
    part + window[|part|..]
  }

  function Low(a: nat, b: nat): nat {
    if a < b then a else b
  }

  /** Values are stored from index idx on, four bytes each, until an index is found that was given before. */
  function Store(rx: Rx, idx: nat, n: nat, data: seq<Byte>, window: seq<Byte>): (r: Rx)
    requires Shaped(rx) && |window| == 4 && (n == 1 || n == 4 || n == 8)
    requires idx + n / 8 < IDX_MAX
    ensures Shaped(r)
    decreases n
  {
    if rx.given[idx] then rx
    else
      var w := Overlay(window, Part(data, 0, Low(n, 4)));
      var next := Rx(rx.given[idx := true], rx.value[idx := if n == 1 then w[0] as int else BigEndian(w)]);
      if n > 4 then Store(next, idx + 1, n - 4, Part(data, 4, n - 4), w) else next
  }

  datatype Outcome = Ok(rx: Rx) | BadLength(rx: Rx)

  /** One option's effect. */
  function Apply(rx: Rx, o: Opt): (r: Outcome)
    requires Shaped(rx)
    ensures Shaped(r.rx)
  {
    if o.Pad? then Ok(rx)
    else if !LenFits(o.code, o.len) then BadLength(rx)
    else
      var n := DecodeLen(o.code, o.len);
      if n == 0 then Ok(rx) else Ok(Store(rx, IndexOf(o.code), n, o.data, [0, 0, 0, 0]))
  }

  function ApplyAll(rx: Rx, opts: seq<Opt>): (r: Outcome)
    requires Shaped(rx)
    ensures Shaped(r.rx)
    decreases opts
  {
    if opts == [] then Ok(rx)
    else
      var r := Apply(rx, opts[0]);
      if r.BadLength? then r else ApplyAll(r.rx, opts[1..])
  }

  // ------------------------------------------------------------ first occurrences

  /** The first option of a code that holds anything. */
  function First(opts: seq<Opt>, code: Byte): (r: Option<Opt>)
    ensures r.Some? ==> r.value in opts && r.value.Opt? && r.value.code == code && r.value.len != 0
  {
    if opts == [] then None
    else if opts[0].Opt? && opts[0].code == code && opts[0].len != 0 then Some(opts[0])
    else First(opts[1..], code)
  }

  predicate AllFit(opts: seq<Opt>) {
    forall i :: 0 <= i < |opts| ==> opts[i].Opt? ==> LenFits(opts[i].code, opts[i].len)
  }

  /** The number an option stands for: its one byte, or its first four bytes, most significant first. */
  function Number(o: Opt): nat
    requires o.Opt? && Complete(o) && LenFits(o.code, o.len) && o.len != 0 && Known(o.code)
  {
    if o.len == 1 then o.data[0] as int else BigEndian(o.data[..4])
  }

  /** The parser accepts a list exactly if the lengths of all its known options fit. */
  lemma {:induction false} AcceptsExactly(rx: Rx, opts: seq<Opt>)
    requires Shaped(rx)
    ensures ApplyAll(rx, opts).Ok? <==> AllFit(opts)
    decreases opts
  {
    if opts != [] {
      var r := Apply(rx, opts[0]);
      if r.Ok? {
        AcceptsExactly(r.rx, opts[1..]);
        assert forall i :: 1 <= i < |opts| ==> opts[1..][i - 1] == opts[i];
        assert AllFit(opts) <==> AllFit(opts[1..]);
      }
    }
  }

  /** Store sets the value at its first index, unless it was given before; a lower index keeps its value. */
  lemma StoreSets(rx: Rx, idx: nat, n: nat, data: seq<Byte>, i: nat)
    requires Shaped(rx) && (n == 1 || n == 4 || n == 8) && n <= |data| && idx + n / 8 < IDX_MAX && i < IDX_MAX
    requires i <= idx || n < 8
    ensures var r := Store(rx, idx, n, data, [0, 0, 0, 0]);
      if i == idx && !rx.given[i]
      then r.given[i] && r.value[i] == if n == 1 then data[0] as int else BigEndian(data[..4])
      else r.given[i] == rx.given[i] && r.value[i] == rx.value[i]
  {
    if n == 1 {
      assert Overlay([0, 0, 0, 0], Part(data, 0, 1))[0] == data[0];
    } else {
      assert Overlay([0, 0, 0, 0], Part(data, 0, 4)) == data[..4];
    }
  }

  /** Bytes of an option that are missing from the packet count as zeros. */
  lemma MissingBytesAreZeros(rx: Rx, o: Opt)
    requires Shaped(rx) && o.Opt? && Known(o.code) && LenFits(o.code, o.len) && o.len != 0 && |o.data| <= o.len as int
    requires !rx.given[IndexOf(o.code)]
    ensures var i, full := IndexOf(o.code), o.data + [0, 0, 0, 0];
      && Apply(rx, o).Ok? && Apply(rx, o).rx.given[i]
      && Apply(rx, o).rx.value[i] == if o.len == 1 then full[0] as int else BigEndian(full[..4])
  {
    var n, zeros, full := DecodeLen(o.code, o.len), [0, 0, 0, 0], o.data + [0, 0, 0, 0];
    var w := Overlay(zeros, Part(o.data, 0, Low(n, 4)));
    if n > 1 {
      if |o.data| < 4 {
        assert Part(o.data, 0, 4) == o.data && w == full[..4];
      } else {
        assert Part(o.data, 0, 4) == o.data[..4] && w == full[..4];
      }
    }
  }

  lemma ApplySets(rx: Rx, o: Opt, c: Byte)
    requires Shaped(rx) && o.Opt? && Complete(o) && LenFits(o.code, o.len) && o.len != 0 && Known(o.code)
    requires Known(c)
    ensures var r := Apply(rx, o).rx;
      var i := IndexOf(c);
      if o.code == c && !rx.given[i] then r.given[i] && r.value[i] == Number(o)
      else r.given[i] == rx.given[i] && r.value[i] == rx.value[i]
  {
    StoreSets(rx, IndexOf(o.code), DecodeLen(o.code, o.len), o.data, IndexOf(c));
    assert IndexOf(o.code) == IndexOf(c) <==> o.code == c;
  }

  /** For each known option: it counts as given exactly if it occurs (or was given before), and its value is
      that of its first occurrence. */
  lemma {:induction false} FirstOccurrenceCounts(rx: Rx, opts: seq<Opt>, c: Byte)
    requires Shaped(rx) && AllFit(opts) && AllComplete(opts) && Known(c)
    ensures var r := ApplyAll(rx, opts).rx;
      var i := IndexOf(c);
      && (r.given[i] <==> rx.given[i] || First(opts, c).Some?)
      && r.value[i] == if rx.given[i] || First(opts, c).None? then rx.value[i] else Number(First(opts, c).value)
    decreases opts
  {
    if opts != [] {
      var o := opts[0];
      assert Complete(o);
      if o.Opt? && Known(o.code) && o.len != 0 {
        ApplySets(rx, o, c);
      }
      FirstOccurrenceCounts(Apply(rx, o).rx, opts[1..], c);
    }
  }

  /** Further DNS servers are those of the first DNS option that names any: a second one never adds to them. */
  lemma {:induction false} SecondServerCounts(rx: Rx, opts: seq<Opt>)
    requires Shaped(rx) && AllFit(opts) && AllComplete(opts)
    requires rx.given[IDX_DNS_SERVER + 1] ==> rx.given[IDX_DNS_SERVER]
    ensures var r := ApplyAll(rx, opts).rx;
      var f := First(opts, DNS_SERVER);
      var i := IDX_DNS_SERVER + 1;
      if rx.given[IDX_DNS_SERVER] || f.None? || f.value.len == 4 then r.given[i] == rx.given[i] && r.value[i] == rx.value[i]
      else r.given[i] && r.value[i] == BigEndian(f.value.data[4..8])
    decreases opts
  {
    if opts != [] {
      var o := opts[0];
      assert Complete(o);
      SecondServerStep(rx, o);
      SecondServerCounts(Apply(rx, o).rx, opts[1..]);
    }
  }

  lemma SecondServerStep(rx: Rx, o: Opt)
    requires Shaped(rx) && Complete(o) && (o.Opt? ==> LenFits(o.code, o.len))
    requires rx.given[IDX_DNS_SERVER + 1] ==> rx.given[IDX_DNS_SERVER]
    ensures var r := Apply(rx, o).rx;
      var i := IDX_DNS_SERVER + 1;
      && (r.given[IDX_DNS_SERVER] <==> rx.given[IDX_DNS_SERVER] || (o.Opt? && o.code == DNS_SERVER && o.len != 0))
      && if o.Opt? && o.code == DNS_SERVER && o.len > 4 && !rx.given[IDX_DNS_SERVER]
         then r.given[i] && r.value[i] == BigEndian(o.data[4..8])
         else r.given[i] == rx.given[i] && r.value[i] == rx.value[i]
  {
    if o.Opt? && o.code == DNS_SERVER && o.len > 4 {
      var w := Overlay([0, 0, 0, 0], Part(o.data, 0, 4));
      assert Overlay(w, Part(Part(o.data, 4, 4), 0, 4)) == o.data[4..8];
    }
  }
}
