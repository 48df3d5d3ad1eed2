/** dhcp.c: the option writers, which append to an outgoing message, and the option loop of dhcp_parse_reply
    for a packet in one contiguous buffer. */
module Dhcp {
  import opened DhcpOptions

  const DHCP_MIN_OPTIONS_LEN: nat := 68
  const DHCP_SNAME_OFS: nat := 44
  const DHCP_OPTIONS_OFS: nat := 240

  const ERR_OK: int := 0
  const ERR_BUF: int := -2
  const ERR_VAL: int := -6

  function ByteOf(v: nat): Byte {
    (v % 0x100) as Byte
  }

  function Short(v: nat): seq<Byte> {
    [ByteOf(v / 0x100), ByteOf(v)]
  }

  function Long(v: nat): seq<Byte> {
    [ByteOf(v / 0x1000000), ByteOf(v / 0x10000), ByteOf(v / 0x100), ByteOf(v)]
  }

  lemma ByteBelow(v: nat)
    ensures v == v / 0x100 * 0x100 + v % 0x100
  {
  }

  /** Reading a written 32-bit value gives it back. */
  lemma LongRoundTrip(v: nat)
    requires v < 0x1_0000_0000
    ensures BigEndian(Long(v)) == v
  {
    var a, b, c := v / 0x100, v / 0x10000, v / 0x1000000;
    ByteBelow(v);
    ByteBelow(a);
    ByteBelow(b);
    assert a / 0x100 == b && b / 0x100 == c && c < 0x100;
    assert BigEndian(Long(v)) == ((c * 0x100 + b % 0x100) * 0x100 + a % 0x100) * 0x100 + v % 0x100;
  }

  /** So does reading a written 16-bit value. */
  lemma ShortRoundTrip(v: nat)
    requires v < 0x10000
    ensures |Short(v)| == 2 && Short(v)[0] as int * 256 + Short(v)[1] as int == v
  {
    ByteBelow(v);
  }

  function Zeros(n: nat): seq<Byte> {
    seq(n, _ => 0)
  }

  /** The length of the options after the end mark and its padding: at least the minimum and a multiple of
      four, unless there is no room for that. */
  function PaddedLen(len: nat, room: nat): nat {
    var wanted := if len < DHCP_MIN_OPTIONS_LEN then DHCP_MIN_OPTIONS_LEN else (len + 3) / 4 * 4;
    if wanted < room then wanted else room
  }

  /** The padded length is the first one from len on that is at least 68 and a multiple of four, or all there is. */
  lemma PaddedLenIs(len: nat, room: nat)
    requires len <= room && 68 <= room
    ensures var p := PaddedLen(len, room);
      && len <= p <= room && (p == room || (68 <= p && p % 4 == 0))
      && forall n :: len <= n < p ==> n < 68 || n % 4 != 0
  {
  }

  /** An outgoing message: its options field, and how much of it is in use. */
  class Outgoing {
    const options: array<Byte>
    var outLen: nat

    ghost predicate Valid()
      reads this
    {
      outLen <= options.Length && DHCP_MIN_OPTIONS_LEN <= options.Length
    }

    ghost function Written(): seq<Byte>
      requires Valid()
      reads this, options
    {
      options[..outLen]
    }

    constructor (len: nat)
      requires DHCP_MIN_OPTIONS_LEN <= len
      ensures Valid() && Written() == [] && options.Length == len && fresh(options)
    {
      options := new Byte[len](_ => 0);
      outLen := 0;
    }

    /** dhcp_option_byte */
    method OptionByte(value: Byte)
      requires Valid() && outLen < options.Length
      modifies this, options
      ensures Valid() && Written() == old(Written()) + [value]
    {
      options[outLen] := value;
      outLen := outLen + 1;
    }

    /** dhcp_option */
    method Option(code: Byte, len: Byte)
      requires Valid() && outLen + 2 + len as int <= options.Length
      modifies this, options
      ensures Valid() && Written() == old(Written()) + [code, len]
    {
      OptionByte(code);
      OptionByte(len);
    }

    /** dhcp_option_short */
    method OptionShort(value: nat)
      requires Valid() && outLen + 2 <= options.Length && value < 0x10000
      modifies this, options
      ensures Valid() && Written() == old(Written()) + Short(value)
    {
      OptionByte((value / 0x100) as Byte);
      OptionByte((value % 0x100) as Byte);
    }

    /** dhcp_option_long */
    method OptionLong(value: nat)
      requires Valid() && outLen + 4 <= options.Length && value < 0x1_0000_0000
      modifies this, options
      ensures Valid() && Written() == old(Written()) + Long(value)
    {
      OptionByte((value / 0x1000000) as Byte);
      OptionByte((value / 0x10000 % 0x100) as Byte);
      OptionByte((value / 0x100 % 0x100) as Byte);
      OptionByte((value % 0x100) as Byte);
    }

    /** dhcp_option_trailer */
    method OptionTrailer()
      requires Valid() && outLen < options.Length
      modifies this, options
      ensures Valid() && outLen == PaddedLen(old(outLen) + 1, options.Length)
      ensures Written() == old(Written()) + [END] + Zeros(outLen - old(outLen) - 1)
      ensures outLen == options.Length || (68 <= outLen && outLen % 4 == 0)
      ensures options[old(outLen)] == 255 && forall k :: old(outLen) < k < outLen ==> options[k] == 0
    {
      OptionByte(END);
      ghost var written := Written();
      ghost var start := outLen;
      while (outLen < DHCP_MIN_OPTIONS_LEN || outLen % 4 != 0) && outLen < options.Length
        invariant Valid() && start <= outLen <= PaddedLen(start, options.Length)
        invariant Written() == written + Zeros(outLen - start)
        decreases options.Length - outLen
      {
        OptionByte(0);
      }
      PaddedLenIs(start, options.Length);
      assert options[old(outLen)] == Written()[old(outLen)];
      assert forall k :: old(outLen) < k < outLen ==> options[k] == Written()[k];
    }

    /** The bytes of an option, one by one. */
    method OptionBytes(data: seq<Byte>)
      requires Valid() && outLen + |data| <= options.Length
      modifies this, options
      ensures Valid() && Written() == old(Written()) + data
    {
      ghost var head := Written();
      for k := 0 to |data|
        invariant Valid() && outLen == |head| + k && Written() == head + data[..k]
      {
        OptionByte(data[k]);
        assert data[..k + 1] == data[..k] + [data[k]];
      }
      assert data[..|data|] == data;
    }

    /** A whole option of four bytes, like the requested address and the server id. */
    method WriteLongOption(code: Byte, value: nat, ghost opts: seq<Opt>)
      requires Valid() && outLen + 6 <= options.Length && value < 0x1_0000_0000 && code != PAD && code != END
      requires AllComplete(opts) && Written() == Encode(opts)
      modifies this, options
      ensures Valid() && Written() == Encode(opts + [Opt(code, 4, Long(value))])
    {
      ghost var before := Written();
      Option(code, 4);
      OptionLong(value);
      EncodeMore(before, opts, code, 4, Long(value));
    }

    /** A whole option of two bytes, like the maximum message size. */
    method WriteShortOption(code: Byte, value: nat, ghost opts: seq<Opt>)
      requires Valid() && outLen + 4 <= options.Length && value < 0x10000 && code != PAD && code != END
      requires AllComplete(opts) && Written() == Encode(opts)
      modifies this, options
      ensures Valid() && Written() == Encode(opts + [Opt(code, 2, Short(value))])
    {
      ghost var before := Written();
      Option(code, 2);
      OptionShort(value);
      EncodeMore(before, opts, code, 2, Short(value));
    }

    /** A whole option given byte by byte, like the message type, the parameter request list and the hostname. */
    method WriteBytesOption(code: Byte, data: seq<Byte>, ghost opts: seq<Opt>)
      requires Valid() && |data| < 256 && outLen + 2 + |data| <= options.Length && code != PAD && code != END
      requires AllComplete(opts) && Written() == Encode(opts)
      modifies this, options
      ensures Valid() && Written() == Encode(opts + [Opt(code, |data| as Byte, data)])
    {
      ghost var before := Written();
      Option(code, |data| as Byte);
      OptionBytes(data);
      EncodeMore(before, opts, code, |data| as Byte, data);
    }
  }

  /** Code, length and bytes behind encoded options are one more encoded option. */
  lemma EncodeMore(before: seq<Byte>, opts: seq<Opt>, code: Byte, len: Byte, data: seq<Byte>)
    requires before == Encode(opts)
    ensures before + [code, len] + data == Encode(opts + [Opt(code, len, data)])
  {
    EncodeAppend(opts, Opt(code, len, data));
    assert before + [code, len] + data == before + ([code, len] + data);
  }

  lemma {:induction false} EncodeAppend(opts: seq<Opt>, o: Opt)
    ensures Encode(opts + [o]) == Encode(opts) + EncodeOpt(o)
    decreases opts
  {
    if opts == [] {
      assert opts + [o] == [o];
      assert Encode([o]) == EncodeOpt(o) + Encode([]);
    } else {
      assert (opts + [o])[1..] == opts[1..] + [o];
      EncodeAppend(opts[1..], o);
    }
  }

  lemma PartOfPart(buf: seq<Byte>, from: nat, n: nat, skip: nat, k: nat)
    requires skip + k <= n
    ensures Part(Part(buf, from, n), skip, k) == Part(buf, from + skip, k)
  {
    var part := Part(buf, from, n);
    if from + n <= |buf| {
      if k > 0 {
        assert part == buf[from..from + n] && |part| == n;
        var inner, outer := part[skip..skip + k], buf[from + skip..from + skip + k];
        forall i | 0 <= i < k
          ensures inner[i] == outer[i]
        {
          assert inner[i] == part[skip + i];
        }
        assert inner == outer;
      }
    } else if from + skip < |buf| {
      assert part == buf[from..];
      assert part[skip..] == buf[from + skip..];
    }
  }

  /** One value stored. */
  function Word(rx: Rx, i: nat, left: nat, w: seq<Byte>): Rx
    requires Shaped(rx) && i < IDX_MAX && |w| == 4
  {
    Rx(rx.given[i := true], rx.value[i := if left == 1 then w[0] as int else BigEndian(w)])
  }

  /** What one turn of the decode_next loop leaves to be stored. */
  lemma StoreStep(rx: Rx, i: nat, left: nat, buf: seq<Byte>, from: nat, behind: nat, window: seq<Byte>)
    requires Shaped(rx) && |window| == 4 && (left == 1 || left == 4 || left == 8) && left <= behind && i + left / 8 < IDX_MAX
    ensures Store(rx, i, left, Part(buf, from, behind), window) ==
      var w := Overlay(window, Part(buf, from, Low(left, 4)));
      if rx.given[i] then rx
      else if left == 8 then Store(Word(rx, i, left, w), i + 1, 4, Part(buf, from + 4, 4), w)
      else Word(rx, i, left, w)
  {
    PartOfPart(buf, from, behind, 0, Low(left, 4));
    if left == 8 {
      PartOfPart(buf, from, behind, 4, 4);
    }
  }

  /** What comes of the options from an offset on. */
  function Rest(rx: Rx, buf: seq<Byte>, offset: nat): Outcome
    requires Shaped(rx)
  {
    ApplyAll(rx, Scan(buf, offset))
  }

  /** The first option scanned is the first one applied. */
  lemma ScanStep(rx: Rx, buf: seq<Byte>, offset: nat, o: Opt, next: nat, after: Rx, ok: bool)
    requires Shaped(rx) && Shaped(after) && offset < |buf| && buf[offset] != END && o == OptAt(buf, offset)
    requires Apply(rx, o) == if ok then Ok(after) else BadLength(after)
    requires ok ==> next == offset + Size(o)
    ensures Rest(rx, buf, offset) == if ok then Rest(after, buf, next) else BadLength(after)
  {
    ApplyFirst(rx, o, Scan(buf, offset + Size(o)), after, ok);
  }

  lemma ApplyFirst(rx: Rx, o: Opt, rest: seq<Opt>, after: Rx, ok: bool)
    requires Shaped(rx) && Shaped(after) && Apply(rx, o) == if ok then Ok(after) else BadLength(after)
    ensures ApplyAll(rx, [o] + rest) == if ok then ApplyAll(after, rest) else BadLength(after)
  {
    assert ([o] + rest)[1..] == rest;
  }

  function Nothing(): seq<bool> {
    seq(IDX_MAX, _ => false)
  }

  /** dhcp_rx_options_given and dhcp_rx_options_val. */
  class Received {
    const given: array<bool>
    const value: array<nat>

    ghost predicate Valid()
      reads this
    {
      given.Length == value.Length == IDX_MAX
    }

    ghost function View(): (rx: Rx)
      requires Valid()
      reads this, given, value
      ensures Shaped(rx)
    {
      Rx(given[..], value[..])
    }

    constructor ()
      ensures Valid() && fresh(given) && fresh(value)
    {
      given := new bool[IDX_MAX](_ => false);
      value := new nat[IDX_MAX](_ => 0);
    }

    /** One turn of the decode_next loop: up to four bytes go to index i, unless that was given before. */
    method StoreWord(buf: seq<Byte>, i: nat, left: nat, from: nat, window: seq<Byte>) returns (w: seq<Byte>, stop: bool)
      requires Valid() && i < IDX_MAX && |window| == 4 && (left == 1 || left == 4 || left == 8)
      modifies given, value
      ensures w == Overlay(window, Part(buf, from, Low(left, 4)))
      ensures View() == old(if given[i] then View() else Word(View(), i, left, Overlay(window, Part(buf, from, Low(left, 4)))))
      ensures stop == (old(given[i]) || left <= 4)
    {
      var copyLen := if left < 4 then left else 4;
      w := Overlay(window, Part(buf, from, copyLen));
      if given[i] {
        return w, true;
      }
      given[i] := true;
      value[i] := if left == 1 then w[0] as int else BigEndian(w);
      stop := left <= 4;
    }

    /** The decode_next loop: store the n decoded bytes of one option of len bytes that starts at valOffset.
        A second value that would start beyond the 16-bit offset is left open. */
    method StoreValue(buf: seq<Byte>, idx: nat, n: nat, valOffset: nat, ghost len: nat)
      requires Valid() && (n == 1 || n == 4 || n == 8) && n <= len && idx + n / 8 < IDX_MAX && valOffset <= MAX_OFFSET
      modifies given, value
      ensures n < 8 || valOffset + 4 <= MAX_OFFSET ==>
        View() == old(Store(View(), idx, n, Part(buf, valOffset, len), [0, 0, 0, 0]))
    {
      var i: nat, left: nat, from: nat, stop := idx, n, valOffset, false;
      var window: seq<Byte> := [0, 0, 0, 0];
      ghost var behind, settled := len, n < 8 || valOffset + 4 <= MAX_OFFSET;
      ghost var goal := Store(View(), i, left, Part(buf, from, behind), window);
      while !stop
        invariant (left == 1 || left == 4 || left == 8) && |window| == 4 && from <= MAX_OFFSET
        invariant !stop ==> i + left / 8 < IDX_MAX && left <= behind && (settled && left == 8 ==> from + 4 <= MAX_OFFSET)
        invariant settled ==> goal == if stop then View() else Store(View(), i, left, Part(buf, from, behind), window)
        decreases !stop, left
      {
        StoreStep(View(), i, left, buf, from, behind, window);
        window, stop := StoreWord(buf, i, left, from, window);
        if !stop {
          left := left - 4;
          behind := left;
          from := Wrapped(from + 4);
          i := i + 1;
        }
      }
    }

    /** One turn of the option loop of dhcp_parse_reply: the option at an offset. Only where a second DNS
        server starts beyond the 16-bit offset is it left open what is stored. */
    method TakeOption(buf: seq<Byte>, at: nat) returns (offset: nat, err: int)
      requires Valid() && at < |buf| <= MAX_OFFSET && buf[at] != END
      modifies given, value
      ensures var o := OptAt(buf, at);
        if o.Opt? && !LenFits(o.code, o.len) then err == ERR_VAL && View() == old(View())
        else err == ERR_OK && offset == NextOffset(at, o)
      ensures err != ERR_OK || at + Size(OptAt(buf, at)) <= MAX_OFFSET ==>
        old(Apply(View(), OptAt(buf, at))) == if err == ERR_OK then Ok(View()) else BadLength(View())
    {
      var op := buf[at];
      var len := if at + 1 < |buf| then buf[at + 1] else 0;
      var decodeLen := 0;
      var valOffset := Wrapped(at + 2);
      var from: int := at;
      if op == PAD {
        len := 0;
        from := from - 1;
      } else {
        if !LenFits(op, len) {
          return at, ERR_VAL;
        }
        decodeLen := DecodeLen(op, len);
      }
      offset := Wrapped(from + len as int + 2);
      if decodeLen > 0 {
        StoreValue(buf, IndexOf(op), decodeLen, valOffset, len as int);
      }
      err := ERR_OK;
    }

    /** The same turn, seen from the options that remain. */
    method TakeFirst(buf: seq<Byte>, at: nat) returns (offset: nat, err: int)
      requires Valid() && at < |buf| <= MAX_OFFSET && buf[at] != END
      modifies given, value
      ensures (err == ERR_OK || err == ERR_VAL) && (err == ERR_OK ==> offset <= MAX_OFFSET)
      ensures Advances(buf, at) <==> err == ERR_VAL || (offset > at && Advances(buf, offset))
      ensures err == ERR_VAL || offset > at ==>
        old(Rest(View(), buf, at)) == if err == ERR_OK then Rest(View(), buf, offset) else BadLength(View())
    {
      ghost var before, o := View(), OptAt(buf, at);
      offset, err := TakeOption(buf, at);
      ghost var after, ok := View(), err == ERR_OK;
      GoesForward(buf, at);
      if !ok || offset > at {
        ScanStep(before, buf, at, o, offset, after, ok);
      }
    }

    /** The option loop of dhcp_parse_reply from an offset on, as far as the offset does not wrap: wrapped
        says that it did. */
    method ParseOptions(buf: seq<Byte>, start: nat) returns (err: int, wrapped: bool)
      requires Valid() && start < |buf| <= MAX_OFFSET
      modifies given, value
      ensures (err == ERR_OK || err == ERR_VAL) && (wrapped <==> !Advances(buf, start))
      ensures !wrapped ==>
        var r := old(ApplyAll(View(), Scan(buf, start)));
        View() == r.rx && err == if r.Ok? then ERR_OK else ERR_VAL
    {
      var offset := start;
      wrapped := false;
      ghost var goal := ApplyAll(View(), Scan(buf, start));
      while buf[offset] != END
        invariant offset < |buf| && Advances(buf, start) == Advances(buf, offset)
        invariant goal == ApplyAll(View(), Scan(buf, offset))
        decreases |buf| - offset
      {
        var next;
        next, err := TakeFirst(buf, offset);
        if err != ERR_OK {
          assert err == ERR_VAL;
          return;
        }
        if next <= offset {
          return ERR_OK, true;
        }
        offset := next;
        if offset >= |buf| {
          break;
        }
      }
      err := ERR_OK;
    }

    /** dhcp_parse_reply up to the point where an overloaded message would be parsed again: again says
        whether it would. */
    method ParseReply(buf: seq<Byte>) returns (err: int, again: bool, wrapped: bool)
      requires Valid() && |buf| <= MAX_OFFSET
      modifies given, value
      ensures |buf| <= DHCP_OPTIONS_OFS <==> err == ERR_BUF
      ensures wrapped <==> |buf| > DHCP_OPTIONS_OFS && !Advances(buf, DHCP_OPTIONS_OFS)
      ensures err != ERR_OK ==> !again
      ensures |buf| > DHCP_OPTIONS_OFS && !wrapped ==>
        var r := ApplyAll(Rx(Nothing(), old(value[..])), Scan(buf, DHCP_OPTIONS_OFS));
        && err == (if r.Ok? then ERR_OK else ERR_VAL)
        && View() == (if r.Ok? then r.rx.(given := r.rx.given[0 := false]) else r.rx)
        && (again <==> r.Ok? && r.rx.given[0] && 1 <= r.rx.value[0] <= 3)
    {
      again, wrapped := false, false;
      forall i | 0 <= i < IDX_MAX {
        given[i] := false;
      }
      assert given[..] == Nothing();
      assert View() == Rx(Nothing(), old(value[..]));
      if |buf| < DHCP_SNAME_OFS {
        return ERR_BUF, false, false;
      }
      if DHCP_OPTIONS_OFS >= |buf| {
        return ERR_BUF, false, false;
      }
      err, wrapped := ParseOptions(buf, DHCP_OPTIONS_OFS);
      if err != ERR_OK || wrapped {
        return;
      }
      if given[0] {
        again := 1 <= value[0] <= 3;
        given[0] := false;
      }
    }
  }

  /** A message whose options were written with the writers and ended by the trailer is read back: it is
      refused exactly if a length does not fit, and otherwise each known option is given exactly if it was
      written, with the number of its first occurrence. */
  lemma WrittenIsParsed(buf: seq<Byte>, opts: seq<Opt>, rest: seq<Byte>, values: seq<nat>, c: Byte)
    requires DHCP_OPTIONS_OFS <= |buf| && buf[DHCP_OPTIONS_OFS..] == Encode(opts) + ([END] + rest)
    requires AllComplete(opts) && |values| == IDX_MAX && Known(c)
    ensures var r := ApplyAll(Rx(Nothing(), values), Scan(buf, DHCP_OPTIONS_OFS));
      && (r.Ok? <==> AllFit(opts))
      && (r.Ok? ==>
            && (r.rx.given[IndexOf(c)] <==> First(opts, c).Some?)
            && (r.rx.given[IndexOf(c)] ==> r.rx.value[IndexOf(c)] == Number(First(opts, c).value)))
  {
    ScanEncoded(buf, DHCP_OPTIONS_OFS, opts, rest);
    AcceptsExactly(Rx(Nothing(), values), opts);
    if AllFit(opts) {
      FirstOccurrenceCounts(Rx(Nothing(), values), opts, c);
    }
  }

  /** The number of a four-byte option is the value that was written. */
  lemma WrittenNumber(c: Byte, v: nat)
    requires Known(c) && LenFits(c, 4) && v < 0x1_0000_0000
    ensures Number(Opt(c, 4, Long(v))) == v
  {
    LongRoundTrip(v);
    assert Long(v)[..4] == Long(v);
  }

  /** The writers and the parser together: a message whose options were written with the writers is ended by
      the trailer and parsed. It is refused exactly if a length does not fit; otherwise every known option but
      the overload one is given exactly if it was written, with the number of its first occurrence. */
  method WriteAndParse(out: Outgoing, rx: Received, header: seq<Byte>, ghost opts: seq<Opt>) returns (err: int)
    requires out.Valid() && rx.Valid() && out.options != rx.given as object && out.options != rx.value as object
    requires |header| == DHCP_OPTIONS_OFS && DHCP_OPTIONS_OFS + out.options.Length <= LONGEST_SAFE
    requires out.outLen < out.options.Length && AllComplete(opts) && out.Written() == Encode(opts)
    modifies out, out.options, rx.given, rx.value
    ensures rx.Valid() && (err == ERR_OK || err == ERR_VAL) && (err == ERR_OK <==> AllFit(opts))
    ensures err == ERR_OK ==> forall c :: Known(c) && c != OVERLOAD ==>
      && (rx.given[IndexOf(c)] <==> First(opts, c).Some?)
      && (rx.given[IndexOf(c)] ==> rx.value[IndexOf(c)] == Number(First(opts, c).value))
  {
    out.OptionTrailer();
    var buf := header + out.options[..out.outLen];
    ghost var rest := out.Written()[|Encode(opts)| + 1..];
    assert out.Written() == Encode(opts) + ([END] + rest);
    assert buf[DHCP_OPTIONS_OFS..] == out.Written();
    ghost var values := rx.value[..];
    ShortPacketsAdvance(buf, DHCP_OPTIONS_OFS);
    var again, wrapped;
    err, again, wrapped := rx.ParseReply(buf);
    forall c | Known(c)
      ensures var r := ApplyAll(Rx(Nothing(), values), Scan(buf, DHCP_OPTIONS_OFS));
        && (r.Ok? <==> AllFit(opts))
        && (r.Ok? ==>
              && (r.rx.given[IndexOf(c)] <==> First(opts, c).Some?)
              && (r.rx.given[IndexOf(c)] ==> r.rx.value[IndexOf(c)] == Number(First(opts, c).value)))
    {
      WrittenIsParsed(buf, opts, rest, values, c);
    }
    assert Known(OVERLOAD);
  }
}
