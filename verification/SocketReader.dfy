/** sockets.c: lwip_recvfrom on a TCP socket as a reader of a byte stream, and do_recv's window updates. */
module SocketReader {
  import opened Common

  type Byte = int

  const EWOULDBLOCK: int := 11
  const ERR_CLSD: int := -13
  const ERR_TIMEOUT: int := -3

  /** A received buffer: its bytes and its PUSH flag. */
  datatype Pbuf = Pbuf(bytes: seq<Byte>, push: bool)

  /** What netconn_recv_tcp_pbuf comes back with. */
  datatype Fetch = Got(p: Pbuf) | Failed(err: int)

  /** What the outside does during one turn of the loop: whether receive events are pending before a fetch,
      what a fetch brings, and whether receive events are pending after the copy. */
  datatype Turn = Turn(pending: bool, fetch: Fetch, more: bool)

  /** Behind the last given turn nothing more arrives. */
  function TurnAt(turns: seq<Turn>, i: nat): Turn {
    if i < |turns| then turns[i] else Turn(false, Failed(ERR_TIMEOUT), false)
  }

  function Sum(xs: seq<nat>): nat {
    if xs == [] then 0 else Sum(xs[..|xs| - 1]) + xs[|xs| - 1]
  }

  /** do_recv: the window is opened in pieces a u16_t can hold, at least one. */
  method Recved(len: nat) returns (pieces: seq<nat>)
    ensures Sum(pieces) == len && 0 < |pieces|
    ensures forall k :: 0 <= k < |pieces| ==> pieces[k] <= 0xffff
    ensures |pieces| == if len == 0 then 1 else (len + 0xfffe) / 0xffff
  {
    var remaining := len;
    var piece := if remaining > 0xffff then 0xffff else remaining;
    pieces := [piece];
    remaining := remaining - piece;
    assert pieces[..0] == [];
    while remaining != 0
      invariant Sum(pieces) + remaining == len && 0 < |pieces|
      invariant forall k :: 0 <= k < |pieces| ==> pieces[k] <= 0xffff
      invariant remaining != 0 ==> len - remaining == |pieces| * 0xffff
      invariant remaining == 0 ==> |pieces| == if len == 0 then 1 else (len + 0xfffe) / 0xffff
    {
      piece := if remaining > 0xffff then 0xffff else remaining;
      ghost var was := pieces;
      pieces := pieces + [piece];
      assert pieces[..|pieces| - 1] == was;
      remaining := remaining - piece;
    }
  }

  /** Does a turn end the call, when nothing else does? held is the buffer left over when the turn starts. */
  predicate Stops(held: Option<Pbuf>, nonblocking: bool, turn: Turn) {
    || !turn.more
    || (held.Some? && held.value.push)
    || (held.None? && (Refused(nonblocking, turn) || turn.fetch.p.push))
  }

  /** A turn that brings no buffer: a read that may not block and finds nothing, or a failed fetch. */
  predicate Refused(nonblocking: bool, turn: Turn) {
    (nonblocking && !turn.pending) || turn.fetch.Failed?
  }

  function RefusedWith(nonblocking: bool, turn: Turn): int
    requires Refused(nonblocking, turn)
  {
    if nonblocking && !turn.pending then EWOULDBLOCK else turn.fetch.err
  }

  /** The buffer at hand when turn k starts: only the first turn can find one left over. */
  function HeldAt(first: Option<Pbuf>, k: nat): Option<Pbuf> {
    if k == 0 then first else None
  }

  /** What a call is given: the buffer left over, whether it may block and only peeks, and what happens. */
  datatype Call = Call(first: Option<Pbuf>, nonblocking: bool, peek: bool, turns: seq<Turn>, len: nat)

  predicate RefusedAt(c: Call, i: nat) {
    Refused(c.nonblocking, TurnAt(c.turns, i))
  }

  predicate StopsAt(c: Call, i: nat) {
    Stops(HeldAt(c.first, i), c.nonblocking, TurnAt(c.turns, i))
  }

  /** A turn does not find a buffer if nothing more comes, if nothing is there and the call may not wait, or if
      the fetch fails. */
  lemma WhatIsRefused(c: Call, i: nat)
    ensures RefusedAt(c, i) <==>
      i >= |c.turns| || (c.nonblocking && !c.turns[i].pending) || c.turns[i].fetch.Failed?
    ensures RefusedAt(c, i) ==>
      var err := RefusedWith(c.nonblocking, TurnAt(c.turns, i));
      if c.nonblocking && (i >= |c.turns| || !c.turns[i].pending) then err == EWOULDBLOCK
      else if i >= |c.turns| then err == ERR_TIMEOUT
      else err == c.turns[i].fetch.err
  {
  }

  /** A turn is the last one if it finds no buffer, if its buffer carries the PUSH flag, or if no more receive
      events are pending behind it. */
  lemma WhatStops(c: Call, i: nat)
    ensures StopsAt(c, i) <==>
      || i >= |c.turns| || !c.turns[i].more
      || if i == 0 && c.first.Some? then c.first.value.push
         else (c.nonblocking && !c.turns[i].pending) || c.turns[i].fetch.Failed? || c.turns[i].fetch.p.push
  {
  }

  /** How a turn ends: the next one follows, the call is done, or the turn was refused. */
  datatype Outcome = GoOn | Done | Refusal(err: int)

  /** When turn i ends that way, with n bytes read. */
  predicate EndsWith(c: Call, i: nat, n: nat, out: Outcome) {
    match out
    case GoOn => true
    case Done => (HeldAt(c.first, i).Some? || !RefusedAt(c, i)) && (n < c.len && !c.peek ==> StopsAt(c, i))
    case Refusal(err) =>
      HeldAt(c.first, i).None? && RefusedAt(c, i) && err == RefusedWith(c.nonblocking, TurnAt(c.turns, i)) && StopsAt(c, i)
  }

  /** The bytes a turn fetches: none when a buffer is at hand, none when it is refused. */
  function Brought(held: Option<Pbuf>, nonblocking: bool, turn: Turn): seq<Byte> {
    if held.Some? || Refused(nonblocking, turn) then [] else turn.fetch.p.bytes
  }

  /** The bytes the first n turns fetch, one buffer after the other. */
  function AllBrought(c: Call, n: nat): seq<Byte> {
    if n == 0 then [] else AllBrought(c, n - 1) + Brought(HeldAt(c.first, n - 1), c.nonblocking, TurnAt(c.turns, n - 1))
  }

  function Min(a: nat, b: nat): nat {
    if a < b then a else b
  }

  /** A call that finds u unread bytes goes on for n turns: none of them stops it, it does not peek, and there
      is room for more than they bring. */
  predicate GoesOn(c: Call, u: nat, n: nat) {
    n == 0 || (GoesOn(c, u, n - 1) && !StopsAt(c, n - 1) && !c.peek && u + |AllBrought(c, n)| < c.len)
  }

  /** The first n bytes, or all if there are fewer. */
  function Front(bytes: seq<Byte>, n: nat): seq<Byte> {
    if |bytes| <= n then bytes else bytes[..n]
  }

  /** Consuming n bytes of a buffer moves them from its unread part to the consumed bytes. */
  lemma Consume(consumed: seq<Byte>, bytes: seq<Byte>, from: nat, n: nat)
    requires from + n <= |bytes|
    ensures bytes[from..from + n] <= bytes[from..]
    ensures (consumed + bytes[from..from + n]) + bytes[from + n..] == consumed + bytes[from..]
    ensures from + n == |bytes| ==> (consumed + bytes[from..from + n]) + [] == consumed + bytes[from..]
  {
    assert bytes[from..] == bytes[from..from + n] + bytes[from + n..];
    Regroup(consumed, bytes[from..from + n], bytes[from + n..]);
  }

  lemma Regroup(done: seq<Byte>, chunk: seq<Byte>, rest: seq<Byte>)
    ensures done + (chunk + rest) == (done + chunk) + rest
  {
  }

  /** What was consumed is the front of what was unread and brought, and the rest is unread. */
  lemma ConsumedIsFront(before: seq<Byte>, stream: seq<Byte>, data: seq<Byte>, rest: seq<Byte>, len: nat)
    requires before + data + rest == before + stream && |data| == Min(len, |stream|)
    ensures data == Front(stream, len) && rest == stream[|data|..]
  {
    assert data + rest == stream by {
      Regroup(before, data, rest);
      SameTail(before, data + rest, stream);
    }
    assert data == stream[..|data|];
  }

  lemma SameTail(before: seq<Byte>, a: seq<Byte>, b: seq<Byte>)
    requires before + a == before + b
    ensures a == b
  {
    assert a == (before + a)[|before|..] == (before + b)[|before|..] == b;
  }

  lemma PeekedIsFront(stream: seq<Byte>, data: seq<Byte>, len: nat)
    requires data <= stream && |data| == Min(len, |stream|)
    ensures data == Front(stream, len)
  {
  }

  class Sock {
    var lastdata: Option<Pbuf>
    var lastoffset: nat
    // all bytes ever fetched, all bytes consumed by reads, all window credit given, all bytes peeked at
    ghost var fetched: seq<Byte>
    ghost var consumed: seq<Byte>
    ghost var credited: nat
    ghost var peeked: nat

    /** The offset lies in the buffer at hand, and without one it is zero. */
    ghost predicate OffsetFits()
      reads `lastdata, `lastoffset
    {
      if lastdata.None? then lastoffset == 0 else lastoffset <= |lastdata.value.bytes|
    }

    /** What was fetched and not consumed yet. */
    ghost function Unread(): seq<Byte>
      requires OffsetFits()
      reads `lastdata, `lastoffset
    {
      if lastdata.None? then [] else lastdata.value.bytes[lastoffset..]
    }

    /** Consumed and unread bytes together are the bytes fetched, in order. */
    ghost predicate InOrder()
      reads `lastdata, `lastoffset, `fetched, `consumed
    {
      OffsetFits() && consumed + Unread() == fetched
    }

    /** Between calls the window was opened by as much as was returned to the reader. */
    ghost predicate Valid()
      reads this
    {
      InOrder() && credited == |consumed| + peeked
    }

    constructor ()
      ensures Valid() && lastdata.None? && fetched == consumed == [] && credited == peeked == 0
    {
      lastdata, lastoffset := None, 0;
      fetched, consumed, credited, peeked := [], [], 0, 0;
    }

    /** netconn_recved on n returned bytes. */
    method Credit(n: nat)
      modifies this`credited
      ensures credited == old(credited) + n
    {
      if n > 0 {
        var pieces := Recved(n);
        credited := credited + Sum(pieces);
      }
    }

    /** The part of a turn that finds a buffer to copy from: one left over, or a fetched one. */
    method Supply(nonblocking: bool, turn: Turn) returns (ok: bool, err: int)
      requires InOrder()
      modifies this`lastdata, this`fetched
      ensures InOrder()
      ensures ok <==> old(lastdata).Some? || !Refused(nonblocking, turn)
      ensures ok ==> lastdata.Some? && err == 0
      ensures !ok ==> err == RefusedWith(nonblocking, turn)
      ensures old(lastdata).Some? || !ok ==> lastdata == old(lastdata) && fetched == old(fetched)
      ensures old(lastdata).None? && ok ==> lastdata.value == turn.fetch.p && fetched == old(fetched) + turn.fetch.p.bytes
    {
      ok, err := true, 0;
      if lastdata.None? {
        if nonblocking && !turn.pending {
          return false, EWOULDBLOCK;
        }
        match turn.fetch
        case Failed(e) =>
          return false, e;
        case Got(p) =>
          lastdata := Some(p);
          fetched := fetched + p.bytes;
      }
    }

    /** The part of a turn that copies to the reader and keeps what is left over, unless it only peeks. */
    method CopyOut(left: nat, peek: bool) returns (chunk: seq<Byte>)
      requires InOrder() && lastdata.Some?
      modifies this`lastdata, this`lastoffset, this`consumed
      ensures InOrder() && chunk <= old(Unread()) && |chunk| == Min(left, |old(Unread())|)
      ensures peek ==> lastdata == old(lastdata) && lastoffset == old(lastoffset) && consumed == old(consumed)
      ensures !peek ==> consumed == old(consumed) + chunk
      ensures !peek ==> lastdata == if |chunk| == |old(Unread())| then None else old(lastdata)
    {
      var p := lastdata.value;
      var buflen := |p.bytes| - lastoffset;
      var copylen := if left > buflen then buflen else left;
      chunk := p.bytes[lastoffset..lastoffset + copylen];
      Consume(consumed, p.bytes, lastoffset, copylen);
      if !peek {
        Leave(copylen);
      }
    }

    /** What is left over of the buffer at hand is kept for the next turn or call. */
    method Leave(copylen: nat)
      requires InOrder() && lastdata.Some? && lastoffset + copylen <= |lastdata.value.bytes|
      modifies this`lastdata, this`lastoffset, this`consumed
      ensures InOrder() && consumed == old(consumed) + old(lastdata.value.bytes[lastoffset..lastoffset + copylen])
      ensures lastdata == if copylen == |old(Unread())| then None else old(lastdata)
    {
      var p := lastdata.value;
      Consume(consumed, p.bytes, lastoffset, copylen);
      consumed := consumed + p.bytes[lastoffset..lastoffset + copylen];
      if |p.bytes| - lastoffset - copylen > 0 {
        lastoffset := lastoffset + copylen;
      } else {
        lastdata, lastoffset := None, 0;
      }
    }

    /** One turn of the loop: either refused, or some bytes are copied and the turn says whether to stop. */
    method TakeTurn(left: nat, nonblocking: bool, peek: bool, turn: Turn) returns (ok: bool, err: int, chunk: seq<Byte>, stop: bool)
      requires InOrder()
      modifies this`lastdata, this`lastoffset, this`fetched, this`consumed
      ensures InOrder() && fetched == old(fetched) + Brought(old(lastdata), nonblocking, turn)
      ensures consumed == if peek then old(consumed) else old(consumed) + chunk
      ensures |chunk| == Min(left, |old(Unread())| + |Brought(old(lastdata), nonblocking, turn)|)
      ensures peek ==> chunk <= Unread()
      ensures ok <==> old(lastdata).Some? || !Refused(nonblocking, turn)
      ensures ok ==> err == 0 && (stop <==> |chunk| == left || Stops(old(lastdata), nonblocking, turn) || peek)
      ensures !ok ==> err == RefusedWith(nonblocking, turn) && !stop && unchanged(this)
      ensures ok && !stop ==> lastdata.None?
      ensures lastdata.Some? ==> lastdata == if old(lastdata).Some? then old(lastdata) else Some(turn.fetch.p)
    {
      ok, err := Supply(nonblocking, turn);
      chunk, stop := [], false;
      if ok {
        var push := lastdata.value.push;
        chunk := CopyOut(left, peek);
        stop := left - |chunk| == 0 || push || !turn.more || peek;
      }
    }

    /** The same turn, as the i-th one of a call that started with fetched0 fetched and consumed0 consumed bytes,
        u of them unread, and has fetched brought and read data so far. */
    method ReadTurn(c: Call, i: nat, data: seq<Byte>,
                    ghost fetched0: seq<Byte>, ghost consumed0: seq<Byte>, ghost u: nat, ghost brought: seq<Byte>)
      returns (all: seq<Byte>, out: Outcome, ghost now: seq<Byte>)
      requires InOrder() && lastdata == HeldAt(c.first, i) && GoesOn(c, u, i)
      requires brought == AllBrought(c, i) && fetched == fetched0 + brought
      requires consumed == if c.peek then consumed0 else consumed0 + data
      requires if i == 0 then data == [] && |Unread()| == u else |data| == u + |brought| < c.len && !c.peek
      modifies this`lastdata, this`lastoffset, this`fetched, this`consumed
      ensures InOrder() && now == AllBrought(c, i + 1) && fetched == fetched0 + now
      ensures consumed == if c.peek then consumed0 else consumed0 + all
      ensures |all| == Min(c.len, u + |now|) && (c.peek ==> all <= Unread())
      ensures out.GoOn? ==>
        lastdata.None? && |all| == u + |now| < c.len && !c.peek && GoesOn(c, u, i + 1) && i < |c.turns|
      ensures EndsWith(c, i, |all|, out) && (out.Refusal? ==> lastdata.None?)
    {
      var turn := TurnAt(c.turns, i);
      ghost var more := Brought(HeldAt(c.first, i), c.nonblocking, turn);
      var ok, err, chunk, done := TakeTurn(c.len - |data|, c.nonblocking, c.peek, turn);
      out := if !ok then Refusal(err) else if done then Done else GoOn;
      all, now := data + chunk, brought + more;
      Regroup(fetched0, brought, more);
      Regroup(consumed0, data, chunk);
    }

    /** The loop of lwip_recvfrom: turns are taken until one stops it or is refused; used counts those before
        the last one, and brought is what all of them fetched. */
    method Gather(c: Call) returns (data: seq<Byte>, out: Outcome, ghost used: nat, ghost brought: seq<Byte>)
      requires InOrder() && lastdata == c.first
      modifies this`lastdata, this`lastoffset, this`fetched, this`consumed
      ensures InOrder() && brought == AllBrought(c, used + 1) && fetched == old(fetched) + brought
      ensures consumed == if c.peek then old(consumed) else old(consumed) + data
      ensures |data| == Min(c.len, |old(Unread())| + |brought|) && (c.peek ==> data <= Unread())
      ensures GoesOn(c, |old(Unread())|, used)
      ensures !out.GoOn? && EndsWith(c, used, |data|, out) && (out.Refusal? ==> lastdata.None?)
    {
      var i: nat := 0;
      data, brought := [], [];
      ghost var fetched0, consumed0, u := fetched, consumed, |Unread()|;
      while true
        invariant InOrder() && lastdata == HeldAt(c.first, i) && GoesOn(c, u, i)
        invariant brought == AllBrought(c, i) && fetched == fetched0 + brought
        invariant consumed == if c.peek then consumed0 else consumed0 + data
        invariant if i == 0 then data == [] && |Unread()| == u else |data| == u + |brought| < c.len && !c.peek && i <= |c.turns|
        decreases |c.turns| - i
      {
        data, out, brought := ReadTurn(c, i, data, fetched0, consumed0, u, brought);
        if !out.GoOn? {
          used := i;
          return;
        }
        i := i + 1;
      }
    }

    /** The loop, and what it comes to. */
    method ReadFrom(c: Call) returns (data: seq<Byte>, out: Outcome, ghost used: nat)
      requires InOrder() && lastdata == c.first
      modifies this`lastdata, this`lastoffset, this`fetched, this`consumed
      ensures InOrder() && fetched == old(fetched) + AllBrought(c, used + 1)
      ensures consumed == if c.peek then old(consumed) else old(consumed) + data
      ensures data == Front(old(Unread()) + AllBrought(c, used + 1), c.len)
      ensures Unread() == if c.peek then old(Unread()) + AllBrought(c, used + 1)
                          else (old(Unread()) + AllBrought(c, used + 1))[|data|..]
      ensures |data| <= c.len && (!c.peek && (|data| < c.len || out.Refusal?) ==> Unread() == [])
      ensures old(Unread()) != [] && c.len > 0 ==> data != []
      ensures out.Refusal? && data == [] ==> fetched == old(fetched)
      ensures StopsAt(c, 0) ==> used == 0
      ensures out.Refusal? && used == 0 ==> data == []
      ensures GoesOn(c, |old(Unread())|, used)
      ensures !out.GoOn? && EndsWith(c, used, |data|, out)
    {
      ghost var before, unread, brought := consumed, Unread(), [];
      data, out, used, brought := Gather(c);
      Regroup(before, unread, brought);
      if c.peek {
        SameTail(before, Unread(), unread + brought);
        PeekedIsFront(unread + brought, data, c.len);
      } else {
        ConsumedIsFront(before, unread + brought, data, Unread(), c.len);
      }
      if out.Refusal? && data == [] {
        NothingBrought(c, |unread|, used);
      }
      if 0 < used {
        FirstTurnGoesOn(c, |unread|, used);
      } else {
        assert out.Refusal? ==> AllBrought(c, 0) + [] == [];
      }
    }

    /** lwip_recvfrom: up to len bytes. r is the return value, data the bytes stored at mem, used the number
        of turns before the last one. */
    method Recv(len: nat, nonblocking: bool, peek: bool, turns: seq<Turn>)
      returns (r: int, data: seq<Byte>, err: int, ghost used: nat)
      requires Valid()
      modifies this
      ensures Valid()
      ensures -1 <= r <= len && |data| == (if r < 0 then 0 else r)
      // what is returned are the first len bytes of those unread before and those the turns bring, in order;
      // the others are unread afterwards
      ensures var brought := AllBrought(Call(old(lastdata), nonblocking, peek, turns, len), used + 1);
        && fetched == old(fetched) + brought
        && data == Front(old(Unread()) + brought, len)
        && Unread() == if peek then old(Unread()) + brought else (old(Unread()) + brought)[|data|..]
      ensures !peek ==> consumed == old(consumed) + data && peeked == old(peeked)
      ensures peek ==> consumed == old(consumed) && peeked == old(peeked) + |data|
      ensures credited == old(credited) + |data|
      ensures r < len && !peek ==> Unread() == []
      // the call goes on exactly until something stops it or len bytes are there
      ensures var c := Call(old(lastdata), nonblocking, peek, turns, len);
        && GoesOn(c, |old(Unread())|, used) && ((r < len && !peek) || r == -1 ==> StopsAt(c, used))
        && (r == -1 || err != 0 ==>
              HeldAt(c.first, used).None? && RefusedAt(c, used) && err == RefusedWith(nonblocking, TurnAt(turns, used)))
      ensures r > 0 ==> err == 0
      // a call whose last turn found no buffer, and which has nothing, fails with the reason, or says that the
      // stream has ended; in particular one that may not wait when nothing is there
      ensures var c := Call(old(lastdata), nonblocking, peek, turns, len);
        HeldAt(old(lastdata), used).None? && RefusedAt(c, used) && data == [] ==>
          err == RefusedWith(nonblocking, TurnAt(turns, used)) && r == (if err == ERR_CLSD then 0 else -1)
      ensures nonblocking && old(lastdata).None? && (turns == [] || !turns[0].pending) ==>
        r == -1 && err == EWOULDBLOCK && fetched == old(fetched)
      ensures r == -1 ==> err != ERR_CLSD && fetched == old(fetched)
      ensures old(Unread()) != [] && len > 0 ==> r > 0
    {
      var out;
      data, out, used := ReadFrom(Call(lastdata, nonblocking, peek, turns, len));
      Settle(|data|, peek);
      if out.Refusal? && data == [] {
        return if out.err == ERR_CLSD then 0 else -1, data, out.err, used;
      }
      return |data|, data, 0, used;
    }

    /** The window is opened by what is returned. */
    method Settle(n: nat, peek: bool)
      modifies `credited, `peeked
      ensures credited == old(credited) + n && peeked == old(peeked) + if peek then n else 0
    {
      Credit(n);
      if peek {
        peeked := peeked + n;
      }
    }
  }

  lemma {:induction false} FirstTurnGoesOn(c: Call, u: nat, n: nat)
    requires GoesOn(c, u, n) && 0 < n
    ensures !StopsAt(c, 0)
    decreases n
  {
    if 1 < n {
      FirstTurnGoesOn(c, u, n - 1);
    }
  }

  /** A call that returns nothing because its last turn was refused has fetched nothing. */
  lemma NothingBrought(c: Call, u: nat, used: nat)
    requires GoesOn(c, u, used) && RefusedAt(c, used) && Min(c.len, u + |AllBrought(c, used + 1)|) == 0
    ensures AllBrought(c, used + 1) == []
  {
    if c.len == 0 {
      assert AllBrought(c, 1) == AllBrought(c, 0) + [];
    }
  }
}
