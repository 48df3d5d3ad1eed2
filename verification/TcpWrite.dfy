/** api_msg.c: the arithmetic of do_writemore, as a function of what tcp_sndbuf and tcp_write answer. */
module TcpWrite {

  type Byte = int
  type Err = int

  const ERR_OK: Err := 0
  const ERR_MEM: Err := -1
  const ERR_INPROGRESS: Err := -5
  const ERR_VAL: Err := -6
  const ERR_WOULDBLOCK: Err := -7
  const ERR_ISCONN: Err := -9
  const ERR_CONN_WARN: Err := -10
  const ERR_CLSD: Err := -13
  const ERR_CONN: Err := -14

  predicate IsFatal(e: Err) {
    e < ERR_CONN_WARN
  }

  /** One visit of do_writemore: whether the send timeout has passed, the free send buffer, tcp_write's answer. */
  datatype Visit = Visit(timedOut: bool, sndbuf: nat, writeErr: Err)

  /** write_offset, msg.w.len, the bytes tcp_write has accepted for this message; finished with err, or not. */
  datatype Progress = Progress(offset: nat, len: nat, handed: seq<Byte>, finished: bool, err: Err)

  function Min(a: nat, b: nat): nat {
    if a < b then a else b
  }

  /** How much is offered to tcp_write: the rest, at most a u16_t, at most the send buffer. */
  function Chunk(p: Progress, v: Visit): nat
    requires p.offset <= p.len
  {
    Min(Min(p.len - p.offset, 0xffff), v.sndbuf)
  }

  /** do_writemore */
  function WriteMore(data: seq<Byte>, dontblock: bool, p: Progress, v: Visit): Progress
    requires p.offset < p.len <= |data|
  {
    var n := Chunk(p, v);
    if v.timedOut then
      if p.offset == 0 then p.(len := 0, finished := true, err := ERR_WOULDBLOCK)
      else p.(len := p.offset, finished := true, err := ERR_OK)
    else if dontblock && n == 0 then
      p.(len := 0, finished := true, err := ERR_WOULDBLOCK)
    else if v.writeErr == ERR_OK then
      var handed := p.handed + data[p.offset..p.offset + n];
      if p.offset + n == p.len || dontblock then Progress(0, p.offset + n, handed, true, ERR_OK)
      else p.(offset := p.offset + n, handed := handed)
    else if v.writeErr == ERR_MEM && !dontblock then p
    else p.(len := 0, finished := true, err := v.writeErr)
  }

  function Start(data: seq<Byte>): Progress {
    Progress(0, |data|, [], false, ERR_OK)
  }

  /** The message after a number of visits; the ones after it has finished do not happen. */
  function WriteAll(data: seq<Byte>, dontblock: bool, p: Progress, vs: seq<Visit>): Progress
    requires p.finished || p.offset < p.len <= |data|
    decreases vs
  {
    if vs == [] || p.finished then p
    else WriteAll(data, dontblock, WriteMore(data, dontblock, p, vs[0]), vs[1..])
  }

  /** What tcp_write has accepted is a prefix of the message; while it goes on, the one up to write_offset. */
  ghost predicate InStep(data: seq<Byte>, p: Progress) {
    if p.finished
    then p.len <= |data| && (p.err == ERR_OK ==> p.handed == data[..p.len]) && p.handed <= data
    else p.offset < p.len == |data| && p.handed == data[..p.offset]
  }

  lemma VisitInStep(data: seq<Byte>, dontblock: bool, p: Progress, v: Visit)
    requires InStep(data, p) && !p.finished
    ensures InStep(data, WriteMore(data, dontblock, p, v))
  {
    var n := Chunk(p, v);
    assert data[..p.offset] + data[p.offset..p.offset + n] == data[..p.offset + n];
  }

  /** Bytes are handed over in order with no gap and no repeat, whatever the answers are. */
  lemma {:induction false} HandsOverAPrefix(data: seq<Byte>, dontblock: bool, p: Progress, vs: seq<Visit>)
    requires InStep(data, p)
    ensures InStep(data, WriteAll(data, dontblock, p, vs))
    decreases vs
  {
    if vs != [] && !p.finished {
      VisitInStep(data, dontblock, p, vs[0]);
      HandsOverAPrefix(data, dontblock, WriteMore(data, dontblock, p, vs[0]), vs[1..]);
    }
  }

  /** A blocking write that never times out succeeds only with the whole message handed over. */
  lemma {:induction false} BlockingWriteIsComplete(data: seq<Byte>, p: Progress, vs: seq<Visit>)
    requires InStep(data, p) && !p.finished
    requires forall i :: 0 <= i < |vs| ==> !vs[i].timedOut
    ensures var q := WriteAll(data, false, p, vs); q.finished && q.err == ERR_OK ==> q.handed == data && q.len == |data|
    decreases vs
  {
    if vs != [] {
      var m := WriteMore(data, false, p, vs[0]);
      VisitInStep(data, false, p, vs[0]);
      if !m.finished {
        BlockingWriteIsComplete(data, m, vs[1..]);
      } else {
        assert WriteAll(data, false, m, vs[1..]) == m;
        assert data[..|data|] == data;
      }
    }
  }

  /** A blocking write whose visits bring only room, or ERR_MEM. */
  predicate Accepts(v: Visit) {
    !v.timedOut && 0 < v.sndbuf && v.writeErr == ERR_OK
  }

  predicate OnlyRoomOrMem(v: Visit) {
    !v.timedOut && (v.writeErr == ERR_OK || v.writeErr == ERR_MEM)
  }

  function CountAccepting(vs: seq<Visit>): nat {
    if vs == [] then 0 else (if Accepts(vs[0]) then 1 else 0) + CountAccepting(vs[1..])
  }

  /** Every accepting visit makes the rest of the message smaller, so as many of them as the message
      has bytes finish the write. */
  lemma {:induction false} AcceptingVisitsFinish(data: seq<Byte>, p: Progress, vs: seq<Visit>)
    requires InStep(data, p) && !p.finished
    requires forall i :: 0 <= i < |vs| ==> OnlyRoomOrMem(vs[i])
    requires |data| - p.offset <= CountAccepting(vs)
    ensures var q := WriteAll(data, false, p, vs); q.finished && q.err == ERR_OK && q.handed == data
    decreases vs
  {
    var m := WriteMore(data, false, p, vs[0]);
    assert OnlyRoomOrMem(vs[0]);
    VisitInStep(data, false, p, vs[0]);
    if m.finished {
      assert WriteAll(data, false, m, vs[1..]) == m;
      assert data[..|data|] == data;
    } else {
      assert Accepts(vs[0]) ==> p.offset < m.offset;
      AcceptingVisitsFinish(data, m, vs[1..]);
    }
  }

  /** What the writer is told when nothing is offered to tcp_write: a timeout reports what had been handed over, or
      that nothing was; a non-blocking write without room, that it would block. */
  lemma NothingOffered(data: seq<Byte>, dontblock: bool, p: Progress, v: Visit)
    requires InStep(data, p) && !p.finished && (v.timedOut || (dontblock && v.sndbuf == 0))
    ensures var q := WriteMore(data, dontblock, p, v);
      && q.finished && q.handed == p.handed
      && if v.timedOut && p.offset > 0 then q.err == ERR_OK && q.len == |q.handed|
         else q.err == ERR_WOULDBLOCK && q.len == 0
  {
  }

  /** What is offered otherwise: the next bytes, as many as are left, as a u16_t can count, and as there is room for.
      If they are refused for lack of memory a blocking write waits; any other refusal is reported. If they are
      taken a non-blocking write is done, and a blocking one with the last byte. */
  lemma BytesOffered(data: seq<Byte>, dontblock: bool, p: Progress, v: Visit)
    requires InStep(data, p) && !p.finished && !v.timedOut && !(dontblock && v.sndbuf == 0)
    ensures var q := WriteMore(data, dontblock, p, v);
      if v.writeErr == ERR_OK then
        var n := |q.handed| - |p.handed|;
        && 0 <= n <= |data| - p.offset && n <= 65535 && n <= v.sndbuf
        && (n == |data| - p.offset || n == 65535 || n == v.sndbuf)
        && q.handed == data[..p.offset + n]
        && (q.finished <==> dontblock || p.offset + n == |data|)
        && (if q.finished then q.err == ERR_OK && q.len == p.offset + n && q.offset == 0
            else q.len == |data| && q.offset == p.offset + n)
      else
        && q.handed == p.handed
        && if v.writeErr == ERR_MEM && !dontblock then q == p else q.finished && q.err == v.writeErr && q.len == 0
  {
    var n := Chunk(p, v);
    assert data[..p.offset] + data[p.offset..p.offset + n] == data[..p.offset + n];
  }

  /** With ample room a blocking write takes one visit for every 65535 bytes or part of them. */
  lemma {:induction false} AmpleRoom(data: seq<Byte>, p: Progress, vs: seq<Visit>)
    requires InStep(data, p) && !p.finished
    requires forall i :: 0 <= i < |vs| ==> Accepts(vs[i]) && |data| <= vs[i].sndbuf
    ensures WriteAll(data, false, p, vs).finished <==> |data| - p.offset <= |vs| * 65535
    decreases vs
  {
    if vs != [] {
      var m := WriteMore(data, false, p, vs[0]);
      assert Accepts(vs[0]) && |data| <= vs[0].sndbuf;
      VisitInStep(data, false, p, vs[0]);
      if m.finished {
        assert WriteAll(data, false, m, vs[1..]) == m;
      } else {
        AmpleRoom(data, m, vs[1..]);
      }
    }
  }

  /** The errors after which a connection cannot be used: ERR_ABRT, -11, and those below it. */
  lemma FatalErrors(e: Err)
    ensures IsFatal(e) <==> e <= -11
  {
  }

  /** write_offset is left non-zero by a finished write exactly when a blocking write had handed over a part
      and then timed out or met a hard error; the next write or close then trips over it. */
  lemma StaleOffset(data: seq<Byte>, dontblock: bool, p: Progress, v: Visit)
    requires InStep(data, p) && !p.finished
    ensures var q := WriteMore(data, dontblock, p, v);
      q.finished && q.offset != 0 <==>
        p.offset != 0 && (v.timedOut || (dontblock && Chunk(p, v) == 0)
                          || (v.writeErr != ERR_OK && (v.writeErr != ERR_MEM || dontblock)))
  {
  }
}
