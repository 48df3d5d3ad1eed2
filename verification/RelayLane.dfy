/** relay.c, one direction of every connection: the buffer is read into by one agent and written out of by
    the other, and its token is with the reader, with the writer, or dropped. */
module RelayLane {
  import opened Common

  type Byte = int

  /** One direction of a connection: its buffer, whether its token was handed out, whether the side it is written
      to was shut down for writing, and the side it is read from for reading; and all bytes ever read into and
      written out of the buffer. */
  datatype Pipe = Pipe(buf: seq<Byte>, offered: bool, shut: bool, deaf: bool, got: seq<Byte>, sent: seq<Byte>)

  /** A buffer to be written: the connection and how many bytes of it are pending. */
  datatype Job = Job(conn: nat, len: nat)

  /** This direction of all connections, and who has the tokens: the reader's list followed by what is on its
      way to the reader, and the same for the writer. */
  datatype Lane = Lane(pipes: map<nat, Pipe>, readers: seq<nat>, writers: seq<Job>)

  /** The buffer after a read put data at its start. */
  function Filled(buf: seq<Byte>, data: seq<Byte>): seq<Byte>
    requires |data| <= |buf|
  {
    data + buf[|data|..]
  }

  /** The buffer after memmove(buf, buf + w, len - w). */
  function Moved(buf: seq<Byte>, w: nat, len: nat): seq<Byte>
    requires w <= len <= |buf|
  {
    buf[w..len] + buf[len - w..]
  }

  // ---------------------------------------------------------------- the moves

  function FreshPipe(size: nat): Pipe {
    Pipe(seq(size, _ => 0), false, false, false, [], [])
  }

  function AddPipe(l: Lane, c: nat, size: nat): Lane {
    l.(pipes := l.pipes[c := FreshPipe(size)])
  }

  /** The token of a new connection goes to its reader. */
  function Offer(l: Lane, c: nat): Lane
    requires c in l.pipes
  {
    l.(pipes := l.pipes[c := l.pipes[c].(offered := true)], readers := l.readers + [c])
  }

  /** The k-th reader got data: the buffer goes to the writer. */
  function Read(l: Lane, k: nat, data: seq<Byte>): Lane
    requires k < |l.readers| && l.readers[k] in l.pipes && |data| <= |l.pipes[l.readers[k]].buf|
  {
    var c := l.readers[k];
    var p := l.pipes[c];
    Lane(l.pipes[c := p.(buf := Filled(p.buf, data), got := p.got + data)],
         Without(l.readers, k), l.writers + [Job(c, |data|)])
  }

  /** The k-th reader met the end of the stream or an error: the far side is shut down, the token dropped. */
  function ReadEnd(l: Lane, k: nat): Lane
    requires k < |l.readers| && l.readers[k] in l.pipes
  {
    var c := l.readers[k];
    l.(pipes := l.pipes[c := l.pipes[c].(shut := true)], readers := Without(l.readers, k))
  }

  /** The k-th writer wrote w bytes: it keeps the rest, or gives the empty buffer back to the reader. */
  function Write(l: Lane, k: nat, w: nat): Lane
    requires k < |l.writers| && l.writers[k].conn in l.pipes && w <= l.writers[k].len <= |l.pipes[l.writers[k].conn].buf|
  {
    var j := l.writers[k];
    var p := l.pipes[j.conn];
    var sent := p.sent + p.buf[..w];
    if w < j.len then
      l.(pipes := l.pipes[j.conn := p.(buf := Moved(p.buf, w, j.len), sent := sent)],
         writers := l.writers[k := Job(j.conn, j.len - w)])
    else
      Lane(l.pipes[j.conn := p.(sent := sent)], l.readers + [j.conn], Without(l.writers, k))
  }

  /** The k-th writer met the end of the stream or an error: nothing more is to be read, the token is dropped. */
  function WriteEnd(l: Lane, k: nat): Lane
    requires k < |l.writers| && l.writers[k].conn in l.pipes
  {
    var c := l.writers[k].conn;
    l.(pipes := l.pipes[c := l.pipes[c].(deaf := true)], writers := Without(l.writers, k))
  }

  // ---------------------------------------------------------------- the invariant

  predicate WithReader(l: Lane, c: nat) {
    c in l.readers
  }

  ghost predicate WithWriter(l: Lane, c: nat) {
    exists k :: 0 <= k < |l.writers| && l.writers[k].conn == c
  }

  /** The token of connection c has been handed out and given up again. */
  ghost predicate Dropped(l: Lane, c: nat) {
    c in l.pipes && l.pipes[c].offered && !WithReader(l, c) && !WithWriter(l, c)
  }

  /** No token is in two places. */
  ghost predicate OnePlace(l: Lane) {
    && (forall i, j :: 0 <= i < j < |l.readers| ==> l.readers[i] != l.readers[j])
    && (forall i, j :: 0 <= i < j < |l.writers| ==> l.writers[i].conn != l.writers[j].conn)
    && (forall i, j :: 0 <= i < |l.readers| && 0 <= j < |l.writers| ==> l.readers[i] != l.writers[j].conn)
  }

  /** A prefix of what was read has been written; before the token is handed out there is nothing, and once the
      far side is shut down for writing everything read has been written. */
  ghost predicate PipeOk(p: Pipe) {
    && p.sent <= p.got
    && (!p.offered ==> p.got == [] && !p.shut)
    && (p.shut ==> p.sent == p.got)
  }

  /** A reader's buffer is empty: all that was read has been written. */
  ghost predicate ReaderOk(pipes: map<nat, Pipe>, c: nat) {
    c in pipes && pipes[c].offered && !pipes[c].shut && pipes[c].sent == pipes[c].got
  }

  /** Bytes written out, followed by the pending bytes of the buffer, are the bytes read in. */
  ghost predicate WriterOk(pipes: map<nat, Pipe>, j: Job) {
    && j.conn in pipes
    && var p := pipes[j.conn];
       p.offered && !p.shut && 0 < j.len <= |p.buf| && p.sent + p.buf[..j.len] == p.got
  }

  ghost predicate StreamOk(l: Lane) {
    && (forall c :: c in l.pipes ==> PipeOk(l.pipes[c]))
    && (forall i :: 0 <= i < |l.readers| ==> ReaderOk(l.pipes, l.readers[i]))
    && (forall i :: 0 <= i < |l.writers| ==> WriterOk(l.pipes, l.writers[i]))
  }

  ghost predicate LaneOk(l: Lane) {
    OnePlace(l) && StreamOk(l)
  }

  /** A move that gives up no token. */
  ghost predicate SameDropped(l: Lane, m: Lane) {
    forall c :: Dropped(m, c) <==> Dropped(l, c)
  }

  /** A move that gives up the token of c and no other. */
  ghost predicate DropsOnly(l: Lane, m: Lane, c: nat) {
    !Dropped(l, c) && forall d :: Dropped(m, d) <==> Dropped(l, d) || d == c
  }

  // ---------------------------------------------------------------- each move keeps it

  lemma AddPipeKeeps(l: Lane, c: nat, size: nat)
    requires LaneOk(l) && c !in l.pipes
    ensures LaneOk(AddPipe(l, c, size)) && SameDropped(l, AddPipe(l, c, size))
  {
    var m := AddPipe(l, c, size);
    assert forall i :: 0 <= i < |l.readers| ==> ReaderOk(l.pipes, l.readers[i]);
    assert forall i :: 0 <= i < |l.writers| ==> WriterOk(l.pipes, l.writers[i]);
  }

  /** Only tokens that were handed out are with a reader or a writer. */
  lemma HeldIsOffered(l: Lane, c: nat)
    requires LaneOk(l)
    ensures WithReader(l, c) || WithWriter(l, c) ==> c in l.pipes && l.pipes[c].offered && !l.pipes[c].shut
  {
    if WithReader(l, c) {
      var i :| 0 <= i < |l.readers| && l.readers[i] == c;
      assert ReaderOk(l.pipes, l.readers[i]);
    } else if WithWriter(l, c) {
      var k :| 0 <= k < |l.writers| && l.writers[k].conn == c;
      assert WriterOk(l.pipes, l.writers[k]);
    }
  }

  lemma OfferKeeps(l: Lane, c: nat)
    requires LaneOk(l) && c in l.pipes && !l.pipes[c].offered
    ensures LaneOk(Offer(l, c)) && SameDropped(l, Offer(l, c))
  {
    var m := Offer(l, c);
    HeldIsOffered(l, c);
    assert m.readers[|l.readers|] == c;
    forall i | 0 <= i < |m.readers|
      ensures ReaderOk(m.pipes, m.readers[i])
    {
      assert i < |l.readers| ==> ReaderOk(l.pipes, l.readers[i]);
    }
    forall i | 0 <= i < |m.writers|
      ensures WriterOk(m.pipes, m.writers[i])
    {
      assert WriterOk(l.pipes, l.writers[i]);
    }
  }

  lemma FilledPending(p: Pipe, data: seq<Byte>)
    requires |data| <= |p.buf| && p.sent == p.got
    ensures p.sent + Filled(p.buf, data)[..|data|] == p.got + data
  {
    assert Filled(p.buf, data)[..|data|] == data;
  }

  lemma ReadKeeps(l: Lane, k: nat, data: seq<Byte>)
    requires LaneOk(l) && k < |l.readers| && l.readers[k] in l.pipes && 0 < |data| <= |l.pipes[l.readers[k]].buf|
    ensures LaneOk(Read(l, k, data)) && SameDropped(l, Read(l, k, data))
  {
    var c, m := l.readers[k], Read(l, k, data);
    assert ReaderOk(l.pipes, c);
    FilledPending(l.pipes[c], data);
    assert m.writers[|l.writers|] == Job(c, |data|);
    forall i | 0 <= i < |m.readers|
      ensures ReaderOk(m.pipes, m.readers[i])
    {
      assert ReaderOk(l.pipes, l.readers[if i < k then i else i + 1]);
    }
    forall i | 0 <= i < |m.writers|
      ensures WriterOk(m.pipes, m.writers[i])
    {
      assert i < |l.writers| ==> WriterOk(l.pipes, l.writers[i]) && m.writers[i] == l.writers[i];
    }
    assert WithWriter(m, c);
    forall d
      ensures Dropped(m, d) <==> Dropped(l, d)
    {
      StillElsewhere(l.readers, k, d);
      assert forall i :: 0 <= i < |l.writers| ==> m.writers[i] == l.writers[i];
    }
  }

  lemma StillElsewhere(s: seq<nat>, k: nat, d: nat)
    requires k < |s|
    ensures d != s[k] ==> (d in Without(s, k) <==> d in s)
  {
    if d in s && d != s[k] {
      var i :| 0 <= i < |s| && s[i] == d;
      assert Without(s, k)[if i < k then i else i - 1] == d;
    }
  }

  lemma ReadEndKeeps(l: Lane, k: nat)
    requires LaneOk(l) && k < |l.readers| && l.readers[k] in l.pipes
    ensures LaneOk(ReadEnd(l, k)) && DropsOnly(l, ReadEnd(l, k), l.readers[k])
  {
    var c, m := l.readers[k], ReadEnd(l, k);
    assert ReaderOk(l.pipes, c);
    forall i | 0 <= i < |m.readers|
      ensures ReaderOk(m.pipes, m.readers[i])
    {
      assert ReaderOk(l.pipes, l.readers[if i < k then i else i + 1]);
    }
    forall i | 0 <= i < |m.writers|
      ensures WriterOk(m.pipes, m.writers[i])
    {
      assert WriterOk(l.pipes, l.writers[i]);
    }
    assert !WithReader(m, c) && !WithWriter(m, c);
    forall d
      ensures Dropped(m, d) <==> Dropped(l, d) || d == c
    {
      StillElsewhere(l.readers, k, d);
      assert WithWriter(m, d) <==> WithWriter(l, d);
    }
  }

  /** After a partial write the pending bytes are the ones not written. */
  lemma MovedPending(p: Pipe, w: nat, len: nat)
    requires w <= len <= |p.buf|
    ensures |Moved(p.buf, w, len)| == |p.buf|
    ensures p.sent + p.buf[..w] + Moved(p.buf, w, len)[..len - w] == p.sent + p.buf[..len]
  {
    assert Moved(p.buf, w, len)[..len - w] == p.buf[w..len];
    assert p.buf[..w] + p.buf[w..len] == p.buf[..len];
  }

  lemma WriteKeeps(l: Lane, k: nat, w: nat)
    requires LaneOk(l) && k < |l.writers| && l.writers[k].conn in l.pipes
    requires 0 < w <= l.writers[k].len <= |l.pipes[l.writers[k].conn].buf|
    ensures LaneOk(Write(l, k, w)) && SameDropped(l, Write(l, k, w))
  {
    assert WriterOk(l.pipes, l.writers[k]);
    MovedPending(l.pipes[l.writers[k].conn], w, l.writers[k].len);
    if w < l.writers[k].len {
      PartialWriteKeeps(l, k, w);
    } else {
      FullWriteKeeps(l, k, w);
    }
  }

  lemma PartialWriteKeeps(l: Lane, k: nat, w: nat)
    requires LaneOk(l) && k < |l.writers| && WriterOk(l.pipes, l.writers[k]) && 0 < w < l.writers[k].len
    ensures LaneOk(Write(l, k, w)) && SameDropped(l, Write(l, k, w))
  {
    var j, m := l.writers[k], Write(l, k, w);
    MovedPending(l.pipes[j.conn], w, j.len);
    forall i | 0 <= i < |m.readers|
      ensures ReaderOk(m.pipes, m.readers[i])
    {
      assert ReaderOk(l.pipes, l.readers[i]);
    }
    forall i | 0 <= i < |m.writers|
      ensures WriterOk(m.pipes, m.writers[i])
    {
      assert WriterOk(l.pipes, l.writers[i]);
    }
    forall d
      ensures Dropped(m, d) <==> Dropped(l, d)
    {
      assert forall i :: 0 <= i < |l.writers| ==> m.writers[i].conn == l.writers[i].conn;
    }
  }

  lemma FullWriteKeeps(l: Lane, k: nat, w: nat)
    requires LaneOk(l) && k < |l.writers| && WriterOk(l.pipes, l.writers[k]) && w == l.writers[k].len
    ensures LaneOk(Write(l, k, w)) && SameDropped(l, Write(l, k, w))
  {
    var j, m := l.writers[k], Write(l, k, w);
    assert m.readers[|l.readers|] == j.conn;
    forall i | 0 <= i < |m.readers|
      ensures ReaderOk(m.pipes, m.readers[i])
    {
      assert i < |l.readers| ==> ReaderOk(l.pipes, l.readers[i]) && m.readers[i] == l.readers[i];
    }
    forall i | 0 <= i < |m.writers|
      ensures WriterOk(m.pipes, m.writers[i])
    {
      assert WriterOk(l.pipes, l.writers[if i < k then i else i + 1]);
    }
    forall d
      ensures Dropped(m, d) <==> Dropped(l, d)
    {
      WriterStillElsewhere(l, k, d);
    }
  }

  lemma WriterStillElsewhere(l: Lane, k: nat, d: nat)
    requires OnePlace(l) && k < |l.writers|
    ensures WithWriter(l.(writers := Without(l.writers, k)), d) <==> WithWriter(l, d) && d != l.writers[k].conn
  {
    var m := l.(writers := Without(l.writers, k));
    if WithWriter(l, d) && d != l.writers[k].conn {
      var i :| 0 <= i < |l.writers| && l.writers[i].conn == d;
      assert m.writers[if i < k then i else i - 1].conn == d;
    }
  }

  lemma WriteEndKeeps(l: Lane, k: nat)
    requires LaneOk(l) && k < |l.writers| && l.writers[k].conn in l.pipes
    ensures LaneOk(WriteEnd(l, k)) && DropsOnly(l, WriteEnd(l, k), l.writers[k].conn)
  {
    var c, m := l.writers[k].conn, WriteEnd(l, k);
    assert WriterOk(l.pipes, l.writers[k]);
    forall i | 0 <= i < |m.readers|
      ensures ReaderOk(m.pipes, m.readers[i])
    {
      assert ReaderOk(l.pipes, l.readers[i]);
    }
    forall i | 0 <= i < |m.writers|
      ensures WriterOk(m.pipes, m.writers[i])
    {
      assert WriterOk(l.pipes, l.writers[if i < k then i else i + 1]);
    }
    forall d
      ensures Dropped(m, d) <==> Dropped(l, d) || d == c
    {
      WriterStillElsewhere(l, k, d);
    }
  }
}
