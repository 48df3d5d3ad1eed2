/** relay.c: the two relay threads, the crossbars between them and the main thread that adds connections,
    in any interleaving. What read, write and select return is left open. */
module Relay {
  import opened Common
  import opened RelayLane

  type Agent = a: nat | a < 2

  function Other(a: Agent): Agent {
    1 - a
  }

  /** struct relay_conn without its buffers: the close count, and how often relay_conn_destroy ran. */
  datatype Conn = Conn(closeCount: nat, destroyed: nat)

  /** Where a relay thread is in its loop. In a pass, i is the entry it looks at next and n the number of
      entries kept so far at the front of the same array. */
  datatype Pc =
    | Top
    | Selecting
    | Reading(readable: set<nat>, writable: set<nat>, i: nat, n: nat)
    | Writing(writable: set<nat>, i: nat, n: nat)

  /** A relay thread with its two arrays, and its incoming crossbar. */
  datatype Thread = Thread(rd: seq<nat>, wr: seq<Job>, pc: Pc, inReads: seq<nat>, inWrites: seq<Job>)

  /** Direction a of every connection is read by agent a and written by the other agent. */
  datatype System = System(conns: map<nat, Conn>, pipes: seq<map<nat, Pipe>>, threads: seq<Thread>)

  datatype Action =
    | Create(c: nat, size: nat)           // main thread: relay_conn_create
    | AddConn(a: Agent, c: nat)           // main thread: crossbar_add_for_reading
    | TakeWork(a: Agent)                  // empty the incoming crossbar
    | SelectNone(a: Agent)                // select timed out or failed
    | Select(a: Agent, readable: set<nat>, writable: set<nat>)
    | ReadSkip(a: Agent)                  // not readable, or it would block
    | ReadData(a: Agent, data: seq<Byte>)
    | ReadStop(a: Agent)                  // end of stream or error
    | ReadDone(a: Agent)
    | WriteSkip(a: Agent)
    | WriteData(a: Agent, w: nat)
    | WriteStop(a: Agent)
    | WriteDone(a: Agent)

  // ---------------------------------------------------------------- the steps

  /** A pass index stands inside its array and has not been overtaken by the kept entries. */
  predicate PcOk(t: Thread) {
    match t.pc
    case Reading(_, _, i, n) => n <= i <= |t.rd|
    case Writing(_, i, n) => n <= i <= |t.wr|
    case _ => true
  }

  ghost predicate Shape(s: System) {
    && |s.pipes| == |s.threads| == 2
    && s.pipes[0].Keys == s.pipes[1].Keys == s.conns.Keys
    && PcOk(s.threads[0]) && PcOk(s.threads[1])
  }

  predicate AtReader(s: System, a: Agent)
    requires |s.threads| == 2
  {
    s.threads[a].pc.Reading? && s.threads[a].pc.i < |s.threads[a].rd|
  }

  predicate AtWriter(s: System, a: Agent)
    requires |s.threads| == 2
  {
    s.threads[a].pc.Writing? && s.threads[a].pc.i < |s.threads[a].wr|
  }

  predicate Enabled(s: System, act: Action)
    requires |s.pipes| == |s.threads| == 2
  {
    match act
    case Create(c, size) => c !in s.conns
    case AddConn(a, c) => c in s.pipes[a] && !s.pipes[a][c].offered
    case TakeWork(a) => var t := s.threads[a]; t.pc.Top? && (t.rd != [] || t.wr != [] || t.inReads != [] || t.inWrites != [])
    case SelectNone(a) => s.threads[a].pc.Selecting?
    case Select(a, _, _) => s.threads[a].pc.Selecting?
    case ReadSkip(a) => AtReader(s, a)
    case ReadData(a, data) =>
      && AtReader(s, a)
      && var c := s.threads[a].rd[s.threads[a].pc.i];
         c in s.threads[a].pc.readable && c in s.pipes[a] && 0 < |data| <= |s.pipes[a][c].buf|
    case ReadStop(a) => AtReader(s, a) && s.threads[a].rd[s.threads[a].pc.i] in s.threads[a].pc.readable
    case ReadDone(a) => s.threads[a].pc.Reading? && s.threads[a].pc.i == |s.threads[a].rd|
    case WriteSkip(a) => AtWriter(s, a)
    case WriteData(a, w) =>
      && AtWriter(s, a)
      && var j := s.threads[a].wr[s.threads[a].pc.i];
         j.conn in s.threads[a].pc.writable && 0 < w <= j.len
    case WriteStop(a) => AtWriter(s, a) && s.threads[a].wr[s.threads[a].pc.i].conn in s.threads[a].pc.writable
    case WriteDone(a) => s.threads[a].pc.Writing? && s.threads[a].pc.i == |s.threads[a].wr|
  }

  function SetThread(s: System, a: Agent, t: Thread): System
    requires |s.threads| == 2
  {
    s.(threads := s.threads[a := t])
  }

  function SetPipe(s: System, a: Agent, c: nat, p: Pipe): System
    requires |s.pipes| == 2
  {
    var pipes: map<nat, Pipe> := s.pipes[a][c := p];
    s.(pipes := s.pipes[a := pipes])
  }

  /** relay_conn_close: the first close only counts, every later one collects. */
  function Close(s: System, c: nat): System
    requires c in s.conns
  {
    var k := s.conns[c];
    s.(conns := s.conns[c := if k.closeCount == 0 then Conn(1, k.destroyed) else Conn(k.closeCount, k.destroyed + 1)])
  }

  /** crossbar_add_for_reading on the crossbar agent a empties. */
  function AddForReading(s: System, a: Agent, c: nat): System
    requires |s.threads| == 2
  {
    SetThread(s, a, s.threads[a].(inReads := s.threads[a].inReads + [c]))
  }

  function AddForWriting(s: System, a: Agent, j: Job): System
    requires |s.threads| == 2
  {
    SetThread(s, a, s.threads[a].(inWrites := s.threads[a].inWrites + [j]))
  }

  /** The read pass keeps the current entry, moving it down in place. */
  function ReaderKept(t: Thread): Thread
    requires t.pc.Reading? && t.pc.n <= t.pc.i < |t.rd|
  {
    t.(rd := t.rd[t.pc.n := t.rd[t.pc.i]], pc := Reading(t.pc.readable, t.pc.writable, t.pc.i + 1, t.pc.n + 1))
  }

  function ReaderGone(t: Thread): Thread
    requires t.pc.Reading?
  {
    t.(pc := Reading(t.pc.readable, t.pc.writable, t.pc.i + 1, t.pc.n))
  }

  function WriterKept(t: Thread, j: Job): Thread
    requires t.pc.Writing? && t.pc.n <= t.pc.i < |t.wr|
  {
    t.(wr := t.wr[t.pc.n := j], pc := Writing(t.pc.writable, t.pc.i + 1, t.pc.n + 1))
  }

  function WriterGone(t: Thread): Thread
    requires t.pc.Writing?
  {
    t.(pc := Writing(t.pc.writable, t.pc.i + 1, t.pc.n))
  }

  function ReadDataStep(s: System, a: Agent, data: seq<Byte>): System
    requires Shape(s) && Enabled(s, ReadData(a, data))
  {
    var t := s.threads[a];
    var c := t.rd[t.pc.i];
    var p := s.pipes[a][c];
    var filled := SetPipe(s, a, c, p.(buf := Filled(p.buf, data), got := p.got + data));
    AddForWriting(SetThread(filled, a, ReaderGone(t)), Other(a), Job(c, |data|))
  }

  function ReadStopStep(s: System, a: Agent): System
    requires Shape(s) && AtReader(s, a) && s.threads[a].rd[s.threads[a].pc.i] in s.conns
  {
    var t := s.threads[a];
    var c := t.rd[t.pc.i];
    Close(SetPipe(SetThread(s, a, ReaderGone(t)), a, c, s.pipes[a][c].(shut := true)), c)
  }

  function WriteDataStep(s: System, a: Agent, w: nat): System
    requires Shape(s) && Enabled(s, WriteData(a, w))
    requires var j := s.threads[a].wr[s.threads[a].pc.i];
             j.conn in s.conns && j.len <= |s.pipes[Other(a)][j.conn].buf|
  {
    var t := s.threads[a];
    var j := t.wr[t.pc.i];
    var p := s.pipes[Other(a)][j.conn];
    var sent := p.sent + p.buf[..w];
    if w < j.len then
      SetPipe(SetThread(s, a, WriterKept(t, Job(j.conn, j.len - w))), Other(a), j.conn,
              p.(buf := Moved(p.buf, w, j.len), sent := sent))
    else
      AddForReading(SetPipe(SetThread(s, a, WriterGone(t)), Other(a), j.conn, p.(sent := sent)), Other(a), j.conn)
  }

  function WriteStopStep(s: System, a: Agent): System
    requires Shape(s) && AtWriter(s, a) && s.threads[a].wr[s.threads[a].pc.i].conn in s.conns
  {
    var t := s.threads[a];
    var c := t.wr[t.pc.i].conn;
    Close(SetPipe(SetThread(s, a, WriterGone(t)), Other(a), c, s.pipes[Other(a)][c].(deaf := true)), c)
  }

  /** What a step needs of the memory it works on; every run provides it. */
  ghost predicate Safe(s: System, act: Action)
    requires Shape(s)
  {
    match act
    case ReadStop(a) => AtReader(s, a) ==> s.threads[a].rd[s.threads[a].pc.i] in s.conns
    case WriteData(a, w) => AtWriter(s, a) ==>
      var j := s.threads[a].wr[s.threads[a].pc.i]; j.conn in s.conns && j.len <= |s.pipes[Other(a)][j.conn].buf|
    case WriteStop(a) => AtWriter(s, a) ==> s.threads[a].wr[s.threads[a].pc.i].conn in s.conns
    case _ => true
  }

  ghost function Next(s: System, act: Action): System
    requires Shape(s) && Enabled(s, act) && Safe(s, act)
  {
    match act
    case Create(c, size) =>
      s.(conns := s.conns[c := Conn(0, 0)],
         pipes := [s.pipes[0][c := FreshPipe(size)], s.pipes[1][c := FreshPipe(size)]])
    case AddConn(a, c) => AddForReading(SetPipe(s, a, c, s.pipes[a][c].(offered := true)), a, c)
    case TakeWork(a) =>
      var t := s.threads[a];
      SetThread(s, a, Thread(t.rd + t.inReads, t.wr + t.inWrites, Selecting, [], []))
    case SelectNone(a) => SetThread(s, a, s.threads[a].(pc := Top))
    case Select(a, readable, writable) => SetThread(s, a, s.threads[a].(pc := Reading(readable, writable, 0, 0)))
    case ReadSkip(a) => SetThread(s, a, ReaderKept(s.threads[a]))
    case ReadData(a, data) => ReadDataStep(s, a, data)
    case ReadStop(a) => ReadStopStep(s, a)
    case ReadDone(a) =>
      var t := s.threads[a];
      SetThread(s, a, t.(rd := t.rd[..t.pc.n], pc := Writing(t.pc.writable, 0, 0)))
    case WriteSkip(a) => SetThread(s, a, WriterKept(s.threads[a], s.threads[a].wr[s.threads[a].pc.i]))
    case WriteData(a, w) => WriteDataStep(s, a, w)
    case WriteStop(a) => WriteStopStep(s, a)
    case WriteDone(a) =>
      var t := s.threads[a];
      SetThread(s, a, t.(wr := t.wr[..t.pc.n], pc := Top))
  }

  // ---------------------------------------------------------------- the lanes

  /** The connections thread t reads from: kept, still to be looked at, and on their way in. */
  function ReadersOf(t: Thread): seq<nat>
    requires PcOk(t)
  {
    (if t.pc.Reading? then t.rd[..t.pc.n] + t.rd[t.pc.i..] else t.rd) + t.inReads
  }

  function WritersOf(t: Thread): seq<Job>
    requires PcOk(t)
  {
    (if t.pc.Writing? then t.wr[..t.pc.n] + t.wr[t.pc.i..] else t.wr) + t.inWrites
  }

  function LaneOf(s: System, a: Agent): Lane
    requires Shape(s)
  {
    Lane(s.pipes[a], ReadersOf(s.threads[a]), WritersOf(s.threads[Other(a)]))
  }

  /** The close count is 1 from the first dropped token on; the connection is destroyed once both are dropped. */
  ghost predicate CloseOk(s: System)
    requires Shape(s)
  {
    forall c :: c in s.conns ==> ConnOk(s.conns[c], Dropped(LaneOf(s, 0), c), Dropped(LaneOf(s, 1), c))
  }

  predicate ConnOk(k: Conn, dropped0: bool, dropped1: bool) {
    k == Conn(if dropped0 || dropped1 then 1 else 0, if dropped0 && dropped1 then 1 else 0)
  }

  ghost predicate Inv(s: System) {
    Shape(s) && LaneOk(LaneOf(s, 0)) && LaneOk(LaneOf(s, 1)) && CloseOk(s)
  }

  // ---------------------------------------------------------------- a step is a move on the lanes

  /** Keeping the current entry leaves the list as it is; letting it go takes it out. */
  lemma PassKeeps<T>(s: seq<T>, n: nat, i: nat, x: T, tail: seq<T>)
    requires n <= i < |s|
    ensures s[n := x][..n + 1] + s[n := x][i + 1..] + tail == (s[..n] + s[i..] + tail)[n := x]
    ensures s[..n] + s[i + 1..] + tail == Without(s[..n] + s[i..] + tail, n)
    ensures (s[..n] + s[i..] + tail)[n] == s[i]
  {
    assert s[n := x][..n + 1] == s[..n] + [x];
    assert s[n := x][i + 1..] == s[i + 1..];
  }

  /** The pass of thread a over its readers. */
  lemma ReaderPass(t: Thread)
    requires PcOk(t) && t.pc.Reading? && t.pc.i < |t.rd|
    ensures PcOk(ReaderKept(t)) && ReadersOf(ReaderKept(t)) == ReadersOf(t)
    ensures PcOk(ReaderGone(t)) && ReadersOf(ReaderGone(t)) == Without(ReadersOf(t), t.pc.n)
    ensures t.pc.n < |ReadersOf(t)| && ReadersOf(t)[t.pc.n] == t.rd[t.pc.i]
    ensures WritersOf(ReaderKept(t)) == WritersOf(ReaderGone(t)) == WritersOf(t)
  {
    PassKeeps(t.rd, t.pc.n, t.pc.i, t.rd[t.pc.i], t.inReads);
  }

  lemma WriterPass(t: Thread, j: Job)
    requires PcOk(t) && t.pc.Writing? && t.pc.i < |t.wr|
    ensures t.pc.n < |WritersOf(t)| && WritersOf(t)[t.pc.n] == t.wr[t.pc.i]
    ensures PcOk(WriterKept(t, j)) && WritersOf(WriterKept(t, j)) == WritersOf(t)[t.pc.n := j]
    ensures PcOk(WriterGone(t)) && WritersOf(WriterGone(t)) == Without(WritersOf(t), t.pc.n)
    ensures ReadersOf(WriterKept(t, j)) == ReadersOf(WriterGone(t)) == ReadersOf(t)
  {
    PassKeeps(t.wr, t.pc.n, t.pc.i, j, t.inWrites);
  }

  /** Steps that only move entries between the crossbar and the arrays, or the pass along. */
  predicate IsQuiet(act: Action) {
    act.TakeWork? || act.SelectNone? || act.Select? || act.ReadSkip? || act.ReadDone? || act.WriteSkip? || act.WriteDone?
  }

  lemma QuietThread(s: System, act: Action, a: Agent)
    requires Shape(s) && Enabled(s, act) && Safe(s, act) && IsQuiet(act) && act.a == a
    ensures var t := Next(s, act).threads[a];
            PcOk(t) && ReadersOf(t) == ReadersOf(s.threads[a]) && WritersOf(t) == WritersOf(s.threads[a])
  {
    var t := s.threads[a];
    match act
    case ReadSkip(_) => ReaderPass(t);
    case WriteSkip(_) =>
      WriterPass(t, t.wr[t.pc.i]);
      assert WritersOf(t)[t.pc.n := t.wr[t.pc.i]] == WritersOf(t);
    case _ =>
  }

  lemma QuietIsSame(s: System, act: Action)
    requires Shape(s) && Enabled(s, act) && Safe(s, act) && IsQuiet(act)
    ensures var m := Next(s, act);
            Shape(m) && m.conns == s.conns && LaneOf(m, 0) == LaneOf(s, 0) && LaneOf(m, 1) == LaneOf(s, 1)
  {
    QuietThread(s, act, act.a);
  }

  lemma AddConnIsOffer(s: System, a: Agent, c: nat)
    requires Shape(s) && Enabled(s, AddConn(a, c))
    ensures var m := Next(s, AddConn(a, c));
      && Shape(m) && m.conns == s.conns
      && LaneOf(m, a) == Offer(LaneOf(s, a), c) && LaneOf(m, Other(a)) == LaneOf(s, Other(a))
  {
    var m := Next(s, AddConn(a, c));
    var t := s.threads[a];
    assert ReadersOf(m.threads[a]) == ReadersOf(t) + [c];
  }

  lemma ReadDataIsRead(s: System, a: Agent, data: seq<Byte>)
    requires Shape(s) && Enabled(s, ReadData(a, data))
    ensures var m, k := Next(s, ReadData(a, data)), s.threads[a].pc.n;
      && Shape(m) && m.conns == s.conns
      && k < |LaneOf(s, a).readers| && LaneOf(s, a).readers[k] == s.threads[a].rd[s.threads[a].pc.i]
      && LaneOf(m, a) == Read(LaneOf(s, a), k, data) && LaneOf(m, Other(a)) == LaneOf(s, Other(a))
  {
    var t := s.threads[a];
    var c := t.rd[t.pc.i];
    var p := s.pipes[a][c];
    var q := p.(buf := Filled(p.buf, data), got := p.got + data);
    ReaderPass(t);
    ReaderMove(s, a, ReaderGone(t), c, q);
    HandedOver(SetThread(SetPipe(s, a, c, q), a, ReaderGone(t)), a, Job(c, |data|));
  }

  lemma ReadStopIsReadEnd(s: System, a: Agent)
    requires Shape(s) && Enabled(s, ReadStop(a)) && Safe(s, ReadStop(a))
    ensures var m, k := Next(s, ReadStop(a)), s.threads[a].pc.n;
      && Shape(m) && k < |LaneOf(s, a).readers| && LaneOf(s, a).readers[k] == s.threads[a].rd[s.threads[a].pc.i]
      && m.conns == Close(s, LaneOf(s, a).readers[k]).conns
      && LaneOf(m, a) == ReadEnd(LaneOf(s, a), k) && LaneOf(m, Other(a)) == LaneOf(s, Other(a))
  {
    ReaderPass(s.threads[a]);
  }

  lemma WriteDataIsWrite(s: System, a: Agent, w: nat)
    requires Shape(s) && Enabled(s, WriteData(a, w)) && Safe(s, WriteData(a, w))
    ensures var m, k := Next(s, WriteData(a, w)), s.threads[a].pc.n;
      && Shape(m) && m.conns == s.conns
      && k < |LaneOf(s, Other(a)).writers| && LaneOf(s, Other(a)).writers[k] == s.threads[a].wr[s.threads[a].pc.i]
      && LaneOf(m, Other(a)) == Write(LaneOf(s, Other(a)), k, w) && LaneOf(m, a) == LaneOf(s, a)
  {
    var t := s.threads[a];
    var j := t.wr[t.pc.i];
    if w < j.len {
      PartialWriteIsWrite(s, a, w);
    } else {
      FullWriteIsWrite(s, a, w);
    }
  }

  lemma PartialWriteIsWrite(s: System, a: Agent, w: nat)
    requires Shape(s) && Enabled(s, WriteData(a, w)) && Safe(s, WriteData(a, w))
    requires w < s.threads[a].wr[s.threads[a].pc.i].len
    ensures var m, k := WriteDataStep(s, a, w), s.threads[a].pc.n;
      && Shape(m) && m.conns == s.conns
      && k < |LaneOf(s, Other(a)).writers| && LaneOf(s, Other(a)).writers[k] == s.threads[a].wr[s.threads[a].pc.i]
      && LaneOf(m, Other(a)) == Write(LaneOf(s, Other(a)), k, w) && LaneOf(m, a) == LaneOf(s, a)
  {
    var t := s.threads[a];
    var j := t.wr[t.pc.i];
    WriterPass(t, Job(j.conn, j.len - w));
    var p := s.pipes[Other(a)][j.conn];
    var q := p.(buf := Moved(p.buf, w, j.len), sent := p.sent + p.buf[..w]);
    var kept := WriterKept(t, Job(j.conn, j.len - w));
    WriterMove(s, a, kept, j.conn, q);
    assert WriteDataStep(s, a, w) == SetPipe(SetThread(s, a, kept), Other(a), j.conn, q);
  }

  lemma FullWriteIsWrite(s: System, a: Agent, w: nat)
    requires Shape(s) && Enabled(s, WriteData(a, w)) && Safe(s, WriteData(a, w))
    requires w == s.threads[a].wr[s.threads[a].pc.i].len
    ensures var m, k := WriteDataStep(s, a, w), s.threads[a].pc.n;
      && Shape(m) && m.conns == s.conns
      && k < |LaneOf(s, Other(a)).writers| && LaneOf(s, Other(a)).writers[k] == s.threads[a].wr[s.threads[a].pc.i]
      && LaneOf(m, Other(a)) == Write(LaneOf(s, Other(a)), k, w) && LaneOf(m, a) == LaneOf(s, a)
  {
    var t := s.threads[a];
    var j := t.wr[t.pc.i];
    WriterPass(t, j);
    var p := s.pipes[Other(a)][j.conn];
    var q := p.(sent := p.sent + p.buf[..w]);
    WriterMove(s, a, WriterGone(t), j.conn, q);
    GivenBack(SetPipe(SetThread(s, a, WriterGone(t)), Other(a), j.conn, q), Other(a), j.conn);
  }

  /** A writer's new arrays and the new contents of a pipe it writes from, as seen by the lanes. */
  lemma WriterMove(s: System, a: Agent, t: Thread, c: nat, p: Pipe)
    requires Shape(s) && PcOk(t) && ReadersOf(t) == ReadersOf(s.threads[a]) && c in s.pipes[Other(a)]
    ensures var m := SetPipe(SetThread(s, a, t), Other(a), c, p);
      && Shape(m) && m.conns == s.conns && LaneOf(m, a) == LaneOf(s, a)
      && LaneOf(m, Other(a)) == Lane(s.pipes[Other(a)][c := p], LaneOf(s, Other(a)).readers, WritersOf(t))
  {
  }

  /** A connection put on a crossbar for reading joins the readers of that direction. */
  lemma GivenBack(s: System, a: Agent, c: nat)
    requires Shape(s)
    ensures var m := AddForReading(s, a, c);
      && Shape(m) && m.conns == s.conns && LaneOf(m, Other(a)) == LaneOf(s, Other(a))
      && LaneOf(m, a) == LaneOf(s, a).(readers := LaneOf(s, a).readers + [c])
  {
    assert ReadersOf(AddForReading(s, a, c).threads[a]) == ReadersOf(s.threads[a]) + [c];
  }

  /** A buffer put on a crossbar for writing joins the writers of the direction it was read in. */
  lemma HandedOver(s: System, a: Agent, j: Job)
    requires Shape(s)
    ensures var m := AddForWriting(s, Other(a), j);
      && Shape(m) && m.conns == s.conns && LaneOf(m, Other(a)) == LaneOf(s, Other(a))
      && LaneOf(m, a) == LaneOf(s, a).(writers := LaneOf(s, a).writers + [j])
  {
    assert WritersOf(AddForWriting(s, Other(a), j).threads[Other(a)]) == WritersOf(s.threads[Other(a)]) + [j];
  }

  /** A reader's new arrays and the new contents of a pipe it reads into, as seen by the lanes. */
  lemma ReaderMove(s: System, a: Agent, t: Thread, c: nat, p: Pipe)
    requires Shape(s) && PcOk(t) && WritersOf(t) == WritersOf(s.threads[a]) && c in s.pipes[a]
    ensures var m := SetThread(SetPipe(s, a, c, p), a, t);
      && Shape(m) && m.conns == s.conns && LaneOf(m, Other(a)) == LaneOf(s, Other(a))
      && LaneOf(m, a) == Lane(s.pipes[a][c := p], ReadersOf(t), LaneOf(s, a).writers)
  {
  }

  lemma WriteStopIsWriteEnd(s: System, a: Agent)
    requires Shape(s) && Enabled(s, WriteStop(a)) && Safe(s, WriteStop(a))
    ensures var m, k := Next(s, WriteStop(a)), s.threads[a].pc.n;
      && Shape(m) && k < |LaneOf(s, Other(a)).writers| && LaneOf(s, Other(a)).writers[k] == s.threads[a].wr[s.threads[a].pc.i]
      && m.conns == Close(s, LaneOf(s, Other(a)).writers[k].conn).conns
      && LaneOf(m, Other(a)) == WriteEnd(LaneOf(s, Other(a)), k) && LaneOf(m, a) == LaneOf(s, a)
  {
    var t := s.threads[a];
    var c := t.wr[t.pc.i].conn;
    WriterPass(t, t.wr[t.pc.i]);
    WriterMove(s, a, WriterGone(t), c, s.pipes[Other(a)][c].(deaf := true));
  }

  // ---------------------------------------------------------------- every step keeps the invariant

  /** The connections whose descriptors a thread looks up to build its sets for select. */
  ghost function Listed(t: Thread): set<nat> {
    (set c | c in t.rd) + (set j | j in t.wr :: j.conn)
  }

  /** The memory a step works on: the connections whose fields it reads or writes. */
  ghost function Touched(s: System, act: Action): set<nat>
    requires Shape(s) && Enabled(s, act)
  {
    match act
    case SelectNone(a) => Listed(s.threads[a])
    case Select(a, _, _) => Listed(s.threads[a])
    case ReadSkip(a) => {s.threads[a].rd[s.threads[a].pc.i]}
    case ReadData(a, _) => {s.threads[a].rd[s.threads[a].pc.i]}
    case ReadStop(a) => {s.threads[a].rd[s.threads[a].pc.i]}
    case WriteSkip(a) => {s.threads[a].wr[s.threads[a].pc.i].conn}
    case WriteData(a, _) => {s.threads[a].wr[s.threads[a].pc.i].conn}
    case WriteStop(a) => {s.threads[a].wr[s.threads[a].pc.i].conn}
    case _ => {}
  }

  /** A connection that has a token with a reader or a writer is alive. */
  lemma HeldIsAlive(s: System, a: Agent, c: nat)
    requires Inv(s) && (WithReader(LaneOf(s, a), c) || WithWriter(LaneOf(s, a), c))
    ensures c in s.conns && s.conns[c].destroyed == 0
  {
    HeldIsOffered(LaneOf(s, a), c);
    assert !Dropped(LaneOf(s, a), c);
    assert ConnOk(s.conns[c], Dropped(LaneOf(s, 0), c), Dropped(LaneOf(s, 1), c));
  }

  lemma ReaderIsHeld(s: System, a: Agent)
    requires Shape(s) && AtReader(s, a)
    ensures WithReader(LaneOf(s, a), s.threads[a].rd[s.threads[a].pc.i])
  {
    ReaderPass(s.threads[a]);
  }

  lemma WriterIsHeld(s: System, a: Agent)
    requires Shape(s) && AtWriter(s, a)
    ensures var j := s.threads[a].wr[s.threads[a].pc.i];
            j in LaneOf(s, Other(a)).writers && WithWriter(LaneOf(s, Other(a)), j.conn)
  {
    WriterPass(s.threads[a], s.threads[a].wr[s.threads[a].pc.i]);
  }

  lemma ListedIsAlive(s: System, a: Agent, c: nat)
    requires Inv(s) && s.threads[a].pc.Selecting? && c in Listed(s.threads[a])
    ensures c in s.conns && s.conns[c].destroyed == 0
  {
    if c in s.threads[a].rd {
      assert c in LaneOf(s, a).readers;
      HeldIsAlive(s, a, c);
    } else {
      var k :| 0 <= k < |s.threads[a].wr| && s.threads[a].wr[k].conn == c;
      assert LaneOf(s, Other(a)).writers[k].conn == c;
      HeldIsAlive(s, Other(a), c);
    }
  }

  /** No step works on a connection that does not exist or has been destroyed. */
  lemma NoStepTouchesDestroyed(s: System, act: Action, c: nat)
    requires Inv(s) && Enabled(s, act) && c in Touched(s, act)
    ensures c in s.conns && s.conns[c].destroyed == 0
  {
    match act
    case SelectNone(a) => ListedIsAlive(s, a, c);
    case Select(a, _, _) => ListedIsAlive(s, a, c);
    case ReadSkip(a) => ReaderIsHeld(s, a); HeldIsAlive(s, a, c);
    case ReadData(a, _) => ReaderIsHeld(s, a); HeldIsAlive(s, a, c);
    case ReadStop(a) => ReaderIsHeld(s, a); HeldIsAlive(s, a, c);
    case WriteSkip(a) => WriterIsHeld(s, a); HeldIsAlive(s, Other(a), c);
    case WriteData(a, _) => WriterIsHeld(s, a); HeldIsAlive(s, Other(a), c);
    case WriteStop(a) => WriterIsHeld(s, a); HeldIsAlive(s, Other(a), c);
  }

  lemma InvIsSafe(s: System, act: Action)
    requires Inv(s) && Enabled(s, act)
    ensures Safe(s, act)
  {
    match act
    case ReadStop(a) => ReaderIsSafe(s, a);
    case WriteData(a, w) => WriterIsSafe(s, a);
    case WriteStop(a) => WriterIsSafe(s, a);
    case _ =>
  }

  lemma ReaderIsSafe(s: System, a: Agent)
    requires Shape(s) && LaneOk(LaneOf(s, a)) && AtReader(s, a)
    ensures s.threads[a].rd[s.threads[a].pc.i] in s.conns
  {
    ReaderIsHeld(s, a);
    HeldIsOffered(LaneOf(s, a), s.threads[a].rd[s.threads[a].pc.i]);
  }

  lemma WriterIsSafe(s: System, a: Agent)
    requires Shape(s) && LaneOk(LaneOf(s, Other(a))) && AtWriter(s, a)
    ensures var j := s.threads[a].wr[s.threads[a].pc.i];
      j.conn in s.conns && j.conn in s.pipes[Other(a)] && j.len <= |s.pipes[Other(a)][j.conn].buf|
  {
    WriterIsHeld(s, a);
    WriterHasBytes(LaneOf(s, Other(a)), s.threads[a].wr[s.threads[a].pc.i]);
  }

  lemma WriterHasBytes(l: Lane, j: Job)
    requires LaneOk(l) && j in l.writers
    ensures WriterOk(l.pipes, j)
  {
    var k :| 0 <= k < |l.writers| && l.writers[k] == j;
    assert WriterOk(l.pipes, l.writers[k]);
  }

  /** A move of direction a that gives up no token, the other direction left alone. */
  lemma MoveKeepsInv(s: System, m: System, a: Agent)
    requires Inv(s) && Shape(m) && m.conns == s.conns
    requires LaneOk(LaneOf(m, a)) && SameDropped(LaneOf(s, a), LaneOf(m, a)) && LaneOf(m, Other(a)) == LaneOf(s, Other(a))
    ensures Inv(m)
  {
    MoveKeepsCloseOk(s, m, a);
  }

  lemma MoveKeepsCloseOk(s: System, m: System, a: Agent)
    requires Shape(s) && CloseOk(s) && Shape(m) && m.conns == s.conns
    requires SameDropped(LaneOf(s, a), LaneOf(m, a)) && LaneOf(m, Other(a)) == LaneOf(s, Other(a))
    ensures CloseOk(m)
  {
    forall c | c in m.conns
      ensures ConnOk(m.conns[c], Dropped(LaneOf(m, 0), c), Dropped(LaneOf(m, 1), c))
    {
      assert ConnOk(s.conns[c], Dropped(LaneOf(s, 0), c), Dropped(LaneOf(s, 1), c));
      assert Dropped(LaneOf(m, a), c) <==> Dropped(LaneOf(s, a), c);
    }
  }

  /** A move of direction a that drops the token of c and closes the connection once. */
  lemma DropKeepsInv(s: System, m: System, a: Agent, c: nat)
    requires Inv(s) && Shape(m) && c in s.conns && m.conns == Close(s, c).conns
    requires LaneOk(LaneOf(m, a)) && DropsOnly(LaneOf(s, a), LaneOf(m, a), c) && LaneOf(m, Other(a)) == LaneOf(s, Other(a))
    ensures Inv(m)
  {
    DropKeepsCloseOk(s, m, a, c);
  }

  lemma DropKeepsCloseOk(s: System, m: System, a: Agent, c: nat)
    requires Shape(s) && CloseOk(s) && Shape(m) && c in s.conns && m.conns == Close(s, c).conns
    requires DropsOnly(LaneOf(s, a), LaneOf(m, a), c) && LaneOf(m, Other(a)) == LaneOf(s, Other(a))
    ensures CloseOk(m)
  {
    var l, n, o := LaneOf(s, a), LaneOf(m, a), LaneOf(s, Other(a));
    forall d | d in m.conns
      ensures ConnOk(m.conns[d], Dropped(n, d), Dropped(o, d))
    {
      assert ConnOk(s.conns[d], Dropped(LaneOf(s, 0), d), Dropped(LaneOf(s, 1), d));
      ClosedOnce(s.conns[d], m.conns[d], l, n, o, c, d);
    }
    CloseOkEitherWay(m, a);
  }

  lemma ClosedOnce(k: Conn, k': Conn, l: Lane, m: Lane, o: Lane, c: nat, d: nat)
    requires ConnOk(k, Dropped(l, d), Dropped(o, d)) && DropsOnly(l, m, c)
    requires k' == if d != c then k else if k.closeCount == 0 then Conn(1, k.destroyed) else Conn(k.closeCount, k.destroyed + 1)
    ensures ConnOk(k', Dropped(m, d), Dropped(o, d))
  {
    assert Dropped(m, d) <==> Dropped(l, d) || d == c;
  }

  lemma CloseOkEitherWay(m: System, a: Agent)
    requires Shape(m)
    requires forall c :: c in m.conns ==> ConnOk(m.conns[c], Dropped(LaneOf(m, a), c), Dropped(LaneOf(m, Other(a)), c))
    ensures CloseOk(m)
  {
  }

  lemma CreateKeepsInv(s: System, c: nat, size: nat)
    requires Inv(s) && Enabled(s, Create(c, size))
    ensures Inv(Next(s, Create(c, size)))
  {
    AddPipeKeeps(LaneOf(s, 0), c, size);
    AddPipeKeeps(LaneOf(s, 1), c, size);
    CreateAddsPipes(s, c, size);
    CreateKeepsCloseOk(s, c, size);
  }

  lemma CreateAddsPipes(s: System, c: nat, size: nat)
    requires Shape(s) && Enabled(s, Create(c, size))
    ensures var m := Next(s, Create(c, size));
      Shape(m) && LaneOf(m, 0) == AddPipe(LaneOf(s, 0), c, size) && LaneOf(m, 1) == AddPipe(LaneOf(s, 1), c, size)
  {
  }

  lemma CreateKeepsCloseOk(s: System, c: nat, size: nat)
    requires Shape(s) && CloseOk(s) && Enabled(s, Create(c, size))
    requires forall a: Agent :: SameDropped(LaneOf(s, a), AddPipe(LaneOf(s, a), c, size))
    ensures Shape(Next(s, Create(c, size))) && CloseOk(Next(s, Create(c, size)))
  {
    var m := Next(s, Create(c, size));
    CreateAddsPipes(s, c, size);
    var l0, l1 := LaneOf(s, 0), LaneOf(s, 1);
    assert SameDropped(l0, LaneOf(m, 0)) && SameDropped(l1, LaneOf(m, 1));
    forall d | d in m.conns
      ensures ConnOk(m.conns[d], Dropped(LaneOf(m, 0), d), Dropped(LaneOf(m, 1), d))
    {
      assert Dropped(LaneOf(m, 0), d) <==> Dropped(l0, d);
      assert Dropped(LaneOf(m, 1), d) <==> Dropped(l1, d);
      assert d in s.conns ==> ConnOk(s.conns[d], Dropped(l0, d), Dropped(l1, d));
    }
  }

  lemma ReadDataKeepsInv(s: System, a: Agent, data: seq<Byte>)
    requires Inv(s) && Enabled(s, ReadData(a, data))
    ensures Inv(Next(s, ReadData(a, data)))
  {
    ReadDataIsRead(s, a, data);
    ReadKeeps(LaneOf(s, a), s.threads[a].pc.n, data);
    MoveKeepsInv(s, Next(s, ReadData(a, data)), a);
  }

  lemma ReadStopKeepsInv(s: System, a: Agent)
    requires Inv(s) && Enabled(s, ReadStop(a)) && Safe(s, ReadStop(a))
    ensures Inv(Next(s, ReadStop(a)))
  {
    ReadStopIsReadEnd(s, a);
    ReadEndKeeps(LaneOf(s, a), s.threads[a].pc.n);
    DropKeepsInv(s, Next(s, ReadStop(a)), a, s.threads[a].rd[s.threads[a].pc.i]);
  }

  lemma WriteDataKeepsInv(s: System, a: Agent, w: nat)
    requires Inv(s) && Enabled(s, WriteData(a, w)) && Safe(s, WriteData(a, w))
    ensures Inv(Next(s, WriteData(a, w)))
  {
    WriteDataIsWrite(s, a, w);
    WriteKeeps(LaneOf(s, Other(a)), s.threads[a].pc.n, w);
    MoveKeepsInv(s, Next(s, WriteData(a, w)), Other(a));
  }

  lemma WriteStopKeepsInv(s: System, a: Agent)
    requires Inv(s) && Enabled(s, WriteStop(a)) && Safe(s, WriteStop(a))
    ensures Inv(Next(s, WriteStop(a)))
  {
    WriteStopIsWriteEnd(s, a);
    WriteEndKeeps(LaneOf(s, Other(a)), s.threads[a].pc.n);
    DropKeepsInv(s, Next(s, WriteStop(a)), Other(a), s.threads[a].wr[s.threads[a].pc.i].conn);
  }

  lemma AddConnKeepsInv(s: System, a: Agent, c: nat)
    requires Inv(s) && Enabled(s, AddConn(a, c))
    ensures Inv(Next(s, AddConn(a, c)))
  {
    AddConnIsOffer(s, a, c);
    OfferKeeps(LaneOf(s, a), c);
    MoveKeepsInv(s, Next(s, AddConn(a, c)), a);
  }

  lemma StepKeepsInv(s: System, act: Action)
    requires Inv(s) && Enabled(s, act)
    ensures Safe(s, act) && Inv(Next(s, act))
  {
    InvIsSafe(s, act);
    match act
    case Create(c, size) => CreateKeepsInv(s, c, size);
    case AddConn(a, c) => AddConnKeepsInv(s, a, c);
    case ReadData(a, data) => ReadDataKeepsInv(s, a, data);
    case ReadStop(a) => ReadStopKeepsInv(s, a);
    case WriteData(a, w) => WriteDataKeepsInv(s, a, w);
    case WriteStop(a) => WriteStopKeepsInv(s, a);
    case _ => QuietIsSame(s, act);
  }

  // ---------------------------------------------------------------- whole runs

  predicate Initial(s: System) {
    var idle := Thread([], [], Top, [], []);
    s == System(map[], [map[], map[]], [idle, idle])
  }

  ghost predicate IsRun(run: seq<System>, acts: seq<Action>) {
    && |run| == |acts| + 1 && Initial(run[0])
    && forall i :: 0 <= i < |acts| ==> IsStep(run[i], acts[i], run[i + 1])
  }

  ghost predicate IsStep(s: System, act: Action, m: System) {
    Shape(s) && Enabled(s, act) && Safe(s, act) && m == Next(s, act)
  }

  lemma {:induction false} RunsKeepInv(run: seq<System>, acts: seq<Action>, i: nat)
    requires IsRun(run, acts) && i < |run|
    ensures Inv(run[i])
  {
    if 0 < i {
      RunsKeepInv(run, acts, i - 1);
      assert IsStep(run[i - 1], acts[i - 1], run[i]);
      StepKeepsInv(run[i - 1], acts[i - 1]);
    } else {
      InitialInv(run[0]);
    }
  }

  lemma InitialInv(s: System)
    requires Initial(s)
    ensures Inv(s)
  {
    assert Shape(s) && LaneOf(s, 0) == Lane(map[], [], []) && LaneOf(s, 1) == Lane(map[], [], []);
    assert LaneOk(LaneOf(s, 0)) && LaneOk(LaneOf(s, 1));
  }

  /** In every run and direction: what was written is a prefix of what was read, a buffer waiting to be written
      holds exactly the bytes in between, and the far side has been shut down for writing only if none is missing. */
  lemma BytesArriveInOrder(run: seq<System>, acts: seq<Action>, i: nat, a: Agent, c: nat)
    requires IsRun(run, acts) && i < |run| && c in run[i].conns
    ensures Shape(run[i])
    ensures var p := run[i].pipes[a][c];
      && p.sent <= p.got
      && (p.shut ==> p.sent == p.got)
      && (WithReader(LaneOf(run[i], a), c) ==> p.sent == p.got)
      && forall j :: j in LaneOf(run[i], a).writers && j.conn == c ==> j.len <= |p.buf| && p.sent + p.buf[..j.len] == p.got
  {
    RunsKeepInv(run, acts, i);
    var l := LaneOf(run[i], a);
    assert PipeOk(l.pipes[c]);
    if WithReader(l, c) {
      var k :| 0 <= k < |l.readers| && l.readers[k] == c;
      assert ReaderOk(l.pipes, l.readers[k]);
    }
    forall j | j in l.writers && j.conn == c
      ensures WriterOk(l.pipes, j)
    {
      WriterHasBytes(l, j);
    }
  }

  /** In every run a connection is destroyed at most once, and exactly when both its tokens have been dropped. */
  lemma DestroyedOnce(run: seq<System>, acts: seq<Action>, i: nat, c: nat)
    requires IsRun(run, acts) && i < |run| && c in run[i].conns
    ensures Shape(run[i])
    ensures run[i].conns[c].destroyed == if Dropped(LaneOf(run[i], 0), c) && Dropped(LaneOf(run[i], 1), c) then 1 else 0
  {
    RunsKeepInv(run, acts, i);
    assert ConnOk(run[i].conns[c], Dropped(LaneOf(run[i], 0), c), Dropped(LaneOf(run[i], 1), c));
  }

  // ---------------------------------------------------------------- the arrays are big enough

  function Live(s: System): set<nat> {
    set c | c in s.conns && s.conns[c].destroyed == 0
  }

  lemma {:induction false} DistinctFit(xs: seq<nat>, all: set<nat>)
    requires forall i, j :: 0 <= i < j < |xs| ==> xs[i] != xs[j]
    requires forall i :: 0 <= i < |xs| ==> xs[i] in all
    ensures |xs| <= |all|
  {
    if xs != [] {
      DistinctFit(xs[1..], all - {xs[0]});
    }
  }

  /** Readers and writers of a direction are no more than the live connections. */
  lemma LaneFits(s: System, a: Agent)
    requires Inv(s)
    ensures |LaneOf(s, a).readers| <= |Live(s)| && |LaneOf(s, a).writers| <= |Live(s)|
  {
    var l := LaneOf(s, a);
    forall i | 0 <= i < |l.readers|
      ensures l.readers[i] in Live(s)
    {
      HeldIsAlive(s, a, l.readers[i]);
    }
    DistinctFit(l.readers, Live(s));
    var ws := seq(|l.writers|, k requires 0 <= k < |l.writers| => l.writers[k].conn);
    forall i | 0 <= i < |ws|
      ensures ws[i] in Live(s)
    {
      assert ws[i] == l.writers[i].conn;
      HeldIsAlive(s, a, ws[i]);
    }
    DistinctFit(ws, Live(s));
  }

  /** Every array of thread t holds at most n entries. */
  predicate Fits(t: Thread, n: nat) {
    |t.rd| <= n && |t.wr| <= n && |t.inReads| <= n && |t.inWrites| <= n
  }

  /** Only taking work makes an array longer. */
  lemma ArraysDontGrow(s: System, act: Action, m: System, a: Agent)
    requires IsStep(s, act, m) && act != TakeWork(a)
    ensures |m.threads| == 2 && |m.threads[a].rd| <= |s.threads[a].rd| && |m.threads[a].wr| <= |s.threads[a].wr|
  {
    if IsQuiet(act) {
      QuietDoesNotGrow(s, act, m, a);
    } else {
      MoveDoesNotGrow(s, act, m, a);
    }
  }

  lemma QuietDoesNotGrow(s: System, act: Action, m: System, a: Agent)
    requires IsStep(s, act, m) && act != TakeWork(a) && IsQuiet(act)
    ensures |m.threads| == 2 && |m.threads[a].rd| <= |s.threads[a].rd| && |m.threads[a].wr| <= |s.threads[a].wr|
  {
  }

  lemma MoveDoesNotGrow(s: System, act: Action, m: System, a: Agent)
    requires IsStep(s, act, m) && !IsQuiet(act)
    ensures |m.threads| == 2 && |m.threads[a].rd| <= |s.threads[a].rd| && |m.threads[a].wr| <= |s.threads[a].wr|
  {
  }

  /** What is on its way to a thread fits, and so does what it has just taken. */
  lemma IncomingFits(m: System, n: nat, a: Agent)
    requires Inv(m) && |Live(m)| <= n
    ensures |m.threads[a].inReads| <= n && |m.threads[a].inWrites| <= n
    ensures m.threads[a].pc.Selecting? ==> Fits(m.threads[a], n)
  {
    LaneFits(m, a);
    LaneFits(m, Other(a));
    ListsFit(m.threads[a]);
  }

  lemma ListsFit(t: Thread)
    requires PcOk(t)
    ensures |t.inReads| <= |ReadersOf(t)| && |t.inWrites| <= |WritersOf(t)|
    ensures t.pc.Selecting? ==> |t.rd| <= |ReadersOf(t)| && |t.wr| <= |WritersOf(t)|
  {
  }

  lemma TakenIsSelecting(s: System, m: System, a: Agent)
    requires IsStep(s, TakeWork(a), m)
    ensures |m.threads| == 2 && m.threads[a].pc.Selecting?
  {
  }

  lemma StepFits(s: System, act: Action, m: System, n: nat, a: Agent)
    requires IsStep(s, act, m) && Inv(m) && |Live(m)| <= n && Fits(s.threads[a], n)
    ensures Fits(m.threads[a], n)
  {
    IncomingFits(m, n, a);
    if act == TakeWork(a) {
      TakenIsSelecting(s, m, a);
    } else {
      ArraysDontGrow(s, act, m, a);
    }
  }

  ghost predicate ThreadFits(s: System, n: nat, a: Agent) {
    |s.threads| == 2 && Fits(s.threads[a], n)
  }

  lemma FitsAfter(run: seq<System>, acts: seq<Action>, i: nat, n: nat, a: Agent)
    requires IsRun(run, acts) && 0 < i < |run| && |Live(run[i])| <= n && ThreadFits(run[i - 1], n, a)
    ensures ThreadFits(run[i], n, a)
  {
    RunsKeepInv(run, acts, i);
    assert IsStep(run[i - 1], acts[i - 1], run[i]);
    StepFits(run[i - 1], acts[i - 1], run[i], n, a);
  }

  /** With at most n live connections at any time, no array of a run ever holds more than n entries;
      n is num_relays, 256, in relay.h. */
  lemma {:induction false} ArraysFit(run: seq<System>, acts: seq<Action>, i: nat, n: nat, a: Agent)
    requires IsRun(run, acts) && i < |run|
    requires forall j :: 0 <= j <= i ==> |Live(run[j])| <= n
    ensures ThreadFits(run[i], n, a)
  {
    if 0 < i {
      ArraysFit(run, acts, i - 1, n, a);
      FitsAfter(run, acts, i, n, a);
    }
  }
}
