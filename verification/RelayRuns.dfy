/** Whole runs of the relay: the end of a stream is passed on, and every turn of a thread looks at all its
    connections. */
module RelayRuns {
  import opened Common
  import opened RelayLane
  import opened Relay

  // ---------------------------------------------------------------- shutting down

  /** Agent a meets the end of the stream, or an error, on connection c: reading from it, or writing to it. */
  predicate StopsReading(s: System, act: Action, a: Agent, c: nat) {
    |s.threads| == 2 && act == ReadStop(a) && AtReader(s, a) && s.threads[a].rd[s.threads[a].pc.i] == c
  }

  predicate StopsWriting(s: System, act: Action, a: Agent, c: nat) {
    |s.threads| == 2 && act == WriteStop(a) && AtWriter(s, a) && s.threads[a].wr[s.threads[a].pc.i].conn == c
  }

  /** Direction a of connection c exists, and its far side has been shut down for writing. */
  predicate IsShut(s: System, a: Agent, c: nat) {
    |s.pipes| == 2 && c in s.pipes[a] && s.pipes[a][c].shut
  }

  /** Direction a of connection c exists, and the side it is read from has been shut down for reading. */
  predicate IsDeaf(s: System, a: Agent, c: nat) {
    |s.pipes| == 2 && c in s.pipes[a] && s.pipes[a][c].deaf
  }

  /** A direction is shut down for writing by its reader, and for reading by its writer, and by nobody else. */
  lemma StepShuts(s: System, act: Action, m: System, a: Agent, c: nat)
    requires IsStep(s, act, m)
    ensures IsShut(m, a, c) <==> IsShut(s, a, c) || StopsReading(s, act, a, c)
    ensures IsDeaf(m, a, c) <==> IsDeaf(s, a, c) || StopsWriting(s, act, Other(a), c)
  {
    match act
    case ReadStop(b) => StopShuts(s, act, m, a, c);
    case WriteStop(b) => StopShuts(s, act, m, a, c);
    case ReadData(b, data) => DataShutsNothing(s, act, m, a, c);
    case WriteData(b, w) => DataShutsNothing(s, act, m, a, c);
    case _ =>
  }

  lemma StopShuts(s: System, act: Action, m: System, a: Agent, c: nat)
    requires IsStep(s, act, m) && (act.ReadStop? || act.WriteStop?)
    ensures IsShut(m, a, c) <==> IsShut(s, a, c) || StopsReading(s, act, a, c)
    ensures IsDeaf(m, a, c) <==> IsDeaf(s, a, c) || StopsWriting(s, act, Other(a), c)
  {
  }

  lemma DataShutsNothing(s: System, act: Action, m: System, a: Agent, c: nat)
    requires IsStep(s, act, m) && (act.ReadData? || act.WriteData?)
    ensures (IsShut(m, a, c) <==> IsShut(s, a, c)) && (IsDeaf(m, a, c) <==> IsDeaf(s, a, c))
  {
  }

  /** Before the i-th action agent a has met the end of the stream, or an error, when reading from connection c;
      when writing to it. */
  ghost predicate HasStoppedReading(run: seq<System>, acts: seq<Action>, i: nat, a: Agent, c: nat)
    requires i <= |acts| < |run|
  {
    exists j :: 0 <= j < i && StopsReading(run[j], acts[j], a, c)
  }

  ghost predicate HasStoppedWriting(run: seq<System>, acts: seq<Action>, i: nat, a: Agent, c: nat)
    requires i <= |acts| < |run|
  {
    exists j :: 0 <= j < i && StopsWriting(run[j], acts[j], a, c)
  }

  lemma OneMoreStopped(run: seq<System>, acts: seq<Action>, i: nat, a: Agent, c: nat)
    requires i < |acts| < |run|
    ensures HasStoppedReading(run, acts, i + 1, a, c) <==>
      HasStoppedReading(run, acts, i, a, c) || StopsReading(run[i], acts[i], a, c)
    ensures HasStoppedWriting(run, acts, i + 1, a, c) <==>
      HasStoppedWriting(run, acts, i, a, c) || StopsWriting(run[i], acts[i], a, c)
  {
  }

  /** What action i does to direction a of connection c. */
  ghost predicate ShutsAt(run: seq<System>, acts: seq<Action>, i: nat, a: Agent, c: nat)
    requires i < |acts| < |run|
  {
    && (IsShut(run[i + 1], a, c) <==> IsShut(run[i], a, c) || StopsReading(run[i], acts[i], a, c))
    && (IsDeaf(run[i + 1], a, c) <==> IsDeaf(run[i], a, c) || StopsWriting(run[i], acts[i], Other(a), c))
  }

  lemma RunShuts(run: seq<System>, acts: seq<Action>, i: nat, a: Agent, c: nat)
    requires IsRun(run, acts) && i < |acts|
    ensures ShutsAt(run, acts, i, a, c)
  {
    assert IsStep(run[i], acts[i], run[i + 1]);
    StepShuts(run[i], acts[i], run[i + 1], a, c);
  }

  lemma {:induction false} ShutSoFar(run: seq<System>, acts: seq<Action>, i: nat, a: Agent, c: nat)
    requires i <= |acts| < |run| && !IsShut(run[0], a, c) && !IsDeaf(run[0], a, c)
    requires forall j {:trigger ShutsAt(run, acts, j, a, c)} :: 0 <= j < |acts| ==> ShutsAt(run, acts, j, a, c)
    ensures IsShut(run[i], a, c) <==> HasStoppedReading(run, acts, i, a, c)
    ensures IsDeaf(run[i], a, c) <==> HasStoppedWriting(run, acts, i, Other(a), c)
  {
    if i > 0 {
      OneMoreStopped(run, acts, i - 1, a, c);
      OneMoreStopped(run, acts, i - 1, Other(a), c);
      ShutSoFar(run, acts, i - 1, a, c);
      assert ShutsAt(run, acts, i - 1, a, c);
    }
  }

  /** The far side of a direction has been shut down for writing exactly if its reader has met the end of the
      stream or an error; the near side for reading exactly if its writer has. */
  lemma ShutExactly(run: seq<System>, acts: seq<Action>, i: nat, a: Agent, c: nat)
    requires IsRun(run, acts) && i < |run|
    ensures IsShut(run[i], a, c) <==> HasStoppedReading(run, acts, i, a, c)
    ensures IsDeaf(run[i], a, c) <==> HasStoppedWriting(run, acts, i, Other(a), c)
  {
    forall j | 0 <= j < |acts|
      ensures ShutsAt(run, acts, j, a, c)
    {
      RunShuts(run, acts, j, a, c);
    }
    ShutSoFar(run, acts, i, a, c);
  }

  /** What is shut down for writing is not read any more. */
  lemma ShutIsNotRead(s: System, act: Action, m: System, a: Agent, c: nat)
    requires Inv(s) && IsStep(s, act, m) && IsShut(s, a, c)
    ensures IsShut(m, a, c) && m.pipes[a][c].got == s.pipes[a][c].got
  {
    if act.ReadData? && act.a == a {
      ReaderIsHeld(s, a);
      HeldIsOffered(LaneOf(s, a), s.threads[a].rd[s.threads[a].pc.i]);
    }
    StepShuts(s, act, m, a, c);
    GotChanges(s, act, m, a, c);
  }

  lemma GotChanges(s: System, act: Action, m: System, a: Agent, c: nat)
    requires IsStep(s, act, m) && c in s.pipes[a]
    ensures |m.pipes| == 2 && c in m.pipes[a]
    ensures m.pipes[a][c].got == s.pipes[a][c].got ||
      (act.ReadData? && act.a == a && AtReader(s, a) && s.threads[a].rd[s.threads[a].pc.i] == c)
  {
    match act
    case ReadData(b, data) => DataMoves(s, act, m, a, c);
    case WriteData(b, w) => DataMoves(s, act, m, a, c);
    case _ =>
  }

  lemma DataMoves(s: System, act: Action, m: System, a: Agent, c: nat)
    requires IsStep(s, act, m) && (act.ReadData? || act.WriteData?) && c in s.pipes[a]
    ensures |m.pipes| == 2 && c in m.pipes[a]
    ensures m.pipes[a][c].got == s.pipes[a][c].got ||
      (act.ReadData? && act.a == a && AtReader(s, a) && s.threads[a].rd[s.threads[a].pc.i] == c)
  {
  }

  /** Direction a of connection c has been shut down for writing, with all written of the bytes got. */
  predicate IsEnded(s: System, a: Agent, c: nat, got: seq<Byte>) {
    IsShut(s, a, c) && s.pipes[a][c].sent == s.pipes[a][c].got == got
  }

  lemma EndStays(run: seq<System>, acts: seq<Action>, i: nat, a: Agent, c: nat, got: seq<Byte>)
    requires IsRun(run, acts) && i < |acts| && IsEnded(run[i], a, c, got)
    ensures IsEnded(run[i + 1], a, c, got)
  {
    assert IsStep(run[i], acts[i], run[i + 1]);
    RunsKeepInv(run, acts, i);
    ShutIsNotRead(run[i], acts[i], run[i + 1], a, c);
    ShutIsWritten(run, acts, i + 1, a, c);
  }

  lemma ShutIsWritten(run: seq<System>, acts: seq<Action>, i: nat, a: Agent, c: nat)
    requires IsRun(run, acts) && i < |run| && IsShut(run[i], a, c)
    ensures run[i].pipes[a][c].sent == run[i].pipes[a][c].got
  {
    RunsKeepInv(run, acts, i);
    BytesArriveInOrder(run, acts, i, a, c);
  }

  /** Once the reader of a direction has met the end of the stream, the far side is shut down for good, all that
      was read until then has been written, and nothing more is read. */
  lemma {:induction false} EndIsPassedOn(run: seq<System>, acts: seq<Action>, j: nat, i: nat, a: Agent, c: nat)
    requires IsRun(run, acts) && j < i < |run| && StopsReading(run[j], acts[j], a, c)
    ensures |run[j].pipes| == 2 && c in run[j].pipes[a] && IsEnded(run[i], a, c, run[j].pipes[a][c].got)
    decreases i
  {
    if j + 1 < i {
      EndIsPassedOn(run, acts, j, i - 1, a, c);
      EndStays(run, acts, i - 1, a, c, run[j].pipes[a][c].got);
    } else {
      RunShuts(run, acts, j, a, c);
      ShutIsWritten(run, acts, i, a, c);
      StoppedGotNothing(run, acts, j, a, c);
    }
  }

  lemma StoppedGotNothing(run: seq<System>, acts: seq<Action>, j: nat, a: Agent, c: nat)
    requires IsRun(run, acts) && j < |acts| && StopsReading(run[j], acts[j], a, c)
    ensures |run[j].pipes| == |run[j + 1].pipes| == 2 && c in run[j].pipes[a] && c in run[j + 1].pipes[a]
    ensures run[j + 1].pipes[a][c].got == run[j].pipes[a][c].got
  {
    assert IsStep(run[j], acts[j], run[j + 1]);
    GotChanges(run[j], acts[j], run[j + 1], a, c);
  }

  // ---------------------------------------------------------------- one turn of a thread

  /** Is it agent a's thread that takes the step? */
  predicate By(act: Action, a: Agent) {
    match act
    case Create(_, _) => false
    case AddConn(_, _) => false
    case _ => act.a == a
  }

  predicate InPass(t: Thread) {
    t.pc.Reading? || t.pc.Writing?
  }

  /** The steps a thread has to take until its turn is over. */
  function StepsLeft(t: Thread): int {
    match t.pc
    case Reading(_, _, i, _) => |t.rd| - i + 1 + |t.wr| + 1
    case Writing(_, i, _) => |t.wr| - i + 1
    case _ => 0
  }

  /** Where a thread is, and what it has to look at. */
  predicate SamePlace(t: Thread, u: Thread) {
    t.pc == u.pc && t.rd == u.rd && t.wr == u.wr
  }

  lemma OthersLeaveThread(s: System, act: Action, m: System, a: Agent)
    requires IsStep(s, act, m) && !By(act, a)
    ensures |m.threads| == 2 && SamePlace(m.threads[a], s.threads[a])
  {
  }

  /** A step of a read pass goes on to the next reader, leaving those to come and all writers as they were; with
      the last reader the write pass begins. */
  lemma ReadPassStep(s: System, act: Action, m: System, a: Agent)
    requires IsStep(s, act, m) && By(act, a) && s.threads[a].pc.Reading?
    ensures |m.threads| == 2
    ensures var t, u := s.threads[a], m.threads[a];
      && u.wr == t.wr
      && if t.pc.i < |t.rd|
         then u.pc.Reading? && u.pc.i == t.pc.i + 1 && u.pc.readable == t.pc.readable && u.pc.writable == t.pc.writable
              && |u.rd| == |t.rd| && (forall k :: t.pc.i < k < |t.rd| ==> u.rd[k] == t.rd[k])
              && (act.ReadSkip? || act.ReadData? || act.ReadStop?)
         else u.pc == Writing(t.pc.writable, 0, 0)
  {
  }

  /** A step of a write pass goes on to the next writer; with the last one the turn is over. */
  lemma WritePassStep(s: System, act: Action, m: System, a: Agent)
    requires IsStep(s, act, m) && By(act, a) && s.threads[a].pc.Writing?
    ensures |m.threads| == 2
    ensures var t, u := s.threads[a], m.threads[a];
      if t.pc.i < |t.wr|
      then u.pc.Writing? && u.pc.i == t.pc.i + 1 && u.pc.writable == t.pc.writable
           && |u.wr| == |t.wr| && (forall k :: t.pc.i < k < |t.wr| ==> u.wr[k] == t.wr[k])
           && (act.WriteSkip? || act.WriteData? || act.WriteStop?)
      else u.pc.Top?
  {
  }

  /** The thread looks at connection c, which it reads from; or at job j, which it writes. */
  predicate LooksAtReader(s: System, act: Action, a: Agent, c: nat) {
    && (act == ReadSkip(a) || (act.ReadData? && act.a == a) || act == ReadStop(a))
    && |s.threads| == 2 && AtReader(s, a) && s.threads[a].rd[s.threads[a].pc.i] == c
  }

  predicate LooksAtWriter(s: System, act: Action, a: Agent, j: Job, writable: set<nat>) {
    && (act == WriteSkip(a) || (act.WriteData? && act.a == a) || act == WriteStop(a))
    && |s.threads| == 2 && AtWriter(s, a) && s.threads[a].wr[s.threads[a].pc.i] == j && s.threads[a].pc.writable == writable
  }

  lemma {:induction false} ReaderLookedAt(run: seq<System>, acts: seq<Action>, i: nat, e: nat, a: Agent, k: nat) returns (j: nat)
    requires IsRun(run, acts) && i < e < |run| && |run[i].threads| == |run[e].threads| == 2 && !InPass(run[e].threads[a])
    requires run[i].threads[a].pc.Reading? && run[i].threads[a].pc.i <= k < |run[i].threads[a].rd|
    ensures i <= j < e && LooksAtReader(run[j], acts[j], a, run[i].threads[a].rd[k])
    decreases e - i
  {
    assert IsStep(run[i], acts[i], run[i + 1]);
    if By(acts[i], a) {
      ReadPassStep(run[i], acts[i], run[i + 1], a);
      if run[i].threads[a].pc.i == k {
        return i;
      }
    } else {
      OthersLeaveThread(run[i], acts[i], run[i + 1], a);
    }
    j := ReaderLookedAt(run, acts, i + 1, e, a, k);
  }

  /** The write pass is still to come, or has not yet come to the k-th writer. */
  predicate WriterAhead(t: Thread, k: nat, writable: set<nat>) {
    InPass(t) && t.pc.writable == writable && k < |t.wr| && (t.pc.Writing? ==> t.pc.i <= k)
  }

  lemma {:induction false} WriterLookedAt(run: seq<System>, acts: seq<Action>, i: nat, e: nat, a: Agent, k: nat,
                                          writable: set<nat>) returns (j: nat)
    requires IsRun(run, acts) && i < e < |run| && |run[i].threads| == |run[e].threads| == 2 && !InPass(run[e].threads[a])
    requires WriterAhead(run[i].threads[a], k, writable)
    ensures i <= j < e && LooksAtWriter(run[j], acts[j], a, run[i].threads[a].wr[k], writable)
    decreases e - i
  {
    assert IsStep(run[i], acts[i], run[i + 1]);
    if !By(acts[i], a) {
      OthersLeaveThread(run[i], acts[i], run[i + 1], a);
    } else if run[i].threads[a].pc.Reading? {
      ReadPassStep(run[i], acts[i], run[i + 1], a);
    } else {
      WritePassStep(run[i], acts[i], run[i + 1], a);
      if run[i].threads[a].pc.i == k {
        return i;
      }
    }
    j := WriterLookedAt(run, acts, i + 1, e, a, k, writable);
  }

  /** Between a select that reports something and the end of the turn, whatever the other threads do meanwhile, a
      thread looks at every connection it reads from and at every job it writes, the latter with the set of
      writable connections that select reported. */
  lemma TurnLooksAtAll(run: seq<System>, acts: seq<Action>, i: nat, e: nat, a: Agent, readable: set<nat>, writable: set<nat>)
    requires IsRun(run, acts) && i + 1 < e < |run| && acts[i] == Select(a, readable, writable)
    requires |run[e].threads| == 2 && !InPass(run[e].threads[a])
    ensures |run[i].threads| == 2
    ensures forall k :: 0 <= k < |run[i].threads[a].rd| ==>
      exists j :: i < j < e && LooksAtReader(run[j], acts[j], a, run[i].threads[a].rd[k])
    ensures forall k :: 0 <= k < |run[i].threads[a].wr| ==>
      exists j :: i < j < e && LooksAtWriter(run[j], acts[j], a, run[i].threads[a].wr[k], writable)
  {
    assert IsStep(run[i], acts[i], run[i + 1]);
    var t := run[i].threads[a];
    forall k | 0 <= k < |t.rd|
      ensures exists j :: i < j < e && LooksAtReader(run[j], acts[j], a, t.rd[k])
    {
      var j := ReaderLookedAt(run, acts, i + 1, e, a, k);
    }
    forall k | 0 <= k < |t.wr|
      ensures exists j :: i < j < e && LooksAtWriter(run[j], acts[j], a, t.wr[k], writable)
    {
      var j := WriterLookedAt(run, acts, i + 1, e, a, k, writable);
    }
  }

  // ---------------------------------------------------------------- a turn comes to its end

  /** The steps of agent a's thread among the actions from i up to e. */
  function StepsOf(acts: seq<Action>, i: nat, e: nat, a: Agent): nat
    requires i <= e <= |acts|
    decreases e - i
  {
    if i == e then 0 else (if By(acts[i], a) then 1 else 0) + StepsOf(acts, i + 1, e, a)
  }

  /** In a pass a thread can always take a step, and with each one comes closer to the end of its turn. */
  lemma PassGoesOn(s: System, a: Agent)
    requires Inv(s) && InPass(s.threads[a])
    ensures exists act :: Enabled(s, act) && By(act, a)
    ensures forall act :: Enabled(s, act) && By(act, a) ==>
      && Safe(s, act) && |Next(s, act).threads| == 2
      && StepsLeft(Next(s, act).threads[a]) == StepsLeft(s.threads[a]) - 1
      && (InPass(Next(s, act).threads[a]) <==> StepsLeft(s.threads[a]) > 1)
  {
    var t := s.threads[a];
    var act := if t.pc.Reading? then (if t.pc.i < |t.rd| then ReadSkip(a) else ReadDone(a))
               else if t.pc.i < |t.wr| then WriteSkip(a) else WriteDone(a);
    assert Enabled(s, act) && By(act, a);
    forall act | Enabled(s, act) && By(act, a)
      ensures Safe(s, act) && |Next(s, act).threads| == 2
      ensures StepsLeft(Next(s, act).threads[a]) == StepsLeft(t) - 1
      ensures InPass(Next(s, act).threads[a]) <==> StepsLeft(t) > 1
    {
      InvIsSafe(s, act);
      PassStepCounts(s, act, a);
    }
  }

  lemma PassStepCounts(s: System, act: Action, a: Agent)
    requires Inv(s) && InPass(s.threads[a]) && Enabled(s, act) && By(act, a) && Safe(s, act)
    ensures |Next(s, act).threads| == 2
    ensures StepsLeft(Next(s, act).threads[a]) == StepsLeft(s.threads[a]) - 1
    ensures InPass(Next(s, act).threads[a]) <==> StepsLeft(s.threads[a]) > 1
  {
    if s.threads[a].pc.Reading? {
      ReadPassStep(s, act, Next(s, act), a);
    } else {
      WritePassStep(s, act, Next(s, act), a);
    }
  }

  /** Action i takes the thread one step closer to the end of its turn, if it is the thread's own. */
  ghost predicate CountsAt(run: seq<System>, acts: seq<Action>, i: nat, a: Agent)
    requires i < |acts| < |run|
  {
    && |run[i].threads| == |run[i + 1].threads| == 2
    && ((By(acts[i], a) ==> StepsLeft(run[i].threads[a]) > 0) ==>
          StepsLeft(run[i + 1].threads[a]) == StepsLeft(run[i].threads[a]) - if By(acts[i], a) then 1 else 0)
  }

  lemma RunCounts(run: seq<System>, acts: seq<Action>, i: nat, a: Agent)
    requires IsRun(run, acts) && i < |acts|
    ensures CountsAt(run, acts, i, a)
  {
    RunsKeepInv(run, acts, i);
    assert IsStep(run[i], acts[i], run[i + 1]);
    if !By(acts[i], a) {
      OthersLeaveThread(run[i], acts[i], run[i + 1], a);
    } else if StepsLeft(run[i].threads[a]) > 0 {
      PassStepCounts(run[i], acts[i], a);
    }
  }

  lemma {:induction false} CountsSoFar(run: seq<System>, acts: seq<Action>, i: nat, e: nat, a: Agent)
    requires i <= e <= |acts| < |run| && |run[i].threads| == 2
    requires forall j {:trigger CountsAt(run, acts, j, a)} :: 0 <= j < |acts| ==> CountsAt(run, acts, j, a)
    requires StepsOf(acts, i, e, a) <= StepsLeft(run[i].threads[a])
    ensures |run[e].threads| == 2 && StepsLeft(run[e].threads[a]) == StepsLeft(run[i].threads[a]) - StepsOf(acts, i, e, a)
    decreases e - i
  {
    if i < e {
      assert CountsAt(run, acts, i, a);
      CountsSoFar(run, acts, i + 1, e, a);
    }
  }

  /** A turn takes exactly one step for each entry and two more, whatever the other threads do meanwhile. */
  lemma TurnCountsDown(run: seq<System>, acts: seq<Action>, i: nat, e: nat, a: Agent)
    requires IsRun(run, acts) && i <= e < |run| && |run[i].threads| == 2
    requires StepsOf(acts, i, e, a) <= StepsLeft(run[i].threads[a])
    ensures |run[e].threads| == 2 && StepsLeft(run[e].threads[a]) == StepsLeft(run[i].threads[a]) - StepsOf(acts, i, e, a)
    ensures InPass(run[e].threads[a]) <==> StepsLeft(run[e].threads[a]) > 0
  {
    forall j | 0 <= j < |acts|
      ensures CountsAt(run, acts, j, a)
    {
      RunCounts(run, acts, j, a);
    }
    CountsSoFar(run, acts, i, e, a);
    RunsKeepInv(run, acts, e);
  }

  /** The turn that begins with a select that reports something: once the thread has taken a step for every entry
      and two more, the turn is over. */
  lemma TurnEnds(run: seq<System>, acts: seq<Action>, i: nat, e: nat, a: Agent)
    requires IsRun(run, acts) && i < e < |run| && acts[i].Select? && acts[i].a == a && |run[i].threads| == 2
    requires StepsOf(acts, i + 1, e, a) == |run[i].threads[a].rd| + |run[i].threads[a].wr| + 2
    ensures |run[e].threads| == 2 && !InPass(run[e].threads[a])
  {
    assert IsStep(run[i], acts[i], run[i + 1]);
    TurnCountsDown(run, acts, i + 1, e, a);
  }

  /** Whatever select, read and write can answer has a step: at a reader that is readable any bytes that fit the
      buffer, the end of the stream, or nothing; at a writer that is writable any part of what is pending, an error, or
      nothing. */
  lemma AnyAnswerIsTaken(s: System, a: Agent, readable: set<nat>, writable: set<nat>)
    requires Shape(s) && Safe(s, ReadStop(a))
    ensures s.threads[a].pc.Selecting? ==> Enabled(s, Select(a, readable, writable)) && Enabled(s, SelectNone(a))
    ensures AtReader(s, a) ==>
      var c := s.threads[a].rd[s.threads[a].pc.i];
      && Enabled(s, ReadSkip(a)) && c in s.pipes[a]
      && (c in s.threads[a].pc.readable ==>
            && Enabled(s, ReadStop(a))
            && forall data: seq<Byte> :: 0 < |data| <= |s.pipes[a][c].buf| ==> Enabled(s, ReadData(a, data)))
    ensures AtWriter(s, a) ==>
      var j := s.threads[a].wr[s.threads[a].pc.i];
      && Enabled(s, WriteSkip(a))
      && (j.conn in s.threads[a].pc.writable ==>
            Enabled(s, WriteStop(a)) && forall w: nat :: 0 < w <= j.len ==> Enabled(s, WriteData(a, w)))
  {
  }
}
