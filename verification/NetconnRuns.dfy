/** Runs of a netconn: any sequence of requests of one application thread and of callbacks. */
module NetconnRuns {
  import opened TcpWrite
  import opened Netconn

  /** A request with what the pcb answers to it at once, or a callback. */
  datatype Event =
    | Write(data: seq<Byte>, dontblock: bool, v: Visit)
    | Close(shut: Shut, closeErr: Err)
    | Delete(closeErr: Err)
    | Connect(connectErr: Err)
    | Listen(listened: bool, mboxErr: Err)
    | ConnectedCall(err: Err)
    | ErrorCall(err: Err)
    | SentOrPollCall(v: Visit, closeErr: Err)

  /** The request a netconn is busy with. */
  datatype Pending = Nothing | Writing(data: seq<Byte>, dontblock: bool) | Closing(shut: Shut) | Connecting

  /** The fields of a netconn that decide what it does. */
  datatype View = View(state: State, hasPcb: bool, lastErr: Err, nonblocking: bool, connecting: bool,
                       offset: nat, pending: Pending)

  function ViewOf(c: Conn): View
    reads c, c.currentMsg
  {
    View(c.state, c.hasPcb, c.lastErr, c.nonblocking, c.connecting, c.writeOffset,
         if c.currentMsg == null then Nothing
         else if c.state == WRITE then Writing(c.currentMsg.data, c.currentMsg.dontblock)
         else if c.state == CLOSE then Closing(c.currentMsg.shut)
         else Connecting)
  }

  predicate IsRequest(e: Event) {
    !e.ConnectedCall? && !e.ErrorCall? && !e.SentOrPollCall?
  }

  /** Can the event happen? The thread sends no request while it waits for one; an empty write is not
      passed on; callbacks come from a pcb. tcp_close does not fail on a pcb that listens, nor on one in
      SYN_SENT, which is what the pcb of a connecting netconn is in (tcp.c:215-227); any other close may fail. */
  predicate Happens(s: View, e: Event) {
    && (IsRequest(e) ==> s.pending.Nothing?)
    && match e
       case Write(data, _, _) => data != []
       case Close(_, closeErr) => s.state == LISTEN ==> closeErr == ERR_OK
       case Delete(closeErr) => s.state == LISTEN || s.state == CONNECT ==> closeErr == ERR_OK
       case ConnectedCall(_) => s.state == CONNECT
       case ErrorCall(_) => s.hasPcb
       case SentOrPollCall(_, _) => s.hasPcb
       case _ => true
  }

  /** The assertions do_write, do_close and do_delconn make about write_offset fail. */
  predicate FailsAssertion(s: View, e: Event) {
    && s.offset != 0
    && match e
       case Write(_, _, _) => s.state == NONE && s.hasPcb && !IsFatal(s.lastErr)
       case Close(shut, _) => s.hasPcb && (s.state == NONE || (s.state == LISTEN && shut == RDWR))
       case Delete(_) => s.hasPcb
       case _ => false
  }

  // ---------------------------------------------------------------- what an event does

  /** The write in progress. */
  function Progressing(s: View): Progress
    requires s.pending.Writing? && s.offset <= |s.pending.data|
  {
    Progress(s.offset, |s.pending.data|, s.pending.data[..s.offset], false, ERR_OK)
  }

  function Wrote(s: View, data: seq<Byte>, dontblock: bool, q: Progress): View {
    s.(offset := q.offset, state := if q.finished then NONE else WRITE,
       pending := if q.finished then Nothing else Writing(data, dontblock))
  }

  function Closed(s: View, shut: Shut, closeErr: Err): View {
    if closeErr == ERR_OK then s.(state := NONE, pending := Nothing, hasPcb := s.hasPcb && shut != RDWR)
    else s.(state := CLOSE, pending := Closing(shut))
  }

  /** A write in progress has bytes left; a pending request fits the state. */
  predicate Sane(s: View) {
    && (s.state == WRITE <==> s.pending.Writing?) && (s.state == CLOSE <==> s.pending.Closing?)
    && (s.pending.Writing? ==> s.offset < |s.pending.data| && !s.nonblocking && !s.pending.dontblock)
    && (s.state != NONE ==> s.hasPcb)
    && (s.connecting ==> s.state == CONNECT || !s.hasPcb)
  }

  function Next(s: View, e: Event): View
    requires Sane(s) && Happens(s, e)
  {
    match e
    case Write(data, dontblock, v) =>
      if IsFatal(s.lastErr) || s.state != NONE || !s.hasPcb then s
      else Wrote(s, data, dontblock, WriteMore(data, s.nonblocking || dontblock, Start(data), v))
    case Close(shut, closeErr) =>
      if (s.state != NONE && s.state != LISTEN) || !s.hasPcb || (shut != RDWR && s.state == LISTEN) then s
      else Closed(s, shut, closeErr)
    case Delete(closeErr) =>
      if !s.hasPcb then s else Closed(s, RDWR, closeErr)
    case Connect(connectErr) =>
      if !s.hasPcb || s.state != NONE || connectErr != ERR_OK then s
      else s.(state := CONNECT, connecting := s.nonblocking, pending := if s.nonblocking then Nothing else Connecting)
    case Listen(listened, mboxErr) =>
      if IsFatal(s.lastErr) || !s.hasPcb || s.state != NONE || !listened then s
      else if mboxErr == ERR_OK then s.(state := LISTEN) else s.(hasPcb := false)
    case ConnectedCall(_) =>
      s.(state := NONE, pending := Nothing, connecting := false,
         lastErr := if s.connecting && !IsFatal(s.lastErr) then ERR_OK else s.lastErr)
    case ErrorCall(err) =>
      s.(hasPcb := false, lastErr := err, state := NONE, pending := Nothing, connecting := false)
    case SentOrPollCall(v, closeErr) =>
      if s.pending.Writing? then
        Wrote(s, s.pending.data, s.pending.dontblock, WriteMore(s.pending.data, false, Progressing(s), v))
      else if s.pending.Closing? then Closed(s, s.pending.shut, closeErr)
      else s
  }

  lemma NextIsSane(s: View, e: Event)
    requires Sane(s) && Happens(s, e)
    ensures Sane(Next(s, e)) && Next(s, e).nonblocking == s.nonblocking
  {
  }

  /** No write has left its offset behind. */
  predicate OffsetReset(s: View) {
    s.hasPcb && s.state != WRITE ==> s.offset == 0
  }

  /** The event finishes a write of which a part has been handed over, without finishing the hand-over. */
  predicate LeavesOffset(s: View, e: Event) {
    e.SentOrPollCall? && s.pending.Writing? && s.offset != 0 && !OnlyRoomOrMem(e.v)
  }

  /** An event leaves an offset behind exactly if it cuts a partly handed-over write off. */
  lemma OnlyCuttingOffLeavesOffset(s: View, e: Event)
    requires Sane(s) && Happens(s, e) && OffsetReset(s)
    ensures OffsetReset(Next(s, e)) <==> !LeavesOffset(s, e)
  {
  }

  /** The netconn after n events; those that cannot happen do nothing. */
  function After(s0: View, events: seq<Event>, n: nat): (s: View)
    requires Sane(s0) && n <= |events|
    ensures Sane(s) && s.nonblocking == s0.nonblocking
  {
    if n == 0 then s0
    else
      var s := After(s0, events, n - 1);
      if Happens(s, events[n - 1]) then
        NextIsSane(s, events[n - 1]);
        Next(s, events[n - 1])
      else s
  }

  /** Event k happens, and fails an assertion about write_offset. */
  predicate FailsAt(s0: View, events: seq<Event>, k: nat)
    requires Sane(s0) && k < |events|
  {
    Happens(After(s0, events, k), events[k]) && FailsAssertion(After(s0, events, k), events[k])
  }

  /** A callback that can neither time a pending write out nor meet it with a hard error. */
  predicate Clean(e: Event) {
    e.SentOrPollCall? ==> OnlyRoomOrMem(e.v)
  }

  /** No assertion fails on a non-blocking netconn, nor while no write is cut off. */
  lemma {:induction false} CleanRunsLeaveNoOffset(s0: View, events: seq<Event>, n: nat)
    requires Sane(s0) && OffsetReset(s0) && n <= |events|
    requires s0.nonblocking || forall i :: 0 <= i < n ==> Clean(events[i])
    ensures OffsetReset(After(s0, events, n))
    ensures n < |events| ==> !FailsAt(s0, events, n)
  {
    if n > 0 {
      CleanRunsLeaveNoOffset(s0, events, n - 1);
      var s := After(s0, events, n - 1);
      if Happens(s, events[n - 1]) {
        OnlyCuttingOffLeavesOffset(s, events[n - 1]);
      }
    }
  }

  /** An assertion does fail on a blocking netconn: one of two bytes is handed over, the send timeout passes,
      and the next write finds write_offset at 1. */
  lemma CutOffWriteFailsAssertion() returns (s0: View, events: seq<Event>)
    ensures Sane(s0) && OffsetReset(s0) && |events| == 3
    ensures events[0] == Write([1, 2], false, Visit(false, 1, ERR_OK))
    ensures events[1] == SentOrPollCall(Visit(true, 0, ERR_OK), ERR_OK) && events[2].Write?
    ensures !FailsAt(s0, events, 0) && !FailsAt(s0, events, 1) && FailsAt(s0, events, 2)
  {
    s0 := View(NONE, true, ERR_OK, false, false, 0, Nothing);
    events := [Write([1, 2], false, Visit(false, 1, ERR_OK)), SentOrPollCall(Visit(true, 0, ERR_OK), ERR_OK),
               Write([3], false, Visit(false, 1, ERR_OK))];
    assert After(s0, events, 0) == s0;
    assert After(s0, events, 1) == s0.(state := WRITE, offset := 1, pending := Writing([1, 2], false));
    assert After(s0, events, 2) == s0.(offset := 1);
  }

  // ---------------------------------------------------------------- the netconn does that

  /** What a netconn keeps between events: only a blocking write stays pending, and no delete is pending
      with its connect still flagged. */
  ghost predicate Steady(c: Conn)
    reads c, c.currentMsg
  {
    c.Valid() && Sane(ViewOf(c))
  }

  /** A request that does not fail the assertion gets a message of its own, which is answered once or pending. */
  method Request(c: Conn, e: Event) returns (m: ApiMsg)
    requires Steady(c) && IsRequest(e) && Happens(ViewOf(c), e) && !FailsAssertion(ViewOf(c), e)
    modifies c
    ensures fresh(m) && Steady(c) && ViewOf(c) == old(Next(ViewOf(c), e))
    ensures if m.acks == 1 then c.currentMsg == null else m.acks == 0 && c.currentMsg == m
    ensures Carries(m, e)
  {
    match e
    case Write(data, dontblock, v) =>
      m := new ApiMsg(data, dontblock, RDWR);
      c.DoWrite(m, v);
    case Close(shut, closeErr) =>
      m := new ApiMsg([], false, shut);
      c.DoClose(m, closeErr);
    case Delete(closeErr) =>
      m := new ApiMsg([], false, RDWR);
      c.DoDelconn(m, closeErr);
    case Connect(connectErr) =>
      m := new ApiMsg([], false, RDWR);
      c.DoConnect(m, connectErr);
    case Listen(listened, mboxErr) =>
      m := new ApiMsg([], false, RDWR);
      c.DoListen(m, listened, mboxErr);
  }

  /** A callback answers the pending request once or leaves it pending. */
  method Callback(c: Conn, e: Event)
    requires Steady(c) && !IsRequest(e) && Happens(ViewOf(c), e)
    modifies c, c.currentMsg
    ensures Steady(c) && ViewOf(c) == old(Next(ViewOf(c), e))
    ensures c.currentMsg == null || c.currentMsg == old(c.currentMsg)
    ensures old(c.currentMsg) != null ==>
      && old(c.currentMsg).acks == (if c.currentMsg == null then 1 else 0)
      && old(c.currentMsg).shut == old(c.currentMsg.shut)
  {
    match e
    case ConnectedCall(err) => c.Connected(err);
    case ErrorCall(err) => c.ErrTcp(err);
    case SentOrPollCall(v, closeErr) => c.Retry(v, closeErr);
  }

  /** The message of a request says what the request asks for. */
  ghost predicate Carries(m: ApiMsg, e: Event)
    reads m
  {
    (e.Write? ==> m.data == e.data && m.dontblock == e.dontblock) && (e.Close? ==> m.shut == e.shut)
  }

  /** Event k is a request that happens. */
  predicate Sends(s0: View, events: seq<Event>, k: nat)
    requires Sane(s0) && k < |events|
  {
    IsRequest(events[k]) && Happens(After(s0, events, k), events[k])
  }

  /** Slot k holds the message of event k, if that is a request that happens, and nothing else. */
  ghost predicate Filled(s0: View, events: seq<Event>, slots: seq<ApiMsg?>)
    requires Sane(s0) && |slots| <= |events|
    reads slots
  {
    && (forall k :: 0 <= k < |slots| ==> (slots[k] != null <==> Sends(s0, events, k)))
    && (forall k :: 0 <= k < |slots| && slots[k] != null ==> Carries(slots[k], events[k]))
    && (forall j, k :: 0 <= j < k < |slots| && slots[j] != null ==> slots[j] != slots[k])
  }

  /** Each message was acknowledged exactly once, or is the pending one and was not. */
  ghost predicate Answered(c: Conn, slots: seq<ApiMsg?>)
    reads c, slots
  {
    && (forall k :: 0 <= k < |slots| && slots[k] != null ==> slots[k].acks == if slots[k] == c.currentMsg then 0 else 1)
    && (c.currentMsg != null ==> c.currentMsg in slots)
  }

  lemma OneMoreFilled(s0: View, events: seq<Event>, slots: seq<ApiMsg?>, m: ApiMsg?)
    requires Sane(s0) && |slots| < |events| && Filled(s0, events, slots)
    requires (m != null <==> Sends(s0, events, |slots|)) && (m != null ==> Carries(m, events[|slots|]) && m !in slots)
    ensures Filled(s0, events, slots + [m])
  {
  }

  lemma OneMoreAnswered(c: Conn, slots: seq<ApiMsg?>, m: ApiMsg?)
    requires forall k :: 0 <= k < |slots| && slots[k] != null ==> slots[k].acks == if slots[k] == c.currentMsg then 0 else 1
    requires c.currentMsg == null || c.currentMsg in slots || c.currentMsg == m
    requires m != null ==> m.acks == if m == c.currentMsg then 0 else 1
    ensures Answered(c, slots + [m])
  {
    assert m in slots + [m];
  }

  /** One event: a request that happens gets a message, and nothing happens to a netconn otherwise. */
  method Take(c: Conn, e: Event) returns (m: ApiMsg?)
    requires Steady(c) && !(Happens(ViewOf(c), e) && FailsAssertion(ViewOf(c), e))
    modifies c, c.currentMsg
    ensures Steady(c) && ViewOf(c) == old(if Happens(ViewOf(c), e) then Next(ViewOf(c), e) else ViewOf(c))
    ensures m != null <==> old(IsRequest(e) && Happens(ViewOf(c), e))
    ensures m != null ==> fresh(m) && Carries(m, e) && old(c.currentMsg) == null
    ensures m != null ==> if m.acks == 1 then c.currentMsg == null else m.acks == 0 && c.currentMsg == m
    ensures m == null ==> c.currentMsg == null || c.currentMsg == old(c.currentMsg)
    ensures m == null && old(c.currentMsg) != null ==>
      && old(c.currentMsg).acks == (if c.currentMsg == null then 1 else 0)
      && old(c.currentMsg).shut == old(c.currentMsg.shut)
  {
    m := null;
    if Happens(ViewOf(c), e) {
      if IsRequest(e) {
        m := Request(c, e);
      } else {
        Callback(c, e);
      }
    }
  }

  /** The next event of a run. */
  method TakeNext(c: Conn, ghost s0: View, events: seq<Event>, slots: seq<ApiMsg?>) returns (m: ApiMsg?)
    requires Steady(c) && Sane(s0) && |slots| < |events| && ViewOf(c) == After(s0, events, |slots|)
    requires !FailsAt(s0, events, |slots|) && Filled(s0, events, slots) && Answered(c, slots)
    modifies c, c.currentMsg
    ensures Steady(c) && ViewOf(c) == After(s0, events, |slots| + 1)
    ensures m != null ==> fresh(m)
    ensures Filled(s0, events, slots + [m]) && Answered(c, slots + [m])
    ensures c.currentMsg == null || c.currentMsg == old(c.currentMsg) || fresh(c.currentMsg)
  {
    m := Take(c, events[|slots|]);
    assert Filled(s0, events, slots);
    OneMoreFilled(s0, events, slots, m);
    OneMoreAnswered(c, slots, m);
  }

  /** Every request of a run is acknowledged exactly once, or is the pending one. The run takes all events
      up to the first one that fails an assertion about write_offset, and does what Next says. */
  method Run(c: Conn, events: seq<Event>) returns (slots: seq<ApiMsg?>)
    requires Steady(c) && c.currentMsg == null
    modifies c
    ensures Steady(c) && |slots| <= |events| && ViewOf(c) == After(old(ViewOf(c)), events, |slots|)
    ensures Filled(old(ViewOf(c)), events, slots) && Answered(c, slots)
    ensures forall k :: 0 <= k < |slots| ==> !FailsAt(old(ViewOf(c)), events, k)
    ensures |slots| < |events| ==> FailsAt(old(ViewOf(c)), events, |slots|)
  {
    slots := [];
    ghost var s0 := ViewOf(c);
    while |slots| < |events|
      invariant |slots| <= |events| && Steady(c) && ViewOf(c) == After(s0, events, |slots|)
      invariant forall k :: 0 <= k < |slots| && slots[k] != null ==> fresh(slots[k])
      invariant Filled(s0, events, slots) && Answered(c, slots)
      invariant forall k :: 0 <= k < |slots| ==> !FailsAt(s0, events, k)
    {
      var e := events[|slots|];
      if Happens(ViewOf(c), e) && FailsAssertion(ViewOf(c), e) {
        break;
      }
      var m := TakeNext(c, s0, events, slots);
      slots := slots + [m];
    }
  }

  /** From a netconn without an offset left behind, a run takes all events if the netconn is non-blocking or no
      write is cut off. */
  method CleanRun(c: Conn, events: seq<Event>) returns (slots: seq<ApiMsg?>)
    requires Steady(c) && c.currentMsg == null && OffsetReset(ViewOf(c))
    requires c.nonblocking || forall i :: 0 <= i < |events| ==> Clean(events[i])
    modifies c
    ensures Steady(c) && |slots| == |events| && ViewOf(c) == After(old(ViewOf(c)), events, |events|)
    ensures Filled(old(ViewOf(c)), events, slots) && Answered(c, slots)
  {
    ghost var s0 := ViewOf(c);
    slots := Run(c, events);
    CleanRunsLeaveNoOffset(s0, events, |slots|);
  }
}
