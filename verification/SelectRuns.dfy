/** Runs of lwip_select and event_callback told by the events that happened, without the layer's own tests:
    what an event does to a socket, whom it wakes, and that nobody is woken or turned back without cause. */
module SelectRuns {
  import opened SelectProtocol

  // ---------------------------------------------------------------- what events do to a socket

  /** An event adds to or takes from the pending count, or says whether the socket is writable or in error. */
  lemma EventSetsSocket(l: Layer, w: nat, s: nat, evt: Event)
    requires Shape(l) && Enabled(l, Callback(w, s, evt))
    ensures var k, ms := l.sockets[s], Next(l, Callback(w, s, evt)).sockets;
      && |ms| == |l.sockets| && (forall t :: 0 <= t < |ms| && t != s ==> ms[t] == l.sockets[t])
      && ms[s].rcvevent == k.rcvevent + (if evt.RcvPlus? then 1 else 0) - (if evt.RcvMinus? then 1 else 0)
      && (ms[s].sendevent <==> evt.SendPlus? || (k.sendevent && !evt.SendMinus?))
      && (ms[s].errevent <==> evt.Error? || k.errevent)
      && ms[s].lastdata == k.lastdata && ms[s].waiting == k.waiting
  {
  }

  /** Two states of a socket with the same events. */
  predicate SameEvents(k: Sock, m: Sock) {
    k.rcvevent == m.rcvevent && k.sendevent == m.sendevent && k.errevent == m.errevent
  }

  lemma OthersLeaveEvents(l: Layer, a: Action, s: nat)
    requires Shape(l) && Enabled(l, a) && s < |l.sockets| && !(a.Callback? && a.s == s)
    ensures |Next(l, a).sockets| == |l.sockets| && SameEvents(l.sockets[s], Next(l, a).sockets[s])
  {
  }

  /** How often event evt happened to socket s among the first n actions. */
  function Happened(acts: seq<Action>, n: nat, s: nat, evt: Event): nat
    requires n <= |acts|
  {
    if n == 0 then 0
    else
      var a := acts[n - 1];
      Happened(acts, n - 1, s, evt) + if a.Callback? && a.s == s && a.evt == evt then 1 else 0
  }

  /** Whether socket s is writable after n actions: what the last event about that said, or as it was at first. */
  function Writable(first: bool, acts: seq<Action>, n: nat, s: nat): bool
    requires n <= |acts|
  {
    if n == 0 then first
    else if acts[n - 1].Callback? && acts[n - 1].s == s && acts[n - 1].evt.SendPlus? then true
    else if acts[n - 1].Callback? && acts[n - 1].s == s && acts[n - 1].evt.SendMinus? then false
    else Writable(first, acts, n - 1, s)
  }

  /** After every run a socket is as its events have made it. */
  lemma {:induction false} SocketsFollowEvents(run: seq<Layer>, acts: seq<Action>, i: nat, s: nat)
    requires IsRun(run, acts) && i < |run| && s < |run[0].sockets|
    ensures |run[i].sockets| == |run[0].sockets|
    ensures var k, m := run[0].sockets[s], run[i].sockets[s];
      && m.rcvevent == k.rcvevent + Happened(acts, i, s, RcvPlus) - Happened(acts, i, s, RcvMinus)
      && m.sendevent == Writable(k.sendevent, acts, i, s)
      && (m.errevent <==> k.errevent || Happened(acts, i, s, Error) > 0)
  {
    if i > 0 {
      SocketsFollowEvents(run, acts, i - 1, s);
      assert StepAt(run, acts, i - 1);
      var l, a := run[i - 1], acts[i - 1];
      if a.Callback? && a.s == s {
        EventSetsSocket(l, a.w, s, a.evt);
      } else {
        OthersLeaveEvents(l, a, s);
      }
    }
  }

  // ---------------------------------------------------------------- whom they wake

  /** Selector q sleeps, and its loops over descriptors reach socket s. */
  predicate Sleeps(l: Layer, q: nat, s: nat) {
    q in l.selectors && l.selectors[q].phase.Sleeping? && s < l.selectors[q].interest.maxfdp1
  }

  /** Selector q can wake up, or a running callback has yet to visit it. */
  ghost predicate Awaited(l: Layer, q: nat, s: nat) {
    q in l.selectors && (l.selectors[q].sem > 0 || (Shape(l) && IsCovered(l, q, s)))
  }

  /** Who sleeps on reading is woken when more data has arrived than was fetched; on writing, when the last event
      about that made the socket writable; on exceptions, when there has been an error. */
  lemma EventsWake(run: seq<Layer>, acts: seq<Action>, i: nat, q: nat, s: nat)
    requires IsRun(run, acts) && i < |run| && s < |run[0].sockets| && Sleeps(run[i], q, s)
    ensures var f, k := run[i].selectors[q].interest, run[0].sockets[s];
      && (s in f.read && k.rcvevent + Happened(acts, i, s, RcvPlus) > Happened(acts, i, s, RcvMinus) ==> Awaited(run[i], q, s))
      && (s in f.write && Writable(k.sendevent, acts, i, s) ==> Awaited(run[i], q, s))
      && (s in f.except && (k.errevent || Happened(acts, i, s, Error) > 0) ==> Awaited(run[i], q, s))
  {
    SocketsFollowEvents(run, acts, i, s);
    var f, m := run[i].selectors[q].interest, run[i].sockets[s];
    if (s in f.read && m.rcvevent > 0) || (s in f.write && m.sendevent) || (s in f.except && m.errevent) {
      SleepersAreWoken(run, acts, i, q, s);
    }
  }

  /** Right after an event that makes a socket writable, or is an error, who sleeps on that is awaited. */
  lemma EventWakes(run: seq<Layer>, acts: seq<Action>, i: nat, w: nat, q: nat, s: nat)
    requires IsRun(run, acts) && 0 < i < |run| && Sleeps(run[i], q, s) && s < |run[0].sockets|
    ensures var f, a := run[i].selectors[q].interest, acts[i - 1];
      && (a == Callback(w, s, SendPlus) && s in f.write ==> Awaited(run[i], q, s))
      && (a == Callback(w, s, Error) && s in f.except ==> Awaited(run[i], q, s))
  {
    EventsWake(run, acts, i, q, s);
  }

  // ---------------------------------------------------------------- nobody is turned back without cause

  /** Something select was asked for is there: data, room to send, or an error. */
  predicate IsReady(k: Sock, f: Interest, s: nat) {
    || (s in f.read && (k.lastdata || k.rcvevent >= 1))
    || (s in f.write && k.sendevent)
    || (s in f.except && k.errevent)
  }

  /** Action j is selector q's scan of a socket it is asked for, which is ready. */
  predicate FindsReady(run: seq<Layer>, acts: seq<Action>, j: nat, q: nat)
    requires |run| == |acts| + 1 && j < |acts|
  {
    && acts[j] == Rescan(q) && q in run[j].selectors && run[j].selectors[q].phase.Rescanning?
    && var x := run[j].selectors[q];
       && x.phase.i < x.interest.maxfdp1 && x.phase.i < |run[j].sockets|
       && IsReady(run[j].sockets[x.phase.i], x.interest, x.phase.i)
  }

  /** The scan of a socket is a hit exactly if the socket is ready; with the last socket the selector sleeps
      exactly if there was none. */
  lemma ScanFindsReady(l: Layer, q: nat)
    requires Shape(l) && Enabled(l, Rescan(q))
    ensures var x, y := l.selectors[q], Next(l, Rescan(q)).selectors[q];
      if x.phase.i < x.interest.maxfdp1
      then y.phase == Rescanning(x.phase.i + 1, x.phase.hit || IsReady(l.sockets[x.phase.i], x.interest, x.phase.i))
      else y.phase.Sleeping? <==> !x.phase.hit
  {
  }

  predicate HasHit(l: Layer, q: nat) {
    q in l.selectors && l.selectors[q].phase.Rescanning? && l.selectors[q].phase.hit
  }

  lemma NewHit(l: Layer, a: Action, q: nat)
    requires Shape(l) && Enabled(l, a) && HasHit(Next(l, a), q) && !HasHit(l, q)
    ensures a == Rescan(q)
  {
    match a
    case Callback(w, s, evt) => VisitorsMoveNobody(l, a, q);
    case Walk(w) => VisitorsMoveNobody(l, a, q);
    case _ =>
  }

  lemma VisitorsMoveNobody(l: Layer, a: Action, q: nat)
    requires Shape(l) && Enabled(l, a) && (a.Callback? || a.Walk?)
    ensures var m := Next(l, a);
      && m.selectors.Keys == l.selectors.Keys
      && (q in l.selectors ==>
            m.selectors[q].phase == l.selectors[q].phase && m.selectors[q].interest == l.selectors[q].interest)
  {
    if a.Callback? && l.list != [] {
      assert l.list[0] in l.list;
    }
  }

  /** A selector turns back without sleeping only if one of its scans found a socket ready. */
  lemma {:induction false} HitMeansReady(run: seq<Layer>, acts: seq<Action>, i: nat, q: nat)
    requires IsRun(run, acts) && i < |run| && HasHit(run[i], q)
    ensures exists j :: 0 <= j < i && FindsReady(run, acts, j, q)
  {
    if i > 0 {
      assert StepAt(run, acts, i - 1);
      if HasHit(run[i - 1], q) {
        HitMeansReady(run, acts, i - 1, q);
      } else {
        NewHit(run[i - 1], acts[i - 1], q);
        ScanFindsReady(run[i - 1], q);
        assert FindsReady(run, acts, i - 1, q);
      }
    }
  }

  // ---------------------------------------------------------------- nobody is woken without cause

  /** An event selector q was asked for is there on some socket. */
  ghost predicate HasCause(l: Layer, q: nat) {
    q in l.selectors && exists s :: 0 <= s < |l.sockets| && HasEvent(l.sockets[s], l.selectors[q].interest, s)
  }

  predicate HasEvent(k: Sock, f: Interest, s: nat) {
    (s in f.read && k.rcvevent >= 1) || (s in f.write && k.sendevent) || (s in f.except && k.errevent)
  }

  predicate Signalled(l: Layer, q: nat) {
    q in l.selectors && l.selectors[q].signalled
  }

  /** A selector is signalled by a callback that finds an event it asked for. */
  lemma SignalHasCause(l: Layer, a: Action, q: nat)
    requires Shape(l) && Enabled(l, a) && Signalled(Next(l, a), q) && !Signalled(l, q)
    ensures (a.Callback? || a.Walk?) && HasCause(Next(l, a), q)
  {
    match a
    case Callback(w, s, evt) =>
      var m := l.(sockets := l.sockets[s := Occur(l.sockets[s], evt)]);
      if l.list != [] {
        assert l.list[0] in l.list;
        VisitHasCause(m, w, s, m.list[0], q);
      }
    case Walk(w) =>
      var t := NextEntry(l, l.walkers[w]);
      if t.Entry? {
        assert t.q in l.list;
        VisitHasCause(l, w, l.walkers[w].sock, t.q, q);
      }
    case _ =>
  }

  lemma VisitHasCause(l: Layer, w: nat, s: nat, e: nat, q: nat)
    requires e in l.selectors && s < |l.sockets|
    ensures Signalled(Visit(l, w, s, e), q) && !Signalled(l, q) ==> HasCause(Visit(l, w, s, e), q)
  {
    var m := Visit(l, w, s, e);
    if Signalled(m, q) && !Signalled(l, q) {
      assert HasEvent(m.sockets[s], m.selectors[q].interest, s);
    }
  }

  /** The semaphore of a selector is binary, and set only for one that has been signalled. */
  predicate SemOk(l: Layer, q: nat) {
    q in l.selectors ==> l.selectors[q].sem <= 1 && (l.selectors[q].sem > 0 ==> l.selectors[q].signalled)
  }

  lemma StepKeepsSemOk(l: Layer, a: Action, q: nat)
    requires Shape(l) && Enabled(l, a) && SemOk(l, q)
    ensures SemOk(Next(l, a), q)
  {
    match a
    case Callback(w, s, evt) =>
      var m := l.(sockets := l.sockets[s := Occur(l.sockets[s], evt)]);
      if l.list != [] {
        assert l.list[0] in l.list;
        VisitKeepsSemOk(m, w, s, m.list[0], q);
      }
    case Walk(w) =>
      var t := NextEntry(l, l.walkers[w]);
      if t.Entry? {
        assert t.q in l.list;
        VisitKeepsSemOk(l, w, l.walkers[w].sock, t.q, q);
      }
    case _ =>
  }

  lemma VisitKeepsSemOk(l: Layer, w: nat, s: nat, e: nat, q: nat)
    requires e in l.selectors && s < |l.sockets| && SemOk(l, q)
    ensures SemOk(Visit(l, w, s, e), q)
  {
  }

  /** A selector wakes up only after a callback found an event it asked for. */
  lemma {:induction false} WokenForCause(run: seq<Layer>, acts: seq<Action>, i: nat, q: nat)
    requires IsRun(run, acts) && i < |run|
    ensures SemOk(run[i], q)
    ensures Signalled(run[i], q) ==>
      exists j :: 0 < j <= i && (acts[j - 1].Callback? || acts[j - 1].Walk?) && HasCause(run[j], q)
  {
    if i > 0 {
      WokenForCause(run, acts, i - 1, q);
      assert StepAt(run, acts, i - 1);
      StepKeepsSemOk(run[i - 1], acts[i - 1], q);
      if Signalled(run[i], q) && !Signalled(run[i - 1], q) {
        SignalHasCause(run[i - 1], acts[i - 1], q);
      }
    }
  }

  // ---------------------------------------------------------------- a selector gets on

  /** The steps a selector has to take until it sleeps or turns back; or, once it is taking itself off the sockets,
      until it is gone. */
  function StepsLeft(x: Selector): int {
    match x.phase
    case Counting(i) => x.interest.maxfdp1 - i + 1 + x.interest.maxfdp1 + 1
    case Rescanning(i, _) => x.interest.maxfdp1 - i + 1
    case Sleeping => 0
    case Uncounting(i) => x.interest.maxfdp1 - i + 1
  }

  /** Is it selector q that takes the step? */
  predicate By(a: Action, q: nat) {
    match a
    case Callback(_, _, _) => false
    case Walk(_) => false
    case Leftover(_, _) => false
    case _ => a.q == q
  }

  /** The positions in the loops over descriptors do not run past their end. */
  predicate InLoop(x: Selector) {
    match x.phase
    case Counting(i) => i <= x.interest.maxfdp1
    case Rescanning(i, _) => i <= x.interest.maxfdp1
    case Sleeping => true
    case Uncounting(i) => i <= x.interest.maxfdp1
  }

  /** A sleeping selector can time out, and wake up if its semaphore is set; any other can take a step whatever the
      others do. Waking up and timing out lead to the steps that take it off the sockets, every other step comes
      closer to sleeping, turning back or being gone, and the last one of those takes it off the list. */
  lemma SelectorGetsOn(l: Layer, a: Action, q: nat)
    requires Shape(l) && q in l.selectors && InLoop(l.selectors[q])
    ensures var x := l.selectors[q];
      if x.phase.Sleeping? then Enabled(l, Timeout(q)) && (x.sem > 0 ==> Enabled(l, Wake(q)))
      else Enabled(l, Count(q)) || Enabled(l, Rescan(q)) || Enabled(l, Uncount(q)) || Enabled(l, Unlink(q))
    ensures By(a, q) && Enabled(l, a) ==>
      var x, m := l.selectors[q], Next(l, a);
      if x.phase.Uncounting? && StepsLeft(x) == 1 then q !in m.selectors && q !in m.list
      else
        && q in m.selectors && InLoop(m.selectors[q]) && m.selectors[q].interest == x.interest
        && if x.phase.Sleeping? then m.selectors[q].phase == Uncounting(0)
           else if x.phase.Rescanning? && StepsLeft(x) == 1 then
             m.selectors[q].phase == if x.phase.hit then Uncounting(0) else Sleeping
           else StepsLeft(m.selectors[q]) == StepsLeft(x) - 1 && (m.selectors[q].phase.Uncounting? <==> x.phase.Uncounting?)
  {
    if a == Unlink(q) && Enabled(l, a) {
      RemoveShape(l.list, q);
    }
  }

  /** Nobody else moves a selector. */
  lemma OthersLeaveSelector(l: Layer, a: Action, q: nat)
    requires Shape(l) && q in l.selectors && Enabled(l, a) && !By(a, q)
    ensures var x, m := l.selectors[q], Next(l, a);
      q in m.selectors && m.selectors[q].phase == x.phase && m.selectors[q].interest == x.interest
  {
    if a.Callback? || a.Walk? {
      VisitorsMoveNobody(l, a, q);
    }
  }

  /** A new selector begins before the first socket, in front of the list. */
  lemma SelectorBegins(l: Layer, q: nat, f: Interest)
    requires Shape(l) && q !in l.selectors && f.maxfdp1 <= |l.sockets|
    ensures Enabled(l, Register(q, f))
    ensures var m := Next(l, Register(q, f));
      && q in m.selectors && m.selectors[q].interest == f && !m.selectors[q].signalled && m.selectors[q].sem == 0
      && InLoop(m.selectors[q]) && StepsLeft(m.selectors[q]) == 2 * (f.maxfdp1 + 1) && m.list == [q] + l.list
  {
  }

  /** An event can come at any time. */
  lemma EventsComeAnyTime(l: Layer, w: nat, s: nat, evt: Event)
    requires s < |l.sockets| && w !in l.walkers
    ensures Enabled(l, Callback(w, s, evt))
  {
  }
}
