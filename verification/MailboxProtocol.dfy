/** Threads sharing one mailbox: posters, blocking fetchers and non-blocking callers, in any interleaving.
    A step is one region under the mailbox mutex, one completed semaphore wait, or one timeout. */
module MailboxProtocol {
  import opened Mailbox

  /** Threads inside a blocking call are listed by where they are: waiting on a semaphore,
      or past it and about to take the mutex again. The two histories record what was stored and taken. */
  datatype System = System(
    box: Box,
    fetchWaiting: set<nat>, fetchWoken: set<nat>,
    postWaiting: map<nat, Msg>, postWoken: map<nat, Msg>,
    posted: seq<Msg>, fetched: seq<Msg>)

  datatype Action =
    | Post(t: nat, m: Msg)          // sys_mbox_post entered
    | PostWake(t: nat)              // its wait on not_full returns
    | PostAgain(t: nat)             // it takes the mutex again
    | TryPost(m: Msg)
    | Fetch(t: nat)                 // sys_arch_mbox_fetch entered
    | FetchWake(t: nat)             // its wait on not_empty returns
    | FetchTimeout(t: nat)          // its wait on not_empty times out
    | FetchAgain(t: nat)            // it takes the mutex again
    | TryFetch

  predicate Idle(s: System, t: nat) {
    t !in s.fetchWaiting && t !in s.fetchWoken && t !in s.postWaiting && t !in s.postWoken
  }

  predicate Enabled(s: System, a: Action) {
    match a
    case Post(t, _) => Idle(s, t)
    case PostWake(t) => t in s.postWaiting && s.box.notFull > 0
    case PostAgain(t) => t in s.postWoken
    case TryPost(_) => true
    case Fetch(t) => Idle(s, t)
    case FetchWake(t) => t in s.fetchWaiting && s.box.notEmpty > 0
    case FetchTimeout(t) => t in s.fetchWaiting
    case FetchAgain(t) => t in s.fetchWoken
    case TryFetch => true
  }

  function Store(s: System, m: Msg): System
    requires |s.box.msgs| == SIZE
  {
    s.(box := Put(s.box, m), posted := s.posted + [m])
  }

  /** A fetch region on a non-empty mailbox: the caller gets what the ring holds at `first`. */
  function Remove(s: System): System
    requires |s.box.msgs| == SIZE
  {
    s.(box := Take(s.box), fetched := s.fetched + [Head(s.box)])
  }

  function PostRegion(s: System, t: nat, m: Msg): System
    requires |s.box.msgs| == SIZE
  {
    if Full(s.box) then s.(box := s.box.(waitSend := s.box.waitSend + 1), postWaiting := s.postWaiting[t := m])
    else Store(s, m)
  }

  function FetchRegion(s: System, t: nat): System
    requires |s.box.msgs| == SIZE
  {
    if Empty(s.box) then s.(fetchWaiting := s.fetchWaiting + {t}) else Remove(s)
  }

  function Next(s: System, a: Action): System
    requires Enabled(s, a) && |s.box.msgs| == SIZE
  {
    match a
    case Post(t, m) => PostRegion(s, t, m)
    case PostWake(t) =>
      s.(box := s.box.(notFull := s.box.notFull - 1),
         postWaiting := s.postWaiting - {t}, postWoken := s.postWoken[t := s.postWaiting[t]])
    case PostAgain(t) =>
      PostRegion(s.(box := s.box.(waitSend := s.box.waitSend - 1), postWoken := s.postWoken - {t}), t, s.postWoken[t])
    case TryPost(m) => if Full(s.box) then s else Store(s, m)
    case Fetch(t) => FetchRegion(s, t)
    case FetchWake(t) =>
      s.(box := s.box.(notEmpty := s.box.notEmpty - 1),
         fetchWaiting := s.fetchWaiting - {t}, fetchWoken := s.fetchWoken + {t})
    case FetchTimeout(t) => s.(fetchWaiting := s.fetchWaiting - {t})
    case FetchAgain(t) => FetchRegion(s.(fetchWoken := s.fetchWoken - {t}), t)
    case TryFetch => if Empty(s.box) then s else Remove(s)
  }

  predicate Initial(s: System) {
    && |s.box.msgs| == SIZE && s.box == Box(0, 0, s.box.msgs, 0, 0, 0)
    && s.fetchWaiting == {} && s.fetchWoken == {} && s.postWaiting == map[] && s.postWoken == map[]
    && s.posted == [] && s.fetched == []
  }

  ghost predicate IsRun(run: seq<System>, acts: seq<Action>) {
    && |run| == |acts| + 1 && Initial(run[0])
    && forall i :: 0 <= i < |acts| ==>
         |run[i].box.msgs| == SIZE && Enabled(run[i], acts[i]) && run[i + 1] == Next(run[i], acts[i])
  }

  // ---------------------------------------------------------------- a bounded FIFO queue

  /** The messages in the mailbox, oldest first. */
  function Queue(s: System): seq<Msg>
    requires s.box.first <= |s.posted|
  {
    s.posted[s.box.first..]
  }

  /** What came out is a prefix of what went in, and the ring holds the rest. */
  ghost predicate IsFifo(s: System) {
    && |s.box.msgs| == SIZE
    && s.box.first == |s.fetched| && s.box.last == |s.posted|
    && s.box.first <= s.box.last < s.box.first + SIZE
    && s.fetched == s.posted[..s.box.first]
    && forall i :: s.box.first <= i < s.box.last ==> s.box.msgs[i % SIZE] == s.posted[i]
  }

  /** Two positions inside one window of SIZE never share a slot. */
  lemma SlotsDiffer(i: nat, j: nat)
    requires i < j < i + SIZE
    ensures i % SIZE != j % SIZE
  {
  }

  lemma StoreIsFifo(s: System, m: Msg)
    requires IsFifo(s) && !Full(s.box)
    ensures IsFifo(Store(s, m))
    ensures Queue(Store(s, m)) == Queue(s) + [m] && |Queue(Store(s, m))| < SIZE
  {
    var t := Store(s, m);
    forall i | t.box.first <= i < t.box.last
      ensures t.box.msgs[i % SIZE] == t.posted[i]
    {
      if i < s.box.last {
        SlotsDiffer(i, s.box.last);
      }
    }
  }

  lemma RemoveIsFifo(s: System)
    requires IsFifo(s) && !Empty(s.box)
    ensures IsFifo(Remove(s))
    ensures Queue(s) == [Remove(s).fetched[|s.fetched|]] + Queue(Remove(s))
  {
    assert s.posted[..s.box.first + 1] == s.posted[..s.box.first] + [s.posted[s.box.first]];
  }

  lemma StepIsFifo(s: System, a: Action)
    requires IsFifo(s) && Enabled(s, a)
    ensures IsFifo(Next(s, a))
  {
    match a
    case Post(t, m) => if !Full(s.box) { StoreIsFifo(s, m); }
    case PostAgain(t) =>
      var r := s.(box := s.box.(waitSend := s.box.waitSend - 1), postWoken := s.postWoken - {t});
      if !Full(s.box) { StoreIsFifo(r, s.postWoken[t]); }
    case TryPost(m) => if !Full(s.box) { StoreIsFifo(s, m); }
    case Fetch(t) => if !Empty(s.box) { RemoveIsFifo(s); }
    case FetchAgain(t) =>
      if !Empty(s.box) { RemoveIsFifo(s.(fetchWoken := s.fetchWoken - {t})); }
    case TryFetch => if !Empty(s.box) { RemoveIsFifo(s); }
    case _ =>
  }

  /** In every run, the messages fetched are the first ones posted, in order, and at most 127 are stored. */
  lemma {:induction false} RunsAreFifo(run: seq<System>, acts: seq<Action>, i: nat)
    requires IsRun(run, acts) && i < |run|
    ensures IsFifo(run[i]) && run[i].fetched <= run[i].posted && |Queue(run[i])| <= SIZE - 1
  {
    if 0 < i {
      RunsAreFifo(run, acts, i - 1);
      StepIsFifo(run[i - 1], acts[i - 1]);
    }
  }

  /** There is room for exactly 127 messages. A post stores its message exactly if fewer are in the mailbox;
      else sys_mbox_trypost gives up and sys_mbox_post waits. */
  lemma FullMeans127(s: System, t: nat, m: Msg)
    requires IsFifo(s)
    ensures Queue(Next(s, TryPost(m))) == if |Queue(s)| == 127 then Queue(s) else Queue(s) + [m]
    ensures Idle(s, t) ==> var n := Next(s, Post(t, m));
      if |Queue(s)| == 127
      then Queue(n) == Queue(s) && n.postWaiting == s.postWaiting[t := m] && n.box.waitSend == s.box.waitSend + 1
      else Queue(n) == Queue(s) + [m] && n.postWaiting == s.postWaiting
    ensures t in s.postWoken ==> var n, x := Next(s, PostAgain(t)), s.postWoken[t];
      if |Queue(s)| == 127
      then Queue(n) == Queue(s) && n.postWaiting == s.postWaiting[t := x] && n.box.waitSend == s.box.waitSend
      else Queue(n) == Queue(s) + [x] && n.postWaiting == s.postWaiting && n.box.waitSend == s.box.waitSend - 1
  {
  }

  /** A fetch takes the oldest message exactly if there is one; else sys_arch_mbox_tryfetch gives up and
      sys_arch_mbox_fetch waits. */
  lemma EmptyMeansNone(s: System, t: nat)
    requires IsFifo(s)
    ensures t in s.fetchWaiting ==>
      Enabled(s, FetchTimeout(t)) && Next(s, FetchTimeout(t)) == s.(fetchWaiting := s.fetchWaiting - {t})
    ensures var n := Next(s, TryFetch);
      if Queue(s) == [] then n == s else n.fetched == s.fetched + [Queue(s)[0]] && Queue(n) == Queue(s)[1..]
    ensures Idle(s, t) ==> var n := Next(s, Fetch(t));
      if Queue(s) == [] then n == s.(fetchWaiting := s.fetchWaiting + {t})
      else n.fetched == s.fetched + [Queue(s)[0]] && Queue(n) == Queue(s)[1..] && n.fetchWaiting == s.fetchWaiting
    ensures t in s.fetchWoken ==> var n := Next(s, FetchAgain(t));
      if Queue(s) == [] then n.fetched == s.fetched && n.fetchWaiting == s.fetchWaiting + {t}
      else n.fetched == s.fetched + [Queue(s)[0]] && Queue(n) == Queue(s)[1..] && n.fetchWaiting == s.fetchWaiting
  {
  }

  // ---------------------------------------------------------------- no lost wakeup

  /** The sender count is right, and a waiting sender has something to wake it. */
  ghost predicate SendersSafe(s: System) {
    && s.postWaiting.Keys !! s.postWoken.Keys
    && s.box.waitSend == |s.postWaiting| + |s.postWoken|
    && (s.postWaiting != map[] ==> s.box.notFull > 0 || !Empty(s.box) || s.postWoken != map[])
  }

  /** A fetcher waiting while messages are stored finds its semaphore set. */
  ghost predicate FetcherSafe(s: System) {
    s.fetchWaiting != {} && !Empty(s.box) ==> s.box.notEmpty > 0
  }

  lemma MapMinus(m: map<nat, Msg>, t: nat)
    requires t in m
    ensures |m - {t}| == |m| - 1
  {
    assert m == (m - {t})[t := m[t]];
  }

  lemma MapPlus(m: map<nat, Msg>, t: nat, x: Msg)
    requires t !in m
    ensures |m[t := x]| == |m| + 1 && m[t := x] != map[]
  {
    assert t in m[t := x] && m[t := x] - {t} == m;
    MapMinus(m[t := x], t);
  }

  lemma PostRegionKeepsSenders(s: System, t: nat, m: Msg)
    requires IsFifo(s) && t !in s.postWaiting && t !in s.postWoken
    requires s.postWaiting.Keys !! s.postWoken.Keys && s.box.waitSend == |s.postWaiting| + |s.postWoken|
    ensures SendersSafe(PostRegion(s, t, m))
  {
    var r := PostRegion(s, t, m);
    if Full(s.box) {
      MapPlus(s.postWaiting, t, m);
    }
  }

  lemma StepKeepsSenders(s: System, a: Action)
    requires IsFifo(s) && SendersSafe(s) && Enabled(s, a)
    ensures SendersSafe(Next(s, a))
  {
    match a
    case Post(t, m) => PostRegionKeepsSenders(s, t, m);
    case PostWake(t) => PostWakeKeepsSenders(s, t);
    case PostAgain(t) => PostAgainKeepsSenders(s, t);
    case _ => FetchKeepsSenders(s, a);
  }

  lemma PostWakeKeepsSenders(s: System, t: nat)
    requires IsFifo(s) && SendersSafe(s) && Enabled(s, PostWake(t))
    ensures SendersSafe(Next(s, PostWake(t)))
  {
    MapMinus(s.postWaiting, t);
    MapPlus(s.postWoken, t, s.postWaiting[t]);
  }

  lemma PostAgainKeepsSenders(s: System, t: nat)
    requires IsFifo(s) && SendersSafe(s) && Enabled(s, PostAgain(t))
    ensures SendersSafe(Next(s, PostAgain(t)))
  {
    MapMinus(s.postWoken, t);
    var r := s.(box := s.box.(waitSend := s.box.waitSend - 1), postWoken := s.postWoken - {t});
    PostRegionKeepsSenders(r, t, s.postWoken[t]);
  }

  /** Steps that move no sender: a removed message signals the senders that wait. */
  lemma FetchKeepsSenders(s: System, a: Action)
    requires IsFifo(s) && SendersSafe(s) && Enabled(s, a) && !a.Post? && !a.PostWake? && !a.PostAgain?
    ensures SendersSafe(Next(s, a))
  {
    NoSenderMoves(s, a);
    WaitingAreCounted(s);
  }

  lemma NoSenderMoves(s: System, a: Action)
    requires IsFifo(s) && Enabled(s, a) && !a.Post? && !a.PostWake? && !a.PostAgain?
    ensures var m := Next(s, a);
      && m.postWaiting == s.postWaiting && m.postWoken == s.postWoken && m.box.waitSend == s.box.waitSend
      && (m.box.first == s.box.first ==> m.box.notFull == s.box.notFull && m.box.last >= s.box.last)
      && (m.box.first != s.box.first && s.box.waitSend != 0 ==> m.box.notFull > 0)
  {
  }

  lemma WaitingAreCounted(s: System)
    requires SendersSafe(s)
    ensures s.postWaiting != map[] ==> s.box.waitSend != 0
  {
    if s.postWaiting != map[] {
      var t :| t in s.postWaiting;
      MapMinus(s.postWaiting, t);
    }
  }

  /** At most one thread at a time is inside a blocking fetch. */
  ghost predicate OneFetcher(s: System) {
    forall t, u :: t in s.fetchWaiting + s.fetchWoken && u in s.fetchWaiting + s.fetchWoken ==> t == u
  }

  /** The semaphore is binary. */
  ghost predicate Binary(s: System) {
    s.box.notEmpty <= 1
  }

  lemma {:induction false} RunsKeepBinary(run: seq<System>, acts: seq<Action>, i: nat)
    requires IsRun(run, acts) && i < |run|
    ensures Binary(run[i])
  {
    if 0 < i {
      RunsKeepBinary(run, acts, i - 1);
      StepKeepsBinary(run[i - 1], acts[i - 1]);
    }
  }

  lemma StepKeepsBinary(s: System, a: Action)
    requires |s.box.msgs| == SIZE && Binary(s) && Enabled(s, a)
    ensures Binary(Next(s, a))
  {
  }

  /** Whatever number of fetchers there is: a step makes a fetcher wait on an unset semaphore of a non-empty
      mailbox exactly if it wakes one fetcher while messages are there and another one waits. */
  lemma OnlyASecondFetcherIsUnsafe(s: System, a: Action)
    requires IsFifo(s) && Binary(s) && FetcherSafe(s) && Enabled(s, a)
    ensures FetcherSafe(Next(s, a)) <==> !(a.FetchWake? && !Empty(s.box) && s.fetchWaiting != {a.t})
  {
    if a.FetchWake? {
      assert s.fetchWaiting - {a.t} == {} <==> s.fetchWaiting == {a.t};
    }
  }

  lemma StepKeepsFetcher(s: System, a: Action)
    requires IsFifo(s) && FetcherSafe(s) && OneFetcher(s) && Enabled(s, a)
    ensures FetcherSafe(Next(s, a))
  {
    match a
    case FetchWake(t) =>
      forall u | u in s.fetchWaiting
        ensures u == t
      {
        assert u in s.fetchWaiting + s.fetchWoken && t in s.fetchWaiting + s.fetchWoken;
      }
    case _ =>
  }

  lemma {:induction false} RunsKeepSenders(run: seq<System>, acts: seq<Action>, i: nat)
    requires IsRun(run, acts) && i < |run|
    ensures SendersSafe(run[i])
  {
    if 0 < i {
      RunsKeepSenders(run, acts, i - 1);
      RunsAreFifo(run, acts, i - 1);
      StepKeepsSenders(run[i - 1], acts[i - 1]);
    }
  }

  /** With a single blocking consumer no wakeup is lost, whatever posters and try-callers do. */
  lemma {:induction false} RunsKeepFetcher(run: seq<System>, acts: seq<Action>, i: nat)
    requires IsRun(run, acts) && i < |run|
    requires forall j :: 0 <= j <= i ==> OneFetcher(run[j])
    ensures FetcherSafe(run[i])
  {
    if 0 < i {
      RunsKeepFetcher(run, acts, i - 1);
      RunsAreFifo(run, acts, i - 1);
      StepKeepsFetcher(run[i - 1], acts[i - 1]);
    }
  }

  /** Thread t is inside a blocking call and can go on. */
  predicate CanGoOn(s: System, t: nat) {
    Enabled(s, PostWake(t)) || Enabled(s, PostAgain(t)) || Enabled(s, FetchWake(t)) || Enabled(s, FetchAgain(t))
  }

  /** A consumer and producers wait for each other and nobody can move. */
  ghost predicate Stuck(s: System) {
    s.fetchWaiting != {} && s.postWaiting != map[] && forall t :: !CanGoOn(s, t)
  }

  lemma SomeoneCanGoOn(s: System) returns (t: nat)
    requires SendersSafe(s) && FetcherSafe(s) && s.fetchWaiting != {} && s.postWaiting != map[]
    ensures CanGoOn(s, t)
  {
    if s.box.notFull > 0 {
      t :| t in s.postWaiting;
    } else if !Empty(s.box) {
      t :| t in s.fetchWaiting;
    } else {
      t :| t in s.postWoken;
    }
  }

  /** A consumer and producers are never all stuck. */
  lemma NeverAllStuck(run: seq<System>, acts: seq<Action>, i: nat)
    requires IsRun(run, acts) && i < |run|
    requires forall j :: 0 <= j <= i ==> OneFetcher(run[j])
    ensures !Stuck(run[i])
  {
    RunsKeepSenders(run, acts, i);
    RunsKeepFetcher(run, acts, i);
    if run[i].fetchWaiting != {} && run[i].postWaiting != map[] {
      var t := SomeoneCanGoOn(run[i]);
    }
  }

  /** With two blocking consumers a wakeup can be lost: thread 2 waits on an unset semaphore while a message
      lies in the mailbox, and no other consumer is on its way to take it. */
  lemma TwoFetchersLoseAWakeup(msgs: seq<Msg>) returns (run: seq<System>, acts: seq<Action>)
    requires |msgs| == SIZE
    ensures IsRun(run, acts)
    ensures var s := run[|run| - 1];
      s.fetchWaiting == {2} && !Empty(s.box) && s.box.notEmpty == 0 && s.fetchWoken == {} && s.postWoken == map[]
  {
    var s0 := System(Box(0, 0, msgs, 0, 0, 0), {}, {}, map[], map[], [], []);
    acts := [Fetch(1), Fetch(2), TryPost(7), FetchWake(1), TryPost(8), FetchAgain(1)];
    var s1 := Next(s0, acts[0]);
    var s2 := Next(s1, acts[1]);
    var s3 := Next(s2, acts[2]);
    var s4 := Next(s3, acts[3]);
    var s5 := Next(s4, acts[4]);
    var s6 := Next(s5, acts[5]);
    run := [s0, s1, s2, s3, s4, s5, s6];
    assert s6.fetchWaiting == {2} && s6.fetchWoken == {};
  }
}
