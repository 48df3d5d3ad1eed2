/** sockets.c: lwip_select against event_callback, in any interleaving of any number of threads.
    A step is one region between SYS_ARCH_PROTECT and SYS_ARCH_UNPROTECT, or the return of a semaphore wait.
    The sockets stay open throughout; counters are unbounded integers. */
module SelectProtocol {

  /** The part of struct lwip_sock that select looks at. */
  datatype Sock = Sock(lastdata: bool, rcvevent: int, sendevent: bool, errevent: bool, waiting: int)

  /** The sets given to lwip_select. */
  datatype Interest = Interest(maxfdp1: nat, read: set<nat>, write: set<nat>, except: set<nat>) {
    predicate Has(s: nat) {
      s in read || s in write || s in except
    }

    /** The loops over descriptors only look below maxfdp1. */
    predicate Watches(s: nat) {
      s < maxfdp1 && Has(s)
    }
  }

  /** Where a selector is once its first scan has found nothing. */
  datatype Phase =
    | Counting(i: nat)             // adding itself to select_waiting of sockets from i on
    | Rescanning(i: nat, hit: bool)
    | Sleeping
    | Uncounting(i: nat)

  /** struct lwip_select_cb with its thread's position. */
  datatype Selector = Selector(interest: Interest, phase: Phase, signalled: bool, sem: nat)

  /** A running event_callback between two of its regions: the entry it visited last, and the
      list version it saw then. */
  datatype Walker = Walker(sock: nat, at: nat, ctr: nat)

  datatype Layer = Layer(sockets: seq<Sock>, list: seq<nat>, ctr: nat,
                         selectors: map<nat, Selector>, walkers: map<nat, Walker>)

  datatype Event = RcvPlus | RcvMinus | SendPlus | SendMinus | Error

  datatype Action =
    | Register(q: nat, interest: Interest)
    | Count(q: nat)
    | Rescan(q: nat)
    | Wake(q: nat)
    | Timeout(q: nat)
    | Uncount(q: nat)
    | Unlink(q: nat)
    | Callback(w: nat, s: nat, evt: Event)
    | Walk(w: nat)
    | Leftover(s: nat, kept: bool)   // a reader thread stores or clears lastdata

  // ---------------------------------------------------------------- the steps

  /** lwip_selscan's test of one socket. */
  predicate ScanHit(k: Sock, f: Interest, s: nat) {
    || (s in f.read && (k.lastdata || k.rcvevent > 0))
    || (s in f.write && k.sendevent)
    || (s in f.except && k.errevent)
  }

  /** event_callback's test of one list entry: an event of socket s that the selector asked for. */
  predicate Pending(k: Sock, f: Interest, s: nat) {
    (s in f.read && k.rcvevent > 0) || (s in f.write && k.sendevent) || (s in f.except && k.errevent)
  }

  function Occur(k: Sock, evt: Event): Sock {
    match evt
    case RcvPlus => k.(rcvevent := k.rcvevent + 1)
    case RcvMinus => k.(rcvevent := k.rcvevent - 1)
    case SendPlus => k.(sendevent := true)
    case SendMinus => k.(sendevent := false)
    case Error => k.(errevent := true)
  }

  /** Position of an entry in the list. */
  function IndexOf(list: seq<nat>, q: nat): (i: nat)
    requires q in list
    ensures i < |list| && list[i] == q
    ensures forall j :: 0 <= j < i ==> list[j] != q
  {
    if list[0] == q then 0 else 1 + IndexOf(list[1..], q)
  }

  function Remove(list: seq<nat>, q: nat): seq<nat>
    requires q in list
  {
    list[..IndexOf(list, q)] + list[IndexOf(list, q) + 1..]
  }

  /** The selector after a walker of socket s looked at it. */
  function Looked(x: Selector, k: Sock, s: nat): Selector {
    if !x.signalled && Pending(k, x.interest, s) then x.(signalled := true, sem := 1) else x
  }

  /** A walker of socket s visits entry q and remembers the list version. */
  function Visit(l: Layer, w: nat, s: nat, q: nat): Layer
    requires q in l.selectors && s < |l.sockets|
  {
    l.(selectors := l.selectors[q := Looked(l.selectors[q], l.sockets[s], s)],
       walkers := l.walkers[w := Walker(s, q, l.ctr)])
  }

  /** Where a walk goes next: None when it is over. */
  datatype Target = Over | Entry(q: nat)

  function NextEntry(l: Layer, x: Walker): Target
    requires x.ctr == l.ctr ==> x.at in l.list
  {
    if x.ctr != l.ctr then (if l.list == [] then Over else Entry(l.list[0]))
    else
      var i := IndexOf(l.list, x.at);
      if i + 1 == |l.list| then Over else Entry(l.list[i + 1])
  }

  function SetPhase(l: Layer, q: nat, p: Phase): Layer
    requires q in l.selectors
  {
    l.(selectors := l.selectors[q := l.selectors[q].(phase := p)])
  }

  function AddWaiting(l: Layer, s: nat, n: int): Layer
    requires s < |l.sockets|
  {
    l.(sockets := l.sockets[s := l.sockets[s].(waiting := l.sockets[s].waiting + n)])
  }

  predicate Enabled(l: Layer, a: Action) {
    match a
    case Register(q, f) => q !in l.selectors && f.maxfdp1 <= |l.sockets|
    case Count(q) => q in l.selectors && l.selectors[q].phase.Counting?
    case Rescan(q) => q in l.selectors && l.selectors[q].phase.Rescanning?
    case Wake(q) => q in l.selectors && l.selectors[q].phase.Sleeping? && l.selectors[q].sem > 0
    case Timeout(q) => q in l.selectors && l.selectors[q].phase.Sleeping?
    case Uncount(q) => q in l.selectors && l.selectors[q].phase.Uncounting? && l.selectors[q].phase.i < l.selectors[q].interest.maxfdp1
    case Unlink(q) => q in l.selectors && l.selectors[q].phase.Uncounting? && l.selectors[q].interest.maxfdp1 <= l.selectors[q].phase.i
    case Callback(w, s, _) => w !in l.walkers && s < |l.sockets|
    case Walk(w) => w in l.walkers
    case Leftover(s, _) => s < |l.sockets|
  }

  function CountStep(l: Layer, q: nat): Layer
    requires Enabled(l, Count(q)) && Shape(l)
  {
    var x := l.selectors[q];
    var i := x.phase.i;
    if x.interest.maxfdp1 <= i then SetPhase(l, q, Rescanning(0, false))
    else SetPhase(if x.interest.Has(i) then AddWaiting(l, i, 1) else l, q, Counting(i + 1))
  }

  function RescanStep(l: Layer, q: nat): Layer
    requires Enabled(l, Rescan(q)) && Shape(l)
  {
    var x := l.selectors[q];
    var i := x.phase.i;
    if i < x.interest.maxfdp1 then
      SetPhase(l, q, Rescanning(i + 1, x.phase.hit || ScanHit(l.sockets[i], x.interest, i)))
    else SetPhase(l, q, if x.phase.hit then Uncounting(0) else Sleeping)
  }

  function UncountStep(l: Layer, q: nat): Layer
    requires Enabled(l, Uncount(q)) && Shape(l)
  {
    var x := l.selectors[q];
    var i := x.phase.i;
    SetPhase(if x.interest.Has(i) then AddWaiting(l, i, -1) else l, q, Uncounting(i + 1))
  }

  function CallbackStep(l: Layer, w: nat, s: nat, evt: Event): Layer
    requires Enabled(l, Callback(w, s, evt)) && Shape(l)
  {
    var m := l.(sockets := l.sockets[s := Occur(l.sockets[s], evt)]);
    if m.sockets[s].waiting == 0 || m.list == [] then m else Visit(m, w, s, m.list[0])
  }

  function WalkStep(l: Layer, w: nat): Layer
    requires Enabled(l, Walk(w)) && Shape(l)
  {
    var x := l.walkers[w];
    match NextEntry(l, x)
    case Over => l.(walkers := l.walkers - {w})
    case Entry(q) => Visit(l, w, x.sock, q)
  }

  function Next(l: Layer, a: Action): Layer
    requires Enabled(l, a) && Shape(l)
  {
    match a
    case Register(q, f) =>
      l.(list := [q] + l.list, ctr := l.ctr + 1, selectors := l.selectors[q := Selector(f, Counting(0), false, 0)])
    case Count(q) => CountStep(l, q)
    case Rescan(q) => RescanStep(l, q)
    case Wake(q) =>
      l.(selectors := l.selectors[q := l.selectors[q].(phase := Uncounting(0), sem := l.selectors[q].sem - 1)])
    case Timeout(q) => SetPhase(l, q, Uncounting(0))
    case Uncount(q) => UncountStep(l, q)
    case Unlink(q) => l.(list := Remove(l.list, q), ctr := l.ctr + 1, selectors := l.selectors - {q})
    case Callback(w, s, evt) => CallbackStep(l, w, s, evt)
    case Walk(w) => WalkStep(l, w)
    case Leftover(s, kept) => l.(sockets := l.sockets[s := l.sockets[s].(lastdata := kept)])
  }

  // ---------------------------------------------------------------- what every step keeps

  ghost predicate NoRepeats(list: seq<nat>) {
    forall i, j :: 0 <= i < j < |list| ==> list[i] != list[j]
  }

  /** The list holds each registered selector once, and a walker whose list version is current
      stands on an entry of the list. */
  ghost predicate Shape(l: Layer) {
    && NoRepeats(l.list)
    && (forall q :: q in l.list <==> q in l.selectors)
    && (forall q :: q in l.selectors ==> l.selectors[q].interest.maxfdp1 <= |l.sockets|)
    && (forall w :: w in l.walkers ==>
          && l.walkers[w].ctr <= l.ctr && l.walkers[w].sock < |l.sockets|
          && (l.walkers[w].ctr == l.ctr ==> l.walkers[w].at in l.list))
  }

  /** Selector x has added itself to the waiting count of socket s and not yet taken itself off. */
  predicate CountedOn(x: Selector, s: nat) {
    && x.interest.Watches(s)
    && match x.phase
       case Counting(i) => s < i
       case Rescanning(_, _) => true
       case Sleeping => true
       case Uncounting(i) => i <= s
  }

  function CountedSet(sel: map<nat, Selector>, s: nat): set<nat> {
    set q | q in sel && CountedOn(sel[q], s)
  }

  /** Every select_waiting is the number of selectors that have counted themselves. */
  ghost predicate Counts(l: Layer) {
    forall s :: 0 <= s < |l.sockets| ==> l.sockets[s].waiting == |CountedSet(l.selectors, s)|
  }

  /** A signal that has been sent is still there to be taken. */
  ghost predicate SignalsKept(l: Layer) {
    forall q :: q in l.selectors && l.selectors[q].signalled && !l.selectors[q].phase.Uncounting? ==> l.selectors[q].sem > 0
  }

  /** Selector q has scanned socket s after registering, found nothing so far, and is to be woken:
      an event it asked for is there and nobody has signalled it. */
  predicate Owed(l: Layer, q: nat, s: nat)
    requires q in l.selectors && s < |l.sockets|
  {
    var x := l.selectors[q];
    && x.interest.Watches(s) && !x.signalled && Pending(l.sockets[s], x.interest, s)
    && (x.phase.Sleeping? || (x.phase.Rescanning? && !x.phase.hit && s < x.phase.i))
  }

  /** Walker w runs for socket s and has yet to visit q: it will start over, or q lies ahead. */
  predicate Covers(l: Layer, w: nat, q: nat, s: nat)
    requires Shape(l) && q in l.selectors
  {
    && w in l.walkers && l.walkers[w].sock == s
    && (l.walkers[w].ctr != l.ctr || IndexOf(l.list, l.walkers[w].at) < IndexOf(l.list, q))
  }

  ghost predicate IsCovered(l: Layer, q: nat, s: nat)
    requires Shape(l) && q in l.selectors
  {
    exists w :: Covers(l, w, q, s)
  }

  ghost predicate CoveredByOther(l: Layer, w: nat, q: nat, s: nat)
    requires Shape(l) && q in l.selectors
  {
    exists v :: v != w && Covers(l, v, q, s)
  }

  /** How far a walker is: the index of the entry it stands on, -1 when it will start over. */
  function Position(l: Layer, w: nat): int
    requires Shape(l) && w in l.walkers
  {
    if l.walkers[w].ctr != l.ctr then -1 else IndexOf(l.list, l.walkers[w].at)
  }

  ghost predicate NoLostWakeup(l: Layer)
    requires Shape(l)
  {
    forall q, s :: q in l.selectors && 0 <= s < |l.sockets| && Owed(l, q, s) ==> IsCovered(l, q, s)
  }

  ghost predicate Inv(l: Layer) {
    Shape(l) && Counts(l) && SignalsKept(l) && NoLostWakeup(l)
  }

  // shape

  lemma RemoveShape(list: seq<nat>, q: nat)
    requires NoRepeats(list) && q in list
    ensures NoRepeats(Remove(list, q))
    ensures forall p :: p in Remove(list, q) <==> p in list && p != q
  {
    var i, r := IndexOf(list, q), Remove(list, q);
    forall p
      ensures p in r <==> p in list && p != q
    {
      if p in list && p != q {
        var j := IndexOf(list, p);
        assert r[if j < i then j else j - 1] == p;
      }
    }
  }

  lemma NextShape(l: Layer, a: Action)
    requires Shape(l) && Enabled(l, a)
    ensures Shape(Next(l, a))
  {
    match a
    case Register(q, f) => RegisterShape(l, q, f);
    case Unlink(q) => UnlinkShape(l, q);
    case Callback(w, s, evt) => CallbackShape(l, w, s, evt);
    case Walk(w) => WalkShape(l, w);
    case _ => QuietShape(l, a);
  }

  lemma UnlinkShape(l: Layer, q: nat)
    requires Shape(l) && Enabled(l, Unlink(q))
    ensures Shape(Next(l, Unlink(q)))
  {
    RemoveShape(l.list, q);
  }

  lemma CallbackShape(l: Layer, w: nat, s: nat, evt: Event)
    requires Shape(l) && Enabled(l, Callback(w, s, evt))
    ensures Shape(CallbackStep(l, w, s, evt))
  {
    var m := l.(sockets := l.sockets[s := Occur(l.sockets[s], evt)]);
    assert Shape(m);
    if m.sockets[s].waiting != 0 && m.list != [] {
      VisitShape(m, w, s, m.list[0]);
    }
  }

  lemma WalkShape(l: Layer, w: nat)
    requires Shape(l) && Enabled(l, Walk(w))
    ensures Shape(WalkStep(l, w))
  {
    var t := NextEntry(l, l.walkers[w]);
    if t.Entry? {
      VisitShape(l, w, l.walkers[w].sock, t.q);
    }
  }

  /** Steps that leave the list and the walkers alone. */
  lemma QuietShape(l: Layer, a: Action)
    requires Shape(l) && Enabled(l, a) && !a.Register? && !a.Unlink? && !a.Callback? && !a.Walk?
    ensures Shape(Next(l, a))
  {
  }

  lemma RegisterShape(l: Layer, q: nat, f: Interest)
    requires Shape(l) && Enabled(l, Register(q, f))
    ensures Shape(Next(l, Register(q, f)))
  {
    var list := [q] + l.list;
    forall p
      ensures p in list <==> p == q || p in l.list
    {
      if p in l.list {
        assert list[IndexOf(l.list, p) + 1] == p;
      }
    }
  }

  lemma VisitShape(l: Layer, w: nat, s: nat, q: nat)
    requires Shape(l) && q in l.selectors && s < |l.sockets|
    ensures Shape(Visit(l, w, s, q))
  {
  }

  // the waiting counts

  lemma CountedUpdate(sel: map<nat, Selector>, q: nat, x: Selector, s: nat)
    ensures CountedSet(sel[q := x], s) == if CountedOn(x, s) then CountedSet(sel, s) + {q} else CountedSet(sel, s) - {q}
  {
  }

  /** A change of phase that changes whether q counts on s. */
  lemma SameCounts(l: Layer, q: nat, x: Selector)
    requires Counts(l)
    requires forall s :: CountedOn(x, s) <==> q in l.selectors && CountedOn(l.selectors[q], s)
    ensures Counts(l.(selectors := l.selectors[q := x]))
  {
    forall s | 0 <= s < |l.sockets|
      ensures CountedSet(l.selectors[q := x], s) == CountedSet(l.selectors, s)
    {
      CountedUpdate(l.selectors, q, x, s);
    }
  }

  lemma CountStepCounts(l: Layer, q: nat)
    requires Shape(l) && Counts(l) && Enabled(l, Count(q))
    ensures Counts(CountStep(l, q))
  {
    var x, m := l.selectors[q], CountStep(l, q);
    forall s | 0 <= s < |l.sockets|
      ensures m.sockets[s].waiting == |CountedSet(m.selectors, s)|
    {
      CountedUpdate(l.selectors, q, m.selectors[q], s);
      assert !CountedOn(x, s) ==> q !in CountedSet(l.selectors, s);
      assert CountedOn(x, s) ==> CountedSet(l.selectors, s) + {q} == CountedSet(l.selectors, s);
    }
  }

  lemma UncountStepCounts(l: Layer, q: nat)
    requires Shape(l) && Counts(l) && Enabled(l, Uncount(q))
    ensures Counts(UncountStep(l, q))
  {
    var x, m := l.selectors[q], UncountStep(l, q);
    forall s | 0 <= s < |l.sockets|
      ensures m.sockets[s].waiting == |CountedSet(m.selectors, s)|
    {
      CountedUpdate(l.selectors, q, m.selectors[q], s);
      assert CountedOn(x, s) ==> q in CountedSet(l.selectors, s);
      assert !CountedOn(x, s) ==> CountedSet(l.selectors, s) - {q} == CountedSet(l.selectors, s);
      assert CountedOn(m.selectors[q], s) ==> CountedSet(l.selectors, s) + {q} == CountedSet(l.selectors, s);
    }
  }

  lemma UnlinkCounts(l: Layer, q: nat)
    requires Shape(l) && Counts(l) && Enabled(l, Unlink(q))
    ensures Counts(Next(l, Unlink(q)))
  {
    forall s | 0 <= s < |l.sockets|
      ensures CountedSet(l.selectors - {q}, s) == CountedSet(l.selectors, s)
    {
    }
  }

  lemma VisitCounts(l: Layer, w: nat, s: nat, q: nat)
    requires Counts(l) && q in l.selectors && s < |l.sockets|
    ensures Counts(Visit(l, w, s, q))
  {
    SameCounts(l, q, Looked(l.selectors[q], l.sockets[s], s));
  }

  lemma NextCounts(l: Layer, a: Action)
    requires Shape(l) && Counts(l) && Enabled(l, a)
    ensures Counts(Next(l, a))
  {
    match a
    case Register(q, f) => SameCounts(l, q, Selector(f, Counting(0), false, 0));
    case Count(q) => CountStepCounts(l, q);
    case Rescan(q) => SameCounts(l, q, RescanStep(l, q).selectors[q]);
    case Wake(q) => SameCounts(l, q, Next(l, a).selectors[q]);
    case Timeout(q) => SameCounts(l, q, Next(l, a).selectors[q]);
    case Uncount(q) => UncountStepCounts(l, q);
    case Unlink(q) => UnlinkCounts(l, q);
    case Callback(w, s, evt) =>
      var m := l.(sockets := l.sockets[s := Occur(l.sockets[s], evt)]);
      assert Counts(m);
      if m.sockets[s].waiting != 0 && m.list != [] { VisitCounts(m, w, s, m.list[0]); }
    case Walk(w) =>
      var t := NextEntry(l, l.walkers[w]);
      if t.Entry? { VisitCounts(l, w, l.walkers[w].sock, t.q); }
    case Leftover(s, kept) =>
  }

  lemma NextSignals(l: Layer, a: Action)
    requires Shape(l) && SignalsKept(l) && Enabled(l, a)
    ensures SignalsKept(Next(l, a))
  {
  }

  // no lost wakeup

  /** A step that leaves list and walkers alone and makes nothing newly owed. */
  lemma NothingNewOwed(l: Layer, m: Layer)
    requires Shape(l) && Shape(m) && NoLostWakeup(l)
    requires m.list == l.list && m.ctr == l.ctr && m.walkers == l.walkers
    requires |m.sockets| == |l.sockets| && m.selectors.Keys == l.selectors.Keys
    requires forall q, s :: q in l.selectors && 0 <= s < |l.sockets| ==> OwedNoMore(l, m, q, s)
    ensures NoLostWakeup(m)
  {
    forall q, s | q in m.selectors && 0 <= s < |m.sockets| && Owed(m, q, s)
      ensures IsCovered(m, q, s)
    {
      assert OwedNoMore(l, m, q, s);
      assert IsCovered(l, q, s);
      var w :| Covers(l, w, q, s);
      assert Covers(m, w, q, s);
    }
  }

  /** A change of the list makes every walker start over. */
  lemma ListChangeCovers(l: Layer, m: Layer)
    requires Shape(l) && Shape(m) && NoLostWakeup(l)
    requires m.ctr > l.ctr && m.walkers == l.walkers && |m.sockets| == |l.sockets|
    requires forall q, s :: q in m.selectors && 0 <= s < |m.sockets| && Owed(m, q, s) ==> q in l.selectors && Owed(l, q, s)
    ensures NoLostWakeup(m)
  {
    forall q, s | q in m.selectors && 0 <= s < |m.sockets| && Owed(m, q, s)
      ensures IsCovered(m, q, s)
    {
      assert IsCovered(l, q, s);
      var w :| Covers(l, w, q, s);
      assert Covers(m, w, q, s);
    }
  }

  /** A selector that is owed a signal for socket s has counted itself on s. */
  lemma OwedIsCounted(l: Layer, q: nat, s: nat)
    requires Counts(l) && q in l.selectors && s < |l.sockets| && Owed(l, q, s)
    ensures l.sockets[s].waiting > 0
  {
    assert q in CountedSet(l.selectors, s);
  }

  /** A walker on socket s that steps onto entry e covers all that lies behind e; e itself is settled.
      So it is enough that what was owed up to e was covered by others, or by this walker up to now. */
  lemma VisitCovers(l: Layer, w: nat, s: nat, e: nat)
    requires Shape(l) && e in l.selectors && s < |l.sockets|
    requires forall q, r :: q in l.selectors && 0 <= r < |l.sockets| && Owed(l, q, r) ==>
      || (r == s && IndexOf(l.list, e) <= IndexOf(l.list, q))
      || CoveredByOther(l, w, q, r)
    ensures Shape(Visit(l, w, s, e)) && NoLostWakeup(Visit(l, w, s, e))
  {
    var m := Visit(l, w, s, e);
    VisitShape(l, w, s, e);
    forall q, r | q in m.selectors && 0 <= r < |m.sockets| && Owed(m, q, r)
      ensures IsCovered(m, q, r)
    {
      VisitOwes(l, w, s, e, q, r);
      if CoveredByOther(l, w, q, r) {
        var v :| v != w && Covers(l, v, q, r);
        OtherStillCovers(l, w, s, e, v, q, r);
      } else {
        VisitorCovers(l, w, s, e, q);
      }
    }
  }

  lemma OtherStillCovers(l: Layer, w: nat, s: nat, e: nat, v: nat, q: nat, r: nat)
    requires Shape(l) && e in l.selectors && s < |l.sockets| && q in l.selectors
    requires v != w && Covers(l, v, q, r)
    ensures Shape(Visit(l, w, s, e)) && IsCovered(Visit(l, w, s, e), q, r)
  {
    VisitShape(l, w, s, e);
    assert Covers(Visit(l, w, s, e), v, q, r);
  }

  lemma VisitorCovers(l: Layer, w: nat, s: nat, e: nat, q: nat)
    requires Shape(l) && e in l.selectors && s < |l.sockets| && q in l.selectors && q != e
    requires IndexOf(l.list, e) <= IndexOf(l.list, q)
    ensures Shape(Visit(l, w, s, e)) && IsCovered(Visit(l, w, s, e), q, s)
  {
    VisitShape(l, w, s, e);
    OthersLieApart(l.list, e, q);
    assert Covers(Visit(l, w, s, e), w, q, s);
  }

  lemma OthersLieApart(list: seq<nat>, e: nat, q: nat)
    requires e in list && q in list && q != e
    ensures IndexOf(list, e) != IndexOf(list, q)
  {
    assert list[IndexOf(list, e)] != list[IndexOf(list, q)];
  }

  /** A visit makes nothing owed, and settles what the visited entry is owed for that socket. */
  lemma VisitOwes(l: Layer, w: nat, s: nat, e: nat, q: nat, r: nat)
    requires e in l.selectors && s < |l.sockets| && q in l.selectors && r < |l.sockets|
    requires Owed(Visit(l, w, s, e), q, r)
    ensures Owed(l, q, r) && !(q == e && r == s)
  {
  }

  lemma CallbackCovers(l: Layer, w: nat, s: nat, evt: Event)
    requires Inv(l) && Enabled(l, Callback(w, s, evt))
    ensures Shape(CallbackStep(l, w, s, evt)) && NoLostWakeup(CallbackStep(l, w, s, evt))
  {
    var m := l.(sockets := l.sockets[s := Occur(l.sockets[s], evt)]);
    assert Shape(m) && Counts(m);
    forall q, r | q in m.selectors && 0 <= r < |m.sockets| && Owed(m, q, r)
      ensures r == s || CoveredByOther(m, w, q, r)
    {
      if r != s {
        assert Owed(l, q, r) && IsCovered(l, q, r);
        var v :| Covers(l, v, q, r);
        assert v != w && Covers(m, v, q, r);
      }
    }
    if m.sockets[s].waiting == 0 || m.list == [] {
      forall q, r | q in m.selectors && 0 <= r < |m.sockets| && Owed(m, q, r)
        ensures IsCovered(m, q, r)
      {
        assert q in m.list;
        if r == s {
          OwedIsCounted(m, q, s);
        }
      }
    } else {
      assert IndexOf(m.list, m.list[0]) == 0;
      VisitCovers(m, w, s, m.list[0]);
    }
  }

  lemma IndexIsUnique(list: seq<nat>, i: nat)
    requires NoRepeats(list) && i < |list|
    ensures IndexOf(list, list[i]) == i
  {
  }

  lemma WalkCovers(l: Layer, w: nat)
    requires Inv(l) && Enabled(l, Walk(w))
    ensures Shape(WalkStep(l, w)) && NoLostWakeup(WalkStep(l, w))
  {
    var t := NextEntry(l, l.walkers[w]);
    WalkShape(l, w);
    forall q, r | q in l.selectors && 0 <= r < |l.sockets| && Owed(l, q, r)
      ensures StaysAhead(l, w, t, q, r)
    {
      OwedStaysAhead(l, w, q, r);
    }
    if t.Entry? {
      VisitCovers(l, w, l.walkers[w].sock, t.q);
    } else {
      WalkOver(l, w);
    }
  }

  /** A selector that the next entry t of walker w does not pass over, or that another walker covers. */
  ghost predicate StaysAhead(l: Layer, w: nat, t: Target, q: nat, r: nat)
    requires Shape(l) && q in l.selectors && w in l.walkers && (t.Entry? ==> t.q in l.list)
  {
    (t.Entry? && r == l.walkers[w].sock && IndexOf(l.list, t.q) <= IndexOf(l.list, q)) || CoveredByOther(l, w, q, r)
  }

  lemma OwedStaysAhead(l: Layer, w: nat, q: nat, r: nat)
    requires Shape(l) && w in l.walkers && q in l.selectors && r < |l.sockets| && IsCovered(l, q, r)
    ensures StaysAhead(l, w, NextEntry(l, l.walkers[w]), q, r)
  {
    var v :| Covers(l, v, q, r);
    assert q in l.list;
    if v == w {
      NextIsAhead(l, w);
    }
  }

  /** A walk that is over covered nobody any more. */
  lemma WalkOver(l: Layer, w: nat)
    requires Shape(l) && w in l.walkers && NextEntry(l, l.walkers[w]).Over? && Shape(WalkStep(l, w))
    requires forall q, r :: q in l.selectors && 0 <= r < |l.sockets| && Owed(l, q, r) ==> CoveredByOther(l, w, q, r)
    ensures NoLostWakeup(WalkStep(l, w))
  {
    var m := WalkStep(l, w);
    forall q, r | q in m.selectors && 0 <= r < |m.sockets| && Owed(m, q, r)
      ensures IsCovered(m, q, r)
    {
      assert Owed(l, q, r);
      var v :| v != w && Covers(l, v, q, r);
      assert Covers(m, v, q, r);
    }
  }

  lemma RegisterCovers(l: Layer, q: nat, f: Interest)
    requires Inv(l) && Enabled(l, Register(q, f))
    ensures Shape(Next(l, Register(q, f))) && NoLostWakeup(Next(l, Register(q, f)))
  {
    RegisterShape(l, q, f);
    ListChangeCovers(l, Next(l, Register(q, f)));
  }

  lemma UnlinkCovers(l: Layer, q: nat)
    requires Inv(l) && Enabled(l, Unlink(q))
    ensures Shape(Next(l, Unlink(q))) && NoLostWakeup(Next(l, Unlink(q)))
  {
    NextShape(l, Unlink(q));
    ListChangeCovers(l, Next(l, Unlink(q)));
  }

  /** Steps of a selector other than joining and leaving the list. */
  lemma SelectorCovers(l: Layer, a: Action)
    requires Inv(l) && Enabled(l, a) && (a.Count? || a.Rescan? || a.Wake? || a.Timeout? || a.Uncount?)
    ensures Shape(Next(l, a)) && NoLostWakeup(Next(l, a))
  {
    NextShape(l, a);
    forall q, s | q in l.selectors && 0 <= s < |l.sockets|
      ensures OwedNoMore(l, Next(l, a), q, s)
    {
      SelectorOwes(l, a, q, s);
    }
    NothingNewOwed(l, Next(l, a));
  }

  /** Selector q is owed nothing for socket s that it was not owed before. */
  predicate OwedNoMore(l: Layer, m: Layer, q: nat, s: nat)
    requires q in l.selectors && s < |l.sockets|
  {
    q in m.selectors && s < |m.sockets| && (Owed(m, q, s) ==> Owed(l, q, s))
  }

  lemma SelectorOwes(l: Layer, a: Action, q: nat, s: nat)
    requires Shape(l) && SignalsKept(l) && Enabled(l, a) && (a.Count? || a.Rescan? || a.Wake? || a.Timeout? || a.Uncount?)
    requires q in l.selectors && s < |l.sockets|
    ensures OwedNoMore(l, Next(l, a), q, s)
  {
  }

  lemma LeftoverCovers(l: Layer, s: nat, kept: bool)
    requires Inv(l) && Enabled(l, Leftover(s, kept))
    ensures Shape(Next(l, Leftover(s, kept))) && NoLostWakeup(Next(l, Leftover(s, kept)))
  {
    NextShape(l, Leftover(s, kept));
    NothingNewOwed(l, Next(l, Leftover(s, kept)));
  }

  lemma StepKeepsInv(l: Layer, a: Action)
    requires Inv(l) && Enabled(l, a)
    ensures Inv(Next(l, a))
  {
    match a {
      case Register(q, f) => RegisterCovers(l, q, f);
      case Unlink(q) => UnlinkCovers(l, q);
      case Callback(w, s, evt) => CallbackCovers(l, w, s, evt);
      case Walk(w) => WalkCovers(l, w);
      case Leftover(s, kept) => LeftoverCovers(l, s, kept);
      case _ => SelectorCovers(l, a);
    }
    NextCounts(l, a);
    NextSignals(l, a);
  }

  // ---------------------------------------------------------------- whole runs

  /** Any sockets, nobody in select, no callback running. */
  predicate Initial(l: Layer) {
    && l.list == [] && l.ctr == 0 && l.selectors == map[] && l.walkers == map[]
    && forall s :: 0 <= s < |l.sockets| ==> l.sockets[s].waiting == 0
  }

  ghost predicate IsRun(run: seq<Layer>, acts: seq<Action>) {
    && |run| == |acts| + 1 && Initial(run[0])
    && forall i {:trigger StepAt(run, acts, i)} :: 0 <= i < |acts| ==> StepAt(run, acts, i)
  }

  ghost predicate StepAt(run: seq<Layer>, acts: seq<Action>, i: nat)
    requires i < |acts| && |run| == |acts| + 1
  {
    IsStep(run[i], acts[i], run[i + 1])
  }

  ghost predicate IsStep(l: Layer, a: Action, m: Layer) {
    Shape(l) && Enabled(l, a) && m == Next(l, a)
  }

  lemma {:induction false} RunsKeepInv(run: seq<Layer>, acts: seq<Action>, i: nat)
    requires IsRun(run, acts) && i < |run|
    ensures Inv(run[i])
  {
    if i == 0 {
      forall s | 0 <= s < |run[0].sockets|
        ensures CountedSet(run[0].selectors, s) == {}
      {
      }
    } else {
      RunsKeepInv(run, acts, i - 1);
      assert StepAt(run, acts, i - 1);
      StepKeepsInv(run[i - 1], acts[i - 1]);
    }
  }

  /** No lost wakeup: in every run, when a selector sleeps and a socket it watches has an event it asked for,
      its semaphore is set, or a running callback for that socket has yet to visit it. */
  lemma SleepersAreWoken(run: seq<Layer>, acts: seq<Action>, i: nat, q: nat, s: nat)
    requires IsRun(run, acts) && i < |run|
    requires q in run[i].selectors && run[i].selectors[q].phase.Sleeping? && run[i].selectors[q].interest.Watches(s)
    requires s < |run[i].sockets| && Pending(run[i].sockets[s], run[i].selectors[q].interest, s)
    ensures run[i].selectors[q].sem > 0 || (Shape(run[i]) && IsCovered(run[i], q, s))
  {
    RunsKeepInv(run, acts, i);
  }

  /** The only readiness a sleeper can miss is data left over from an earlier read. */
  lemma OnlyLeftoverIsMissed(run: seq<Layer>, acts: seq<Action>, i: nat, q: nat, s: nat)
    requires IsRun(run, acts) && i < |run|
    requires q in run[i].selectors && run[i].selectors[q].phase.Sleeping? && run[i].selectors[q].interest.Watches(s)
    requires s < |run[i].sockets| && ScanHit(run[i].sockets[s], run[i].selectors[q].interest, s)
    requires Shape(run[i]) && run[i].selectors[q].sem == 0 && !IsCovered(run[i], q, s)
    ensures s in run[i].selectors[q].interest.read && run[i].sockets[s].lastdata && run[i].sockets[s].rcvevent <= 0
  {
    RunsKeepInv(run, acts, i);
  }

  /** Selector q has scanned socket s for good: it has hit, gives up, or found no leftover data it looks for. */
  predicate ScannedWithout(l: Layer, q: nat, s: nat) {
    && q in l.selectors && s < |l.sockets|
    && var x := l.selectors[q];
       var quiet := s !in x.interest.read || !l.sockets[s].lastdata;
       match x.phase
       case Counting(_) => false
       case Rescanning(i, hit) => hit || (s < i && quiet)
       case Sleeping => quiet
       case Uncounting(_) => true
  }

  /** Selector q is about to scan socket s. */
  predicate Scans(l: Layer, q: nat, s: nat) {
    && q in l.selectors && l.selectors[q].phase.Rescanning?
    && l.selectors[q].phase.i == s < l.selectors[q].interest.maxfdp1
  }

  lemma ScanIsFinal(l: Layer, q: nat, s: nat)
    requires Shape(l) && Scans(l, q, s)
    ensures ScannedWithout(Next(l, Rescan(q)), q, s)
  {
  }

  lemma StepKeepsScanned(l: Layer, a: Action, q: nat, s: nat)
    requires Shape(l) && Enabled(l, a) && ScannedWithout(l, q, s)
    requires a != Leftover(s, true) && a != Unlink(q)
    ensures ScannedWithout(Next(l, a), q, s)
  {
    match a
    case Callback(w, t, evt) =>
      var m := l.(sockets := l.sockets[t := Occur(l.sockets[t], evt)]);
      assert ScannedWithout(m, q, s);
      if m.sockets[t].waiting != 0 && m.list != [] {
        assert m.list[0] in m.list;
        VisitKeepsScanned(m, w, t, m.list[0], q, s);
      }
    case Walk(w) =>
      var t := NextEntry(l, l.walkers[w]);
      if t.Entry? {
        assert t.q in l.list;
        VisitKeepsScanned(l, w, l.walkers[w].sock, t.q, q, s);
      }
    case _ => OtherStepKeepsScanned(l, a, q, s);
  }

  lemma VisitKeepsScanned(l: Layer, w: nat, t: nat, e: nat, q: nat, s: nat)
    requires e in l.selectors && t < |l.sockets| && ScannedWithout(l, q, s)
    ensures ScannedWithout(Visit(l, w, t, e), q, s)
  {
  }

  lemma OtherStepKeepsScanned(l: Layer, a: Action, q: nat, s: nat)
    requires Shape(l) && Enabled(l, a) && ScannedWithout(l, q, s)
    requires a != Leftover(s, true) && a != Unlink(q) && !a.Callback? && !a.Walk?
    ensures ScannedWithout(Next(l, a), q, s)
  {
  }

  lemma StepStaysScanned(l: Layer, a: Action, m: Layer, q: nat, s: nat)
    requires IsStep(l, a, m)
    requires (a == Rescan(q) && Scans(l, q, s)) || (ScannedWithout(l, q, s) && a != Leftover(s, true) && a != Unlink(q))
    ensures ScannedWithout(m, q, s)
  {
    if ScannedWithout(l, q, s) && a != Leftover(s, true) && a != Unlink(q) {
      StepKeepsScanned(l, a, q, s);
    } else {
      ScanIsFinal(l, q, s);
    }
  }

  lemma {:induction false} StaysScanned(run: seq<Layer>, acts: seq<Action>, r: nat, i: nat, q: nat, s: nat)
    requires IsRun(run, acts) && r < i < |run|
    requires acts[r] == Rescan(q) && Scans(run[r], q, s)
    requires forall k :: r < k < i ==> acts[k] != Leftover(s, true) && acts[k] != Unlink(q)
    ensures ScannedWithout(run[i], q, s)
    decreases i
  {
    if r + 1 < i {
      StaysScanned(run, acts, r, i - 1, q, s);
    }
    assert StepAt(run, acts, i - 1);
    StepStaysScanned(run[i - 1], acts[i - 1], run[i], q, s);
  }

  /** If nobody leaves data over on a socket after the selector's rescan of it, then whatever the scan would
      report for that socket, a sleeping selector is signalled, or a running callback has yet to visit it. */
  lemma WithoutLeftoverNothingIsMissed(run: seq<Layer>, acts: seq<Action>, r: nat, i: nat, q: nat, s: nat)
    requires IsRun(run, acts) && r < i < |run|
    requires acts[r] == Rescan(q) && Scans(run[r], q, s)
    requires forall k :: r < k < i ==> acts[k] != Leftover(s, true) && acts[k] != Unlink(q)
    requires q in run[i].selectors && run[i].selectors[q].phase.Sleeping? && run[i].selectors[q].interest.Watches(s)
    requires s < |run[i].sockets| && ScanHit(run[i].sockets[s], run[i].selectors[q].interest, s)
    ensures run[i].selectors[q].sem > 0 || (Shape(run[i]) && IsCovered(run[i], q, s))
  {
    StaysScanned(run, acts, r, i, q, s);
    SleepersAreWoken(run, acts, i, q, s);
  }

  // ---------------------------------------------------------------- the walk gets there

  /** n regions of walker w, with nobody else running; a walk that is over stays over. */
  ghost predicate WalksAlone(w: nat, walk: seq<Layer>) {
    forall i {:trigger RegionAt(w, walk, i)} :: 0 <= i < |walk| - 1 ==> RegionAt(w, walk, i)
  }

  ghost predicate RegionAt(w: nat, walk: seq<Layer>, i: nat)
    requires i < |walk| - 1
  {
    Shape(walk[i]) && Enabled(walk[i], Walk(w)) && walk[i + 1] == WalkStep(walk[i], w)
  }

  /** One more region before a walk. */
  lemma WalksOn(l: Layer, w: nat, rest: seq<Layer>) returns (walk: seq<Layer>)
    requires Shape(l) && Enabled(l, Walk(w)) && rest != [] && rest[0] == WalkStep(l, w) && WalksAlone(w, rest)
    ensures |walk| == |rest| + 1 && walk[0] == l && walk[|walk| - 1] == rest[|rest| - 1] && WalksAlone(w, walk)
  {
    walk := [l] + rest;
    forall i | 0 <= i < |walk| - 1
      ensures RegionAt(w, walk, i)
    {
      assert i > 0 ==> RegionAt(w, rest, i - 1);
    }
  }

  /** A covering walker, left to run, signals the selector within as many regions as the list is long. */
  lemma {:induction false} WalkSignals(l: Layer, w: nat, q: nat, s: nat) returns (walk: seq<Layer>)
    requires Shape(l) && q in l.selectors && s < |l.sockets| && Covers(l, w, q, s)
    requires Pending(l.sockets[s], l.selectors[q].interest, s)
    ensures |walk| == 1 + IndexOf(l.list, q) - Position(l, w) && walk[0] == l && WalksAlone(w, walk)
    ensures q in walk[|walk| - 1].selectors && walk[|walk| - 1].selectors[q].signalled
    decreases IndexOf(l.list, q) - Position(l, w)
  {
    OneRegionOn(l, w, q, s);
    walk := [WalkStep(l, w)];
    if IndexOf(l.list, q) != Position(l, w) + 1 {
      walk := WalkSignals(walk[0], w, q, s);
    }
    walk := WalksOn(l, w, walk);
  }

  /** One region of a covering walker: it signals q, or comes one entry closer. */
  lemma OneRegionOn(l: Layer, w: nat, q: nat, s: nat)
    requires Shape(l) && q in l.selectors && s < |l.sockets| && Covers(l, w, q, s)
    requires Pending(l.sockets[s], l.selectors[q].interest, s)
    ensures Shape(WalkStep(l, w))
    ensures var m := WalkStep(l, w);
      && w in m.walkers && q in m.selectors && m.list == l.list && m.sockets == l.sockets
      && m.selectors[q].interest == l.selectors[q].interest
      && Position(m, w) == Position(l, w) + 1
      && if IndexOf(l.list, q) == Position(m, w) then m.selectors[q].signalled else Covers(m, w, q, s)
  {
    NextIsAhead(l, w);
    VisitShape(l, w, s, l.list[Position(l, w) + 1]);
  }

  /** A walker's next entry is the one behind where it stands, or the first one if it starts over. */
  lemma NextIsAhead(l: Layer, w: nat)
    requires Shape(l) && w in l.walkers && Position(l, w) + 1 < |l.list|
    ensures var e := l.list[Position(l, w) + 1];
      NextEntry(l, l.walkers[w]) == Entry(e) && e in l.selectors && IndexOf(l.list, e) == Position(l, w) + 1
  {
    IndexIsUnique(l.list, Position(l, w) + 1);
    assert l.list[Position(l, w) + 1] in l.list;
  }

  // ---------------------------------------------------------------- what is not announced

  /** A run goes on with any enabled step. */
  lemma Extend(run: seq<Layer>, acts: seq<Action>, a: Action, l: Layer) returns (longer: seq<Layer>, more: seq<Action>)
    requires IsRun(run, acts) && IsStep(run[|run| - 1], a, l)
    ensures IsRun(longer, more) && longer[|longer| - 1] == l && more == acts + [a]
  {
    longer, more := run + [l], acts + [a];
    forall i | 0 <= i < |more|
      ensures StepAt(longer, more, i)
    {
      assert i < |acts| ==> StepAt(run, acts, i);
    }
  }

  /** Data left over from an earlier read makes lwip_selscan report a socket readable, but storing it is no
      event: a selector can sleep on a readable socket with nobody about to wake it. Here a buffer arrives, a
      reader fetches it, and stores what it has not consumed after the selector's rescan. */
  lemma LeftoverIsNotAnnounced() returns (run: seq<Layer>, acts: seq<Action>)
    ensures IsRun(run, acts)
    ensures var l := run[|run| - 1];
      && |l.sockets| == 1 && 0 in l.selectors && l.selectors[0].phase.Sleeping?
      && ScanHit(l.sockets[0], l.selectors[0].interest, 0)
      && l.selectors[0].sem == 0 && l.walkers == map[]
    ensures [Callback(0, 0, RcvPlus), Callback(0, 0, RcvMinus)] <= acts
  {
    run, acts := BufferComes();
    OneSelectorJoins();
    run, acts := Extend(run, acts, Register(0, Interest(1, {0}, {}, {})), OneSelector(false, 0, Counting(0)));
    OneSelectorCounts();
    run, acts := Extend(run, acts, Count(0), OneSelector(false, 1, Counting(1)));
    OneSelectorCounted();
    run, acts := Extend(run, acts, Count(0), OneSelector(false, 1, Rescanning(0, false)));
    OneSelectorRescans();
    run, acts := Extend(run, acts, Rescan(0), OneSelector(false, 1, Rescanning(1, false)));
    OneSelectorMisses();
    run, acts := Extend(run, acts, Leftover(0, true), OneSelector(true, 1, Rescanning(1, false)));
    run, acts := Extend(run, acts, Rescan(0), OneSelector(true, 1, Sleeping));
  }

  /** One socket with a number of pending receive events, and nobody in select. */
  function NoSelector(rcvevent: int): Layer {
    Layer([Sock(false, rcvevent, false, false, 0)], [], 0, map[], map[])
  }

  lemma BufferComes() returns (run: seq<Layer>, acts: seq<Action>)
    ensures IsRun(run, acts) && run[|run| - 1] == NoSelector(0)
    ensures acts == [Callback(0, 0, RcvPlus), Callback(0, 0, RcvMinus)]
  {
    run, acts := [NoSelector(0)], [];
    assert Shape(NoSelector(0)) && Next(NoSelector(0), Callback(0, 0, RcvPlus)) == NoSelector(1);
    run, acts := Extend(run, acts, Callback(0, 0, RcvPlus), NoSelector(1));
    assert Shape(NoSelector(1)) && Next(NoSelector(1), Callback(0, 0, RcvMinus)) == NoSelector(0);
    run, acts := Extend(run, acts, Callback(0, 0, RcvMinus), NoSelector(0));
  }

  lemma OneSelectorJoins()
    ensures IsStep(NoSelector(0), Register(0, Interest(1, {0}, {}, {})), OneSelector(false, 0, Counting(0)))
  {
  }

  lemma OneSelectorCounts()
    ensures IsStep(OneSelector(false, 0, Counting(0)), Count(0), OneSelector(false, 1, Counting(1)))
  {
  }

  lemma OneSelectorCounted()
    ensures IsStep(OneSelector(false, 1, Counting(1)), Count(0), OneSelector(false, 1, Rescanning(0, false)))
  {
  }

  lemma OneSelectorRescans()
    ensures IsStep(OneSelector(false, 1, Rescanning(0, false)), Rescan(0), OneSelector(false, 1, Rescanning(1, false)))
  {
  }

  lemma OneSelectorMisses()
    ensures IsStep(OneSelector(false, 1, Rescanning(1, false)), Leftover(0, true), OneSelector(true, 1, Rescanning(1, false)))
    ensures IsStep(OneSelector(true, 1, Rescanning(1, false)), Rescan(0), OneSelector(true, 1, Sleeping))
  {
  }

  /** One socket, and one selector that watches it for reading. */
  function OneSelector(lastdata: bool, waiting: int, p: Phase): (l: Layer)
    ensures Shape(l)
  {
    Layer([Sock(lastdata, 0, false, false, waiting)], [0], 1,
          map[0 := Selector(Interest(1, {0}, {}, {}), p, false, 0)], map[])
  }
}