/** dns.c: the table of requests, driven by timer ticks, responses and new requests. */
module DnsTable {

  /** DNS_MAX_RETRIES, and which of the DNS_MAX_SERVERS server addresses are set. */
  datatype Config = Config(retries: nat, servers: seq<bool>) {
    predicate Valid() {
      0 < retries < 256 && 0 < |servers| < 256 && servers[0]
    }
  }

  datatype State = UNUSED | ASKING | DONE

  /** struct dns_table_entry without the name; arg identifies the request. The state NEW lasts only from
      dns_enqueue's filling in the entry to the check of the entry that it ends with. */
  datatype Entry = Entry(state: State, numdns: nat, tmr: nat, retries: nat, seqno: nat, ttl: nat, found: bool, arg: nat)

  // ---------------------------------------------------------------- one tick of one entry

  /** dns_check_entry on an entry that is being asked for: its new value, None when it has timed out. */
  datatype Checked = Waiting(e: Entry) | TimedOut

  function CheckAsking(c: Config, e: Entry): Checked
    requires c.Valid() && 0 < e.tmr && e.numdns < |c.servers|
  {
    if e.tmr - 1 != 0 then Waiting(e.(tmr := e.tmr - 1))
    else if e.retries + 1 == c.retries then
      if e.numdns + 1 < |c.servers| && c.servers[e.numdns + 1] then
        Waiting(e.(numdns := e.numdns + 1, tmr := 1, retries := 0))
      else TimedOut
    else Waiting(e.(tmr := e.retries + 1, retries := e.retries + 1))
  }

  /** The waits still to come on the same server: r + 1 ticks, then r + 2, up to one less than the retries. */
  function WaitsFrom(r: nat, retries: nat): nat
    decreases retries - r
  {
    if r + 1 >= retries then 0 else r + 1 + WaitsFrom(r + 1, retries)
  }

  /** Ticks spent on one server. */
  function PerServer(c: Config): nat {
    1 + WaitsFrom(0, c.retries)
  }

  /** Servers set, one after the other, from the n-th on. */
  function ServersFrom(c: Config, n: nat): nat
    decreases |c.servers| - n
  {
    if n < |c.servers| && c.servers[n] then 1 + ServersFrom(c, n + 1) else 0
  }

  /** Ticks until an unanswered entry times out. */
  function TicksLeft(c: Config, e: Entry): nat {
    e.tmr + WaitsFrom(e.retries, c.retries) + ServersFrom(c, e.numdns + 1) * PerServer(c)
  }

  ghost predicate AskingOk(c: Config, e: Entry) {
    0 < e.tmr < 256 && e.retries < c.retries && e.numdns < |c.servers| && c.servers[e.numdns]
  }

  /** A new request's entry, its first query sent; a time to live left from before means nothing yet. */
  function Fresh(seqno: nat, ttl: nat, found: bool, arg: nat): Entry {
    Entry(ASKING, 0, 1, 0, seqno, ttl, found, arg)
  }

  /** The next tick is an entry's last: no wait, no retry and no further server is left. */
  predicate IsLastTick(c: Config, e: Entry) {
    e.tmr == 1 && e.retries + 1 == c.retries && !(e.numdns + 1 < |c.servers| && c.servers[e.numdns + 1])
  }

  lemma LastTickIsLast(c: Config, e: Entry)
    requires c.Valid() && AskingOk(c, e)
    ensures IsLastTick(c, e) <==> TicksLeft(c, e) == 1
  {
    CheckCountsDown(c, e);
  }

  lemma {:induction false} WaitsSum(r: nat, retries: nat)
    requires r < retries
    ensures 2 * WaitsFrom(r, retries) == retries * (retries - 1) - r * (r + 1)
    decreases retries - r
  {
    if r + 1 < retries {
      WaitsSum(r + 1, retries);
      assert (r + 1) * (r + 2) == r * (r + 1) + 2 * (r + 1);
    } else {
      assert retries == r + 1;
    }
  }

  /** On each server the waits are 1, 1, 2, ..., retries - 1 ticks. */
  lemma PerServerIs(c: Config)
    requires c.Valid()
    ensures PerServer(c) == 1 + c.retries * (c.retries - 1) / 2
  {
    WaitsSum(0, c.retries);
  }

  /** A tick brings a waiting entry exactly one tick closer to its timeout, and times it out at the last one. */
  lemma CheckCountsDown(c: Config, e: Entry)
    requires c.Valid() && AskingOk(c, e)
    ensures match CheckAsking(c, e)
      case TimedOut => TicksLeft(c, e) == 1
      case Waiting(d) =>
        && AskingOk(c, d) && TicksLeft(c, e) == TicksLeft(c, d) + 1
        && d.state == e.state && d.arg == e.arg && d.found == e.found && d.seqno == e.seqno
  {
    if e.tmr == 1 && e.retries + 1 == c.retries && ServersFrom(c, e.numdns + 1) > 0 {
      var s, p := ServersFrom(c, e.numdns + 1), PerServer(c);
      assert s == 1 + ServersFrom(c, e.numdns + 2);
      assert s * p == p + ServersFrom(c, e.numdns + 2) * p;
    }
  }

  /** The entry after n ticks without a response. */
  function AfterTicks(c: Config, e: Entry, n: nat): (r: Checked)
    requires c.Valid() && AskingOk(c, e)
    ensures r.Waiting? ==> AskingOk(c, r.e)
    decreases n
  {
    if n == 0 then Waiting(e)
    else
      CheckCountsDown(c, e);
      match CheckAsking(c, e)
      case TimedOut => TimedOut
      case Waiting(d) => AfterTicks(c, d, n - 1)
  }

  /** An unanswered entry times out at exactly its TicksLeft-th tick. */
  lemma {:induction false} TimesOutExactly(c: Config, e: Entry, n: nat)
    requires c.Valid() && AskingOk(c, e)
    ensures AfterTicks(c, e, n).TimedOut? <==> TicksLeft(c, e) <= n
    decreases n
  {
    CheckCountsDown(c, e);
    if 0 < n && CheckAsking(c, e).Waiting? {
      TimesOutExactly(c, CheckAsking(c, e).e, n - 1);
    }
  }

  lemma {:induction false} TicksAdd(c: Config, e: Entry, m: nat, n: nat)
    requires c.Valid() && AskingOk(c, e)
    ensures AfterTicks(c, e, m + n) ==
      match AfterTicks(c, e, m) case TimedOut => TimedOut case Waiting(d) => AfterTicks(c, d, n)
    decreases m
  {
    CheckCountsDown(c, e);
    if 0 < m && CheckAsking(c, e).Waiting? {
      TicksAdd(c, CheckAsking(c, e).e, m - 1, n);
    }
  }

  /** A tick that is not the last of a wait only shortens it. */
  lemma {:induction false} WaitsOut(c: Config, e: Entry, n: nat)
    requires c.Valid() && AskingOk(c, e) && n < e.tmr
    ensures AfterTicks(c, e, n) == Waiting(e.(tmr := e.tmr - n))
    decreases n
  {
    CheckCountsDown(c, e);
    if 0 < n {
      WaitsOut(c, e.(tmr := e.tmr - 1), n - 1);
    }
  }

  /** What the last tick of a wait does. */
  lemma WaitEnds(c: Config, e: Entry)
    requires c.Valid() && AskingOk(c, e)
    ensures AfterTicks(c, e, e.tmr) == CheckAsking(c, e.(tmr := 1))
  {
    WaitsOut(c, e, e.tmr - 1);
    TicksAdd(c, e, e.tmr - 1, 1);
    CheckCountsDown(c, e.(tmr := 1));
  }

  /** A server is asked again, for the r-th time, after 1 + r(r-1)/2 ticks: after 1, 2, 4, 7 and so on. */
  lemma {:induction false} AskedAgain(c: Config, e: Entry, r: nat)
    requires c.Valid() && AskingOk(c, e) && e.tmr == 1 && e.retries == 0 && 0 < r < c.retries
    ensures AfterTicks(c, e, 1 + r * (r - 1) / 2) == Waiting(e.(tmr := r, retries := r))
    decreases r
  {
    if r == 1 {
      WaitEnds(c, e);
    } else {
      var q := r - 1;
      AskedAgain(c, e, q);
      assert q * (q - 1) / 2 + q == r * q / 2 by { assert r * q == q * (q - 1) + 2 * q; }
      TicksAdd(c, e, 1 + q * (q - 1) / 2, q);
      WaitEnds(c, e.(tmr := q, retries := q));
    }
  }

  /** After 1 + R(R-1)/2 ticks, for R retries, the next server is asked, or the request is over if none is set. */
  lemma AsksNextServer(c: Config, e: Entry)
    requires c.Valid() && AskingOk(c, e) && e.tmr == 1 && e.retries == 0
    ensures AfterTicks(c, e, 1 + c.retries * (c.retries - 1) / 2) ==
      if e.numdns + 1 < |c.servers| && c.servers[e.numdns + 1] then Waiting(e.(numdns := e.numdns + 1)) else TimedOut
  {
    var q := c.retries - 1;
    if q == 0 {
      WaitEnds(c, e);
    } else {
      AskedAgain(c, e, q);
      assert q * (q - 1) / 2 + q == c.retries * q / 2 by { assert c.retries * q == q * (q - 1) + 2 * q; }
      TicksAdd(c, e, 1 + q * (q - 1) / 2, q);
      WaitEnds(c, e.(tmr := q, retries := q));
    }
  }

  lemma {:induction false} ServersAtMost(c: Config, n: nat)
    requires n <= |c.servers|
    ensures ServersFrom(c, n) <= |c.servers| - n
    decreases |c.servers| - n
  {
    if n < |c.servers| && c.servers[n] {
      ServersAtMost(c, n + 1);
    }
  }

  /** A request is timed out after S * (1 + R(R-1)/2) ticks without an answer, for R retries and S servers set,
      so within N * (1 + R(R-1)/2) ticks for N servers. */
  lemma RequestTimesOut(c: Config, seqno: nat, ttl: nat, found: bool, arg: nat, n: nat)
    requires c.Valid()
    ensures var e, per := Fresh(seqno, ttl, found, arg), 1 + c.retries * (c.retries - 1) / 2;
      && AskingOk(c, e)
      && (AfterTicks(c, e, n).TimedOut? <==> ServersFrom(c, 0) * per <= n)
      && ServersFrom(c, 0) * per <= |c.servers| * per
  {
    PerServerIs(c);
    FreshTicks(c, seqno, ttl, found, arg);
    TimesOutExactly(c, Fresh(seqno, ttl, found, arg), n);
    ServersAtMost(c, 0);
    TimesAtMost(ServersFrom(c, 0), |c.servers|, PerServer(c));
  }

  lemma FreshTicks(c: Config, seqno: nat, ttl: nat, found: bool, arg: nat)
    requires c.Valid()
    ensures TicksLeft(c, Fresh(seqno, ttl, found, arg)) == ServersFrom(c, 0) * PerServer(c)
  {
    var s, p := ServersFrom(c, 0), PerServer(c);
    assert s == 1 + ServersFrom(c, 1);
    assert s * p == p + ServersFrom(c, 1) * p;
  }

  lemma TimesAtMost(a: nat, b: nat, p: nat)
    requires a <= b
    ensures a * p <= b * p
  {
  }

  /** The defaults: 4 retries and 2 servers make 14 ticks. */
  lemma DefaultTimeout()
    ensures var c := Config(4, [true, true]); ServersFrom(c, 0) * PerServer(c) == 14
  {
    var c := Config(4, [true, true]);
    assert WaitsFrom(1, 4) == 5;
    assert ServersFrom(c, 1) == 1;
  }

  // ---------------------------------------------------------------- the table

  const TTL_VALUES: nat := 0x1_0000_0000
  const MAX_TTL: nat := 604800

  /** dns_check_entry: the entry after a tick. A time to live of zero wraps around. */
  function NextEntry(c: Config, e: Entry): Entry
    requires c.Valid() && (e.state.ASKING? ==> 0 < e.tmr && e.numdns < |c.servers|)
  {
    match e.state
    case UNUSED => e
    case DONE =>
      var ttl := if e.ttl == 0 then TTL_VALUES - 1 else e.ttl - 1;
      if ttl == 0 then e.(state := UNUSED, ttl := 0, found := false) else e.(ttl := ttl)
    case ASKING =>
      match CheckAsking(c, e)
      case Waiting(d) => d
      case TimedOut => e.(state := UNUSED, tmr := 0, retries := c.retries, found := false)
  }

  /** A completed or unused entry after n ticks. */
  function Kept(c: Config, e: Entry, n: nat): (d: Entry)
    requires c.Valid() && !e.state.ASKING?
    ensures !d.state.ASKING?
  {
    if n == 0 then e else NextEntry(c, Kept(c, e, n - 1))
  }

  /** A completed entry is kept for as many ticks as its time to live, for 2^32 if that is zero, and is unused from
      then on. */
  lemma {:induction false} CompletedExpires(c: Config, e: Entry, n: nat)
    requires c.Valid() && e.state.DONE?
    ensures var life := if e.ttl == 0 then 4294967296 else e.ttl;
      if n < life then Kept(c, e, n) == e.(ttl := if n == 0 then e.ttl else life - n) else Kept(c, e, n).state.UNUSED?
    decreases n
  {
    if 0 < n {
      CompletedExpires(c, e, n - 1);
    }
  }

  /** What a tick leaves of an entry, seen from its request. */
  ghost predicate NextKeeps(c: Config, e: Entry, d: Entry) {
    if d.state.ASKING?
    then e.state.ASKING? && d.arg == e.arg && !IsLastTick(c, e) && TicksLeft(c, d) == TicksLeft(c, e) - 1
    else e.state.ASKING? ==> IsLastTick(c, e)
  }

  lemma NextStep(c: Config, e: Entry)
    requires c.Valid() && (e.state.ASKING? ==> AskingOk(c, e))
    ensures NextKeeps(c, e, NextEntry(c, e))
  {
    if e.state.ASKING? {
      CheckCountsDown(c, e);
    }
  }

  /** What a response to an entry comes to: an error or no usable answer, or an address with its time to live. */
  datatype Response = Failure | Answer(ttl: nat)

  /** Age of a completed entry in requests, as the C expression has it: negative once dns_seqno has wrapped. */
  function Age(seqno: nat, e: Entry): int {
    seqno - e.seqno
  }

  /** Entry k is the completed one to be replaced: the first of the oldest, or entry 0. */
  ghost predicate IsOldest(es: seq<Entry>, seqno: nat, k: nat) {
    && k < |es| && es[k].state.DONE?
    && (forall j :: 0 <= j < |es| && es[j].state.DONE? && 0 < Age(seqno, es[j]) ==>
          0 < Age(seqno, es[k]) && Age(seqno, es[j]) <= Age(seqno, es[k]) && (Age(seqno, es[j]) == Age(seqno, es[k]) ==> k <= j))
    && (Age(seqno, es[k]) <= 0 ==> k == 0)
  }

  ghost predicate IsFirstUnused(es: seq<Entry>, k: nat) {
    k < |es| && es[k].state.UNUSED? && forall j :: 0 <= j < k ==> !es[j].state.UNUSED?
  }

  ghost predicate NoneUnused(es: seq<Entry>) {
    forall j :: 0 <= j < |es| ==> !es[j].state.UNUSED?
  }

  /** With no entry unused, the request goes to a completed one that no completed one is older than, as long as
      dns_seqno has not wrapped since they were filled in. */
  lemma OldestIsReplaced(es: seq<Entry>, seqno: nat, k: nat)
    requires IsSlot(es, seqno, k) && NoneUnused(es)
    requires forall j :: 0 <= j < |es| && es[j].state.DONE? ==> es[j].seqno <= seqno
    ensures es[k].state.DONE? && forall j :: 0 <= j < |es| && es[j].state.DONE? ==> es[k].seqno <= es[j].seqno
  {
  }

  datatype Event = TimerTick | ResponseTo(id: nat, response: Response) | Request(found: bool)

  /** Entry k is the one a new request goes to. */
  ghost predicate IsSlot(es: seq<Entry>, seqno: nat, k: nat) {
    IsFirstUnused(es, k) || (NoneUnused(es) && IsOldest(es, seqno, k))
  }

  /** The timer ticks among the first n events. */
  function Ticks(events: seq<Event>, n: nat): nat
    requires n <= |events|
  {
    if n == 0 then 0 else Ticks(events, n - 1) + if events[n - 1].TimerTick? then 1 else 0
  }

  class Table {
    const c: Config
    const table: array<Entry>
    var seqno: nat                    // dns_seqno, a u8_t
    ghost var accepted: set<nat>      // requests answered with ERR_INPROGRESS
    ghost var wanting: set<nat>       // those that came with a callback
    ghost var calls: multiset<nat>    // callbacks made so far

    /** Request r waits for an answer. */
    ghost predicate Pending(r: nat)
      reads table
    {
      exists i :: 0 <= i < table.Length && table[i].state.ASKING? && table[i].arg == r
    }

    /** Request r is the one that entry i asks for. */
    predicate AskedBy(i: nat, r: nat)
      reads table
    {
      i < table.Length && table[i].state.ASKING? && table[i].arg == r
    }

    ghost predicate EntryOk(e: Entry)
      reads this
    {
      e.state.ASKING? ==> AskingOk(c, e) && e.arg in accepted && (e.found <==> e.arg in wanting)
    }

    /** Each accepted request is pending in one entry and uncalled, or over and called back once. */
    ghost predicate Valid()
      reads this, table
    {
      && c.Valid() && 0 < table.Length < 256 && seqno < 256
      && (forall i :: 0 <= i < table.Length ==> EntryOk(table[i]))
      && (forall i, j :: 0 <= i < j < table.Length && table[i].state.ASKING? && table[j].state.ASKING? ==> table[i].arg != table[j].arg)
      && wanting <= accepted
      && forall r :: calls[r] == if r in wanting && !Pending(r) then 1 else 0
    }

    constructor (c: Config, size: nat)
      requires c.Valid() && 0 < size < 256
      ensures Valid() && fresh(table) && this.c == c && table.Length == size
      ensures accepted == {} && calls == multiset{}
    {
      this.c := c;
      table := new Entry[size](_ => Entry(UNUSED, 0, 0, 0, 0, 0, false, 0));
      seqno, accepted, wanting, calls := 0, {}, {}, multiset{};
    }

    /** Entry i is over: its callback is made, if it has one, and it is no longer asked for. */
    method Finish(i: nat, e: Entry)
      requires Valid() && i < table.Length && table[i].state.ASKING? && !e.state.ASKING?
      modifies table, this`calls
      ensures Valid() && table[..] == old(table[..])[i := e]
      ensures calls == old(calls) + if old(table[i]).found then multiset{old(table[i]).arg} else multiset{}
    {
      ghost var r := table[i].arg;
      calls := calls + if table[i].found then multiset{r} else multiset{};
      label before:
      table[i] := e;
      forall q
        ensures Pending(q) <==> old(Pending(q)) && q != r
      {
        if old(Pending(q)) && q != r {
          var j :| 0 <= j < table.Length && old(table[j]).state.ASKING? && old(table[j]).arg == q;
          assert table[j].state.ASKING? && table[j].arg == q;
        }
      }
    }

    /** dns_check_entry */
    method CheckEntry(i: nat)
      requires Valid() && i < table.Length
      modifies table, this`calls
      ensures Valid() && table[..] == old(table[..])[i := NextEntry(c, old(table[i]))]
      ensures calls == old(calls) +
        if old(table[i]).state.ASKING? && old(table[i]).found && IsLastTick(c, old(table[i]))
        then multiset{old(table[i]).arg} else multiset{}
    {
      var e := table[i];
      assert EntryOk(e);
      match e.state
      case UNUSED =>
        assert table[..] == old(table[..])[i := e];
      case DONE =>
        var ttl := if e.ttl == 0 then TTL_VALUES - 1 else e.ttl - 1;
        e := e.(ttl := ttl);
        if ttl == 0 {
          e := e.(state := UNUSED, found := false);
        }
        Replace(i, e);
      case ASKING =>
        CheckCountsDown(c, e);
        e := e.(tmr := e.tmr - 1);
        if e.tmr == 0 {
          e := e.(retries := e.retries + 1);
          if e.retries == c.retries {
            if e.numdns + 1 < |c.servers| && c.servers[e.numdns + 1] {
              e := e.(numdns := e.numdns + 1, tmr := 1, retries := 0);
            } else {
              e := e.(state := UNUSED, found := false);
              Finish(i, e);
              return;
            }
          } else {
            e := e.(tmr := e.retries);
          }
        }
        Replace(i, e);
    }

    /** Writing an entry without changing what is pending. */
    method Replace(i: nat, e: Entry)
      requires Valid() && i < table.Length
      requires e.state.ASKING? <==> table[i].state.ASKING?
      requires e.state.ASKING? ==> e.arg == table[i].arg && EntryOk(e)
      modifies table
      ensures Valid() && table[..] == old(table[..])[i := e]
    {
      table[i] := e;
      forall q
        ensures Pending(q) <==> old(Pending(q))
      {
        if old(Pending(q)) {
          var j :| 0 <= j < table.Length && old(table[j]).state.ASKING? && old(table[j]).arg == q;
          assert table[j].state.ASKING? && table[j].arg == q;
        }
      }
    }

    /** dns_check_entries */
    method CheckEntries()
      requires Valid()
      modifies table, this`calls
      ensures Valid()
      ensures forall i :: 0 <= i < table.Length ==> old(EntryOk(table[i])) && table[i] == NextEntry(c, old(table[i]))
    {
      ghost var was := table[..];
      for i := 0 to table.Length
        invariant Valid()
        invariant forall j :: 0 <= j < table.Length ==> EntryOk(was[j])
        invariant forall j :: 0 <= j < i ==> table[j] == NextEntry(c, was[j])
        invariant table[i..] == was[i..]
      {
        assert table[i] == table[i..][0] == was[i];
        CheckEntry(i);
        assert table[i + 1..] == table[..][i + 1..];
      }
    }

    /** dns_tmr: one tick. Of the requests pending with a callback exactly those at their last tick are called
        back and are over; nobody else is called, and nothing becomes pending. */
    method Tick()
      requires Valid()
      modifies table, this`calls
      ensures Valid()
      ensures forall i :: 0 <= i < table.Length ==> table[i] == NextEntry(c, old(table[i]))
      ensures forall i: nat, r: nat :: old(AskedBy(i, r)) ==>
        if IsLastTick(c, old(table[i])) then !Pending(r)
        else AskedBy(i, r) && TicksLeft(c, table[i]) == TicksLeft(c, old(table[i])) - 1
      ensures forall i: nat, r: nat :: old(AskedBy(i, r)) && r in wanting ==>
        calls[r] == if IsLastTick(c, old(table[i])) then 1 else 0
      ensures forall r :: old(!Pending(r)) ==> !Pending(r) && calls[r] == old(calls[r])
    {
      ghost var es := table[..];
      CheckEntries();
      forall j | 0 <= j < table.Length
        ensures NextKeeps(c, es[j], table[j])
      {
        assert old(EntryOk(table[j]));
        NextStep(c, es[j]);
      }
      forall i: nat, r: nat | old(AskedBy(i, r)) && !IsLastTick(c, es[i])
        ensures Pending(r)
      {
        assert table[i].state.ASKING? && table[i].arg == r;
      }
    }

    /** dns_recv, from the transaction id on: only an entry that is asked for takes a response. */
    method Receive(id: nat, response: Response)
      requires Valid()
      modifies table, this`calls
      ensures Valid()
      ensures id >= table.Length || !old(table[id]).state.ASKING? ==> table[..] == old(table[..]) && calls == old(calls)
      ensures id < table.Length && old(table[id]).state.ASKING? ==>
        && calls == old(calls) + (if old(table[id]).found then multiset{old(table[id]).arg} else multiset{})
        && table[..] == old(table[..])[id :=
             match response
             case Failure => old(table[id]).(state := UNUSED, found := false)
             case Answer(ttl) => old(table[id]).(state := DONE, ttl := if ttl > MAX_TTL then MAX_TTL else ttl)]
    {
      if id < table.Length {
        var e := table[id];
        if e.state.ASKING? {
          match response
          case Failure => Finish(id, e.(state := UNUSED, found := false));
          case Answer(ttl) => Finish(id, e.(state := DONE, ttl := if ttl > MAX_TTL then MAX_TTL else ttl));
        }
      }
    }

    /** dns_enqueue of request r; k is the entry used. Callbacks do not call back in. */
    method Enqueue(r: nat, found: bool) returns (ok: bool, ghost k: nat)
      requires Valid() && r !in accepted
      modifies this, table
      ensures Valid()
      ensures ok ==> IsSlot(old(table[..]), old(seqno), k)
      ensures ok ==> table[..] == old(table[..])[k := Fresh(old(seqno), old(table[..])[k].ttl, found, r)] && Pending(r)
      ensures ok ==> k < table.Length && table[k].seqno == old(seqno) && table[k].found == found && table[k].arg == r
      ensures ok ==> accepted == old(accepted) + {r} && seqno == (old(seqno) + 1) % 256
      ensures !ok ==> table[..] == old(table[..]) && accepted == old(accepted) && seqno == old(seqno) && NoneUnused(table[..])
      ensures !ok ==> forall j :: 0 <= j < table.Length && table[j].state.DONE? ==> Age(seqno, table[j]) <= 0 && j != 0
      ensures calls == old(calls) && wanting == old(wanting) + if ok && found then {r} else {}
    {
      var i, found0 := FindSlot();
      ok, k := found0, i;
      if ok {
        Occupy(i, r, found);
      }
    }

    /** The search of dns_enqueue: the first unused entry, else the oldest completed one. */
    method FindSlot() returns (i: nat, ok: bool)
      requires Valid()
      ensures ok ==> IsSlot(table[..], seqno, i)
      ensures !ok ==> NoneUnused(table[..])
      ensures !ok ==> forall j :: 0 <= j < table.Length && table[j].state.DONE? ==> Age(seqno, table[j]) <= 0 && j != 0
    {
      var lseq: int, lseqi: nat := 0, 0;
      i := 0;
      while i < table.Length
        invariant lseqi <= i <= table.Length && 0 <= lseq && lseqi < table.Length
        invariant forall j :: 0 <= j < i ==> !table[j].state.UNUSED?
        invariant forall j :: 0 <= j < i && table[j].state.DONE? ==> Age(seqno, table[j]) <= lseq
        invariant forall j :: 0 <= j < i && table[j].state.DONE? && Age(seqno, table[j]) == lseq > 0 ==> lseqi <= j
        invariant if lseq == 0 then lseqi == 0 else table[lseqi].state.DONE? && Age(seqno, table[lseqi]) == lseq
      {
        var e := table[i];
        if e.state.UNUSED? {
          return i, true;
        }
        if e.state.DONE? && seqno - e.seqno > lseq {
          lseq, lseqi := seqno - e.seqno, i;
        }
        i := i + 1;
      }
      i, ok := lseqi, table[lseqi].state.DONE?;
    }

    /** Filling in entry i, and the check that sends the first query. */
    method Occupy(i: nat, r: nat, found: bool)
      requires Valid() && i < table.Length && !table[i].state.ASKING? && r !in accepted
      modifies this`seqno, this`accepted, this`wanting, table
      ensures Valid() && Pending(r)
      ensures table[..] == old(table[..])[i := Fresh(old(seqno), old(table[i]).ttl, found, r)]
      ensures accepted == old(accepted) + {r} && seqno == (old(seqno) + 1) % 256
      ensures wanting == old(wanting) + if found then {r} else {}
    {
      table[i] := Fresh(seqno, table[i].ttl, found, r);
      seqno := (seqno + 1) % 256;
      accepted := accepted + {r};
      wanting := wanting + if found then {r} else {};
      assert table[i].state.ASKING? && table[i].arg == r;
      forall q | q != r
        ensures Pending(q) <==> old(Pending(q))
      {
        if old(Pending(q)) {
          var j :| 0 <= j < table.Length && old(table[j]).state.ASKING? && old(table[j]).arg == q;
          assert table[j].state.ASKING? && table[j].arg == q;
        }
      }
      forall j | 0 <= j < table.Length
        ensures EntryOk(table[j])
      {
        assert j != i ==> old(EntryOk(table[j]));
      }
    }

    /** Any run of timer ticks, responses and requests, the latter numbered from first on: whatever happens,
        a request is never called back twice, nor called back and still pending, nor dropped uncalled. */
    method Run(events: seq<Event>, first: nat) returns (next: nat)
      requires Valid() && forall r :: r in accepted ==> r < first
      modifies this, table
      ensures Valid() && old(calls) <= calls && old(accepted) <= accepted
      ensures forall r :: r in accepted ==> r < next
      ensures forall r :: calls[r] <= 1 && (calls[r] == 1 <==> r in wanting && !Pending(r))
    {
      next := first;
      for i := 0 to |events|
        invariant Valid() && old(calls) <= calls && old(accepted) <= accepted
        invariant forall r :: r in accepted ==> r < next
      {
        match events[i]
        case TimerTick => Tick();
        case ResponseTo(id, response) => Receive(id, response);
        case Request(found) =>
          var ok, k := Enqueue(next, found);
          next := next + 1;
      }
    }

    /** Any event but a response to entry i: the request there comes closer to its timeout with a tick, is
        over with its last one, and stays as it is otherwise. A request that is over stays so. */
    method Unanswered(e: Event, i: nat, r: nat, first: nat) returns (next: nat)
      requires Valid() && r in accepted && forall q :: q in accepted ==> q < first
      requires e.ResponseTo? ==> e.id != i
      modifies this, table
      ensures Valid() && old(accepted) <= accepted && old(wanting) <= wanting
      ensures forall q :: q in accepted ==> q < next
      ensures old(!Pending(r)) ==> !Pending(r)
      ensures old(AskedBy(i, r)) ==>
        if e.TimerTick? && old(TicksLeft(c, table[i])) == 1 then !Pending(r)
        else AskedBy(i, r) && TicksLeft(c, table[i]) == old(TicksLeft(c, table[i])) - if e.TimerTick? then 1 else 0
    {
      next := first;
      match e
      case TimerTick =>
        if old(AskedBy(i, r)) {
          assert EntryOk(table[i]);
          LastTickIsLast(c, table[i]);
        }
        Tick();
      case ResponseTo(id, response) =>
        assert old(AskedBy(i, r)) ==> table[..][i] == old(table[..])[i];
        Receive(id, response);
        assert old(AskedBy(i, r)) ==> table[..][i] == old(table[..])[i];
      case Request(found) =>
        var ok, k := Enqueue(next, found);
        next := next + 1;
        assert old(AskedBy(i, r)) ==> table[..][i] == old(table[..])[i];
    }

    /** Any run without a response to entry i: the request there is called back, once, exactly if the run
        has as many ticks as it had left, and is pending until then. */
    method RunUnanswered(events: seq<Event>, i: nat, r: nat, first: nat) returns (next: nat)
      requires Valid() && AskedBy(i, r) && r in wanting && forall q :: q in accepted ==> q < first
      requires forall k :: 0 <= k < |events| && events[k].ResponseTo? ==> events[k].id != i
      modifies this, table
      ensures Valid() && forall q :: q in accepted ==> q < next
      ensures calls[r] == (if old(TicksLeft(c, table[i])) <= Ticks(events, |events|) then 1 else 0)
      ensures Pending(r) <==> calls[r] == 0
    {
      next := first;
      ghost var left := TicksLeft(c, table[i]);
      assert EntryOk(table[i]);
      for k := 0 to |events|
        invariant Valid() && r in wanting && r in accepted && forall q :: q in accepted ==> q < next
        invariant if left <= Ticks(events, k) then !Pending(r)
                  else AskedBy(i, r) && TicksLeft(c, table[i]) == left - Ticks(events, k)
      {
        next := Unanswered(events[k], i, r, next);
      }
      assert AskedBy(i, r) ==> Pending(r);
    }

    /** dns_enqueue when entry i is the one to be used. */
    method EnqueueAt(i: nat, r: nat)
      requires Valid() && r !in accepted && IsSlot(table[..], seqno, i)
      modifies this, table
      ensures Valid() && AskedBy(i, r) && r in wanting && accepted == old(accepted) + {r}
      ensures TicksLeft(c, table[i]) == ServersFrom(c, 0) * PerServer(c)
    {
      ghost var es, seq0 := table[..], seqno;
      var ok, k := Enqueue(r, true);
      OneSlot(es, seq0, i, k, ok);
      assert table[i] == table[..][i] == Fresh(seq0, es[i].ttl, true, r);
      FreshTicks(c, seq0, es[i].ttl, true, r);
    }

    /** A request that finds room, in entry i, and is never answered is called back exactly once, at the tick
        number S * (1 + R(R-1)/2) after it, for R retries and S servers set. */
    method RequestUnanswered(i: nat, r: nat, events: seq<Event>) returns (next: nat)
      requires Valid() && IsSlot(table[..], seqno, i) && forall q :: q in accepted ==> q < r
      requires forall k :: 0 <= k < |events| && events[k].ResponseTo? ==> events[k].id != i
      modifies this, table
      ensures Valid()
      ensures calls[r] ==
        if ServersFrom(c, 0) * (1 + c.retries * (c.retries - 1) / 2) <= Ticks(events, |events|) then 1 else 0
      ensures Pending(r) <==> calls[r] == 0
    {
      EnqueueAt(i, r);
      next := RunUnanswered(events, i, r, r + 1);
      PerServerIs(c);
    }
  }

  /** There is only one entry a request can go to, and with it the request is accepted. */
  lemma OneSlot(es: seq<Entry>, seqno: nat, i: nat, k: nat, ok: bool)
    requires IsSlot(es, seqno, i) && (ok ==> IsSlot(es, seqno, k))
    requires !ok ==> NoneUnused(es) && forall j :: 0 <= j < |es| && es[j].state.DONE? ==> Age(seqno, es[j]) <= 0 && j != 0
    ensures ok && k == i
  {
    if IsFirstUnused(es, i) {
      assert es[i].state.UNUSED?;
    }
    if ok && IsFirstUnused(es, k) {
      assert es[k].state.UNUSED?;
    }
  }
}
