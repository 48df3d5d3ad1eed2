/** Every run of mem_malloc, mem_free and mem_trim, and the live allocations it leaves. */
module HeapRuns {
  import opened HeapBlocks
  import opened HeapOps
  import opened HeapLaws
  import opened Heap

  /** The calls a program can make; blocks are named by the offset of their struct mem. */
  datatype Call = CallMalloc(n: nat) | CallFree(at: nat) | CallTrim(at: nat, n: nat)

  /** The heap, and for every live allocation the number of bytes asked for (or last trimmed to). */
  datatype Program = Program(blocks: Layout, live: map<nat, nat>)

  ghost predicate MallocStep(c: Config, s: Program, n: nat, t: Program) {
    n < c.width &&
    if n == 0 || Need(c, n) > c.size || NothingFits(c, s.blocks, Need(c, n)) then t == s
    else exists k ::
      && 0 <= k < |s.blocks| && IsFirstFit(c, s.blocks, k, Need(c, n))
      && t == Program(Place(c, s.blocks, k, Need(c, n)), s.live[s.blocks[k].at := n])
  }

  ghost predicate FreeStep(s: Program, at: nat, t: Program) {
    at in s.live &&
    exists k :: IsUsedBlock(s.blocks, k, at) && t == Program(Release(s.blocks, k), s.live - {at})
  }

  ghost predicate TrimStep(c: Config, s: Program, at: nat, n: nat, t: Program) {
    n < c.width && at in s.live &&
    exists k ::
      && IsUsedBlock(s.blocks, k, at)
      && if at + c.header + Need(c, n) > End(s.blocks, k) then t == s
      else t == Program(Shrink(c, s.blocks, k, Need(c, n)), s.live[at := n])
  }

  ghost predicate Step(c: Config, s: Program, call: Call, t: Program) {
    match call
    case CallMalloc(n) => MallocStep(c, s, n, t)
    case CallFree(at) => FreeStep(s, at, t)
    case CallTrim(at, n) => TrimStep(c, s, at, n, t)
  }

  ghost predicate IsRun(c: Config, run: seq<Program>, calls: seq<Call>) {
    && |run| == |calls| + 1
    && run[0] == Program(Initial(c), map[])
    && forall i :: 0 <= i < |calls| ==> Step(c, run[i], calls[i], run[i + 1])
  }

  /** The data area of a used block holds the bytes asked for, unless rounding the request wrapped, and not
      enough to spare for rounding and another block. */
  ghost predicate HoldsRequest(c: Config, e: (nat, nat), n: nat) {
    (RoundingWraps(c, n) || e.0 + c.header + n <= e.1) && SparesLittle(c, e.0, e.1, n)
  }

  /** The live allocations are exactly the handed-out extents, each holding its request. */
  ghost predicate Covered(c: Config, extents: set<(nat, nat)>, live: map<nat, nat>) {
    && (forall e :: e in extents ==> e.0 in live && HoldsRequest(c, e, live[e.0]))
    && (forall at :: at in live ==> exists e :: e in extents && e.0 == at)
  }

  ghost predicate Good(c: Config, s: Program) {
    WellFormed(c, s.blocks) && Covered(c, UsedExtents(s.blocks), s.live)
  }

  lemma AddCovered(c: Config, extents: set<(nat, nat)>, live: map<nat, nat>, x: (nat, nat), n: nat)
    requires Covered(c, extents, live) && HoldsRequest(c, x, n)
    requires forall e :: e in extents ==> e.0 != x.0
    ensures Covered(c, extents + {x}, live[x.0 := n])
  {
    var grown := live[x.0 := n];
    forall at | at in grown
      ensures exists e :: e in extents + {x} && e.0 == at
    {
      if at == x.0 {
        assert x in extents + {x};
      } else {
        var e :| e in extents && e.0 == at;
        assert e in extents + {x};
      }
    }
  }

  lemma RemoveCovered(c: Config, extents: set<(nat, nat)>, live: map<nat, nat>, x: (nat, nat))
    requires Covered(c, extents, live)
    requires forall e :: e in extents ==> (e == x <==> e.0 == x.0)
    ensures Covered(c, extents - {x}, live - {x.0})
  {
    forall at | at in live - {x.0}
      ensures exists e :: e in extents - {x} && e.0 == at
    {
      var e :| e in extents && e.0 == at;
      assert e in extents - {x};
    }
  }

  lemma ReplaceCovered(c: Config, extents: set<(nat, nat)>, live: map<nat, nat>, x: (nat, nat), end: nat, n: nat)
    requires Covered(c, extents, live) && HoldsRequest(c, (x.0, end), n)
    requires forall e :: e in extents ==> (e == x <==> e.0 == x.0)
    ensures Covered(c, extents - {x} + {(x.0, end)}, live[x.0 := n])
  {
    RemoveCovered(c, extents, live, x);
    AddCovered(c, extents - {x}, live - {x.0}, (x.0, end), n);
    assert (live - {x.0})[x.0 := n] == live[x.0 := n];
  }

  lemma MallocIsGood(c: Config, s: Program, n: nat, t: Program)
    requires c.Rounded() && Good(c, s) && MallocStep(c, s, n, t)
    ensures Good(c, t)
  {
    if t != s {
      var k :| 0 <= k < |s.blocks| && IsFirstFit(c, s.blocks, k, Need(c, n))
        && t == Program(Place(c, s.blocks, k, Need(c, n)), s.live[s.blocks[k].at := n]);
      PlacedIsGood(c, s, n, k);
    }
  }

  lemma PlacedIsGood(c: Config, s: Program, n: nat, k: nat)
    requires c.Rounded() && n < c.width && Good(c, s) && Fits(c, s.blocks, k, Need(c, n))
    ensures Good(c, Program(Place(c, s.blocks, k, Need(c, n)), s.live[s.blocks[k].at := n]))
  {
    var need := Need(c, n);
    var x := (s.blocks[k].at, PlacedEnd(c, s.blocks, k, need));
    assert c.min <= need && HoldsRequest(c, x, n) by {
      NeedIsAligned(c, n);
      BlockHoldsRequest(c, s.blocks, k, n);
      BlockSparesLittle(c, s.blocks, k, n);
    }
    PlaceKeeps(c, s.blocks, k, need);
    forall e | e in UsedExtents(s.blocks)
      ensures e.0 != x.0
    {
      FreshExtent(c, s.blocks, k, e.1);
    }
    AddCovered(c, UsedExtents(s.blocks), s.live, x, n);
  }

  lemma OnlyStart(c: Config, bs: Layout, k: nat)
    requires Chain(c, bs) && k + 1 < |bs| && bs[k].used
    ensures forall e :: e in UsedExtents(bs) ==> (e == (bs[k].at, End(bs, k)) <==> e.0 == bs[k].at)
  {
    forall e | e in UsedExtents(bs)
      ensures e == (bs[k].at, End(bs, k)) <==> e.0 == bs[k].at
    {
      ExtentStart(c, bs, k, e);
    }
  }

  lemma FreeIsGood(c: Config, s: Program, at: nat, t: Program)
    requires Good(c, s) && FreeStep(s, at, t)
    ensures Good(c, t)
  {
    var k :| IsUsedBlock(s.blocks, k, at) && t == Program(Release(s.blocks, k), s.live - {at});
    ReleaseKeeps(c, s.blocks, k);
    OnlyStart(c, s.blocks, k);
    RemoveCovered(c, UsedExtents(s.blocks), s.live, (at, End(s.blocks, k)));
  }

  lemma TrimIsGood(c: Config, s: Program, at: nat, n: nat, t: Program)
    requires c.Rounded() && Good(c, s) && TrimStep(c, s, at, n, t)
    ensures Good(c, t)
  {
    if t != s {
      var k :| IsUsedBlock(s.blocks, k, at) && at + c.header + Need(c, n) <= End(s.blocks, k)
        && t == Program(Shrink(c, s.blocks, k, Need(c, n)), s.live[at := n]);
      ShrunkIsGood(c, s, at, n, k);
    }
  }

  lemma ShrunkIsGood(c: Config, s: Program, at: nat, n: nat, k: nat)
    requires c.Rounded() && n < c.width && Good(c, s)
    requires IsUsedBlock(s.blocks, k, at) && at + c.header + Need(c, n) <= End(s.blocks, k)
    ensures Good(c, Program(Shrink(c, s.blocks, k, Need(c, n)), s.live[at := n]))
  {
    var end := ShrunkEnd(c, s.blocks, k, Need(c, n));
    assert c.min <= Need(c, n) && HoldsRequest(c, (at, end), n) by {
      NeedIsAligned(c, n);
      TrimmedBlockSparesLittle(c, s.blocks, k, n);
    }
    ShrinkKeeps(c, s.blocks, k, Need(c, n));
    OnlyStart(c, s.blocks, k);
    ReplaceCovered(c, UsedExtents(s.blocks), s.live, (at, End(s.blocks, k)), end, n);
  }

  lemma StepIsGood(c: Config, s: Program, call: Call, t: Program)
    requires c.Rounded() && Good(c, s) && Step(c, s, call, t)
    ensures Good(c, t)
  {
    match call
    case CallMalloc(n) => MallocIsGood(c, s, n, t);
    case CallFree(at) => FreeIsGood(c, s, at, t);
    case CallTrim(at, n) => TrimIsGood(c, s, at, n, t);
  }

  /** Every heap a run goes through is well formed, its live allocations are exactly its used blocks,
      and each holds the bytes asked for unless rounding the request left mem_size_t, and little more. */
  lemma {:induction false} RunsAreGood(c: Config, run: seq<Program>, calls: seq<Call>, i: nat)
    requires c.Rounded() && IsRun(c, run, calls) && i < |run|
    ensures Good(c, run[i])
  {
    if i == 0 {
      InitialIsWellFormed(c);
    } else {
      RunsAreGood(c, run, calls, i - 1);
      StepIsGood(c, run[i - 1], calls[i - 1], run[i]);
    }
  }

  /** Live allocations lie inside the heap and do not overlap, headers included. */
  lemma LiveAllocationsApart(c: Config, s: Program, a: (nat, nat), b: (nat, nat))
    requires Good(c, s) && a in UsedExtents(s.blocks) && b in UsedExtents(s.blocks) && a != b
    ensures a.1 <= b.0 || b.1 <= a.0
    ensures a.1 <= c.size && a.0 + c.header + c.min <= a.1
  {
    ExtentMember(s.blocks, a);
    ExtentMember(s.blocks, b);
    var i :| Spans(s.blocks, i, a);
    var j :| Spans(s.blocks, j, b);
    BlockEndsInHeap(c, s.blocks, i);
    assert s.blocks[i].at + c.header + c.min <= End(s.blocks, i);
    if i + 1 < j {
      ChainIncreases(c, s.blocks, i + 1, j);
    } else if j + 1 < i {
      ChainIncreases(c, s.blocks, j + 1, i);
    }
  }

  // ---------------------------------------------------------------- the allocator takes these steps

  /** The calls a program may make: it frees and trims only what is live. */
  predicate Admissible(c: Config, s: Program, call: Call) {
    match call
    case CallMalloc(n) => n < c.width
    case CallFree(at) => at in s.live
    case CallTrim(at, n) => at in s.live && n < c.width
  }

  lemma LiveIsUsed(c: Config, s: Program, at: nat) returns (k: nat)
    requires Good(c, s) && at in s.live
    ensures IsUsedBlock(s.blocks, k, at) && at + c.header < c.size
  {
    var e :| e in UsedExtents(s.blocks) && e.0 == at;
    ExtentMember(s.blocks, e);
    k :| Spans(s.blocks, k, e);
    BlockEndsInHeap(c, s.blocks, k);
    assert s.blocks[k].at + c.header + c.min <= End(s.blocks, k);
  }

  /** Every call on the allocator in place is a step of a run. */
  method Perform(m: Mem, call: Call, ghost s: Program) returns (ghost t: Program)
    requires m.Valid() && m.blocks == s.blocks && Good(m.c, s) && Admissible(m.c, s, call)
    modifies m, m.next, m.prev, m.used
    ensures m.Valid() && m.blocks == t.blocks && Good(m.c, t) && Step(m.c, s, call, t)
  {
    match call {
      case CallMalloc(n) => t := PerformMalloc(m, n, s);
      case CallFree(at) => t := PerformFree(m, at, s);
      case CallTrim(at, n) => t := PerformTrim(m, at, n, s);
    }
    StepIsGood(m.c, s, call, t);
  }

  method PerformMalloc(m: Mem, n: nat, ghost s: Program) returns (ghost t: Program)
    requires m.Valid() && m.blocks == s.blocks && n < m.c.width
    modifies m, m.next, m.prev, m.used
    ensures m.Valid() && m.blocks == t.blocks && MallocStep(m.c, s, n, t)
  {
    var p, k := m.Malloc(n);
    t := if p.Null? then s else Program(m.blocks, s.live[s.blocks[k].at := n]);
  }

  method PerformFree(m: Mem, at: nat, ghost s: Program) returns (ghost t: Program)
    requires m.Valid() && m.blocks == s.blocks && Good(m.c, s) && at in s.live
    modifies m, m.next, m.prev, m.used
    ensures m.Valid() && m.blocks == t.blocks && FreeStep(s, at, t)
  {
    ghost var k := LiveIsUsed(m.c, s, at);
    assert IsUsedData(m.c, s.blocks, k, at + m.c.header);
    m.Free(At(at + m.c.header));
    t := Program(m.blocks, s.live - {at});
    ghost var j :| IsUsedData(m.c, s.blocks, j, at + m.c.header) && m.blocks == Release(s.blocks, j);
    assert IsUsedBlock(s.blocks, j, at);
  }

  method PerformTrim(m: Mem, at: nat, n: nat, ghost s: Program) returns (ghost t: Program)
    requires m.Valid() && m.blocks == s.blocks && Good(m.c, s) && n < m.c.width && at in s.live
    modifies m, m.next, m.prev, m.used
    ensures m.Valid() && m.blocks == t.blocks && TrimStep(m.c, s, at, n, t)
  {
    var data := At(at + m.c.header);
    ghost var k := LiveIsUsed(m.c, s, at);
    assert IsUsedData(m.c, s.blocks, k, data.offset);
    var p := m.Trim(data, n);
    t := if p.Null? then s else Program(m.blocks, s.live[at := n]);
    if Need(m.c, n) <= m.c.size {
      k :| IsUsedData(m.c, s.blocks, k, data.offset) && TrimOutcome(m.c, s.blocks, k, n, data, p, m.blocks);
    }
    TrimmedIsStep(m.c, s, at, n, k, p, t);
  }

  lemma TrimmedIsStep(c: Config, s: Program, at: nat, n: nat, k: nat, p: Ptr, t: Program)
    requires WellFormed(c, s.blocks) && n < c.width && at in s.live && IsUsedBlock(s.blocks, k, at)
    requires if Need(c, n) > c.size then p.Null? && t.blocks == s.blocks
             else TrimOutcome(c, s.blocks, k, n, At(at + c.header), p, t.blocks)
    requires t.live == if p.Null? then s.live else s.live[at := n]
    ensures TrimStep(c, s, at, n, t)
  {
    BlockEndsInHeap(c, s.blocks, k);
  }
}
