/** Laws of the heap that span several operations: a heap is determined by what it has handed out,
    malloc and free cancel, every run keeps live allocations apart and big enough. */
module HeapLaws {
  import opened HeapBlocks
  import opened HeapOps

  // ------------------------------------------------------- canonical form

  /** A used block of a is a used block of b, at the same index once the starts agree there. */
  lemma UsedCarries(c: Config, a: Layout, b: Layout, i: nat)
    requires Chain(c, a) && Chain(c, b) && UsedExtents(a) <= UsedExtents(b)
    requires i + 1 < |a| && i + 1 < |b| && a[i].at == b[i].at && a[i].used
    ensures b[i].used && a[i + 1].at == b[i + 1].at
  {
    var e := (a[i].at, End(a, i));
    ExtentMember(a, e);
    assert Spans(a, i, e);
    ExtentMember(b, e);
    var m :| Spans(b, m, e);
    ChainDistinct(c, b, i);
    assert m == i;
  }

  /** Behind a block that is free in both, a cannot have a block start that b lacks. */
  lemma NoEarlierStart(c: Config, a: Layout, b: Layout, i: nat)
    requires WellFormed(c, a) && WellFormed(c, b) && UsedExtents(a) <= UsedExtents(b)
    requires i + 1 < |a| && i + 1 < |b| && a[i].at == b[i].at && !a[i].used
    ensures b[i + 1].at <= a[i + 1].at
  {
    assert !BothFree(a, i);
    if i + 1 == |a| - 1 {
      if i + 1 < |b| - 1 {
        ChainIncreases(c, b, i + 1, |b| - 1);
      }
    } else {
      var e := (a[i + 1].at, End(a, i + 1));
      ExtentMember(a, e);
      assert Spans(a, i + 1, e);
      ExtentMember(b, e);
      var m :| Spans(b, m, e);
      assert a[i].at < End(a, i);
      if m < i {
        ChainIncreases(c, b, m, i);
      }
      if i + 1 < m {
        ChainIncreases(c, b, i + 1, m);
      }
    }
  }

  lemma {:induction false} SameStarts(c: Config, a: Layout, b: Layout, i: nat)
    requires WellFormed(c, a) && WellFormed(c, b) && UsedExtents(a) == UsedExtents(b)
    requires i < |a| && i < |b|
    ensures a[i].at == b[i].at
    ensures 0 < i ==> a[i - 1] == b[i - 1]
  {
    if 0 < i {
      SameStarts(c, a, b, i - 1);
      if a[i - 1].used {
        UsedCarries(c, a, b, i - 1);
      } else if b[i - 1].used {
        UsedCarries(c, b, a, i - 1);
      } else {
        NoEarlierStart(c, a, b, i - 1);
        NoEarlierStart(c, b, a, i - 1);
      }
    }
  }

  lemma NotShorter(c: Config, a: Layout, b: Layout)
    requires WellFormed(c, a) && WellFormed(c, b) && UsedExtents(a) == UsedExtents(b)
    ensures |b| <= |a|
  {
    if |a| < |b| {
      SameStarts(c, a, b, |a| - 1);
      ChainIncreases(c, b, |a| - 1, |b| - 1);
    }
  }

  /** Two well-formed heaps that have handed out the same memory are the same heap. */
  lemma HeapIsDeterminedByUse(c: Config, a: Layout, b: Layout)
    requires WellFormed(c, a) && WellFormed(c, b) && UsedExtents(a) == UsedExtents(b)
    ensures a == b
  {
    NotShorter(c, a, b);
    NotShorter(c, b, a);
    forall i | 0 <= i < |a|
      ensures a[i] == b[i]
    {
      if i + 1 < |a| {
        SameStarts(c, a, b, i + 1);
      }
    }
  }

  // ------------------------------------------------------- malloc, then free

  /** The block an allocation used is the k-th one of the new heap. */
  lemma PlacedBlock(c: Config, bs: Layout, k: nat, need: nat)
    requires Fits(c, bs, k, need)
    ensures var r := Place(c, bs, k, need);
            k + 1 < |r| && r[k] == Block(bs[k].at, true) && End(r, k) == PlacedEnd(c, bs, k, need)
  {
  }

  lemma FreshExtent(c: Config, bs: Layout, k: nat, end: nat)
    requires Chain(c, bs) && k + 1 < |bs| && !bs[k].used
    ensures (bs[k].at, end) !in UsedExtents(bs)
  {
    var e := (bs[k].at, end);
    ExtentMember(bs, e);
    if j :| Spans(bs, j, e) {
      ChainDistinct(c, bs, k);
    }
  }

  /** Freeing the block just allocated restores the whole heap. */
  lemma MallocThenFree(c: Config, bs: Layout, k: nat, need: nat)
    requires WellFormed(c, bs) && Fits(c, bs, k, need) && c.min <= need
    ensures Release(Place(c, bs, k, need), k) == bs
  {
    var r := Place(c, bs, k, need);
    var x := (bs[k].at, PlacedEnd(c, bs, k, need));
    PlaceKeeps(c, bs, k, need);
    PlacedBlock(c, bs, k, need);
    ReleaseKeeps(c, r, k);
    FreshExtent(c, bs, k, x.1);
    assert UsedExtents(Release(r, k)) == UsedExtents(bs) + {x} - {x} == UsedExtents(bs);
    HeapIsDeterminedByUse(c, Release(r, k), bs);
  }

  // ------------------------------------------------------- freeing everything

  function Initial(c: Config): Layout {
    [Block(0, false), Block(c.size, true)]
  }

  lemma InitialIsWellFormed(c: Config)
    ensures WellFormed(c, Initial(c)) && UsedExtents(Initial(c)) == {} && UsedBytes(Initial(c)) == 0
  {
    forall e
      ensures e !in UsedExtents(Initial(c))
    {
      ExtentMember(Initial(c), e);
    }
    assert UsedBytes(Initial(c)[1..]) == 0;
  }

  predicate IsUsedBlock(bs: Layout, k: int, at: int) {
    0 <= k < |bs| - 1 && bs[k].used && bs[k].at == at
  }

  /** mem_free of the block that starts at offset at; a caller frees only used blocks. */
  ghost function ReleaseAt(bs: Layout, at: int): Layout {
    if k :| IsUsedBlock(bs, k, at) then Release(bs, k) else bs
  }

  ghost function ReleaseAll(bs: Layout, order: seq<nat>): Layout
    decreases order
  {
    if order == [] then bs else ReleaseAll(ReleaseAt(bs, order[0]), order[1..])
  }

  /** Only block k's own extent starts where block k starts. */
  lemma ExtentStart(c: Config, bs: Layout, k: nat, e: (nat, nat))
    requires Chain(c, bs) && k + 1 < |bs| && bs[k].used
    ensures e in UsedExtents(bs) ==> (e == (bs[k].at, End(bs, k)) <==> e.0 == bs[k].at)
  {
    ExtentMember(bs, e);
    if j :| Spans(bs, j, e) {
      ChainDistinct(c, bs, k);
    }
  }

  lemma ReleaseAtKeeps(c: Config, bs: Layout, at: nat)
    requires WellFormed(c, bs)
    ensures WellFormed(c, ReleaseAt(bs, at))
    ensures forall e :: e in UsedExtents(ReleaseAt(bs, at)) <==> e in UsedExtents(bs) && e.0 != at
  {
    var r := ReleaseAt(bs, at);
    if k :| IsUsedBlock(bs, k, at) && r == Release(bs, k) {
      ReleaseKeeps(c, bs, k);
      forall e
        ensures e in UsedExtents(r) <==> e in UsedExtents(bs) && e.0 != at
      {
        ExtentStart(c, bs, k, e);
      }
    } else {
      assert r == bs;
      forall e | e in UsedExtents(bs)
        ensures e.0 != at
      {
        ExtentMember(bs, e);
        var j :| Spans(bs, j, e);
        assert !IsUsedBlock(bs, j, at);
      }
    }
  }

  lemma {:induction false} ReleaseAllExtents(c: Config, bs: Layout, order: seq<nat>)
    requires WellFormed(c, bs)
    ensures WellFormed(c, ReleaseAll(bs, order))
    ensures forall e :: e in UsedExtents(ReleaseAll(bs, order)) <==> e in UsedExtents(bs) && e.0 !in order
    decreases order
  {
    if order != [] {
      ReleaseAtKeeps(c, bs, order[0]);
      ReleaseAllExtents(c, ReleaseAt(bs, order[0]), order[1..]);
      assert order == [order[0]] + order[1..];
    }
  }

  /** Freeing every live block, in whatever order, leaves the single free block of mem_init. */
  lemma FreeingAllRestoresInitial(c: Config, bs: Layout, order: seq<nat>)
    requires WellFormed(c, bs)
    requires forall e :: e in UsedExtents(bs) ==> e.0 in order
    ensures ReleaseAll(bs, order) == Initial(c)
  {
    ReleaseAllExtents(c, bs, order);
    InitialIsWellFormed(c);
    assert UsedExtents(ReleaseAll(bs, order)) == {};
    HeapIsDeterminedByUse(c, ReleaseAll(bs, order), Initial(c));
  }

  // ------------------------------------------------------- first fit

  /** The block an allocation takes: the lowest one that fits, in the whole list. */
  ghost predicate IsFirstFit(c: Config, bs: Layout, k: nat, need: nat) {
    && Fits(c, bs, k, need)
    && forall j :: 0 <= j < k ==> !Fits(c, bs, j, need)
  }

  ghost predicate NothingFits(c: Config, bs: Layout, need: nat) {
    forall j :: 0 <= j < |bs| ==> !Fits(c, bs, j, need)
  }

  // ------------------------------------------------------- requests and rounding

  /** An allocated block holds what was asked for exactly when rounding the request did not wrap. */
  lemma BlockHoldsRequest(c: Config, bs: Layout, k: nat, n: nat)
    requires c.Rounded() && n < c.width && WellFormed(c, bs) && Fits(c, bs, k, Need(c, n))
    ensures bs[k].at + c.header + n <= PlacedEnd(c, bs, k, Need(c, n)) <==> !RoundingWraps(c, n)
  {
    NeedIsAligned(c, n);
    if RoundingWraps(c, n) {
      WrappingRequestIsTooBig(c, n);
      BlockEndsInHeap(c, bs, k);
    }
  }

  function Larger(a: nat, b: nat): nat {
    if a < b then b else a
  }

  /** What a block that has been placed or trimmed has to spare is less than rounding adds and another block takes. */
  predicate SparesLittle(c: Config, at: nat, end: nat, n: nat) {
    end < at + c.header + Larger(n + c.align, c.min) + c.header + c.min
  }

  lemma BlockSparesLittle(c: Config, bs: Layout, k: nat, n: nat)
    requires c.Rounded() && n < c.width && Fits(c, bs, k, Need(c, n))
    ensures SparesLittle(c, bs[k].at, PlacedEnd(c, bs, k, Need(c, n)), n)
  {
    NeedIsAligned(c, n);
    PlaceIsTight(c, bs, k, Need(c, n));
    PlacedBlock(c, bs, k, Need(c, n));
  }

  lemma TrimmedBlockSparesLittle(c: Config, bs: Layout, k: nat, n: nat)
    requires c.Rounded() && n < c.width && k + 1 < |bs| && bs[k].used && bs[k].at + c.header + Need(c, n) <= End(bs, k)
    ensures SparesLittle(c, bs[k].at, ShrunkEnd(c, bs, k, Need(c, n)), n)
  {
    NeedIsAligned(c, n);
    ShrinkIsTight(c, bs, k, Need(c, n));
  }

  /** A trimmed block still holds the new size exactly when rounding that size did not wrap; a size that wraps
      is taken for the minimum, and the block is cut down to it instead of the trim being refused. */
  lemma TrimmedBlockHoldsRequest(c: Config, bs: Layout, k: nat, n: nat)
    requires c.Rounded() && n < c.width && WellFormed(c, bs) && k + 1 < |bs| && bs[k].used
    requires bs[k].at + c.header + Need(c, n) <= End(bs, k)
    ensures bs[k].at + c.header + n <= ShrunkEnd(c, bs, k, Need(c, n)) <==> !RoundingWraps(c, n)
    ensures RoundingWraps(c, n) ==> Need(c, n) == c.min && End(bs, k) < bs[k].at + c.header + n
  {
    NeedIsAligned(c, n);
    BlockEndsInHeap(c, bs, k);
    if RoundingWraps(c, n) {
      WrappingRequestIsTooBig(c, n);
    }
  }

  /** With a 16-bit mem_size_t, trimming a block of 100 data bytes to 65533 leaves it 12 bytes. */
  lemma WrappedTrimExample()
    ensures var c: Config := Constants(4, 8, 12, 1600, 0x1_0000);
            var bs := [Block(0, true), Block(108, false), Block(1600, true)];
            && Need(c, 65533) == 12
            && Shrink(c, bs, 0, 12) == [Block(0, true), Block(20, false), Block(1600, true)]
  {
  }

  lemma WrappingRequestIsTooBig(c: Config, n: nat)
    requires c.Rounded() && RoundingWraps(c, n)
    ensures c.size < n
  {
    assert Divides(c.align, c.size) && Divides(c.align, c.width);
    MultipleBelow(c.size, c.width, c.align);
  }

  lemma BlockEndsInHeap(c: Config, bs: Layout, k: nat)
    requires Chain(c, bs) && k + 1 < |bs|
    ensures End(bs, k) <= c.size
  {
    if k + 1 < |bs| - 1 {
      ChainIncreases(c, bs, k + 1, |bs| - 1);
    }
  }

  /** With a 16-bit mem_size_t, asking a fresh 1600-byte heap for 65533 bytes yields a 12-byte block. */
  lemma WrappedRequestExample()
    ensures var c: Config := Constants(4, 8, 12, 1600, 0x1_0000);
            && c.Rounded() && Need(c, 65533) == 12
            && IsFirstFit(c, Initial(c), 0, 12)
            && Place(c, Initial(c), 0, 12) == [Block(0, true), Block(20, false), Block(1600, true)]
  {
  }

  // ------------------------------------------------------- alignment

  lemma ZeroAligned(c: Config)
    requires c.Rounded()
    ensures AllAligned(c, Initial(c))
  {
    assert Divides(c.align, c.size);
  }

  lemma DataEndAligned(c: Config, at: nat, need: nat)
    requires c.Rounded() && Aligned(c, at) && Aligned(c, need)
    ensures Aligned(c, at + c.header + need)
  {
    assert Divides(c.align, c.header);
    MultipleSum(at, c.header, c.align);
    MultipleSum(at + c.header, need, c.align);
  }

  lemma PlaceAligned(c: Config, bs: Layout, k: nat, need: nat)
    requires c.Rounded() && AllAligned(c, bs) && Aligned(c, need) && Fits(c, bs, k, need)
    ensures AllAligned(c, Place(c, bs, k, need)) && Aligned(c, bs[k].at + c.header)
  {
    assert bs[k] in bs && Divides(c.align, c.header);
    MultipleSum(bs[k].at, c.header, c.align);
    DataEndAligned(c, bs[k].at, need);
  }

  lemma TrimAligned(c: Config, bs: Layout, k: nat, n: nat)
    requires c.Rounded() && AllAligned(c, bs) && n < c.width && k + 1 < |bs|
    ensures AllAligned(c, Shrink(c, bs, k, Need(c, n)))
  {
    NeedIsAligned(c, n);
    assert bs[k] in bs;
    DataEndAligned(c, bs[k].at, Need(c, n));
    ShrinkAligned(c, bs, k, Need(c, n));
  }

  lemma ReleaseAligned(c: Config, bs: Layout, k: nat)
    requires AllAligned(c, bs) && k + 1 < |bs|
    ensures AllAligned(c, Release(bs, k))
  {
    assert bs[k] in bs;
    var f := Flag(bs, k, false);
    assert AllAligned(c, f);
    assert AllAligned(c, Forward(f, k));
  }

  lemma ShrinkAligned(c: Config, bs: Layout, k: nat, need: nat)
    requires AllAligned(c, bs) && k + 1 < |bs| && Aligned(c, bs[k].at + c.header + need)
    ensures AllAligned(c, Shrink(c, bs, k, need))
  {
  }
}
