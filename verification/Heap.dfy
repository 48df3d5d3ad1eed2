/** mem.c: the heap allocator itself, working in place on the struct mem fields inside ram. */
module Heap {
  import opened HeapBlocks
  import opened HeapOps
  import opened HeapLinks
  import opened HeapLaws

  /** A data pointer as callers see it: NULL, or an offset into ram (negative when below it). */
  datatype Ptr = Null | At(offset: int)

  ghost predicate IsUsedData(c: Config, bs: Layout, k: int, offset: int) {
    IsUsedBlock(bs, k, offset - c.header)
  }

  /** What callers of mem_free and mem_trim are held to: a pointer inside ram is the data pointer of a used
      block, as the assertion on mem->used demands. The assertions that a pointer is legal and that a trim does
      not grow are taken to be empty, as LWIP_UNIX_EMPTY_ASSERT makes them, because code behind them handles
      those cases. */
  ghost predicate FreeableIn(c: Config, bs: Layout, p: Ptr) {
    p.At? && 0 <= p.offset < c.size ==> exists k :: IsUsedData(c, bs, k, p.offset)
  }

  class Mem {
    const c: Config
    // the struct mem fields, indexed by the offset of the struct in ram
    const next: array<nat>
    const prev: array<nat>
    const used: array<bool>
    var lfree: nat
    // lwip_stats.mem: bytes in use, failed allocations, illegal frees
    var statUsed: int
    var statErr: nat
    var statIllegal: nat
    ghost var blocks: Layout

    ghost function F(): Fields
      reads next, prev, used
    {
      Fields(next[..], prev[..], used[..])
    }

    ghost predicate Valid()
      reads this, next, prev, used
    {
      Sound() && c.Rounded() && AllAligned(c, blocks)
    }

    /** Valid but for alignment. */
    ghost predicate Sound()
      reads this, next, prev, used
    {
      && next != prev
      && Linked(c, F(), blocks) && Coalesced(blocks)
      && lfree == blocks[LowestFree(blocks)].at
      && statUsed == UsedBytes(blocks)
    }

    /** mem_init */
    constructor (c: Config)
      requires c.Rounded()
      ensures Valid() && fresh(next) && fresh(prev) && fresh(used)
      ensures this.c == c && blocks == Initial(c)
    {
      this.c := c;
      next := new nat[c.size + 1](_ => c.size);
      prev := new nat[c.size + 1](_ => 0);
      used := new bool[c.size + 1](_ => false);
      lfree, statUsed, statErr, statIllegal := 0, 0, 0, 0;
      blocks := Initial(c);
      new;
      used[c.size] := true;
      prev[c.size] := c.size;
      InitialIsWellFormed(c);
      ZeroAligned(c);
      assert Holds(c, F(), blocks, 0) && Holds(c, F(), blocks, 1);
      LowestFreeIsUnique(blocks, 0);
    }

    /** plug_holes on the block at offset mem, which is the k-th one and free.
        The lowest-free pointer may still stand on the block behind mem. */
    method PlugHoles(mem: nat, ghost k: nat)
      requires next != prev && Linked(c, F(), blocks) && k + 1 < |blocks| && blocks[k] == Block(mem, false)
      requires CoalescedBut(blocks, k)
      requires lfree == blocks[LowestFree(blocks)].at
        || (LowestFree(blocks) == k && !blocks[k + 1].used && lfree == blocks[k + 1].at)
      modifies this`lfree, this`blocks, next, prev
      ensures blocks == Coalesce(old(blocks), k)
      ensures Linked(c, F(), blocks)
      ensures lfree == blocks[LowestFree(blocks)].at
    {
      PlugForward(mem, k);
      CoalesceForward(old(blocks), k);
      PlugBackward(mem, k);
    }

    method PlugForward(mem: nat, ghost k: nat)
      requires next != prev && Linked(c, F(), blocks) && k + 1 < |blocks| && blocks[k] == Block(mem, false)
      requires lfree == blocks[LowestFree(blocks)].at
        || (LowestFree(blocks) == k && !blocks[k + 1].used && lfree == blocks[k + 1].at)
      modifies this`lfree, this`blocks, next, prev
      ensures blocks == Forward(old(blocks), k)
      ensures Linked(c, F(), blocks)
      ensures lfree == blocks[LowestFree(blocks)].at
    {
      assert Holds(c, F(), blocks, k) && Holds(c, F(), blocks, k + 1);
      assert blocks[k].at < End(blocks, k);
      LastIsEnd(c, blocks, k + 1);
      var nmem := next[mem];
      if mem != nmem && !used[nmem] && nmem != c.size {
        if lfree == nmem {
          lfree := mem;
        }
        ghost var f, end := F(), blocks[k + 2].at;
        assert LowestFree(blocks) <= k;
        ChainDistinct(c, blocks, k + 1);
        DeleteMerges(c, blocks, k + 1);
        Unlink(c, f, blocks, k + 1);
        next[mem] := next[nmem];
        prev[next[nmem]] := mem;
        assert F() == f.(next := f.next[mem := end], prev := f.prev[end := mem]);
        blocks := Delete(blocks, k + 1);
      }
    }

    method PlugBackward(mem: nat, ghost k: nat)
      requires next != prev && Linked(c, F(), blocks) && k + 1 < |blocks| && blocks[k] == Block(mem, false)
      requires lfree == blocks[LowestFree(blocks)].at
      modifies this`lfree, this`blocks, next, prev
      ensures blocks == Backward(old(blocks), k)
      ensures Linked(c, F(), blocks)
      ensures lfree == blocks[LowestFree(blocks)].at
    {
      assert Holds(c, F(), blocks, k) && Holds(c, F(), blocks, k + 1);
      assert 0 < k ==> Holds(c, F(), blocks, k - 1) && blocks[k - 1].at < End(blocks, k - 1);
      var pmem := prev[mem];
      if pmem != mem && !used[pmem] {
        if lfree == mem {
          lfree := pmem;
        }
        ghost var f, end := F(), blocks[k + 1].at;
        assert LowestFree(blocks) <= k - 1;
        ChainDistinct(c, blocks, k);
        DeleteMerges(c, blocks, k);
        Unlink(c, f, blocks, k);
        next[pmem] := next[mem];
        prev[next[mem]] := pmem;
        assert F() == f.(next := f.next[pmem := end], prev := f.prev[end := pmem]);
        blocks := Delete(blocks, k);
      }
    }

    /** mem_free */
    method Free(rmem: Ptr)
      requires Valid() && FreeableIn(c, blocks, rmem)
      modifies this, next, prev, used
      ensures Valid() && statErr == old(statErr)
      ensures rmem.At? && 0 <= rmem.offset < c.size ==>
        && statIllegal == old(statIllegal)
        && exists k :: IsUsedData(c, old(blocks), k, rmem.offset) && blocks == Release(old(blocks), k)
      ensures !(rmem.At? && 0 <= rmem.offset < c.size) ==>
        && blocks == old(blocks)
        && statIllegal == old(statIllegal) + if rmem.At? then 1 else 0
    {
      if rmem.Null? {
        return;
      }
      if rmem.offset < 0 || rmem.offset >= c.size {
        statIllegal := statIllegal + 1;
        return;
      }
      ghost var k :| IsUsedData(c, blocks, k, rmem.offset);
      assert AllAligned(c, Release(blocks, k)) by { ReleaseAligned(c, blocks, k); }
      FreeBlock(rmem.offset - c.header, k);
    }

    /** mem_free once the pointer is known to be block k's. */
    method FreeBlock(mem: nat, ghost k: nat)
      requires Sound() && IsUsedBlock(blocks, k, mem)
      modifies this`lfree, this`blocks, this`statUsed, next, prev, used
      ensures Sound() && blocks == Release(old(blocks), k)
    {
      ghost var f, bs := F(), blocks;
      ReleaseKeeps(c, bs, k);
      FlagFreeCoalesced(bs, k);
      FlagChain(c, bs, k, false);
      FreedIsLowest(c, bs, k);
      Mark(c, f, bs, k, false);
      used[mem] := false;
      assert F() == f.(used := f.used[mem := false]);
      blocks := Flag(bs, k, false);
      if mem < lfree {
        lfree := mem;
      }
      statUsed := statUsed - (next[mem] - mem);
      PlugHoles(mem, k);
    }

    /** mem_trim; NULL counts as a pointer below ram. */
    method Trim(rmem: Ptr, newsize: nat) returns (r: Ptr)
      requires Valid() && newsize < c.width && FreeableIn(c, blocks, rmem)
      modifies this, next, prev, used
      ensures Valid() && statErr == old(statErr)
      ensures Need(c, newsize) > c.size ==> r.Null? && blocks == old(blocks) && statIllegal == old(statIllegal)
      ensures Need(c, newsize) <= c.size && !(rmem.At? && 0 <= rmem.offset < c.size) ==>
        r == rmem && blocks == old(blocks) && statIllegal == old(statIllegal) + 1
      ensures Need(c, newsize) <= c.size && rmem.At? && 0 <= rmem.offset < c.size ==>
        && statIllegal == old(statIllegal)
        && exists k :: IsUsedData(c, old(blocks), k, rmem.offset) && TrimOutcome(c, old(blocks), k, newsize, rmem, r, blocks)
      // a trimmed block is left with what is needed, and less than would make another block
      ensures r.At? && 0 <= r.offset < c.size ==>
        exists k :: IsUsedData(c, blocks, k, r.offset) && HoldsTightly(c, blocks, k, r.offset, Need(c, newsize))
    {
      var need := AlignSize(c, newsize);
      if need < c.min {
        need := c.min;
      }
      if need > c.size {
        return Null;
      }
      if rmem.Null? || rmem.offset < 0 || rmem.offset >= c.size {
        statIllegal := statIllegal + 1;
        return rmem;
      }
      ghost var k :| IsUsedData(c, blocks, k, rmem.offset);
      TrimAligned(c, blocks, k, newsize);
      ghost var bs := blocks;
      var done := TrimBlock(rmem.offset - c.header, need, k);
      r := if done then rmem else Null;
      if done {
        ShrinkIsTight(c, bs, k, need);
        assert IsUsedData(c, blocks, k, r.offset) && HoldsTightly(c, blocks, k, r.offset, need);
      }
    }

    /** mem_trim once the pointer is known to be block k's and the size is rounded. */
    method TrimBlock(mem: nat, need: nat, ghost k: nat) returns (done: bool)
      requires Sound() && IsUsedBlock(blocks, k, mem) && c.min <= need
      modifies this`lfree, this`blocks, this`statUsed, next, prev, used
      ensures Sound() && done == (mem + c.header + need <= End(old(blocks), k))
      ensures blocks == if done then Shrink(c, old(blocks), k, need) else old(blocks)
    {
      assert Holds(c, F(), blocks, k) && Holds(c, F(), blocks, k + 1);
      assert blocks[k].at + c.header + c.min <= End(blocks, k);
      var size := next[mem] - mem - c.header;
      if need > size {
        return false;
      }
      if need == size {
        ShrinkToSameSize(c, blocks, k);
        return true;
      }
      ShrinkKeeps(c, blocks, k, need);
      ShrinkLowest(c, blocks, k, need);
      if !used[next[mem]] {
        TrimIntoNext(mem, need, k);
        statUsed := statUsed - (size - need);
      } else if need + c.header + c.min <= size {
        TrimOff(mem, need, k);
        statUsed := statUsed - (size - need);
      }
      return true;
    }

    /** mem_malloc; k is the block taken. */
    method Malloc(request: nat) returns (p: Ptr, ghost k: nat)
      requires Valid() && request < c.width
      modifies this, next, prev, used
      ensures Valid() && statIllegal == old(statIllegal)
      ensures request == 0 || Need(c, request) > c.size ==> p.Null? && blocks == old(blocks) && statErr == old(statErr)
      ensures 0 < request && Need(c, request) <= c.size ==>
        MallocOutcome(c, old(blocks), Need(c, request), k, p, blocks, statErr - old(statErr))
      ensures p.At? ==> Aligned(c, p.offset)
      ensures 0 < request && Need(c, request) <= c.size ==> BestEffort(c, old(blocks), Need(c, request), k, p, blocks)
    {
      k := 0;
      if request == 0 {
        return Null, k;
      }
      var need := AlignSize(c, request);
      if need < c.min {
        need := c.min;
      }
      if need > c.size {
        return Null, k;
      }
      NeedIsAligned(c, request);
      p, k := Allocate(need);
      OutcomeIsAligned(c, old(blocks), need, k, p, blocks, statErr - old(statErr));
    }

    /** A mem_malloc that succeeds, undone by mem_free: blocks, lowest-free pointer and statistics are as before. */
    method MallocAndFree(request: nat) returns (p: Ptr)
      requires Valid() && request < c.width
      modifies this, next, prev, used
      ensures Valid() && blocks == old(blocks) && lfree == old(lfree) && statUsed == old(statUsed)
      ensures statIllegal == old(statIllegal)
    {
      ghost var k;
      p, k := Malloc(request);
      if p.At? {
        NeedIsAligned(c, request);
        FreeAgain(p, old(blocks), k, Need(c, request));
      }
    }

    /** mem_free of the block k that was placed in the heap bs. */
    method FreeAgain(p: Ptr, ghost bs: Layout, ghost k: nat, ghost need: nat)
      requires Valid() && WellFormed(c, bs) && Fits(c, bs, k, need) && 0 < c.min <= need
      requires blocks == Place(c, bs, k, need) && p == At(bs[k].at + c.header)
      modifies this, next, prev, used
      ensures Valid() && blocks == bs && statIllegal == old(statIllegal)
    {
      PlaceInside(c, bs, k, need);
      assert IsUsedData(c, blocks, k, p.offset);
      ChainDistinct(c, blocks, k);
      Free(p);
      MallocThenFree(c, bs, k, need);
    }

    /** mem_malloc once the size is rounded. */
    method Allocate(need: nat) returns (p: Ptr, ghost k: nat)
      requires Sound() && c.min <= need <= c.size
      modifies this`lfree, this`blocks, this`statUsed, this`statErr, next, prev, used
      ensures Sound() && MallocOutcome(c, old(blocks), need, k, p, blocks, statErr - old(statErr))
      ensures BestEffort(c, old(blocks), need, k, p, blocks)
    {
      var ptr;
      ptr, k := FindFit(need);
      if ptr < c.size - need {
        TakeBlock(ptr, need, k);
        p := At(ptr + c.header);
      } else {
        statErr := statErr + 1;
        p := Null;
      }
      OutcomeIsTight(c, old(blocks), need, k, p, blocks, statErr - old(statErr));
    }

    /** The scan of mem_malloc: from lfree, while a block of this size could still fit below the end. */
    method FindFit(need: nat) returns (ptr: nat, ghost k: nat)
      requires Sound() && c.min <= need <= c.size
      ensures k < |blocks| && blocks[k].at == ptr
      ensures if ptr < c.size - need then IsFirstFit(c, blocks, k, need) else NothingFits(c, blocks, need)
      ensures ptr < c.size - need ==> !used[ptr] && next[ptr] - (ptr + c.header) >= need
    {
      ptr, k := lfree, LowestFree(blocks);
      while ptr < c.size - need
        invariant k < |blocks| && blocks[k].at == ptr
        invariant forall j :: 0 <= j < k ==> !Fits(c, blocks, j, need)
        decreases |blocks| - k
      {
        assert Holds(c, F(), blocks, k);
        LastIsEnd(c, blocks, k);
        if !used[ptr] && next[ptr] - (ptr + c.header) >= need {
          return;
        }
        ptr, k := next[ptr], k + 1;
      }
      NoRoomBeyond(c, blocks, k, need);
    }

    /** What mem_malloc does with the fitting block at ptr. */
    method TakeBlock(ptr: nat, need: nat, ghost k: nat)
      requires Sound() && c.min <= need && Fits(c, blocks, k, need) && blocks[k].at == ptr
      modifies this`lfree, this`blocks, this`statUsed, next, prev, used
      ensures Sound() && blocks == Place(c, old(blocks), k, need)
    {
      ghost var bs := blocks;
      PlaceKeeps(c, bs, k, need);
      PlacedBlock(c, bs, k, need);
      PlaceLowest(c, bs, k, need);
      assert Holds(c, F(), bs, k);
      if next[ptr] - (ptr + c.header) >= need + c.header + c.min {
        SplitOff(ptr, need, k);
        statUsed := statUsed + (need + c.header);
      } else {
        ghost var f := F();
        Mark(c, f, bs, k, true);
        used[ptr] := true;
        assert F() == f.(used := f.used[ptr := true]);
        blocks := Flag(bs, k, true);
        statUsed := statUsed + (next[ptr] - ptr);
      }
      if ptr == lfree {
        lfree := NextFree(ptr, k);
      }
    }

    /** Write a free struct at offset at between the struct at `block` and the one at `end`. */
    method LinkIn(block: nat, at: nat, end: nat)
      requires next != prev && next.Length == prev.Length == used.Length == c.size + 1
      requires block <= c.size && at <= c.size && end <= c.size && block != at
      modifies next, prev, used
      ensures F() == LinkedIn(c, old(F()), block, at, end)
    {
      used[at] := false;
      next[at] := end;
      prev[at] := block;
      next[block] := at;
      if next[at] != c.size {
        prev[next[at]] := at;
      }
      ghost var g := LinkedIn(c, old(F()), block, at, end);
      assert next[..] == g.next && prev[..] == g.prev && used[..] == g.used;
    }

    /** Splitting the fitting block: the rest becomes a free struct of its own. */
    method SplitOff(ptr: nat, need: nat, ghost k: nat)
      requires next != prev && Linked(c, F(), blocks) && c.min <= need && Fits(c, blocks, k, need)
      requires blocks[k].at == ptr && RoomToSplit(c, blocks, k, need)
      modifies this`blocks, next, prev, used
      ensures blocks == Place(c, old(blocks), k, need) && Linked(c, F(), blocks)
    {
      ghost var f, bs := F(), blocks;
      assert Holds(c, f, bs, k) && Holds(c, f, bs, k + 1);
      LastIsEnd(c, bs, k + 1);
      var ptr2 := ptr + c.header + need;
      LinkIn(ptr, ptr2, next[ptr]);
      used[ptr] := true;
      Link(c, f, bs, k, ptr2);
      ghost var g := LinkedIn(c, f, ptr, ptr2, End(bs, k));
      blocks := Insert(bs, k, Block(ptr2, false));
      Mark(c, g, blocks, k, true);
      assert F() == g.(used := g.used[ptr := true]);
      blocks := Flag(blocks, k, true);
    }

    /** The loop that moves lfree to the next free block, or to ram_end. */
    method NextFree(ptr: nat, ghost k: nat) returns (cur: nat)
      requires Linked(c, F(), blocks) && k < |blocks| && blocks[k].at == ptr
      requires forall j :: 0 <= j < k ==> blocks[j].used
      ensures cur == blocks[LowestFree(blocks)].at
    {
      cur := ptr;
      ghost var i := k;
      LastIsEnd(c, blocks, i);
      assert Holds(c, F(), blocks, i);
      while used[cur] && cur != c.size
        invariant i < |blocks| && blocks[i].at == cur && cur <= c.size
        invariant used[cur] == blocks[i].used
        invariant forall j :: 0 <= j < i ==> blocks[j].used
        decreases |blocks| - i
      {
        assert Holds(c, F(), blocks, i);
        LastIsEnd(c, blocks, i);
        cur, i := next[cur], i + 1;
        LastIsEnd(c, blocks, i);
        assert Holds(c, F(), blocks, i);
      }
      LastIsEnd(c, blocks, i);
      LowestFreeIsUnique(blocks, i);
    }

    /** The branch of mem_trim that moves the free struct behind mem down. */
    method TrimIntoNext(mem: nat, need: nat, ghost k: nat)
      requires next != prev && Linked(c, F(), blocks) && k + 1 < |blocks| && blocks[k] == Block(mem, true)
      requires !blocks[k + 1].used && c.min <= need && mem + c.header + need <= End(blocks, k)
      modifies this`lfree, this`blocks, next, prev, used
      ensures blocks == Shrink(c, old(blocks), k, need) && Linked(c, F(), blocks)
      ensures lfree == if old(lfree) == old(blocks)[k + 1].at then mem + c.header + need else old(lfree)
    {
      ghost var f, bs := F(), blocks;
      assert Holds(c, f, bs, k) && Holds(c, f, bs, k + 1) && Holds(c, f, bs, k + 2);
      LastIsEnd(c, bs, k + 1);
      LastIsEnd(c, bs, k + 2);
      assert bs[k + 1].at < End(bs, k + 1);
      var ptr2 := mem + c.header + need;
      var mem2 := next[mem];
      var next2 := next[mem2];
      if lfree == mem2 {
        lfree := ptr2;
      }
      LinkIn(mem, ptr2, next2);
      Relink(c, f, bs, k, ptr2);
      blocks := bs[k + 1 := Block(ptr2, false)];
    }

    /** The branch of mem_trim that makes a free struct out of the trimmed-off rest. */
    method TrimOff(mem: nat, need: nat, ghost k: nat)
      requires next != prev && Linked(c, F(), blocks) && k + 1 < |blocks| && blocks[k] == Block(mem, true)
      requires blocks[k + 1].used && c.min <= need && RoomToSplit(c, blocks, k, need)
      modifies this`lfree, this`blocks, next, prev, used
      ensures blocks == Shrink(c, old(blocks), k, need) && Linked(c, F(), blocks)
      ensures lfree == if mem + c.header + need < old(lfree) then mem + c.header + need else old(lfree)
    {
      ghost var f, bs := F(), blocks;
      assert Holds(c, f, bs, k) && Holds(c, f, bs, k + 1);
      LastIsEnd(c, bs, k + 1);
      var ptr2 := mem + c.header + need;
      if ptr2 < lfree {
        lfree := ptr2;
      }
      LinkIn(mem, ptr2, next[mem]);
      Link(c, f, bs, k, ptr2);
      blocks := Insert(bs, k, Block(ptr2, false));
    }
  }

  /** The data area from offset to the end of block k holds need bytes, and has less to spare than another
      block takes. */
  predicate HoldsTightly(c: Config, bs: Layout, k: int, offset: int, need: nat) {
    0 <= k && k + 1 < |bs| && need <= End(bs, k) - offset < need + c.header + c.min
  }

  /** None of the first n blocks is free with a data area of need bytes. */
  ghost predicate AllTooSmall(c: Config, bs: Layout, n: nat, need: nat) {
    n < |bs| && forall j :: 0 <= j < n && !bs[j].used ==> End(bs, j) - bs[j].at - c.header < need
  }

  lemma OutcomeIsAligned(c: Config, bs: Layout, need: nat, k: nat, p: Ptr, after: Layout, errors: int)
    requires c.Rounded() && AllAligned(c, bs) && Aligned(c, need) && MallocOutcome(c, bs, need, k, p, after, errors)
    ensures AllAligned(c, after) && (p.At? ==> Aligned(c, p.offset))
  {
    if p.At? {
      PlaceAligned(c, bs, k, need);
    }
  }

  /** Every free block below the one taken, or every free block when there is none, is too small; the block
      taken was free, and is left with what is needed and not much more. */
  ghost predicate BestEffort(c: Config, bs: Layout, need: nat, k: nat, p: Ptr, after: Layout) {
    if p.Null? then 0 < |bs| && AllTooSmall(c, bs, |bs| - 1, need)
    else
      && k + 1 < |bs| && !bs[k].used && AllTooSmall(c, bs, k, need)
      && IsUsedData(c, after, k, p.offset) && HoldsTightly(c, after, k, p.offset, need)
  }

  lemma OutcomeIsTight(c: Config, bs: Layout, need: nat, k: nat, p: Ptr, after: Layout, errors: int)
    requires 0 < |bs| && c.min <= need && MallocOutcome(c, bs, need, k, p, after, errors)
    ensures BestEffort(c, bs, need, k, p, after)
  {
    if p.At? {
      PlaceIsTight(c, bs, k, need);
    }
    forall j | 0 <= j < (if p.At? then k else |bs| - 1) && !bs[j].used
      ensures End(bs, j) - bs[j].at - c.header < need
    {
      assert !Fits(c, bs, j, need);
    }
  }

  /** What a malloc of an admissible size comes to: the lowest block k that fits, or NULL and an error counted. */
  ghost predicate MallocOutcome(c: Config, bs: Layout, need: nat, k: nat, p: Ptr, after: Layout, errors: int) {
    if p.Null? then NothingFits(c, bs, need) && after == bs && errors == 1
    else
      && errors == 0 && IsFirstFit(c, bs, k, need)
      && after == Place(c, bs, k, need)
      && p == At(bs[k].at + c.header)
  }

  /** What a trim of block k inside ram comes to: refused when it would grow the block, else done. */
  ghost predicate TrimOutcome(c: Config, bs: Layout, k: int, newsize: nat, rmem: Ptr, r: Ptr, after: Layout)
    requires newsize < c.width && rmem.At? && IsUsedData(c, bs, k, rmem.offset)
  {
    if bs[k].at + c.header + Need(c, newsize) > End(bs, k)
    then r.Null? && after == bs
    else r == rmem && after == Shrink(c, bs, k, Need(c, newsize))
  }

  /** With block k marked free, the lowest free block is block k or the one that was lowest. */
  lemma FreedIsLowest(c: Config, bs: Layout, k: nat)
    requires Chain(c, bs) && k + 1 < |bs| && bs[k].used
    ensures var l := bs[LowestFree(bs)].at;
            Flag(bs, k, false)[LowestFree(Flag(bs, k, false))].at == if bs[k].at < l then bs[k].at else l
  {
    var l := LowestFree(bs);
    if k < l {
      ChainIncreases(c, bs, k, l);
      LowestFreeIsUnique(Flag(bs, k, false), k);
    } else if l < k {
      ChainIncreases(c, bs, l, k);
      LowestFreeIsUnique(Flag(bs, k, false), l);
    }
  }

  /** From an offset that leaves no room below the end, no block fits. */
  lemma NoRoomBeyond(c: Config, bs: Layout, k: nat, need: nat)
    requires Chain(c, bs) && k < |bs| && c.size - need <= bs[k].at
    requires forall j :: 0 <= j < k ==> !Fits(c, bs, j, need)
    ensures NothingFits(c, bs, need)
  {
    forall j | k <= j < |bs|
      ensures !Fits(c, bs, j, need)
    {
      if k < j {
        ChainIncreases(c, bs, k, j);
      }
      if j + 1 < |bs| {
        BlockEndsInHeap(c, bs, j);
      }
    }
  }

  /** Handing out block k leaves the lowest free block alone unless it was block k. */
  lemma PlaceLowest(c: Config, bs: Layout, k: nat, need: nat)
    requires Chain(c, bs) && Fits(c, bs, k, need)
    ensures LowestFree(bs) <= k
    ensures bs[k].at == bs[LowestFree(bs)].at ==> forall j :: 0 <= j < k ==> Place(c, bs, k, need)[j].used
    ensures bs[k].at != bs[LowestFree(bs)].at ==>
      var r := Place(c, bs, k, need); r[LowestFree(r)].at == bs[LowestFree(bs)].at
  {
    var l, r := LowestFree(bs), Place(c, bs, k, need);
    ChainDistinct(c, bs, k);
    if l < k {
      assert r[l] == bs[l];
      LowestFreeIsUnique(r, l);
    }
  }

  /** An allocated block is used, at the same index, and its data starts inside the heap. */
  lemma PlaceInside(c: Config, bs: Layout, k: nat, need: nat)
    requires Chain(c, bs) && Fits(c, bs, k, need) && 0 < need
    ensures IsUsedBlock(Place(c, bs, k, need), k, bs[k].at) && bs[k].at + c.header < c.size
  {
    PlacedBlock(c, bs, k, need);
    BlockEndsInHeap(c, bs, k);
  }

  lemma ShrinkToSameSize(c: Config, bs: Layout, k: nat)
    requires Chain(c, bs) && k + 1 < |bs|
    requires bs[k].at + c.header <= End(bs, k)
    ensures Shrink(c, bs, k, End(bs, k) - bs[k].at - c.header) == bs
  {
  }

  /** Where the lowest free block is after a trim. */
  lemma ShrinkLowest(c: Config, bs: Layout, k: nat, need: nat)
    requires Chain(c, bs) && k + 1 < |bs| && bs[k].used && c.min <= need && bs[k].at + c.header + need < End(bs, k)
    ensures var at, l := bs[k].at + c.header + need, bs[LowestFree(bs)].at;
            var r := Shrink(c, bs, k, need);
            r[LowestFree(r)].at ==
              if !bs[k + 1].used then (if l == bs[k + 1].at then at else l)
              else if RoomToSplit(c, bs, k, need) then (if at < l then at else l)
              else l
  {
    var l := LowestFree(bs);
    var r := Shrink(c, bs, k, need);
    if l < k {
      ChainIncreases(c, bs, l, k);
      LowestFreeIsUnique(r, l);
    } else if !bs[k + 1].used {
      LowestFreeIsUnique(r, k + 1);
    } else if RoomToSplit(c, bs, k, need) {
      if k + 1 < l {
        ChainIncreases(c, bs, k + 1, l);
      }
      LowestFreeIsUnique(r, k + 1);
    }
  }
}
