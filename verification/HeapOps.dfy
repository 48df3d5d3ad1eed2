/** What mem_malloc, mem_free and mem_trim do to the block list, and the laws they obey together. */
module HeapOps {
  import opened HeapBlocks

  /** Block k is free and its data area holds need bytes. */
  predicate Fits(c: Config, bs: Layout, k: nat, need: nat) {
    k + 1 < |bs| && !bs[k].used && bs[k].at + c.header + need <= End(bs, k)
  }

  /** After need data bytes there is room for another header with MIN_SIZE_ALIGNED of data. */
  predicate RoomToSplit(c: Config, bs: Layout, k: nat, need: nat)
    requires k + 1 < |bs|
  {
    bs[k].at + c.header + need + c.header + c.min <= End(bs, k)
  }

  /** Give block k to the caller, splitting off the rest when it can stand as a block of its own. */
  function Place(c: Config, bs: Layout, k: nat, need: nat): Layout
    requires Fits(c, bs, k, need)
  {
    if RoomToSplit(c, bs, k, need) then
      Flag(Insert(bs, k, Block(bs[k].at + c.header + need, false)), k, true)
    else
      Flag(bs, k, true)
  }

  /** Merge the free block k with a free successor. */
  function Forward(bs: Layout, k: nat): Layout
    requires k + 1 < |bs|
  {
    if bs[k + 1].used then bs else Delete(bs, k + 1)
  }

  /** Merge the free block k with a free predecessor. */
  function Backward(bs: Layout, k: nat): Layout
    requires k < |bs|
  {
    if 0 < k && !bs[k - 1].used then Delete(bs, k) else bs
  }

  /** plug_holes on the free block k. */
  function Coalesce(bs: Layout, k: nat): Layout
    requires k + 1 < |bs|
  {
    Backward(Forward(bs, k), k)
  }

  function Release(bs: Layout, k: nat): Layout
    requires k + 1 < |bs|
  {
    Coalesce(Flag(bs, k, false), k)
  }

  /** mem_trim on used block k: move or create the free block behind it, if there can be one. */
  function Shrink(c: Config, bs: Layout, k: nat, need: nat): Layout
    requires k + 1 < |bs|
  {
    if !bs[k + 1].used then bs[k + 1 := Block(bs[k].at + c.header + need, false)]
    else if RoomToSplit(c, bs, k, need) then Insert(bs, k, Block(bs[k].at + c.header + need, false))
    else bs
  }

  /** End of the block that Place or Shrink leaves at block k. */
  function PlacedEnd(c: Config, bs: Layout, k: nat, need: nat): nat
    requires k + 1 < |bs|
  {
    if RoomToSplit(c, bs, k, need) then bs[k].at + c.header + need else End(bs, k)
  }

  function ShrunkEnd(c: Config, bs: Layout, k: nat, need: nat): nat
    requires k + 1 < |bs|
  {
    if !bs[k + 1].used || RoomToSplit(c, bs, k, need) then bs[k].at + c.header + need else End(bs, k)
  }

  /** A placed block holds what is needed, and less than would make another block. */
  lemma PlaceIsTight(c: Config, bs: Layout, k: nat, need: nat)
    requires Fits(c, bs, k, need) && c.min <= need
    ensures var r := Place(c, bs, k, need);
      && k + 1 < |r| && r[k].used && r[k].at == bs[k].at
      && bs[k].at + c.header + need <= End(r, k) < bs[k].at + c.header + need + c.header + c.min
  {
  }

  /** So does a trimmed block; in front of a free block nothing is left over. */
  lemma ShrinkIsTight(c: Config, bs: Layout, k: nat, need: nat)
    requires k + 1 < |bs| && bs[k].used && bs[k].at + c.header + need <= End(bs, k) && c.min <= need
    ensures var r := Shrink(c, bs, k, need);
      && k + 1 < |r| && r[k].used && r[k].at == bs[k].at
      && bs[k].at + c.header + need <= End(r, k) < bs[k].at + c.header + need + c.header + c.min
      && (!bs[k + 1].used ==> End(r, k) == bs[k].at + c.header + need)
  {
  }

  // ---------------------------------------------------------------- steps

  lemma InsertChain(c: Config, bs: Layout, k: nat, b: Block)
    requires Chain(c, bs) && k + 1 < |bs|
    requires bs[k].at + c.header + c.min <= b.at && b.at + c.header + c.min <= End(bs, k)
    ensures Chain(c, Insert(bs, k, b))
  {
    var r := Insert(bs, k, b);
    forall j | 0 <= j < |r| - 1
      ensures r[j].at + c.header + c.min <= End(r, j)
    {
      assert j < k ==> End(r, j) == End(bs, j);
      assert j > k + 1 ==> End(r, j) == End(bs, j - 1);
      assert j == k + 1 ==> End(r, j) == End(bs, k);
    }
  }

  lemma DeleteChain(c: Config, bs: Layout, k: nat)
    requires Chain(c, bs) && 0 < k && k + 1 < |bs|
    ensures Chain(c, Delete(bs, k))
  {
    var r := Delete(bs, k);
    forall j | 0 <= j < |r| - 1
      ensures r[j].at + c.header + c.min <= End(r, j)
    {
      assert j < k - 1 ==> End(r, j) == End(bs, j);
      assert j >= k ==> End(r, j) == End(bs, j + 1);
      assert j == k - 1 ==> End(r, j) == End(bs, k) && End(bs, k - 1) == bs[k].at;
    }
  }

  lemma FlagChain(c: Config, bs: Layout, k: nat, u: bool)
    requires Chain(c, bs) && k + 1 < |bs|
    ensures Chain(c, Flag(bs, k, u))
  {
    var r := Flag(bs, k, u);
    forall j | 0 <= j < |r| - 1
      ensures r[j].at + c.header + c.min <= End(r, j)
    {
      assert End(r, j) == End(bs, j);
    }
  }

  /** A pair is a used extent exactly when some listed used block spans it. */
  ghost predicate Spans(bs: Layout, k: int, e: (nat, nat)) {
    0 <= k < |bs| - 1 && bs[k].used && e == (bs[k].at, End(bs, k))
  }

  lemma ExtentMember(bs: Layout, e: (nat, nat))
    ensures e in UsedExtents(bs) <==> exists k :: Spans(bs, k, e)
  {
    if k :| Spans(bs, k, e) {
      assert bs[k].used;
    }
    if e in UsedExtents(bs) {
      var k :| 0 <= k < |bs| - 1 && bs[k].used && e == (bs[k].at, End(bs, k));
      assert Spans(bs, k, e);
    }
  }

  /** Removing the boundary between two free blocks leaves the handed-out memory as it was. */
  lemma DeleteExtents(bs: Layout, k: nat)
    requires 0 < k && k + 1 < |bs| && !bs[k - 1].used && !bs[k].used
    ensures UsedExtents(Delete(bs, k)) == UsedExtents(bs)
  {
    var r := Delete(bs, k);
    forall e
      ensures e in UsedExtents(r) <==> e in UsedExtents(bs)
    {
      ExtentMember(r, e);
      ExtentMember(bs, e);
      if j :| Spans(r, j, e) {
        assert Spans(bs, if j < k then j else j + 1, e);
      }
      if j :| Spans(bs, j, e) {
        assert Spans(r, if j < k then j else j - 1, e);
      }
    }
  }

  lemma FlagExtents(c: Config, bs: Layout, k: nat, u: bool)
    requires Chain(c, bs) && k + 1 < |bs|
    ensures UsedExtents(Flag(bs, k, u)) ==
      if u then UsedExtents(bs) + {(bs[k].at, End(bs, k))} else UsedExtents(bs) - {(bs[k].at, End(bs, k))}
  {
    var r := Flag(bs, k, u);
    var x := (bs[k].at, End(bs, k));
    ChainDistinct(c, bs, k);
    forall e
      ensures e in UsedExtents(r) <==> if u then e in UsedExtents(bs) || e == x else e in UsedExtents(bs) && e != x
    {
      ExtentMember(r, e);
      ExtentMember(bs, e);
      if j :| Spans(r, j, e) {
        assert j != k ==> Spans(bs, j, e) && bs[j].at != bs[k].at;
      }
      if j :| Spans(bs, j, e) {
        assert j != k ==> Spans(r, j, e);
      }
      assert u ==> Spans(r, k, x);
    }
  }

  // ------------------------------------------------- what one operation keeps

  /** A free block put behind a free block that is then marked used. */
  lemma SplitCoalesced(bs: Layout, k: nat, at: nat)
    requires k + 1 < |bs| && Coalesced(bs) && !bs[k].used
    ensures Coalesced(Flag(Insert(bs, k, Block(at, false)), k, true))
  {
    var r := Flag(Insert(bs, k, Block(at, false)), k, true);
    forall j | 0 <= j < |r| - 1
      ensures !BothFree(r, j)
    {
      if j < k {
        assert !BothFree(bs, j);
      } else if k < j {
        assert !BothFree(bs, j - 1);
      }
    }
  }

  lemma FlagUsedCoalesced(bs: Layout, k: nat)
    requires k < |bs| && Coalesced(bs)
    ensures Coalesced(Flag(bs, k, true))
  {
    forall j | 0 <= j < |bs| - 1
      ensures !BothFree(Flag(bs, k, true), j)
    {
      assert !BothFree(bs, j);
    }
  }

  lemma PlaceKeeps(c: Config, bs: Layout, k: nat, need: nat)
    requires WellFormed(c, bs) && Fits(c, bs, k, need) && c.min <= need
    ensures WellFormed(c, Place(c, bs, k, need))
    ensures UsedExtents(Place(c, bs, k, need)) == UsedExtents(bs) + {(bs[k].at, PlacedEnd(c, bs, k, need))}
    ensures UsedBytes(Place(c, bs, k, need)) == UsedBytes(bs) + PlacedEnd(c, bs, k, need) - bs[k].at
  {
    var end := PlacedEnd(c, bs, k, need);
    if RoomToSplit(c, bs, k, need) {
      SplitKeeps(c, bs, k, end);
      assert Place(c, bs, k, need) == Flag(Insert(bs, k, Block(end, false)), k, true);
    } else {
      WholeKeeps(c, bs, k);
      assert Place(c, bs, k, need) == Flag(bs, k, true);
    }
  }

  /** Handing out a free block as it is. */
  lemma WholeKeeps(c: Config, bs: Layout, k: nat)
    requires WellFormed(c, bs) && k + 1 < |bs| && !bs[k].used
    ensures var r := Flag(bs, k, true);
            WellFormed(c, r) && UsedExtents(r) == UsedExtents(bs) + {(bs[k].at, End(bs, k))}
            && UsedBytes(r) == UsedBytes(bs) + End(bs, k) - bs[k].at
  {
    FlagChain(c, bs, k, true);
    FlagUsedCoalesced(bs, k);
    FlagBytes(bs, k, true);
    FlagExtents(c, bs, k, true);
  }

  /** Cutting a free block in two and handing out the front part. */
  lemma SplitKeeps(c: Config, bs: Layout, k: nat, at: nat)
    requires WellFormed(c, bs) && k + 1 < |bs| && !bs[k].used
    requires bs[k].at + c.header + c.min <= at && at + c.header + c.min <= End(bs, k)
    ensures var r := Flag(Insert(bs, k, Block(at, false)), k, true);
            WellFormed(c, r) && UsedExtents(r) == UsedExtents(bs) + {(bs[k].at, at)}
            && UsedBytes(r) == UsedBytes(bs) + at - bs[k].at
  {
    var b := Block(at, false);
    var mid := Insert(bs, k, b);
    assert WellFormed(c, Flag(mid, k, true)) by {
      InsertChain(c, bs, k, b);
      FlagChain(c, mid, k, true);
      SplitCoalesced(bs, k, at);
    }
    assert UsedExtents(Flag(mid, k, true)) == UsedExtents(bs) + {(bs[k].at, at)} by {
      DeleteExtents(mid, k + 1);
      assert Delete(mid, k + 1) == bs;
      InsertChain(c, bs, k, b);
      FlagExtents(c, mid, k, true);
    }
    InsertBytes(bs, k, b);
    FlagBytes(mid, k, true);
  }

  /** What merging keeps, and how the lowest free block stays where it is. */
  ghost predicate Merged(c: Config, bs: Layout, r: Layout) {
    && 0 < |bs| && Chain(c, r)
    && UsedExtents(r) == UsedExtents(bs)
    && UsedBytes(r) == UsedBytes(bs)
    && r[LowestFree(r)].at == bs[LowestFree(bs)].at
  }

  lemma DeleteMerges(c: Config, bs: Layout, k: nat)
    requires Chain(c, bs)
    requires 0 < k && k + 1 < |bs| && !bs[k - 1].used && !bs[k].used
    ensures Merged(c, bs, Delete(bs, k))
  {
    DeleteChain(c, bs, k);
    DeleteExtents(bs, k);
    DeleteBytes(bs, k);
    var l := LowestFree(bs);
    assert l <= k - 1;
    LowestFreeIsUnique(Delete(bs, k), l);
  }

  lemma CoalesceKeeps(c: Config, bs: Layout, k: nat)
    requires Chain(c, bs) && k + 1 < |bs| && !bs[k].used && CoalescedBut(bs, k)
    ensures Merged(c, bs, Coalesce(bs, k)) && Coalesced(Coalesce(bs, k))
  {
    var fwd := Forward(bs, k);
    if !bs[k + 1].used {
      DeleteMerges(c, bs, k + 1);
    }
    CoalesceForward(bs, k);
    if 0 < k && !fwd[k - 1].used {
      DeleteMerges(c, fwd, k);
    }
    CoalesceBackward(fwd, k);
  }

  lemma CoalesceForward(bs: Layout, k: nat)
    requires k + 1 < |bs| && bs[|bs| - 1].used && CoalescedBut(bs, k)
    ensures var fwd := Forward(bs, k);
            k + 1 < |fwd| && fwd[k + 1].used && CoalescedBut(fwd, k)
  {
    if !bs[k + 1].used {
      var fwd := Delete(bs, k + 1);
      assert !BothFree(bs, k + 1);
      forall j | 0 <= j < |fwd| - 1 && j != k && j + 1 != k
        ensures !BothFree(fwd, j)
      {
        assert j < k ==> !BothFree(bs, j);
        assert k < j ==> !BothFree(bs, j + 1);
      }
    }
  }

  lemma CoalesceBackward(fwd: Layout, k: nat)
    requires k + 1 < |fwd| && fwd[k + 1].used && !fwd[k].used && CoalescedBut(fwd, k)
    ensures Coalesced(Backward(fwd, k))
  {
    if 0 < k && !fwd[k - 1].used {
      var r := Delete(fwd, k);
      forall j | 0 <= j < |r| - 1
        ensures !BothFree(r, j)
      {
        assert j + 1 < k ==> !BothFree(fwd, j);
        assert k <= j ==> r[j] == fwd[j + 1] && (k < j ==> !BothFree(fwd, j + 1));
      }
    } else {
      forall j | 0 <= j < |fwd| - 1
        ensures !BothFree(fwd, j)
      {
        assert j != k && j + 1 != k ==> !BothFree(fwd, j);
      }
    }
  }

  lemma FlagFreeCoalesced(bs: Layout, k: nat)
    requires k < |bs| && Coalesced(bs)
    ensures CoalescedBut(Flag(bs, k, false), k)
  {
    forall j | 0 <= j < |bs| - 1 && j != k && j + 1 != k
      ensures !BothFree(Flag(bs, k, false), j)
    {
      assert !BothFree(bs, j);
    }
  }

  lemma ReleaseKeeps(c: Config, bs: Layout, k: nat)
    requires WellFormed(c, bs) && k + 1 < |bs| && bs[k].used
    ensures WellFormed(c, Release(bs, k))
    ensures UsedExtents(Release(bs, k)) == UsedExtents(bs) - {(bs[k].at, End(bs, k))}
    ensures UsedBytes(Release(bs, k)) == UsedBytes(bs) - (End(bs, k) - bs[k].at)
  {
    FlagChain(c, bs, k, false);
    FlagBytes(bs, k, false);
    FlagExtents(c, bs, k, false);
    FlagFreeCoalesced(bs, k);
    CoalesceKeeps(c, Flag(bs, k, false), k);
  }

  /** Block k of bs ends at `at` in r; nothing else that is handed out differs. */
  ghost predicate Resized(c: Config, bs: Layout, r: Layout, k: nat, at: nat)
    requires k + 1 < |bs|
  {
    && WellFormed(c, r)
    && UsedExtents(r) == UsedExtents(bs) - {(bs[k].at, End(bs, k))} + {(bs[k].at, at)}
    && UsedBytes(r) == UsedBytes(bs) + at - End(bs, k)
  }

  lemma ShrinkKeeps(c: Config, bs: Layout, k: nat, need: nat)
    requires WellFormed(c, bs) && k + 1 < |bs| && bs[k].used && c.min <= need && bs[k].at + c.header + need <= End(bs, k)
    ensures Resized(c, bs, Shrink(c, bs, k, need), k, ShrunkEnd(c, bs, k, need))
  {
    var at := bs[k].at + c.header + need;
    if !bs[k + 1].used {
      MoveKeeps(c, bs, k, at);
    } else if RoomToSplit(c, bs, k, need) {
      CutKeeps(c, bs, k, at);
    } else {
      StayKeeps(c, bs, k);
    }
  }

  lemma StayKeeps(c: Config, bs: Layout, k: nat)
    requires WellFormed(c, bs) && k + 1 < |bs| && bs[k].used
    ensures Resized(c, bs, bs, k, End(bs, k))
  {
    var x := (bs[k].at, End(bs, k));
    ExtentMember(bs, x);
    assert Spans(bs, k, x);
    assert UsedExtents(bs) == UsedExtents(bs) - {x} + {x};
  }

  /** Cutting a used block in two and taking the rear part back. */
  lemma CutKeeps(c: Config, bs: Layout, k: nat, at: nat)
    requires WellFormed(c, bs) && k + 1 < |bs| && bs[k].used && bs[k + 1].used
    requires bs[k].at + c.header + c.min <= at && at + c.header + c.min <= End(bs, k)
    ensures Resized(c, bs, Insert(bs, k, Block(at, false)), k, at)
  {
    var r := Insert(bs, k, Block(at, false));
    InsertChain(c, bs, k, Block(at, false));
    InsertBytes(bs, k, Block(at, false));
    CutExtents(c, bs, k, at);
    forall j | 0 <= j < |r| - 1
      ensures !BothFree(r, j)
    {
      assert j < k ==> !BothFree(bs, j);
      assert k < j ==> !BothFree(bs, j - 1);
    }
  }

  lemma CutExtents(c: Config, bs: Layout, k: nat, at: nat)
    requires Chain(c, bs) && k + 1 < |bs| && bs[k].used
    ensures UsedExtents(Insert(bs, k, Block(at, false)))
         == UsedExtents(bs) - {(bs[k].at, End(bs, k))} + {(bs[k].at, at)}
  {
    var r := Insert(bs, k, Block(at, false));
    var x, y := (bs[k].at, End(bs, k)), (bs[k].at, at);
    ChainDistinct(c, bs, k);
    forall e
      ensures e in UsedExtents(r) <==> (e in UsedExtents(bs) && e != x) || e == y
    {
      ExtentMember(r, e);
      ExtentMember(bs, e);
      assert Spans(r, k, y);
      if j :| Spans(r, j, e) {
        assert j != k ==> Spans(bs, if j < k then j else j - 1, e);
      }
      if j :| Spans(bs, j, e) {
        assert j != k ==> Spans(r, if j < k then j else j + 1, e);
      }
    }
  }

  /** Moving the boundary between a used block and the free block behind it. */
  lemma MoveKeeps(c: Config, bs: Layout, k: nat, at: nat)
    requires WellFormed(c, bs) && k + 1 < |bs| && bs[k].used && !bs[k + 1].used
    requires bs[k].at + c.header + c.min <= at <= bs[k + 1].at
    ensures Resized(c, bs, bs[k + 1 := Block(at, false)], k, at)
  {
    var r := bs[k + 1 := Block(at, false)];
    forall j | 0 <= j < |r| - 1
      ensures r[j].at + c.header + c.min <= End(r, j) && !BothFree(r, j)
    {
      assert bs[j].at + c.header + c.min <= End(bs, j) && !BothFree(bs, j);
    }
    MoveExtents(c, bs, k, at);
    MoveBytes(bs, k, at);
  }

  lemma MoveBytes(bs: Layout, k: nat, at: nat)
    requires k + 2 < |bs| && bs[k].used && !bs[k + 1].used
    ensures UsedBytes(bs[k + 1 := Block(at, false)]) == UsedBytes(bs) + at - End(bs, k)
  {
    var one := Delete(bs, k + 1);
    InsertBytes(one, k, bs[k + 1]);
    InsertBytes(one, k, Block(at, false));
    assert Insert(one, k, bs[k + 1]) == bs;
    assert Insert(one, k, Block(at, false)) == bs[k + 1 := Block(at, false)];
  }

  lemma MoveExtents(c: Config, bs: Layout, k: nat, at: nat)
    requires Chain(c, bs) && k + 2 < |bs| && bs[k].used && !bs[k + 1].used
    ensures UsedExtents(bs[k + 1 := Block(at, false)]) == UsedExtents(bs) - {(bs[k].at, End(bs, k))} + {(bs[k].at, at)}
  {
    var r := bs[k + 1 := Block(at, false)];
    var x, y := (bs[k].at, End(bs, k)), (bs[k].at, at);
    ChainDistinct(c, bs, k);
    forall e
      ensures e in UsedExtents(r) <==> (e in UsedExtents(bs) && e != x) || e == y
    {
      ExtentMember(r, e);
      ExtentMember(bs, e);
      assert Spans(r, k, y);
      if j :| Spans(r, j, e) {
        assert j != k ==> Spans(bs, j, e) && bs[j].at != bs[k].at;
      }
      if j :| Spans(bs, j, e) {
        assert j != k ==> Spans(r, j, e);
      }
    }
  }
}
