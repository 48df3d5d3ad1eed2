/** The heap of mem.c seen as a list of blocks, and the block-level meaning of its operations.

    A layout lists every `struct mem` of the heap in address order, the end marker included.
    Only offsets and used flags matter: the extent of a block runs to the next block's offset. */
module HeapBlocks {
  import opened Common

  predicate Divides(a: nat, x: nat) {
    0 < a && x % a == 0
  }

  /** The build-time constants of the allocator: MEM_ALIGNMENT, SIZEOF_STRUCT_MEM, MIN_SIZE_ALIGNED,
      MEM_SIZE_ALIGNED, and the number of values of mem_size_t. */
  datatype Constants = Constants(align: nat, header: nat, min: nat, size: nat, width: nat) {
    predicate InRange() {
      0 < align && 0 < header && 0 < min && header + min <= size < width
    }

    /** Every size is a multiple of the alignment. */
    ghost predicate Rounded() {
      forall x | x in {header, min, size, width} :: Divides(align, x)
    }
  }

  type Config = c: Constants | c.InRange() witness Constants(4, 8, 12, 1600, 0x1_0000)

  /** The smallest multiple of a that is not below n, as adding a - 1 and clearing the low bits gives it. */
  function RoundUp(n: nat, a: nat): nat
    requires 0 < a
  {
    (n + a - 1) / a * a
  }

  /** What a mem_size_t keeps of x. */
  function LowBits(x: nat, width: nat): nat
    requires 0 < width
  {
    x % width
  }

  /** LWIP_MEM_ALIGN_SIZE stored in a mem_size_t: round up to a multiple of the alignment, keep the low bits. */
  function AlignSize(c: Config, n: nat): nat
  {
    LowBits(RoundUp(n, c.align), c.width)
  }

  /** The data size an allocation or a trim really works with. */
  function Need(c: Config, n: nat): nat
  {
    if AlignSize(c, n) < c.min then c.min else AlignSize(c, n)
  }

  /** Rounding up to the alignment leaves mem_size_t. */
  predicate RoundingWraps(c: Config, n: nat) {
    c.width < n + c.align
  }

  predicate Aligned(c: Config, n: nat) {
    Divides(c.align, n)
  }

  lemma Scale(a: nat, p: int, q: int)
    ensures p <= q ==> a * p <= a * q
  {
  }

  lemma MultipleBelow(x: nat, y: nat, a: nat)
    requires 0 < a && x % a == 0 && y % a == 0
    ensures x < y ==> x + a <= y
  {
    var p, q := x / a, y / a;
    assert x == a * p && y == a * q;
    Scale(a, q, p);
    Scale(a, p + 1, q);
  }

  lemma MultipleHasNoRemainder(a: nat, p: nat)
    requires 0 < a
    ensures (a * p) % a == 0
  {
    var q := (a * p) / a;
    assert a * p == a * q + (a * p) % a;
    Scale(a, p, q);
    Scale(a, q + 1, p);
  }

  lemma MultipleSum(x: nat, y: nat, a: nat)
    requires 0 < a && x % a == 0 && y % a == 0
    ensures (x + y) % a == 0
  {
    assert x == a * (x / a) && y == a * (y / a);
    assert x + y == a * (x / a + y / a);
    MultipleHasNoRemainder(a, x / a + y / a);
  }

  lemma RoundUpBounds(n: nat, a: nat)
    requires 0 < a
    ensures RoundUp(n, a) % a == 0 && n <= RoundUp(n, a) < n + a
  {
    var q := (n + a - 1) / a;
    assert n + a - 1 == a * q + (n + a - 1) % a;
    assert RoundUp(n, a) == a * q;
    MultipleHasNoRemainder(a, q);
  }

  lemma LowBitsUpTo(x: nat, width: nat)
    requires x <= width && 0 < width
    ensures LowBits(x, width) == if x < width then x else 0
  {
  }

  /** Rounding never loses bytes unless it wraps, and then nothing of the request is left. */
  lemma AlignSizeRounds(c: Config, n: nat)
    requires n < c.width && c.Rounded()
    ensures Aligned(c, AlignSize(c, n))
    ensures !RoundingWraps(c, n) ==> n <= AlignSize(c, n) < n + c.align
    ensures RoundingWraps(c, n) ==> AlignSize(c, n) == 0
  {
    RoundUpBounds(n, c.align);
    RoundedFits(c, n, RoundUp(n, c.align));
    LowBitsUpTo(RoundUp(n, c.align), c.width);
  }

  lemma RoundedFits(c: Config, n: nat, up: nat)
    requires n < c.width && c.Rounded() && Aligned(c, up) && n <= up < n + c.align
    ensures up <= c.width && (up == c.width <==> RoundingWraps(c, n))
  {
    assert Divides(c.align, c.width);
    MultipleBelow(c.width, up, c.align);
    MultipleBelow(up, c.width, c.align);
  }

  lemma NeedIsAligned(c: Config, n: nat)
    requires n < c.width && c.Rounded()
    ensures Aligned(c, Need(c, n)) && c.min <= Need(c, n)
    ensures !RoundingWraps(c, n) ==> n <= Need(c, n) && (Need(c, n) < n + c.align || Need(c, n) == c.min)
    ensures RoundingWraps(c, n) ==> Need(c, n) == c.min
  {
    assert Divides(c.align, c.min);
    AlignSizeRounds(c, n);
  }

  datatype Block = Block(at: nat, used: bool)

  type Layout = seq<Block>

  /** Offset of the byte after block k: what its `next` field holds. */
  function End(bs: Layout, k: nat): nat
    requires k + 1 < |bs|
  {
    bs[k + 1].at
  }

  ghost predicate AllAligned(c: Config, bs: Layout) {
    forall b :: b in bs ==> Aligned(c, b.at)
  }

  /** The list runs from offset 0 to the end marker, every block holding at least MIN_SIZE_ALIGNED. */
  ghost predicate Chain(c: Config, bs: Layout) {
    && 2 <= |bs|
    && bs[0].at == 0
    && bs[|bs| - 1] == Block(c.size, true)
    && (forall k {:trigger End(bs, k)} :: 0 <= k < |bs| - 1 ==> bs[k].at + c.header + c.min <= End(bs, k))
  }

  lemma {:induction false} ChainIncreases(c: Config, bs: Layout, i: nat, j: nat)
    requires Chain(c, bs) && i < j < |bs|
    ensures bs[i].at < bs[j].at
  {
    assert bs[j - 1].at < End(bs, j - 1);
    if i < j - 1 {
      ChainIncreases(c, bs, i, j - 1);
    }
  }

  /** No other block starts where block k starts. */
  lemma ChainDistinct(c: Config, bs: Layout, k: nat)
    requires Chain(c, bs) && k < |bs|
    ensures forall j :: 0 <= j < |bs| && j != k ==> bs[j].at != bs[k].at
  {
    forall j | 0 <= j < |bs| && j != k
      ensures bs[j].at != bs[k].at
    {
      if j < k {
        ChainIncreases(c, bs, j, k);
      } else {
        ChainIncreases(c, bs, k, j);
      }
    }
  }

  predicate BothFree(bs: Layout, k: nat)
    requires k + 1 < |bs|
  {
    !bs[k].used && !bs[k + 1].used
  }

  /** No unused block is followed by an unused block, save perhaps where block x takes part. */
  ghost predicate CoalescedBut(bs: Layout, x: int) {
    forall k {:trigger BothFree(bs, k)} :: 0 <= k < |bs| - 1 && k != x && k + 1 != x ==> !BothFree(bs, k)
  }

  ghost predicate Coalesced(bs: Layout) {
    forall k {:trigger BothFree(bs, k)} :: 0 <= k < |bs| - 1 ==> !BothFree(bs, k)
  }

  ghost predicate WellFormed(c: Config, bs: Layout) {
    Chain(c, bs) && Coalesced(bs)
  }

  /** The memory handed out: (offset of the header, end) of every used block. */
  ghost function UsedExtents(bs: Layout): set<(nat, nat)> {
    set k | 0 <= k < |bs| - 1 && bs[k].used :: (bs[k].at, End(bs, k))
  }

  /** Sum of the extents of the used blocks: the value the `used` statistic should have. */
  ghost function UsedBytes(bs: Layout): int {
    if |bs| < 2 then 0
    else (if bs[0].used then bs[1].at - bs[0].at else 0) + UsedBytes(bs[1..])
  }

  /** Index of the lowest free block, or of the end marker when none is free. */
  ghost function LowestFree(bs: Layout): (k: nat)
    requires 0 < |bs|
    ensures k < |bs|
    ensures forall j :: 0 <= j < k ==> bs[j].used
    ensures k < |bs| - 1 ==> !bs[k].used
  {
    if |bs| == 1 || !bs[0].used then 0 else 1 + LowestFree(bs[1..])
  }

  lemma {:induction false} LowestFreeIsUnique(bs: Layout, k: nat)
    requires k < |bs|
    requires forall j :: 0 <= j < k ==> bs[j].used
    requires k < |bs| - 1 ==> !bs[k].used
    ensures LowestFree(bs) == k
  {
    if 0 < k {
      assert bs[0].used;
      LowestFreeIsUnique(bs[1..], k - 1);
    }
  }

  /** The layout with block k's flag set to u. */
  function Flag(bs: Layout, k: nat, u: bool): Layout
    requires k < |bs|
  {
    bs[k := Block(bs[k].at, u)]
  }

  /** The layout with a new boundary put after block k. */
  function Insert(bs: Layout, k: nat, b: Block): (r: Layout)
    requires k < |bs|
    ensures |r| == |bs| + 1 && r[k + 1] == b
    ensures forall j :: 0 <= j <= k ==> r[j] == bs[j]
    ensures forall j :: k + 2 <= j < |r| ==> r[j] == bs[j - 1]
  {
    bs[..k + 1] + [b] + bs[k + 1..]
  }

  /** The layout with the boundary of block k taken away, so that block k - 1 swallows it. */
  function Delete(bs: Layout, k: nat): Layout
    requires k < |bs|
  {
    Without(bs, k)
  }

  lemma {:induction false} FlagBytes(bs: Layout, k: nat, u: bool)
    requires k + 1 < |bs|
    ensures UsedBytes(Flag(bs, k, u)) == UsedBytes(bs)
      - (if bs[k].used then End(bs, k) - bs[k].at else 0) + (if u then End(bs, k) - bs[k].at else 0)
  {
    if k == 0 {
      assert Flag(bs, 0, u)[1..] == bs[1..];
    } else {
      FlagBytes(bs[1..], k - 1, u);
      assert Flag(bs, k, u)[1..] == Flag(bs[1..], k - 1, u);
    }
  }

  lemma {:induction false} InsertBytes(bs: Layout, k: nat, b: Block)
    requires k + 1 < |bs|
    ensures UsedBytes(Insert(bs, k, b)) == UsedBytes(bs)
      - (if bs[k].used then End(bs, k) - b.at else 0) + (if b.used then End(bs, k) - b.at else 0)
  {
    var r := Insert(bs, k, b);
    if k == 0 {
      assert r[1..] == [b] + bs[1..];
      assert r[1..][1..] == bs[1..];
    } else {
      InsertBytes(bs[1..], k - 1, b);
      assert r[1..] == Insert(bs[1..], k - 1, b);
    }
  }

  lemma DeleteBytes(bs: Layout, k: nat)
    requires 0 < k && k + 1 < |bs| && bs[k - 1].used == bs[k].used
    ensures UsedBytes(Delete(bs, k)) == UsedBytes(bs)
  {
    InsertBytes(Delete(bs, k), k - 1, bs[k]);
    assert Insert(Delete(bs, k), k - 1, bs[k]) == bs;
  }
}
