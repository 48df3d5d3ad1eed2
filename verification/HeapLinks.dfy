/** How the struct mem fields inside ram hold a block list, and what the pointer writes of mem.c do to it. */
module HeapLinks {
  import opened HeapBlocks
  import opened HeapOps

  /** The fields next, prev and used, indexed by the offset of the struct in ram. */
  datatype Fields = Fields(next: seq<nat>, prev: seq<nat>, used: seq<bool>)

  /** The fields hold the list bs. The end marker's prev is not maintained and never read. */
  ghost predicate Linked(c: Config, f: Fields, bs: Layout) {
    && |f.next| == |f.prev| == |f.used| == c.size + 1
    && Chain(c, bs)
    && (forall k :: 0 <= k < |bs| ==> Holds(c, f, bs, k))
  }

  /** The struct at block k's offset says what the list says. */
  ghost predicate Holds(c: Config, f: Fields, bs: Layout, k: nat)
    requires k < |bs| && |f.next| == |f.prev| == |f.used| == c.size + 1
  {
    var at := bs[k].at;
    && at <= c.size
    && f.used[at] == bs[k].used
    && f.next[at] == (if k + 1 < |bs| then bs[k + 1].at else c.size)
    && (k == 0 ==> f.prev[at] == 0)
    && (0 < k < |bs| - 1 ==> f.prev[at] == bs[k - 1].at)
  }

  /** Taking block j out of the list: what plug_holes writes. */
  lemma Unlink(c: Config, f: Fields, bs: Layout, j: nat)
    requires Linked(c, f, bs) && 0 < j && j + 1 < |bs|
    ensures Holds(c, f, bs, j - 1) && Holds(c, f, bs, j + 1)
    ensures Linked(c, f.(next := f.next[bs[j - 1].at := bs[j + 1].at], prev := f.prev[bs[j + 1].at := bs[j - 1].at]),
                   Delete(bs, j))
  {
    assert Holds(c, f, bs, j - 1) && Holds(c, f, bs, j + 1);
    var g := f.(next := f.next[bs[j - 1].at := bs[j + 1].at], prev := f.prev[bs[j + 1].at := bs[j - 1].at]);
    var r := Delete(bs, j);
    DeleteChain(c, bs, j);
    ChainDistinct(c, bs, j - 1);
    ChainDistinct(c, bs, j + 1);
    forall k | 0 <= k < |r|
      ensures Holds(c, g, r, k)
    {
      assert Holds(c, f, bs, if k < j then k else k + 1);
    }
  }

  /** Writing the used flag of block k. */
  lemma Mark(c: Config, f: Fields, bs: Layout, k: nat, u: bool)
    requires Linked(c, f, bs) && k + 1 < |bs|
    ensures Holds(c, f, bs, k)
    ensures Linked(c, f.(used := f.used[bs[k].at := u]), Flag(bs, k, u))
  {
    assert Holds(c, f, bs, k);
    var g := f.(used := f.used[bs[k].at := u]);
    FlagChain(c, bs, k, u);
    ChainDistinct(c, bs, k);
    forall j | 0 <= j < |bs|
      ensures Holds(c, g, Flag(bs, k, u), j)
    {
      assert Holds(c, f, bs, j);
    }
  }

  /** Where the block behind offset `end` gets a new predecessor, unless that is the end marker. */
  function RePrev(c: Config, prev: seq<nat>, end: nat, at: nat): seq<nat>
    requires |prev| == c.size + 1 && end <= c.size
  {
    if end != c.size then prev[end := at] else prev
  }

  /** The writes that put a free struct at offset at behind block k, whose successor starts at `end`. */
  function LinkedIn(c: Config, f: Fields, block: nat, at: nat, end: nat): Fields
    requires |f.next| == |f.prev| == |f.used| == c.size + 1
    requires block <= c.size && at <= c.size && end <= c.size
  {
    Fields(f.next[at := end][block := at], RePrev(c, f.prev[at := block], end, at), f.used[at := false])
  }

  /** Splitting block k at offset at: what mem_malloc and mem_trim write. */
  lemma Link(c: Config, f: Fields, bs: Layout, k: nat, at: nat)
    requires Linked(c, f, bs) && k + 1 < |bs|
    requires bs[k].at + c.header + c.min <= at && at + c.header + c.min <= End(bs, k)
    ensures Holds(c, f, bs, k) && Holds(c, f, bs, k + 1)
    ensures Linked(c, LinkedIn(c, f, bs[k].at, at, End(bs, k)), Insert(bs, k, Block(at, false)))
  {
    assert Holds(c, f, bs, k) && Holds(c, f, bs, k + 1);
    var g := LinkedIn(c, f, bs[k].at, at, End(bs, k));
    var r := Insert(bs, k, Block(at, false));
    InsertChain(c, bs, k, Block(at, false));
    ChainDistinct(c, r, k);
    ChainDistinct(c, r, k + 1);
    ChainDistinct(c, r, k + 2);
    assert Holds(c, g, r, k + 1);
    forall j | 0 <= j < |r| && j != k + 1
      ensures Holds(c, g, r, j)
    {
      assert Holds(c, f, bs, if j <= k then j else j - 1);
      LastIsEnd(c, bs, if j <= k then j else j - 1);
    }
  }

  /** Only the end marker sits at MEM_SIZE_ALIGNED. */
  lemma LastIsEnd(c: Config, bs: Layout, k: nat)
    requires Chain(c, bs) && k < |bs|
    ensures bs[k].at == c.size <==> k == |bs| - 1
    ensures bs[k].at <= c.size
  {
    if k < |bs| - 1 {
      ChainIncreases(c, bs, k, |bs| - 1);
    }
  }

  /** Moving the free struct behind block k down to offset at: the first branch of mem_trim. */
  lemma Relink(c: Config, f: Fields, bs: Layout, k: nat, at: nat)
    requires Linked(c, f, bs) && k + 2 < |bs| && !bs[k + 1].used
    requires bs[k].at + c.header + c.min <= at <= bs[k + 1].at
    ensures Holds(c, f, bs, k) && Holds(c, f, bs, k + 1) && Holds(c, f, bs, k + 2)
    ensures Linked(c, LinkedIn(c, f, bs[k].at, at, End(bs, k + 1)), bs[k + 1 := Block(at, false)])
  {
    assert Holds(c, f, bs, k) && Holds(c, f, bs, k + 1) && Holds(c, f, bs, k + 2);
    var block, end := bs[k].at, End(bs, k + 1);
    var one := Delete(bs, k + 1);
    var f1 := f.(next := f.next[block := end], prev := f.prev[end := block]);
    Unlink(c, f, bs, k + 1);
    assert bs[k + 1].at + c.header + c.min <= End(bs, k + 1);
    Link(c, f1, one, k, at);
    assert Insert(one, k, Block(at, false)) == bs[k + 1 := Block(at, false)];
    RelinkFields(c, f, f1, block, at, end);
    EndPrevUnread(c, LinkedIn(c, f1, block, at, end), bs[k + 1 := Block(at, false)], f.prev[c.size]);
  }

  /** Unlinking first makes no difference to the fields, except perhaps to the end marker's prev. */
  lemma RelinkFields(c: Config, f: Fields, f1: Fields, block: nat, at: nat, end: nat)
    requires |f.next| == |f.prev| == |f.used| == c.size + 1 && block < at < end <= c.size
    requires f1 == f.(next := f.next[block := end], prev := f.prev[end := block])
    ensures var g1 := LinkedIn(c, f1, block, at, end);
            LinkedIn(c, f, block, at, end) == if end == c.size then g1.(prev := g1.prev[c.size := f.prev[c.size]]) else g1
  {
    var g, g1 := LinkedIn(c, f, block, at, end), LinkedIn(c, f1, block, at, end);
    assert g.next == g1.next && g.used == g1.used;
    assert end == c.size ==> g.prev == g1.prev[c.size := f.prev[c.size]];
    assert end != c.size ==> g.prev == g1.prev;
  }

  /** Whatever the end marker's prev is, the fields hold the same list. */
  lemma EndPrevUnread(c: Config, f: Fields, bs: Layout, x: nat)
    requires Linked(c, f, bs)
    ensures Linked(c, f.(prev := f.prev[c.size := x]), bs)
  {
    var g := f.(prev := f.prev[c.size := x]);
    forall j | 0 <= j < |bs|
      ensures Holds(c, g, bs, j)
    {
      assert Holds(c, f, bs, j);
      LastIsEnd(c, bs, j);
    }
  }
}
