/** The allocator as a machine on abstract heaps.

    An abstract heap is the partition `h` of [bot, top) into blocks together with the
    free list `list`, from the root to the prologue block `bot` that always ends it.
    Every internal step of the allocator is a function on the two.  The lemmas show that
    the steps keep the invariant of the heap.
 */
module AllocatorSpec {
  import opened Numbers
  import opened HeapTiling
  import opened HeapMemory
  import opened Sequences

  ghost predicate Free(h: Tiles, a: int) {
    a in h && !h[a].alloc
  }

  /** Address of the block after `x`. */
  function Next(h: Tiles, x: int): int
    requires x in h
  {
    x + h[x].size
  }

  ghost predicate TilesSound(h: Tiles, bot: int, top: int) {
    16 <= bot && Tiling(h, bot, top) && h[bot] == Block(MIN_BSIZE, true)
  }

  /** The list ends in the prologue and before that names free blocks, each once. */
  ghost predicate ListSound(h: Tiles, bot: int, list: seq<int>) {
    && 0 < |list| && list[|list| - 1] == bot
    && Distinct(list)
    && (forall x :: x in list ==> x == bot || Free(h, x))
  }

  /** All free blocks but possibly `hole` are listed. */
  ghost predicate Covers(h: Tiles, list: seq<int>, hole: int) {
    forall a :: Free(h, a) && a != hole ==> a in list
  }

  /** Two free neighbours can only be a pair with `hole` in it. */
  ghost predicate CoalescedExcept(h: Tiles, hole: int) {
    forall a {:trigger NextAllocated(h, a)} ::
      a in h && !h[a].alloc && a != hole && Next(h, a) != hole ==> NextAllocated(h, a)
  }

  /** The structure of the heap inside an operation, while the free block `hole` is out of the list. */
  ghost predicate Open(h: Tiles, bot: int, top: int, list: seq<int>, hole: int) {
    && TilesSound(h, bot, top) && Aligned(h) && ListSound(h, bot, list)
    && Free(h, hole) && hole !in list
    && Covers(h, list, hole) && CoalescedExcept(h, hole)
  }

  /** The state between public calls. */
  ghost predicate Inv(h: Tiles, bot: int, top: int, list: seq<int>) {
    && TilesSound(h, bot, top) && Aligned(h) && ListSound(h, bot, list)
    && Covers(h, list, bot) && Coalesced(h)
  }

  // ---------------------------------------------------------------- the steps

  ghost predicate FreeBelow(h: Tiles, x: int, p: int) {
    Free(h, p) && Next(h, p) == x
  }

  /** Start of the free stretch around the free block `x`. */
  ghost function Lo(h: Tiles, x: int): (r: int)
    ensures r == x || FreeBelow(h, x, r)
    ensures (exists p :: FreeBelow(h, x, p)) ==> FreeBelow(h, x, r)
  {
    if p :| FreeBelow(h, x, p) then p else x
  }

  /** End of the free stretch around the free block `x`. */
  ghost function Hi(h: Tiles, x: int): int
    requires x in h
  {
    if Free(h, Next(h, x)) then Next(h, Next(h, x)) else Next(h, x)
  }

  /** coalesce: the free stretch around `x` becomes one block ... */
  ghost function MergeTiles(h: Tiles, x: int): Tiles
    requires x in h
  {
    Replace(h, Lo(h, x), Hi(h, x), One(Lo(h, x), Hi(h, x) - Lo(h, x), false))
  }

  /** ... and its old parts leave the list. */
  ghost function MergeList(h: Tiles, list: seq<int>, x: int): seq<int>
    requires x in h
  {
    Without(Without(list, Lo(h, x)), Next(h, x))
  }

  /** The list after set_root(coalesce(x)). */
  ghost function ReleaseList(h: Tiles, list: seq<int>, x: int): seq<int>
    requires x in h
  {
    [Lo(h, x)] + MergeList(h, list, x)
  }

  /** The block at `x` with alloc bit `alloc`. */
  ghost function MarkTiles(h: Tiles, x: int, alloc: bool): Tiles
    requires x in h
  {
    Replace(h, x, Next(h, x), One(x, h[x].size, alloc))
  }

  /** [lo, hi) cut into a used block of `first` bytes and a free remainder. */
  ghost function SplitTiles(h: Tiles, lo: int, hi: int, first: int): Tiles {
    Replace(h, lo, hi, Two(lo, first, hi - lo - first))
  }

  /** place on the free block `x` */
  ghost function PlaceTiles(h: Tiles, x: int, bsize: int): Tiles
    requires x in h
  {
    if h[x].size < bsize + MIN_BSIZE then MarkTiles(h, x, true) else SplitTiles(h, x, Next(h, x), bsize)
  }

  ghost function PlaceList(h: Tiles, list: seq<int>, x: int, bsize: int): seq<int>
    requires x in h
  {
    if h[x].size < bsize + MIN_BSIZE then Without(list, x) else [x + bsize] + Without(list, x)
  }

  /** The heap after sbrk has delivered `size` more bytes, before they are listed. */
  ghost function ExtendTiles(h: Tiles, top: int, size: int): Tiles {
    h + One(top, size, false)
  }

  // ---------------------------------------------------------------- lists

  /** Taking a block out of the list keeps the list sound. */
  lemma CutSound(h: Tiles, bot: int, list: seq<int>, x: int)
    requires ListSound(h, bot, list) && x != bot
    ensures ListSound(h, bot, Without(list, x))
    ensures forall y :: y in Without(list, x) <==> y in list && y != x
  {
    WithoutDistinct(list, x);
    WithoutLast(list, x);
  }

  /** Putting an unlisted free block in front keeps the list sound. */
  lemma PushSound(h: Tiles, bot: int, list: seq<int>, x: int)
    requires ListSound(h, bot, list) && Free(h, x) && x !in list
    ensures ListSound(h, bot, [x] + list)
  {
  }

  /** Different listed blocks are at least 16 bytes apart. */
  lemma ListSpread(h: Tiles, bot: int, top: int, list: seq<int>)
    requires TilesSound(h, bot, top) && ListSound(h, bot, list)
    ensures Spread(list)
    ensures forall i :: 0 <= i < |list| ==> bot <= list[i] && list[i] + 16 <= top
  {
    forall i | 0 <= i < |list| ensures list[i] in h {
      assert list[i] in list;
    }
    forall i, j | 0 <= i < j < |list| ensures list[i] + 8 <= list[j] || list[j] + 8 <= list[i] {
      assert Apart(h, list[i], list[j]);
    }
  }

  // ---------------------------------------------------------------- cutting up a stretch anew

  /** The stretch [lo, hi) may be cut up anew if none of its blocks is listed. */
  lemma ReplaceSound(h: Tiles, bot: int, top: int, list: seq<int>, lo: int, hi: int, part: Tiles)
    requires TilesSound(h, bot, top) && lo in h && lo != bot && Edge(h, top, hi)
    requires Tiling(part, lo, hi)
    requires ListSound(h, bot, list)
    requires forall x :: x in list ==> x < lo || hi <= x
    ensures TilesSound(Replace(h, lo, hi, part), bot, top)
    ensures ListSound(Replace(h, lo, hi, part), bot, list)
  {
    ReplaceTiling(h, bot, top, lo, hi, part);
    hide Tiling;
  }

  /** If [lo, hi) is recut so that it has at most one free block, `hole`, only that one may have a free neighbour. */
  lemma RecutCoalesced(h: Tiles, bot: int, top: int, lo: int, hi: int, part: Tiles, hole: int)
    requires Tiling(h, bot, top) && Coalesced(h) && lo in h && lo < hi && Edge(h, top, hi)
    requires Tiling(part, lo, hi)
    requires forall a :: a in part && a != hole ==> part[a].alloc
    requires part[lo].alloc || lo == hole
    ensures CoalescedExcept(Replace(h, lo, hi, part), hole)
  {
    var h' := Replace(h, lo, hi, part);
    forall a | a in h' && !h'[a].alloc && a != hole && Next(h', a) != hole ensures NextAllocated(h', a) {
      Outside(h, bot, top, lo, hi, a);
      assert NextAllocated(h, a);
    }
  }

  /** The only block that starts inside a block is that block. */
  lemma NothingInside(h: Tiles, bot: int, top: int, x: int)
    requires Tiling(h, bot, top) && x in h
    ensures forall a :: a in h && x <= a < Next(h, x) ==> a == x
    ensures Edge(h, top, Next(h, x))
  {
    assert HasNext(h, x, top);
    forall a | a in h && x <= a < Next(h, x) ensures a == x {
      assert Apart(h, x, a);
    }
  }

  /** Recutting a stretch of blocks that are in use or unlisted so that exactly the part `hole` is free. */
  lemma RecutOpen(h: Tiles, bot: int, top: int, list: seq<int>, lo: int, hi: int, part: Tiles, hole: int, list': seq<int>)
    requires Inv(h, bot, top, list) && lo in h && lo != bot && lo < hi && Edge(h, top, hi)
    requires Tiling(part, lo, hi) && Aligned(part)
    requires forall a :: a in part && a != hole ==> part[a].alloc
    requires Free(part, hole) && (part[lo].alloc || lo == hole)
    requires ListSound(h, bot, list')
    requires forall y :: y in list' <==> y in list && !(lo <= y < hi)
    ensures Open(Replace(h, lo, hi, part), bot, top, list', hole)
  {
    assert lo <= hole < hi && bot !in part;
    hide Tiling; hide Coalesced; hide Aligned; hide CoalescedExcept;
    AlignedReplace(h, lo, hi, part);
    ReplaceSound(h, bot, top, list', lo, hi, part);
    RecutCoalesced(h, bot, top, lo, hi, part, hole);
  }

  /** Clearing the alloc bits of `x`, before it is merged and listed. */
  lemma MarkOpen(h: Tiles, bot: int, top: int, list: seq<int>, x: int)
    requires Inv(h, bot, top, list) && x in h && h[x].alloc && x != bot
    ensures Open(MarkTiles(h, x, false), bot, top, list, x)
  {
    var part := One(x, h[x].size, false);
    NothingInside(h, bot, top, x);
    OneTiling(x, h[x].size, false);
    assert Aligned(part) && x < Next(h, x) && Free(part, x);
    assert forall y :: y in list ==> !(x <= y < Next(h, x));
    assert ListSound(h, bot, list);
    assert MarkTiles(h, x, false) == Replace(h, x, Next(h, x), part);
    hide *;
    RecutOpen(h, bot, top, list, x, Next(h, x), part, x, list);
  }

  /** Cutting a used front part off a stretch and leaving a free remainder. */
  lemma SplitOpen(h: Tiles, bot: int, top: int, list: seq<int>, lo: int, hi: int, first: int, list': seq<int>)
    requires Inv(h, bot, top, list) && lo in h && lo != bot && Edge(h, top, hi)
    requires 16 <= first && first + 16 <= hi - lo && Mult8(first) && Mult8(hi - lo)
    requires ListSound(h, bot, list')
    requires forall y :: y in list' <==> y in list && !(lo <= y < hi)
    ensures Open(SplitTiles(h, lo, hi, first), bot, top, list', lo + first)
  {
    var part := Two(lo, first, hi - lo - first);
    TwoTiling(lo, first, hi - lo - first);
    assert Mult8(lo) && Free(part, lo + first) && part[lo].alloc;
    assert forall a :: a in part && a != lo + first ==> part[a].alloc;
    assert SplitTiles(h, lo, hi, first) == Replace(h, lo, hi, part);
    hide *;
    TwoAligned(lo, first, hi - lo - first);
    RecutOpen(h, bot, top, list, lo, hi, part, lo + first, list');
  }

  /** What it takes to use a free block: where it ends, and the list without it. */
  lemma TakeList(h: Tiles, bot: int, top: int, list: seq<int>, x: int)
    requires Inv(h, bot, top, list) && Free(h, x)
    ensures ListSound(h, bot, Without(list, x)) && x in list
    ensures forall y :: y in Without(list, x) <==> y in list && !(x <= y < Next(h, x))
    ensures Edge(h, top, Next(h, x)) && !Free(h, Next(h, x))
    ensures x in h && x != bot && 16 <= h[x].size && Mult8(h[x].size)
  {
    assert NextAllocated(h, x);
    NothingInside(h, bot, top, x);
    CutSound(h, bot, list, x);
  }

  lemma TakeWholeInv(h: Tiles, bot: int, top: int, list: seq<int>, x: int)
    requires Inv(h, bot, top, list) && Free(h, x)
    ensures Inv(MarkTiles(h, x, true), bot, top, Without(list, x))
  {
    var hi, part := Next(h, x), One(x, h[x].size, true);
    TakeList(h, bot, top, list, x);
    OneTiling(x, h[x].size, true);
    hide Tiling; hide ListSound; hide CoalescedExcept; hide Aligned;
    assert Aligned(part) by { assert Mult8(x); }
    AlignedReplace(h, x, hi, part);
    ReplaceSound(h, bot, top, Without(list, x), x, hi, part);
    RecutCoalesced(h, bot, top, x, hi, part, bot);
    assert CoalescedExcept(MarkTiles(h, x, true), bot);
  }

  lemma NextAligned(h: Tiles, x: int)
    requires Aligned(h) && x in h
    ensures Mult8(Next(h, x))
  {
  }

  lemma TopAligned(h: Tiles, bot: int, top: int)
    requires Tiling(h, bot, top) && Aligned(h)
    ensures Mult8(top)
  {
    NextAligned(h, Prev(h, bot, top, top));
  }

  lemma ExtendCoalesced(h: Tiles, bot: int, top: int, size: int)
    requires TilesSound(h, bot, top) && Coalesced(h)
    ensures CoalescedExcept(ExtendTiles(h, top, size), top)
  {
    var h' := ExtendTiles(h, top, size);
    forall a | a in h' && !h'[a].alloc && a != top && Next(h', a) != top ensures NextAllocated(h', a) {
      assert a in h && NextAllocated(h, a);
    }
  }

  /** New memory from sbrk is a free block, before it is merged and listed. */
  lemma ExtendOpen(h: Tiles, bot: int, top: int, list: seq<int>, size: int)
    requires Inv(h, bot, top, list) && 16 <= size && Mult8(size)
    ensures Open(ExtendTiles(h, top, size), bot, top + size, list, top)
  {
    var h' := ExtendTiles(h, top, size);
    TopAligned(h, bot, top);
    assert Aligned(h') && Free(h', top) && h'[bot] == h[bot];
    assert forall a :: a in h ==> a < top;
    hide Tiling; hide Aligned; hide Coalesced; hide CoalescedExcept;
    OneTiling(top, size, false);
    AppendTiling(h, bot, top, top + size, One(top, size, false));
    ExtendCoalesced(h, bot, top, size);
  }

  // ---------------------------------------------------------------- release

  lemma StretchEdges(h: Tiles, bot: int, top: int, x: int)
    requires TilesSound(h, bot, top) && Free(h, x)
    ensures Lo(h, x) in h && bot < Lo(h, x) <= x
    ensures Edge(h, top, Hi(h, x)) && x + 16 <= Hi(h, x)
  {
    assert HasNext(h, x, top);
    assert Free(h, Next(h, x)) ==> HasNext(h, Next(h, x), top);
  }

  /** The neighbour below decides where the free stretch starts. */
  lemma LoOf(h: Tiles, bot: int, top: int, x: int, p: int)
    requires TilesSound(h, bot, top) && x in h && p in h && Next(h, p) == x
    ensures Lo(h, x) == if h[p].alloc then x else p
  {
    assert FreeBelow(h, x, p) || h[p].alloc;
    assert Lo(h, x) in h ==> Apart(h, p, Lo(h, x));
  }

  /** After coalesce has taken the neighbours out, nothing listed starts in the free stretch. */
  lemma MergeListSound(h: Tiles, bot: int, top: int, list: seq<int>, x: int)
    requires TilesSound(h, bot, top) && ListSound(h, bot, list)
    requires Free(h, x) && x !in list
    ensures ListSound(h, bot, MergeList(h, list, x))
    ensures forall y :: y in MergeList(h, list, x) <==> y in list && !(Lo(h, x) <= y < Hi(h, x))
  {
    var lo, hi, next := Lo(h, x), Hi(h, x), Next(h, x);
    StretchEdges(h, bot, top, x);
    CutSound(h, bot, list, lo);
    CutSound(h, bot, Without(list, lo), next);
    forall y | y in list && lo <= y < hi ensures y == lo || y == next {
      assert Apart(h, x, y) && Apart(h, lo, y);
      assert Free(h, next) ==> Apart(h, next, y);
    }
  }

  lemma MergeSound(h: Tiles, bot: int, top: int, list: seq<int>, x: int)
    requires TilesSound(h, bot, top) && ListSound(h, bot, list)
    requires Free(h, x) && x !in list
    ensures TilesSound(MergeTiles(h, x), bot, top)
    ensures ListSound(MergeTiles(h, x), bot, MergeList(h, list, x))
  {
    var lo, hi := Lo(h, x), Hi(h, x);
    var part := One(lo, hi - lo, false);
    StretchEdges(h, bot, top, x);
    MergeListSound(h, bot, top, list, x);
    OneTiling(lo, hi - lo, false);
    assert forall y :: y in MergeList(h, list, x) ==> y < lo || hi <= y;
    assert MergeTiles(h, x) == Replace(h, lo, hi, part);
    hide *;
    ReplaceSound(h, bot, top, MergeList(h, list, x), lo, hi, part);
  }

  lemma MergeAligned(h: Tiles, bot: int, top: int, x: int)
    requires TilesSound(h, bot, top) && Aligned(h) && Free(h, x)
    ensures Aligned(MergeTiles(h, x))
  {
    var lo, hi := Lo(h, x), Hi(h, x);
    StretchEdges(h, bot, top, x);
    NextAligned(h, x);
    if Free(h, Next(h, x)) {
      NextAligned(h, Next(h, x));
    }
    assert Mult8(hi) && Mult8(lo);
    AlignedReplace(h, lo, hi, One(lo, hi - lo, false));
  }

  /** Below and above the free stretch around `x` there are no free blocks. */
  lemma StretchBordered(h: Tiles, bot: int, top: int, x: int)
    requires TilesSound(h, bot, top) && Free(h, x) && CoalescedExcept(h, x)
    ensures forall a :: a in h && Next(h, a) == Lo(h, x) ==> h[a].alloc
    ensures Hi(h, x) in h ==> h[Hi(h, x)].alloc
  {
    var n := Next(h, x);
    assert n in h ==> NextAllocated(h, n) || !Free(h, n);
    forall a | a in h && Next(h, a) == Lo(h, x) ensures h[a].alloc {
      assert Lo(h, x) == x && !h[a].alloc ==> FreeBelow(h, x, a);
      assert NextAllocated(h, a) || h[a].alloc || Lo(h, x) == x;
    }
  }

  lemma MergeCoalesced(h: Tiles, bot: int, top: int, x: int)
    requires TilesSound(h, bot, top) && Free(h, x) && CoalescedExcept(h, x)
    ensures Coalesced(MergeTiles(h, x))
  {
    var lo, hi := Lo(h, x), Hi(h, x);
    var h' := MergeTiles(h, x);
    StretchEdges(h, bot, top, x);
    StretchBordered(h, bot, top, x);
    forall a | a in h' && !h'[a].alloc ensures NextAllocated(h', a) {
      if a != lo {
        Outside(h, bot, top, lo, hi, a);
        assert NextAllocated(h, a);
      }
    }
  }

  /** The merged block is well formed and nothing in it is in use. */
  lemma MergePart(h: Tiles, bot: int, top: int, list: seq<int>, x: int)
    requires Open(h, bot, top, list, x)
    ensures var lo, hi := Lo(h, x), Hi(h, x);
            Tiling(One(lo, hi - lo, false), lo, hi) && Aligned(One(lo, hi - lo, false)) &&
            (forall a :: a in h && h[a].alloc ==> !(lo <= a < hi))
  {
    StretchEdges(h, bot, top, x);
    MergeAligned(h, bot, top, x);
    OneTiling(Lo(h, x), Hi(h, x) - Lo(h, x), false);
    assert MergeTiles(h, x)[Lo(h, x)].size == Hi(h, x) - Lo(h, x);
    forall a | a in h && h[a].alloc ensures !(Lo(h, x) <= a < Hi(h, x)) {
      assert Apart(h, x, a) && Apart(h, Lo(h, x), a);
      assert Free(h, Next(h, x)) ==> Apart(h, Next(h, x), a);
    }
  }

  /** set_root(coalesce(x)) puts the heap into the state between public calls. */
  lemma ReleaseInv(h: Tiles, bot: int, top: int, list: seq<int>, x: int)
    requires Open(h, bot, top, list, x)
    ensures Inv(MergeTiles(h, x), bot, top, ReleaseList(h, list, x))
  {
    var h', list' := MergeTiles(h, x), MergeList(h, list, x);
    MergeListSound(h, bot, top, list, x);
    StretchEdges(h, bot, top, x);
    MergeSound(h, bot, top, list, x);
    assert Free(h', Lo(h, x)) && Lo(h, x) !in list';
    assert Covers(h', [Lo(h, x)] + list', bot);
    assert TilesSound(h, bot, top) && Aligned(h) && CoalescedExcept(h, x) && Free(h, x);
    assert ReleaseList(h, list, x) == [Lo(h, x)] + list';
    hide TilesSound; hide Aligned; hide ListSound; hide Covers; hide Coalesced; hide CoalescedExcept;
    hide MergeTiles; hide MergeList;
    MergeAligned(h, bot, top, x);
    MergeCoalesced(h, bot, top, x);
    PushSound(h', bot, list', Lo(h, x));
  }

  /** If both neighbours are in use there is nothing to merge. */
  lemma MergeNothing(h: Tiles, bot: int, top: int, list: seq<int>, x: int)
    requires Open(h, bot, top, list, x)
    requires Lo(h, x) == x && Hi(h, x) == Next(h, x)
    ensures MergeTiles(h, x) == h && MergeList(h, list, x) == list
  {
    NothingInside(h, bot, top, x);
    WithoutAbsent(list, x);
    StretchEdges(h, bot, top, x);
    assert Next(h, x) !in list;
    WithoutAbsent(list, Next(h, x));
  }

  /** The remainder of a split has a used block below it and keeps the neighbour above. */
  lemma SplitStretch(h: Tiles, bot: int, top: int, lo: int, hi: int, first: int)
    requires 16 <= first && first + 16 <= hi - lo
    requires TilesSound(SplitTiles(h, lo, hi, first), bot, top)
    ensures var h' := SplitTiles(h, lo, hi, first);
            lo + first in h' && Next(h', lo + first) == hi && Lo(h', lo + first) == lo + first &&
            (!Free(h, hi) ==> Hi(h', lo + first) == hi)
  {
    LoOf(SplitTiles(h, lo, hi, first), bot, top, lo + first, lo);
  }

  /** A remainder that borders on used blocks is listed as it is. */
  lemma SplitReleased(h: Tiles, bot: int, top: int, lo: int, hi: int, first: int, list: seq<int>)
    requires 16 <= first && first + 16 <= hi - lo && !Free(h, hi)
    requires Open(SplitTiles(h, lo, hi, first), bot, top, list, lo + first)
    ensures MergeTiles(SplitTiles(h, lo, hi, first), lo + first) == SplitTiles(h, lo, hi, first)
    ensures ReleaseList(SplitTiles(h, lo, hi, first), list, lo + first) == [lo + first] + list
  {
    assert TilesSound(SplitTiles(h, lo, hi, first), bot, top);
    hide SplitTiles; hide TilesSound; hide MergeTiles; hide MergeList; hide Open;
    SplitStretch(h, bot, top, lo, hi, first);
    MergeNothing(SplitTiles(h, lo, hi, first), bot, top, list, lo + first);
  }

  lemma PlaceInv(h: Tiles, bot: int, top: int, list: seq<int>, x: int, bsize: int)
    requires Inv(h, bot, top, list) && Free(h, x)
    requires 16 <= bsize && Mult8(bsize)
    ensures Inv(PlaceTiles(h, x, bsize), bot, top, PlaceList(h, list, x, bsize))
  {
    hide Inv; hide ListSound; hide SplitTiles; hide MarkTiles; hide Open; hide MergeTiles; hide ReleaseList;
    TakeList(h, bot, top, list, x);
    if h[x].size < bsize + MIN_BSIZE {
      TakeWholeInv(h, bot, top, list, x);
    } else {
      SplitOpen(h, bot, top, list, x, Next(h, x), bsize, Without(list, x));
      ReleaseInv(SplitTiles(h, x, Next(h, x), bsize), bot, top, Without(list, x), x + bsize);
      SplitReleased(h, bot, top, x, Next(h, x), bsize, Without(list, x));
    }
  }
}
