/** The public operations as functions on abstract heaps, and what a client sees of them. */
module AllocatorOps {
  import opened Numbers
  import opened HeapTiling
  import opened HeapMemory
  import opened Sequences
  import opened AllocatorSpec

  datatype Heap = Heap(bot: int, tiles: Tiles, list: seq<int>, top: int)

  /** A heap and the returned pointer, 0 for NULL. */
  datatype Outcome = Outcome(heap: Heap, ptr: int)

  ghost predicate HeapInv(s: Heap) {
    Inv(s.tiles, s.bot, s.top, s.list)
  }

  /** ALIGN(n) + DSIZE */
  function BlockSize(n: int): int {
    (n + 7) - (n + 7) % 8 + DSIZE
  }

  lemma BlockSizeFits(n: int)
    requires 0 < n
    ensures Mult8(BlockSize(n)) && 16 <= BlockSize(n) && n + 8 <= BlockSize(n) < n + 16
  {
  }

  /** mem_sbrk takes an int and refuses to go past the end of the arena. */
  predicate CanGrow(top: int, size: int, max: int) {
    size < 0x8000_0000 && top + size <= max
  }

  /** find_fit: the first listed block of at least `bsize` bytes, or 0. */
  ghost function FirstFit(h: Tiles, list: seq<int>, bsize: int): int
    requires forall i :: 0 <= i < |list| ==> list[i] in h
  {
    if |list| <= 1 then 0
    else if bsize <= h[list[0]].size then list[0]
    else FirstFit(h, list[1..], bsize)
  }

  ghost predicate Fits(h: Tiles, bsize: int, x: int) {
    Free(h, x) && bsize <= h[x].size
  }

  ghost function PlaceHeap(s: Heap, x: int, bsize: int): Heap
    requires x in s.tiles
  {
    Heap(s.bot, PlaceTiles(s.tiles, x, bsize), PlaceList(s.tiles, s.list, x, bsize), s.top)
  }

  /** The heap after the unlisted free block `x` of `h` has been merged and listed. */
  ghost function ReleaseHeap(h: Tiles, bot: int, top: int, list: seq<int>, x: int): Heap
    requires x in h
  {
    Heap(bot, MergeTiles(h, x), ReleaseList(h, list, x), top)
  }

  ghost function Grow(s: Heap, size: int): Heap {
    ReleaseHeap(ExtendTiles(s.tiles, s.top, size), s.bot, s.top + size, s.list, s.top)
  }

  /** Bytes asked of mem_sbrk for a block of `bsize` bytes. */
  function ExtendSize(bsize: int): int {
    if bsize > CHUNKSIZE then bsize else CHUNKSIZE
  }

  /** What the two searches of malloc deliver can be used. */
  lemma MallocReady(s: Heap, n: int)
    requires HeapInv(s)
    ensures forall i :: 0 <= i < |s.list| ==> s.list[i] in s.tiles
    ensures var fit := FirstFit(s.tiles, s.list, BlockSize(n)); fit != 0 ==> fit in s.tiles
    ensures 16 <= ExtendSize(BlockSize(n)) && Mult8(ExtendSize(BlockSize(n)))
  {
    hide Inv; hide FirstFit; hide BlockSize;
    ListInTiles(s);
    FirstFitFits(s, BlockSize(n));
    BlockSizeAligned(n);
    assert Mult8(CHUNKSIZE);
  }

  lemma BlockSizeAligned(n: int)
    ensures Mult8(BlockSize(n))
  {
  }

  /** malloc on a heap in which nothing fits. */
  ghost function GrowAndPlace(s: Heap, ext: int, bsize: int): Outcome
    requires HeapInv(s) && 16 <= ext && Mult8(ext)
  {
    GrowFits(s, ext);
    var g := Grow(s, ext);
    Outcome(PlaceHeap(g, g.list[0], bsize), g.list[0])
  }

  ghost function Malloc(s: Heap, n: int, max: int): Outcome
    requires HeapInv(s)
  {
    MallocReady(s, n);
    var bsize := BlockSize(n);
    var fit, ext := FirstFit(s.tiles, s.list, bsize), ExtendSize(bsize);
    if n == 0 then Outcome(s, 0)
    else if fit != 0 then Outcome(PlaceHeap(s, fit, bsize), fit)
    else if !CanGrow(s.top, ext, max) then Outcome(s, 0)
    else GrowAndPlace(s, ext, bsize)
  }

  ghost function FreeBlock(s: Heap, x: int): Heap
    requires x in s.tiles
  {
    ReleaseHeap(MarkTiles(s.tiles, x, false), s.bot, s.top, s.list, x)
  }

  /** Keep `first` bytes of [lo, hi) and release the rest; `list` has no block of [lo, hi) any more. */
  ghost function SplitRelease(s: Heap, lo: int, hi: int, first: int, list: seq<int>): Heap {
    ReleaseHeap(SplitTiles(s.tiles, lo, hi, first), s.bot, s.top, list, lo + first)
  }

  /** mm_realloc, one branch for each of its five ways to find room. */
  ghost function Realloc(s: Heap, x: int, n: int, max: int): Outcome
    requires HeapInv(s) && x in Live(s.tiles, s.bot) && 0 <= n
  {
    var h, size, bsize := s.tiles, s.tiles[x].size, BlockSize(n);
    var prev, next := Lo(h, x), Next(h, x);
    if n == 0 then Outcome(FreeBlock(s, x), 0)
    else if size >= bsize + MIN_BSIZE then
      Outcome(SplitRelease(s, x, next, bsize, s.list), x)
    else if size == bsize then Outcome(s, x)
    else if FreeBelow(h, x, prev) && size + h[prev].size >= bsize + MIN_BSIZE then
      Outcome(SplitRelease(s, prev, next, bsize, Without(s.list, prev)), prev)
    else if Free(h, next) && size + h[next].size >= bsize + MIN_BSIZE then
      Outcome(AbsorbNext(s, x, bsize), x)
    else
      var r := Malloc(s, n, max);
      MoveAllowed(s, x, n, max);
      if r.ptr == 0 then Outcome(s, 0) else Outcome(FreeBlock(r.heap, x), r.ptr)
  }

  /** The absorb-next path: the remainder is listed without a call to coalesce. */
  ghost function AbsorbNext(s: Heap, x: int, bsize: int): Heap
    requires x in s.tiles && Next(s.tiles, x) in s.tiles
  {
    var next := Next(s.tiles, x);
    Heap(s.bot, SplitTiles(s.tiles, x, Next(s.tiles, next), bsize), [x + bsize] + Without(s.list, next), s.top)
  }

  // ---------------------------------------------------------------- find_fit

  lemma ListInTiles(s: Heap)
    requires HeapInv(s)
    ensures forall i :: 0 <= i < |s.list| ==> s.list[i] in s.tiles
  {
    forall i | 0 <= i < |s.list| ensures s.list[i] in s.tiles {
      assert s.list[i] in s.list;
    }
  }

  /** One step of the walk along the list. */
  lemma FirstFitStep(h: Tiles, list: seq<int>, bsize: int, k: int)
    requires 0 <= k < |list| && forall i :: 0 <= i < |list| ==> list[i] in h
    ensures FirstFit(h, list[k..], bsize) ==
              if k == |list| - 1 then 0 else if bsize <= h[list[k]].size then list[k] else FirstFit(h, list[k + 1..], bsize)
  {
    assert list[k..][1..] == list[k + 1..];
  }

  /** find_fit answers with a fitting listed block and passes only over blocks that are too small. */
  lemma {:induction false} FirstFitIsFirst(h: Tiles, list: seq<int>, bsize: int)
    requires 0 < |list| && forall i :: 0 <= i < |list| ==> list[i] in h && 0 < list[i]
    ensures var r := FirstFit(h, list, bsize);
            if r == 0 then forall i :: 0 <= i < |list| - 1 ==> h[list[i]].size < bsize
            else exists k :: 0 <= k < |list| - 1 && list[k] == r && bsize <= h[r].size &&
                   forall i :: 0 <= i < k ==> h[list[i]].size < bsize
  {
    var r := FirstFit(h, list, bsize);
    if |list| > 1 {
      if bsize <= h[list[0]].size {
        assert list[0] == r;
      } else {
        FirstFitIsFirst(h, list[1..], bsize);
        if r != 0 {
          var k :| 0 <= k < |list[1..]| - 1 && list[1..][k] == r && bsize <= h[r].size &&
                   forall i :: 0 <= i < k ==> h[list[1..][i]].size < bsize;
          assert list[k + 1] == r;
          forall i | 0 <= i < k + 1 ensures h[list[i]].size < bsize {
            if i > 0 { assert list[i] == list[1..][i - 1]; }
          }
        } else {
          forall i | 0 <= i < |list| - 1 ensures h[list[i]].size < bsize {
            if i > 0 { assert list[i] == list[1..][i - 1]; }
          }
        }
      }
    }
  }

  /** find_fit fails exactly when no free block of the heap is large enough. */
  lemma FirstFitFits(s: Heap, bsize: int)
    requires HeapInv(s)
    requires forall i :: 0 <= i < |s.list| ==> s.list[i] in s.tiles
    ensures var r := FirstFit(s.tiles, s.list, bsize);
            if r == 0 then forall x :: !Fits(s.tiles, bsize, x) else Fits(s.tiles, bsize, r)
  {
    var h, list, r := s.tiles, s.list, FirstFit(s.tiles, s.list, bsize);
    FirstFitIsFirst(h, list, bsize);
    if r == 0 {
      forall x | Free(h, x) ensures h[x].size < bsize {
        assert x in list && x != s.bot;
        var i :| 0 <= i < |list| && list[i] == x;
      }
    } else {
      assert r in list && r != s.bot;
    }
  }

  lemma GrowInv(s: Heap, size: int)
    requires HeapInv(s) && 16 <= size && Mult8(size)
    ensures HeapInv(Grow(s, size))
  {
    hide Inv; hide Open; hide MergeTiles; hide ReleaseList;
    ExtendOpen(s.tiles, s.bot, s.top, s.list, size);
    ReleaseInv(ExtendTiles(s.tiles, s.top, size), s.bot, s.top + size, s.list, s.top);
  }

  /** The grown heap starts its list with a block of at least `size` bytes. */
  lemma GrowFits(s: Heap, size: int)
    requires HeapInv(s) && 16 <= size && Mult8(size)
    ensures 0 < |Grow(s, size).list| && Fits(Grow(s, size).tiles, size, Grow(s, size).list[0])
  {
    var h := ExtendTiles(s.tiles, s.top, size);
    ExtendOpen(s.tiles, s.bot, s.top, s.list, size);
    StretchEdges(h, s.bot, s.top + size, s.top);
    assert s.top !in s.tiles;
    assert Hi(h, s.top) == s.top + size by {
      assert Edge(h, s.top + size, Hi(h, s.top));
    }
  }

  // ---------------------------------------------------------------- the invariant

  lemma MallocInv(s: Heap, n: int, max: int)
    requires HeapInv(s) && 0 <= n
    ensures HeapInv(Malloc(s, n, max).heap)
  {
    hide Inv; hide PlaceTiles; hide PlaceList; hide Grow; hide FirstFit; hide BlockSize;
    if n > 0 {
      var bsize := BlockSize(n);
      var ext := ExtendSize(bsize);
      BlockSizeFits(n);
      ListInTiles(s);
      FirstFitFits(s, bsize);
      if FirstFit(s.tiles, s.list, bsize) != 0 {
        PlaceInv(s.tiles, s.bot, s.top, s.list, FirstFit(s.tiles, s.list, bsize), bsize);
      } else {
        GrowInv(s, ext);
        GrowFits(s, ext);
        var g := Grow(s, ext);
        PlaceInv(g.tiles, g.bot, g.top, g.list, g.list[0], bsize);
      }
    }
  }

  lemma FreeInv(s: Heap, x: int)
    requires HeapInv(s) && x in s.tiles && s.tiles[x].alloc && x != s.bot
    ensures HeapInv(FreeBlock(s, x))
  {
    hide Inv; hide Open; hide MarkTiles; hide MergeTiles; hide ReleaseList;
    MarkOpen(s.tiles, s.bot, s.top, s.list, x);
    ReleaseInv(MarkTiles(s.tiles, x, false), s.bot, s.top, s.list, x);
  }

  lemma SplitReleaseInv(s: Heap, lo: int, hi: int, first: int, list: seq<int>)
    requires HeapInv(s) && lo in s.tiles && lo != s.bot && Edge(s.tiles, s.top, hi)
    requires 16 <= first && first + 16 <= hi - lo && Mult8(first) && Mult8(hi - lo)
    requires ListSound(s.tiles, s.bot, list)
    requires forall y :: y in list <==> y in s.list && !(lo <= y < hi)
    ensures HeapInv(SplitRelease(s, lo, hi, first, list))
  {
    hide Inv; hide Open; hide SplitTiles; hide MergeTiles; hide ReleaseList; hide ListSound;
    SplitOpen(s.tiles, s.bot, s.top, s.list, lo, hi, first, list);
    ReleaseInv(SplitTiles(s.tiles, lo, hi, first), s.bot, s.top, list, lo + first);
  }

  /** Shrinking in place leaves an unlisted remainder inside the old block. */
  lemma ShrinkOpen(s: Heap, x: int, bsize: int)
    requires HeapInv(s) && x in s.tiles && s.tiles[x].alloc && x != s.bot
    requires 16 <= bsize && Mult8(bsize) && s.tiles[x].size >= bsize + MIN_BSIZE
    ensures Open(SplitTiles(s.tiles, x, Next(s.tiles, x), bsize), s.bot, s.top, s.list, x + bsize)
    ensures forall y :: y in s.list ==> y < x || Next(s.tiles, x) <= y
    ensures forall a :: a in s.tiles && s.tiles[a].alloc && x <= a < Next(s.tiles, x) ==> a == x
    ensures Edge(s.tiles, s.top, Next(s.tiles, x)) && Mult8(s.tiles[x].size)
  {
    NothingInside(s.tiles, s.bot, s.top, x);
    assert Mult8(Next(s.tiles, x) - x) && ListSound(s.tiles, s.bot, s.list);
    assert forall y :: y in s.list ==> !(x <= y < Next(s.tiles, x));
    assert bsize + 16 <= Next(s.tiles, x) - x;
    assert Mult8(s.tiles[x].size);
    hide *;
    SplitOpen(s.tiles, s.bot, s.top, s.list, x, Next(s.tiles, x), bsize, s.list);
  }

  /** Taking over the free neighbour `f` of `x` leaves an unlisted remainder of the two. */
  lemma AbsorbOpen(s: Heap, lo: int, f: int, x: int, bsize: int, total: int)
    requires HeapInv(s) && x in s.tiles && s.tiles[x].alloc && x != s.bot && Free(s.tiles, f)
    requires (lo == f && Next(s.tiles, f) == x) || (lo == x && Next(s.tiles, x) == f)
    requires 16 <= bsize && Mult8(bsize) && s.tiles[x].size + s.tiles[f].size == total >= bsize + MIN_BSIZE
    ensures Open(SplitTiles(s.tiles, lo, lo + total, bsize), s.bot, s.top, Without(s.list, f), lo + bsize)
    ensures forall y :: y in Without(s.list, f) ==> y < lo || lo + total <= y
    ensures forall a :: a in s.tiles && s.tiles[a].alloc && lo <= a < lo + total ==> a == x
    ensures Edge(s.tiles, s.top, lo + total) && Mult8(total)
    ensures f in s.list && f != s.bot && lo in s.tiles && lo != s.bot && s.bot < lo
    ensures lo == x ==> !Free(s.tiles, lo + total)
  {
    hide Inv; hide ListSound; hide Open; hide SplitTiles; hide Mult8; hide Without;
    var hi := lo + total;
    assert hi - lo == total && hi == lo + s.tiles[f].size + s.tiles[x].size;
    PairFacts(s, lo, f, x);
    forall a | a in s.tiles && s.tiles[a].alloc && lo <= a < hi ensures a == x {
      PairLive(s, lo, f, x, a);
    }
    SplitOpen(s.tiles, s.bot, s.top, s.list, lo, hi, bsize, Without(s.list, f));
  }

  /** Shrinking in place: the block itself is the stretch that is cut. */
  lemma ShrinkInv(s: Heap, x: int, bsize: int)
    requires HeapInv(s) && x in s.tiles && s.tiles[x].alloc && x != s.bot
    requires 16 <= bsize && Mult8(bsize) && s.tiles[x].size >= bsize + MIN_BSIZE
    ensures HeapInv(SplitRelease(s, x, Next(s.tiles, x), bsize, s.list))
  {
    NothingInside(s.tiles, s.bot, s.top, x);
    assert Mult8(Next(s.tiles, x) - x) && ListSound(s.tiles, s.bot, s.list);
    assert forall y :: y in s.list ==> !(x <= y < Next(s.tiles, x));
    assert bsize + 16 <= Next(s.tiles, x) - x;
    hide *;
    SplitReleaseInv(s, x, Next(s.tiles, x), bsize, s.list);
  }

  /** What mm_realloc needs to know to take over the free block `f` next to `x`. */
  lemma PairFacts(s: Heap, lo: int, f: int, x: int)
    requires HeapInv(s) && x in s.tiles && s.tiles[x].alloc && x != s.bot && Free(s.tiles, f)
    requires (lo == f && Next(s.tiles, f) == x) || (lo == x && Next(s.tiles, x) == f)
    ensures var hi := lo + s.tiles[f].size + s.tiles[x].size;
            lo != s.bot && Edge(s.tiles, s.top, hi) && Mult8(hi - lo) && ListSound(s.tiles, s.bot, Without(s.list, f)) &&
            (forall y :: y in Without(s.list, f) <==> y in s.list && !(lo <= y < hi)) &&
            (lo == x ==> !Free(s.tiles, hi)) && f in s.list && f != s.bot && lo in s.tiles && s.bot < lo
  {
    PairEdges(s, lo, f, x);
    PairList(s, lo, f, x);
  }

  lemma PairEdges(s: Heap, lo: int, f: int, x: int)
    requires HeapInv(s) && x in s.tiles && s.tiles[x].alloc && x != s.bot && Free(s.tiles, f)
    requires (lo == f && Next(s.tiles, f) == x) || (lo == x && Next(s.tiles, x) == f)
    ensures var hi := lo + s.tiles[f].size + s.tiles[x].size;
            lo != s.bot && Edge(s.tiles, s.top, hi) && Mult8(hi - lo) && (lo == x ==> !Free(s.tiles, hi)) &&
            f != s.bot && lo in s.tiles && s.bot < lo
  {
    var h := s.tiles;
    hide ListSound; hide Covers; hide Disjoint; hide Mult8; hide HasNext;
    NothingInside(h, s.bot, s.top, x);
    NothingInside(h, s.bot, s.top, f);
    assert NextAllocated(h, f);
    MultAdd(h[f].size, h[x].size);
  }

  lemma PairList(s: Heap, lo: int, f: int, x: int)
    requires HeapInv(s) && x in s.tiles && s.tiles[x].alloc && x != s.bot && Free(s.tiles, f)
    requires (lo == f && Next(s.tiles, f) == x) || (lo == x && Next(s.tiles, x) == f)
    ensures var hi := lo + s.tiles[f].size + s.tiles[x].size;
            ListSound(s.tiles, s.bot, Without(s.list, f)) && f in s.list &&
            (forall y :: y in Without(s.list, f) <==> y in s.list && !(lo <= y < hi))
  {
    var h := s.tiles;
    hide Coalesced; hide Aligned; hide Disjoint;
    NothingInside(h, s.bot, s.top, x);
    NothingInside(h, s.bot, s.top, f);
    CutSound(h, s.bot, s.list, f);
  }

  lemma AbsorbPrevInv(s: Heap, p: int, x: int, bsize: int)
    requires HeapInv(s) && x in s.tiles && s.tiles[x].alloc && x != s.bot && FreeBelow(s.tiles, x, p)
    requires 16 <= bsize && Mult8(bsize) && s.tiles[x].size + s.tiles[p].size >= bsize + MIN_BSIZE
    ensures HeapInv(SplitRelease(s, p, Next(s.tiles, x), bsize, Without(s.list, p)))
  {
    PairFacts(s, p, p, x);
    assert p in s.tiles;
    assert Next(s.tiles, x) == p + s.tiles[p].size + s.tiles[x].size;
    hide *;
    SplitReleaseInv(s, p, Next(s.tiles, x), bsize, Without(s.list, p));
  }

  /** Skipping coalesce on the absorb-next path is harmless: coalesce would find nothing to merge. */
  lemma AbsorbNextMatchesCoalescing(s: Heap, x: int, bsize: int)
    requires HeapInv(s) && x in s.tiles && s.tiles[x].alloc && x != s.bot && Free(s.tiles, Next(s.tiles, x))
    requires 16 <= bsize && Mult8(bsize) && s.tiles[x].size + s.tiles[Next(s.tiles, x)].size >= bsize + MIN_BSIZE
    ensures var next := Next(s.tiles, x);
            AbsorbNext(s, x, bsize) == SplitRelease(s, x, Next(s.tiles, next), bsize, Without(s.list, next))
    ensures HeapInv(AbsorbNext(s, x, bsize))
  {
    var next := Next(s.tiles, x);
    var hi := Next(s.tiles, next);
    PairFacts(s, x, next, x);
    hide Inv; hide ListSound; hide Open; hide SplitTiles; hide MergeTiles; hide ReleaseList;
    SplitOpen(s.tiles, s.bot, s.top, s.list, x, hi, bsize, Without(s.list, next));
    SplitReleased(s.tiles, s.bot, s.top, x, hi, bsize, Without(s.list, next));
    SplitReleaseInv(s, x, hi, bsize, Without(s.list, next));
  }

  // ---------------------------------------------------------------- the live blocks

  /** The blocks a client owns, with their sizes. */
  ghost function Live(h: Tiles, bot: int): map<int, int> {
    map a | a in h && h[a].alloc && a != bot :: h[a].size
  }

  lemma LiveMerge(h: Tiles, bot: int, top: int, list: seq<int>, x: int)
    requires Open(h, bot, top, list, x)
    ensures Live(MergeTiles(h, x), bot) == Live(h, bot)
  {
    StretchEdges(h, bot, top, x);
    forall a | a in h && Lo(h, x) <= a < Hi(h, x) ensures !h[a].alloc {
      assert Apart(h, x, a) && Apart(h, Lo(h, x), a);
      assert Free(h, Next(h, x)) ==> Apart(h, Next(h, x), a);
    }
  }

  lemma LiveSplit(h: Tiles, bot: int, lo: int, hi: int, first: int)
    requires lo != bot && 0 < first < hi - lo
    ensures Live(SplitTiles(h, lo, hi, first), bot) == (map a | a in Live(h, bot) && !(lo <= a < hi) :: Live(h, bot)[a])[lo := first]
  {
  }

  lemma LiveMark(h: Tiles, bot: int, top: int, x: int, alloc: bool)
    requires TilesSound(h, bot, top) && x in h && x != bot
    ensures Live(MarkTiles(h, x, alloc), bot) == if alloc then Live(h, bot)[x := h[x].size] else Live(h, bot) - {x}
  {
    NothingInside(h, bot, top, x);
  }

  lemma LiveFree(s: Heap, x: int)
    requires HeapInv(s) && x in Live(s.tiles, s.bot)
    ensures Live(FreeBlock(s, x).tiles, s.bot) == Live(s.tiles, s.bot) - {x}
  {
    assert TilesSound(s.tiles, s.bot, s.top);
    hide Inv; hide Open; hide MarkTiles; hide MergeTiles; hide ReleaseList; hide TilesSound;
    MarkOpen(s.tiles, s.bot, s.top, s.list, x);
    LiveMerge(MarkTiles(s.tiles, x, false), s.bot, s.top, s.list, x);
    LiveMark(s.tiles, s.bot, s.top, x, false);
  }

  /** `after` is `before` with a block at `p`, which was not in use; it has at least `bsize` bytes, but not so many
      more that they would make a block. */
  ghost predicate Adds(before: map<int, int>, after: map<int, int>, p: int, bsize: int) {
    p !in before && p in after && bsize <= after[p] < bsize + 16 && after == before[p := after[p]]
  }

  ghost predicate AddsExactly(before: map<int, int>, after: map<int, int>, p: int, size: int) {
    p !in before && after == before[p := size]
  }

  lemma ExactlyAdds(before: map<int, int>, after: map<int, int>, p: int, size: int)
    requires AddsExactly(before, after, p, size)
    ensures Adds(before, after, p, size)
  {
  }

  lemma LivePlace(s: Heap, x: int, bsize: int)
    requires HeapInv(s) && Fits(s.tiles, bsize, x) && 16 <= bsize
    ensures AddsExactly(Live(s.tiles, s.bot), Live(PlaceTiles(s.tiles, x, bsize), s.bot), x,
                        if s.tiles[x].size < bsize + 16 then s.tiles[x].size else bsize)
  {
    var h, size := s.tiles, s.tiles[x].size;
    TakeList(h, s.bot, s.top, s.list, x);
    NothingInside(h, s.bot, s.top, x);
    if size < bsize + MIN_BSIZE {
      LiveMark(h, s.bot, s.top, x, true);
      assert Live(PlaceTiles(h, x, bsize), s.bot) == Live(h, s.bot)[x := size];
    } else {
      LiveSplit(h, s.bot, x, Next(h, x), bsize);
      assert Live(PlaceTiles(h, x, bsize), s.bot) == Live(h, s.bot)[x := bsize];
    }
  }

  lemma PlaceAdds(s: Heap, x: int, bsize: int)
    requires HeapInv(s) && Fits(s.tiles, bsize, x) && 16 <= bsize
    ensures Adds(Live(s.tiles, s.bot), Live(PlaceTiles(s.tiles, x, bsize), s.bot), x, bsize)
  {
    hide HeapInv; hide Live; hide PlaceTiles;
    LivePlace(s, x, bsize);
  }

  lemma LiveGrow(s: Heap, size: int)
    requires HeapInv(s) && 16 <= size && Mult8(size)
    ensures Live(Grow(s, size).tiles, s.bot) == Live(s.tiles, s.bot)
  {
    var h := ExtendTiles(s.tiles, s.top, size);
    assert s.top !in s.tiles;
    assert Live(h, s.bot) == Live(s.tiles, s.bot);
    hide Inv; hide Open; hide ExtendTiles; hide MergeTiles; hide ReleaseList; hide Live;
    ExtendOpen(s.tiles, s.bot, s.top, s.list, size);
    LiveMerge(h, s.bot, s.top + size, s.list, s.top);
  }

  /** malloc adds one live block, large enough, or changes nothing at all. */
  lemma MallocLive(s: Heap, n: int, max: int)
    requires HeapInv(s) && 0 <= n
    ensures var r := Malloc(s, n, max);
            if r.ptr == 0 then r.heap == s
            else n > 0 && Adds(Live(s.tiles, s.bot), Live(r.heap.tiles, s.bot), r.ptr, BlockSize(n))
  {
    if n > 0 {
      var bsize := BlockSize(n);
      var ext := ExtendSize(bsize);
      BlockSizeFits(n);
      ListInTiles(s);
      FirstFitFits(s, bsize);
      hide HeapInv; hide PlaceTiles; hide PlaceList; hide Grow; hide FirstFit; hide BlockSize; hide Live; hide Fits;
      if FirstFit(s.tiles, s.list, bsize) != 0 {
        PlaceAdds(s, FirstFit(s.tiles, s.list, bsize), bsize);
      } else if CanGrow(s.top, ext, max) {
        GrowInv(s, ext);
        GrowFits(s, ext);
        LiveGrow(s, ext);
        PlaceAdds(Grow(s, ext), Grow(s, ext).list[0], bsize);
      }
    }
  }

  lemma LiveSplitRelease(s: Heap, lo: int, hi: int, first: int, list: seq<int>, x: int)
    requires HeapInv(s) && lo in s.tiles && lo != s.bot && Edge(s.tiles, s.top, hi)
    requires 16 <= first && first + 16 <= hi - lo && Mult8(first) && Mult8(hi - lo)
    requires ListSound(s.tiles, s.bot, list)
    requires forall y :: y in list <==> y in s.list && !(lo <= y < hi)
    requires forall a :: a in Live(s.tiles, s.bot) && lo <= a < hi ==> a == x
    requires x in Live(s.tiles, s.bot) && lo <= x < hi
    ensures AddsExactly(Live(s.tiles, s.bot) - {x}, Live(SplitRelease(s, lo, hi, first, list).tiles, s.bot), lo, first)
  {
    hide Inv; hide Open; hide SplitTiles; hide MergeTiles; hide ReleaseList; hide ListSound; hide Live;
    var l := Live(s.tiles, s.bot);
    SplitOpen(s.tiles, s.bot, s.top, s.list, lo, hi, first, list);
    LiveMerge(SplitTiles(s.tiles, lo, hi, first), s.bot, s.top, list, lo + first);
    LiveSplit(s.tiles, s.bot, lo, hi, first);
    assert (map a | a in l && !(lo <= a < hi) :: l[a]) == l - {x};
    assert lo !in l - {x};
  }

  // ---------------------------------------------------------------- malloc then free

  /** Writing the one free block back into its stretch. */
  lemma PutBack(g: Tiles, h: Tiles, bot: int, top: int, x: int)
    requires Tiling(h, bot, top) && Free(h, x) && SameOutside(g, h, x, Next(h, x))
    ensures Replace(g, x, Next(h, x), One(x, h[x].size, false)) == h
  {
    NothingInside(h, bot, top, x);
    ReplaceSame(g, h, x, Next(h, x), One(x, h[x].size, false));
  }

  lemma NoFreeBelow(g: Tiles, h: Tiles, bot: int, top: int, x: int)
    requires Tiling(h, bot, top) && Coalesced(h) && Free(h, x) && SameOutside(g, h, x, Next(h, x))
    requires forall p :: p in g && x <= p < Next(h, x) ==> g[p].alloc || x < Next(g, p)
    ensures Lo(g, x) == x
  {
    forall p ensures !FreeBelow(g, x, p) {
      assert p in h && !h[p].alloc ==> NextAllocated(h, p);
    }
  }

  lemma PlaceWholeThenFree(h: Tiles, bot: int, top: int, list: seq<int>, x: int)
    requires Inv(h, bot, top, list) && Free(h, x)
    ensures x in MarkTiles(h, x, true)
    ensures MergeTiles(MarkTiles(MarkTiles(h, x, true), x, false), x) == h
  {
    var h1 := MarkTiles(h, x, true);
    TakeList(h, bot, top, list, x);
    assert SameOutside(h1, h, x, Next(h, x));
    PutBack(h1, h, bot, top, x);
    assert MarkTiles(h1, x, false) == h;
    NoFreeBelow(h, h, bot, top, x);
    PutBack(h, h, bot, top, x);
  }

  lemma SplitThenMark(h: Tiles, x: int, hi: int, first: int)
    requires 0 < first < hi - x
    ensures var h1 := SplitTiles(h, x, hi, first);
            x in h1 &&
            var h2 := MarkTiles(h1, x, false);
            x in h2 && SameOutside(h2, h, x, hi) && Hi(h2, x) == hi &&
            (forall p :: p in h2 && x <= p < hi ==> x < Next(h2, p))
  {
    var h1 := SplitTiles(h, x, hi, first);
    assert h1[x] == Block(first, true) && h1[x + first] == Block(hi - x - first, false);
    var h2 := MarkTiles(h1, x, false);
    assert h2[x] == Block(first, false) && h2[x + first] == Block(hi - x - first, false);
  }

  lemma PlaceSplitThenFree(h: Tiles, bot: int, top: int, list: seq<int>, x: int, bsize: int)
    requires Inv(h, bot, top, list) && Free(h, x) && 16 <= bsize && bsize + 16 <= h[x].size
    ensures var h1 := SplitTiles(h, x, Next(h, x), bsize);
            x in h1 && x in MarkTiles(h1, x, false) && MergeTiles(MarkTiles(h1, x, false), x) == h
  {
    hide *;
    InvTiles(h, bot, top, list, x);
    var hi := x + h[x].size;
    SplitThenMark(h, x, hi, bsize);
    SplitThenMerge(MarkTiles(SplitTiles(h, x, hi, bsize), x, false), h, bot, top, x);
  }

  lemma InvTiles(h: Tiles, bot: int, top: int, list: seq<int>, x: int)
    requires Inv(h, bot, top, list) && Free(h, x)
    ensures Tiling(h, bot, top) && Coalesced(h) && x in h && Next(h, x) == x + h[x].size
  {
  }

  /** Both parts of the split free again, coalesce puts them together. */
  lemma SplitThenMerge(h2: Tiles, h: Tiles, bot: int, top: int, x: int)
    requires Tiling(h, bot, top) && Coalesced(h) && Free(h, x) && SameOutside(h2, h, x, Next(h, x))
    requires x in h2 && Hi(h2, x) == Next(h, x)
    requires forall p :: p in h2 && x <= p < Next(h, x) ==> x < Next(h2, p)
    ensures MergeTiles(h2, x) == h
  {
    hide Tiling; hide Coalesced; hide SameOutside; hide Replace; hide Hi;
    NoFreeBelow(h2, h, bot, top, x);
    PutBack(h2, h, bot, top, x);
  }

  /** Round trip: when malloc need not grow the heap, free of its result restores the exact block partition. */
  lemma MallocFreeRoundTrip(s: Heap, n: int, max: int)
    requires HeapInv(s) && 0 < n
    requires exists x :: Fits(s.tiles, BlockSize(n), x)
    ensures var r := Malloc(s, n, max);
            r.ptr != 0 && r.ptr in r.heap.tiles && FreeBlock(r.heap, r.ptr).tiles == s.tiles && r.heap.top == s.top
  {
    BlockSizeFits(n);
    ListInTiles(s);
    FirstFitFits(s, BlockSize(n));
    hide Inv; hide MarkTiles; hide SplitTiles; hide MergeTiles; hide FirstFit; hide BlockSize;
    var fit := FirstFit(s.tiles, s.list, BlockSize(n));
    if s.tiles[fit].size < BlockSize(n) + MIN_BSIZE {
      PlaceWholeThenFree(s.tiles, s.bot, s.top, s.list, fit);
    } else {
      PlaceSplitThenFree(s.tiles, s.bot, s.top, s.list, fit, BlockSize(n));
    }
  }

  // ---------------------------------------------------------------- realloc

  /** realloc keeps the invariant, and the only live block it touches is the one it was given. */
  lemma ReallocInv(s: Heap, x: int, n: int, max: int)
    requires HeapInv(s) && x in Live(s.tiles, s.bot) && 0 <= n
    ensures HeapInv(Realloc(s, x, n, max).heap)
  {
    var h, bsize, prev, next := s.tiles, BlockSize(n), Lo(s.tiles, x), Next(s.tiles, x);
    assert x in h && h[x].alloc && x != s.bot;
    hide HeapInv; hide SplitRelease; hide AbsorbNext; hide FreeBlock; hide Malloc; hide BlockSize; hide Live;
    hide Lo; hide Adds;
    if n == 0 {
      FreeInv(s, x);
    } else {
      BlockSizeFits(n);
      if h[x].size >= bsize + MIN_BSIZE {
        ShrinkInv(s, x, bsize);
      } else if h[x].size == bsize {
      } else if FreeBelow(h, x, prev) && h[x].size + h[prev].size >= bsize + MIN_BSIZE {
        AbsorbPrevInv(s, prev, x, bsize);
      } else if Free(h, next) && h[x].size + h[next].size >= bsize + MIN_BSIZE {
        AbsorbNextMatchesCoalescing(s, x, bsize);
      } else {
        MallocInv(s, n, max);
        MallocLive(s, n, max);
        MoveAllowed(s, x, n, max);
        if Malloc(s, n, max).ptr != 0 {
          FreeInv(Malloc(s, n, max).heap, x);
        }
      }
    }
  }

  lemma MoveAllowed(s: Heap, x: int, n: int, max: int)
    requires HeapInv(s) && x in Live(s.tiles, s.bot) && 0 <= n
    ensures var r := Malloc(s, n, max);
            r.heap.bot == s.bot && x in r.heap.tiles && r.heap.tiles[x].alloc && x != s.bot && x != r.ptr &&
            x in Live(r.heap.tiles, s.bot)
  {
    MallocLive(s, n, max);
    var r := Malloc(s, n, max);
    hide HeapInv; hide PlaceTiles; hide PlaceList; hide Grow; hide FirstFit; hide BlockSize;
    assert x in Live(r.heap.tiles, s.bot);
  }

  lemma ShrinkLive(s: Heap, x: int, bsize: int)
    requires HeapInv(s) && x in Live(s.tiles, s.bot)
    requires 16 <= bsize && Mult8(bsize) && s.tiles[x].size >= bsize + MIN_BSIZE
    ensures AddsExactly(Live(s.tiles, s.bot) - {x}, Live(SplitRelease(s, x, Next(s.tiles, x), bsize, s.list).tiles, s.bot), x, bsize)
  {
    NothingInside(s.tiles, s.bot, s.top, x);
    assert Mult8(Next(s.tiles, x) - x) && ListSound(s.tiles, s.bot, s.list);
    assert forall y :: y in s.list ==> !(x <= y < Next(s.tiles, x));
    assert bsize + 16 <= Next(s.tiles, x) - x && x in s.tiles && x != s.bot;
    hide *;
    LiveSplitRelease(s, x, Next(s.tiles, x), bsize, s.list, x);
  }

  /** Of two neighbours of which one is free, only the other is live. */
  lemma PairLive(s: Heap, lo: int, f: int, x: int, a: int)
    requires HeapInv(s) && x in s.tiles && s.tiles[x].alloc && x != s.bot && Free(s.tiles, f)
    requires (lo == f && Next(s.tiles, f) == x) || (lo == x && Next(s.tiles, x) == f)
    requires a in s.tiles && s.tiles[a].alloc && lo <= a < lo + s.tiles[f].size + s.tiles[x].size
    ensures a == x
  {
    assert Apart(s.tiles, f, a) && Apart(s.tiles, x, a);
  }

  lemma LiveInTiles(s: Heap, x: int)
    requires x in Live(s.tiles, s.bot)
    ensures x in s.tiles
  {
  }

  /** The stretch of a block and the free block before it, as the cut and its release need it. */
  lemma PrevStretch(s: Heap, p: int, x: int, bsize: int)
    requires HeapInv(s) && x in Live(s.tiles, s.bot) && x in s.tiles && FreeBelow(s.tiles, x, p)
    requires s.tiles[x].size + s.tiles[p].size >= bsize + MIN_BSIZE
    ensures var hi := Next(s.tiles, x);
      && p in s.tiles && p != s.bot && Edge(s.tiles, s.top, hi) && Mult8(hi - p) && p <= x < hi && bsize + 16 <= hi - p
      && ListSound(s.tiles, s.bot, Without(s.list, p))
      && (forall y :: y in Without(s.list, p) <==> y in s.list && !(p <= y < hi))
      && (forall a :: a in Live(s.tiles, s.bot) && p <= a < hi ==> a == x)
  {
    PairFacts(s, p, p, x);
    var hi := Next(s.tiles, x);
    assert hi == p + s.tiles[p].size + s.tiles[x].size && x == p + s.tiles[p].size;
    assert 16 <= s.tiles[x].size && 16 <= s.tiles[p].size && Free(s.tiles, p);
    hide HeapInv; hide ListSound; hide Mult8; hide Edge; hide Without;
    forall a | a in Live(s.tiles, s.bot) && p <= a < hi ensures a == x {
      PairLive(s, p, p, x, a);
    }
  }

  lemma AbsorbPrevLive(s: Heap, p: int, x: int, bsize: int)
    requires HeapInv(s) && x in Live(s.tiles, s.bot) && FreeBelow(s.tiles, x, p)
    requires 16 <= bsize && Mult8(bsize) && s.tiles[x].size + s.tiles[p].size >= bsize + MIN_BSIZE
    ensures AddsExactly(Live(s.tiles, s.bot) - {x}, Live(SplitRelease(s, p, Next(s.tiles, x), bsize, Without(s.list, p)).tiles, s.bot), p, bsize)
  {
    hide *;
    LiveInTiles(s, x);
    PrevStretch(s, p, x, bsize);
    LiveSplitRelease(s, p, Next(s.tiles, x), bsize, Without(s.list, p), x);
  }

  lemma AbsorbNextLive(s: Heap, x: int, bsize: int)
    requires HeapInv(s) && x in Live(s.tiles, s.bot) && Free(s.tiles, Next(s.tiles, x))
    requires 16 <= bsize && Mult8(bsize) && s.tiles[x].size + s.tiles[Next(s.tiles, x)].size >= bsize + MIN_BSIZE
    ensures AddsExactly(Live(s.tiles, s.bot) - {x}, Live(AbsorbNext(s, x, bsize).tiles, s.bot), x, bsize)
  {
    hide *;
    var f := NextBlock(s, x);
    AbsorbNextMatchesCoalescing(s, x, bsize);
    AbsorbStretch(s, x, f, bsize);
    LiveSplitRelease(s, x, f + s.tiles[f].size, bsize, Without(s.list, f), x);
  }

  lemma NextBlock(s: Heap, x: int) returns (f: int)
    requires HeapInv(s) && x in Live(s.tiles, s.bot) && Free(s.tiles, Next(s.tiles, x))
    ensures x in s.tiles && s.tiles[x].alloc && x != s.bot
    ensures f == Next(s.tiles, x) && f in s.tiles && Next(s.tiles, f) == f + s.tiles[f].size
  {
    f := Next(s.tiles, x);
  }

  /** The stretch of a block and the free block after it, as the cut and its release need it. */
  lemma AbsorbStretch(s: Heap, x: int, f: int, bsize: int)
    requires HeapInv(s) && x in Live(s.tiles, s.bot) && x in s.tiles && f == Next(s.tiles, x) && Free(s.tiles, f)
    requires s.tiles[x].size + s.tiles[f].size >= bsize + MIN_BSIZE
    ensures var hi := f + s.tiles[f].size;
      && x != s.bot && Edge(s.tiles, s.top, hi) && Mult8(hi - x) && x <= x < hi && bsize + 16 <= hi - x
      && ListSound(s.tiles, s.bot, Without(s.list, f))
      && (forall y :: y in Without(s.list, f) <==> y in s.list && !(x <= y < hi))
      && (forall a :: a in Live(s.tiles, s.bot) && x <= a < hi ==> a == x)
  {
    PairFacts(s, x, f, x);
    var hi := f + s.tiles[f].size;
    assert hi == x + s.tiles[f].size + s.tiles[x].size && f in s.tiles;
    assert 16 <= s.tiles[x].size && 16 <= s.tiles[f].size;
    hide HeapInv; hide ListSound; hide Mult8; hide Edge; hide Without;
    forall a | a in Live(s.tiles, s.bot) && x <= a < hi ensures a == x {
      PairLive(s, x, f, x, a);
    }
  }

  /** Moving: the new block and, after the free, no old one. */
  lemma MoveLive(s: Heap, x: int, n: int, max: int)
    requires HeapInv(s) && x in Live(s.tiles, s.bot) && 0 < n
    requires Malloc(s, n, max).ptr != 0 && x in Malloc(s, n, max).heap.tiles
    ensures var r := Malloc(s, n, max);
            Adds(Live(s.tiles, s.bot) - {x}, Live(FreeBlock(r.heap, x).tiles, s.bot), r.ptr, BlockSize(n))
  {
    hide HeapInv; hide Malloc; hide FreeBlock; hide Live;
    var r := Malloc(s, n, max);
    MallocInv(s, n, max);
    MallocLive(s, n, max);
    MoveAllowed(s, x, n, max);
    LiveFree(r.heap, x);
    var l := Live(s.tiles, s.bot);
    assert l[r.ptr := Live(r.heap.tiles, s.bot)[r.ptr]] - {x} == (l - {x})[r.ptr := Live(r.heap.tiles, s.bot)[r.ptr]];
  }

  lemma KeepLive(s: Heap, x: int, n: int)
    requires x in Live(s.tiles, s.bot) && 0 < n && s.tiles[x].size == BlockSize(n)
    ensures Adds(Live(s.tiles, s.bot) - {x}, Live(s.tiles, s.bot), x, BlockSize(n))
  {
    BlockSizeFits(n);
  }

  /** realloc exchanges the given block for one that is large enough; NULL for n > 0 means nothing happened. */
  lemma ReallocLive(s: Heap, x: int, n: int, max: int)
    requires HeapInv(s) && x in Live(s.tiles, s.bot) && 0 <= n
    ensures var r := Realloc(s, x, n, max);
            if n == 0 then r.ptr == 0 && Live(r.heap.tiles, s.bot) == Live(s.tiles, s.bot) - {x}
            else if r.ptr == 0 then r.heap == s
            else Adds(Live(s.tiles, s.bot) - {x}, Live(r.heap.tiles, s.bot), r.ptr, BlockSize(n))
  {
    var h, bsize, prev, next := s.tiles, BlockSize(n), Lo(s.tiles, x), Next(s.tiles, x);
    var l, r := Live(s.tiles, s.bot), Realloc(s, x, n, max);
    assert x in h && 0 !in h;
    hide HeapInv; hide SplitRelease; hide AbsorbNext; hide FreeBlock; hide Malloc; hide BlockSize; hide Live;
    hide Lo; hide Adds; hide AddsExactly;
    if n == 0 {
      LiveFree(s, x);
    } else {
      BlockSizeFits(n);
      if h[x].size >= bsize + MIN_BSIZE {
        ShrinkLive(s, x, bsize);
        ExactlyAdds(l - {x}, Live(r.heap.tiles, s.bot), x, bsize);
      } else if h[x].size == bsize {
        KeepLive(s, x, n);
      } else if FreeBelow(h, x, prev) && h[x].size + h[prev].size >= bsize + MIN_BSIZE {
        AbsorbPrevLive(s, prev, x, bsize);
        ExactlyAdds(l - {x}, Live(r.heap.tiles, s.bot), prev, bsize);
      } else if Free(h, next) && h[x].size + h[next].size >= bsize + MIN_BSIZE {
        AbsorbNextLive(s, x, bsize);
        ExactlyAdds(l - {x}, Live(r.heap.tiles, s.bot), x, bsize);
      } else if Malloc(s, n, max).ptr != 0 {
        MoveAllowed(s, x, n, max);
        MoveLive(s, x, n, max);
      }
    }
  }

  // ---------------------------------------------------------------- growing

  /** The heap after mm_init. */
  lemma FirstHeap(bot: int)
    ensures var s := Grow(Heap(bot, One(bot, 16, true), [bot], bot + 16), CHUNKSIZE);
            s == Heap(bot, map[bot := Block(16, true), bot + 16 := Block(CHUNKSIZE, false)], [bot + 16, bot], bot + 16 + CHUNKSIZE)
    ensures Live(map[bot := Block(16, true), bot + 16 := Block(CHUNKSIZE, false)], bot) == map[]
  {
    var h := ExtendTiles(One(bot, 16, true), bot + 16, CHUNKSIZE);
    assert h == map[bot := Block(16, true), bot + 16 := Block(CHUNKSIZE, false)];
    assert Lo(h, bot + 16) == bot + 16;
    assert Without([bot], bot + 16) == [bot];
    assert Without([bot], bot + 16 + CHUNKSIZE) == [bot];
    assert MergeTiles(h, bot + 16) == h;
  }

  /** Dividing the size by the word size and rounding up to even loses nothing. */
  lemma ExtendWords(bsize: int)
    requires Mult8(bsize) && 16 <= bsize
    ensures var ext := ExtendSize(bsize);
            EvenBytes(ext / WSIZE) == ext && 4 <= ext / WSIZE && Mult8(ext) && (bsize <= 0xffff_fff0 ==> ext / WSIZE < 0x3fff_ffff)
  {
    var ext := ExtendSize(bsize);
    var k := ext / 8;
    assert ext == 8 * k;
    assert ext / WSIZE == 2 * k;
  }

  lemma GrowKeeps(s: Heap, size: int)
    requires HeapInv(s) && 16 <= size && Mult8(size)
    ensures forall a :: a in s.tiles && s.tiles[a].alloc ==> a in Grow(s, size).tiles && Grow(s, size).tiles[a] == s.tiles[a]
  {
    ExtendOpen(s.tiles, s.bot, s.top, s.list, size);
    MergePart(ExtendTiles(s.tiles, s.top, size), s.bot, s.top + size, s.list, s.top);
  }

  /** malloc leaves every live block where it is and as large as it is. */
  lemma MallocKeepsLive(s: Heap, n: int, max: int)
    requires HeapInv(s) && 0 <= n
    ensures var r := Malloc(s, n, max);
            (forall a :: a in s.tiles && s.tiles[a].alloc && a != s.bot ==>
              a != r.ptr && a in r.heap.tiles && r.heap.tiles[a] == s.tiles[a]) &&
            r.heap.bot == s.bot && s.top <= r.heap.top &&
            (r.ptr != 0 ==> r.ptr in r.heap.tiles && r.heap.tiles[r.ptr].alloc && r.ptr != s.bot && r.heap.tiles[r.ptr].size >= BlockSize(n))
  {
    hide HeapInv; hide PlaceTiles; hide PlaceList; hide FirstFit; hide BlockSize;
    MallocLive(s, n, max);
    var r := Malloc(s, n, max);
    var l, l' := Live(s.tiles, s.bot), Live(r.heap.tiles, s.bot);
    forall a | a in s.tiles && s.tiles[a].alloc && a != s.bot
      ensures a != r.ptr && a in r.heap.tiles && r.heap.tiles[a] == s.tiles[a]
    {
      assert a in l && a in l';
      NotNull(s);
    }
    assert r.ptr != 0 ==> r.ptr in l';
  }

  lemma NotNull(s: Heap)
    requires HeapInv(s)
    ensures 0 !in s.tiles
  {
  }

  /** malloc answers NULL exactly for size 0 or when no free block fits and the arena is exhausted. */
  lemma MallocFailsExactly(s: Heap, n: int, max: int)
    requires HeapInv(s) && 0 <= n
    ensures Malloc(s, n, max).ptr == 0 <==>
              n == 0 || ((forall x :: !Fits(s.tiles, BlockSize(n), x)) &&
                         !CanGrow(s.top, ExtendSize(BlockSize(n)), max))
    ensures Malloc(s, n, max).heap.top != s.top ==> forall x :: !Fits(s.tiles, BlockSize(n), x)
  {
    if n > 0 {
      BlockSizeFits(n);
      var bsize := BlockSize(n);
      var ext := ExtendSize(bsize);
      ListInTiles(s);
      FirstFitFits(s, bsize);
      hide Inv; hide PlaceTiles; hide PlaceList; hide Grow; hide FirstFit; hide BlockSize;
      if FirstFit(s.tiles, s.list, bsize) == 0 && CanGrow(s.top, ext, max) {
        GrowInv(s, ext);
        GrowFits(s, ext);
        NotNull(Grow(s, ext));
      }
    }
  }

  lemma SizeOrMore(size: int, bsize: int)
    requires Mult8(size) && Mult8(bsize) && bsize <= size < bsize + MIN_BSIZE && size != bsize
    ensures size == bsize + 8
  {
  }

  /** A block that is large enough already is not always kept: realloc fails exactly if it is 8 bytes too
      large, neither neighbour is free, and a new block cannot be had. */
  lemma ReallocOfLargeEnoughFails(s: Heap, x: int, n: int, max: int)
    requires HeapInv(s) && x in Live(s.tiles, s.bot) && 0 < n && BlockSize(n) <= s.tiles[x].size
    ensures Realloc(s, x, n, max).ptr == 0 <==>
              && s.tiles[x].size == BlockSize(n) + 8
              && !Free(s.tiles, Next(s.tiles, x)) && (forall p :: !FreeBelow(s.tiles, x, p))
              && (forall y :: !Fits(s.tiles, BlockSize(n), y))
              && !CanGrow(s.top, ExtendSize(BlockSize(n)), max)
  {
    var size, bsize := s.tiles[x].size, BlockSize(n);
    BlockSizeFits(n);
    NotNull(s);
    FreeSizes(s);
    MallocFailsExactly(s, n, max);
    assert Mult8(size) && Mult8(bsize);
    hide HeapInv; hide BlockSize; hide FreeBlock; hide Malloc; hide SplitRelease; hide AbsorbNext; hide Fits;
    hide CanGrow;
    if size < bsize + MIN_BSIZE && size != bsize {
      SizeOrMore(size, bsize);
    }
  }

  /** The heap mm_init leaves in an arena from 8 to 4128, and the one after malloc(4088). */
  const FIRST_HEAP := Heap(16, map[16 := Block(16, true), 32 := Block(4096, false)], [32, 16], 4128)
  const FULL_HEAP := Heap(16, map[16 := Block(16, true), 32 := Block(4096, true)], [16], 4128)

  lemma PrologueInv()
    ensures HeapInv(Heap(16, One(16, MIN_BSIZE, true), [16], 32))
  {
    OneTiling(16, MIN_BSIZE, true);
  }

  lemma FirstHeapInv()
    ensures HeapInv(FIRST_HEAP)
    ensures FIRST_HEAP == Grow(Heap(16, One(16, MIN_BSIZE, true), [16], 32), CHUNKSIZE)
  {
    hide HeapInv; hide Grow; hide One;
    PrologueInv();
    FirstHeap(16);
    GrowInv(Heap(16, One(16, MIN_BSIZE, true), [16], 32), CHUNKSIZE);
  }

  lemma FillHeap()
    requires HeapInv(FIRST_HEAP)
    ensures Malloc(FIRST_HEAP, 4088, 4128) == Outcome(FULL_HEAP, 32)
  {
    hide HeapInv;
    assert BlockSize(4088) == 4096;
    assert FirstFit(FIRST_HEAP.tiles, [32, 16], 4096) == 32;
    assert MarkTiles(FIRST_HEAP.tiles, 32, true) == FULL_HEAP.tiles;
    assert Without([32, 16], 32) == [16];
  }

  /** It does happen after mm_init and one malloc that takes all of the heap: a request for 8 bytes less fails. */
  lemma ReallocOfLargeEnoughCanFail()
    ensures HeapInv(FIRST_HEAP) && Malloc(FIRST_HEAP, 4088, 4128) == Outcome(FULL_HEAP, 32)
    ensures HeapInv(FULL_HEAP) && 32 in Live(FULL_HEAP.tiles, FULL_HEAP.bot)
    ensures BlockSize(4080) <= FULL_HEAP.tiles[32].size && Realloc(FULL_HEAP, 32, 4080, 4128).ptr == 0
  {
    FirstHeapInv();
    FillHeap();
    MallocInv(FIRST_HEAP, 4088, 4128);
    assert BlockSize(4080) == 4088;
    hide HeapInv; hide Realloc;
    ReallocOfLargeEnoughFails(FULL_HEAP, 32, 4080, 4128);
  }

  lemma FreeSizes(s: Heap)
    requires HeapInv(s)
    ensures forall a :: Free(s.tiles, a) ==> 16 <= s.tiles[a].size
  {
  }

  /** ALIGN(n) + DSIZE in 32-bit size_t arithmetic. */
  function BlockSize32(n: int): int {
    var aligned := (n + 7) % 0x1_0000_0000;
    (aligned - aligned % 8 + DSIZE) % 0x1_0000_0000
  }

  /** Without a bound on the request the computed block can be too small; it is right exactly up to 2^32 - 16. */
  lemma BlockSizeWraps(n: int)
    requires 0 < n < 0x1_0000_0000
    ensures BlockSize32(n) >= n + 8 <==> n <= 0xffff_fff0
    ensures n <= 0xffff_fff0 ==> BlockSize32(n) == BlockSize(n)
  {
  }
}
