/** What malloc, free and realloc answer, said of the heap alone: when they fail, where the block is, how large it
    is, how far the heap grows, and what becomes of the free list. */
module AllocatorAnswers {
  import opened Numbers
  import opened HeapTiling
  import opened HeapMemory
  import opened Sequences
  import opened AllocatorSpec
  import opened AllocatorOps

  // ---------------------------------------------------------------- the partition follows from the live blocks

  /** A block of one heap is a block of the other if its lower neighbours all are. */
  lemma SameStart(h: Tiles, g: Tiles, bot: int, top: int, a: int)
    requires TilesSound(h, bot, top) && TilesSound(g, bot, top) && a in h
    requires forall b :: b in h && b < a ==> b in g && g[b] == h[b]
    ensures a in g
  {
    if a != bot {
      var p := Prev(h, bot, top, a);
      assert HasNext(g, p, top);
    }
  }

  /** A free block ends where the next live one starts. */
  lemma SameEnd(h: Tiles, g: Tiles, bot: int, top: int, a: int)
    requires Tiling(h, bot, top) && Tiling(g, bot, top) && Coalesced(h)
    requires Free(h, a) && Free(g, a) && Live(h, bot) == Live(g, bot)
    ensures Next(g, a) <= Next(h, a)
  {
    var e := Next(h, a);
    assert HasNext(h, a, top) && NextAllocated(h, a);
    assert e in h ==> e in Live(h, bot);
    assert e in g ==> Apart(g, a, e);
  }

  lemma {:induction false} SameUpTo(h: Tiles, g: Tiles, bot: int, top: int, a: int)
    requires TilesSound(h, bot, top) && TilesSound(g, bot, top) && Coalesced(h) && Coalesced(g)
    requires Live(h, bot) == Live(g, bot)
    ensures forall b :: b in h && b < a ==> b in g && g[b] == h[b]
    decreases a - bot
  {
    forall b | b in h && b < a ensures b in g && g[b] == h[b] {
      SameUpTo(h, g, bot, top, b);
      SameStart(h, g, bot, top, b);
      if b != bot {
        assert b in Live(h, bot) <==> h[b].alloc;
        assert b in Live(g, bot) <==> g[b].alloc;
        if h[b].alloc {
          assert Live(h, bot)[b] == h[b].size && Live(g, bot)[b] == g[b].size;
        } else {
          SameEnd(h, g, bot, top, b);
          SameEnd(g, h, bot, top, b);
        }
      }
    }
  }

  /** Two heaps over the same range with the same live blocks are cut up in the same way: what is free, and into which
      blocks, is no more than a consequence. */
  lemma LiveDetermines(s: Heap, t: Heap)
    requires HeapInv(s) && HeapInv(t) && s.bot == t.bot && s.top == t.top
    requires Live(s.tiles, s.bot) == Live(t.tiles, t.bot)
    ensures s.tiles == t.tiles
  {
    var h, g := s.tiles, t.tiles;
    SameUpTo(h, g, s.bot, s.top, s.top);
    SameUpTo(g, h, s.bot, s.top, s.top);
    assert forall b :: b in h ==> b < s.top;
    assert forall b :: b in g ==> b < s.top;
  }

  // ---------------------------------------------------------------- malloc

  /** `p` is the first block on the list that fits. */
  ghost predicate IsFirst(h: Tiles, list: seq<int>, bsize: int, p: int) {
    exists k :: 0 <= k < |list| && list[k] == p && Fits(h, bsize, p) && forall i :: 0 <= i < k ==> !Fits(h, bsize, list[i])
  }

  /** `p` is where the last block of the heap starts if that is free, and the end of the heap if not. */
  ghost predicate IsLastFree(h: Tiles, top: int, p: int) {
    FreeBelow(h, top, p) || (p == top && forall q :: !FreeBelow(h, top, q))
  }

  lemma FirstFitIs(s: Heap, bsize: int)
    requires HeapInv(s) && exists x :: Fits(s.tiles, bsize, x)
    requires forall i :: 0 <= i < |s.list| ==> s.list[i] in s.tiles
    ensures IsFirst(s.tiles, s.list, bsize, FirstFit(s.tiles, s.list, bsize)) && FirstFit(s.tiles, s.list, bsize) != 0
  {
    var h, list, r := s.tiles, s.list, FirstFit(s.tiles, s.list, bsize);
    FirstFitFits(s, bsize);
    FirstFitIsFirst(h, list, bsize);
    var k :| 0 <= k < |list| - 1 && list[k] == r && forall i :: 0 <= i < k ==> h[list[i]].size < bsize;
    assert forall i :: 0 <= i < k ==> !Fits(h, bsize, list[i]);
  }

  /** The block the grown heap offers, and what is left of the list behind it. */
  lemma GrowAnswers(s: Heap, size: int)
    requires HeapInv(s) && 16 <= size && Mult8(size)
    ensures var g := Grow(s, size);
      && |g.list| > 0 && g.bot == s.bot && g.top == s.top + size && Part(g.list[1..], s.list)
      && var p := g.list[0];
         IsLastFree(s.tiles, s.top, p) && Free(g.tiles, p) && g.tiles[p].size == s.top + size - p
  {
    var h := ExtendTiles(s.tiles, s.top, size);
    ExtendOpen(s.tiles, s.bot, s.top, s.list, size);
    StretchEdges(h, s.bot, s.top + size, s.top);
    assert s.top !in s.tiles;
    assert Hi(h, s.top) == s.top + size by {
      assert Edge(h, s.top + size, Hi(h, s.top));
    }
    var p := Lo(h, s.top);
    forall q ensures FreeBelow(h, s.top, q) <==> FreeBelow(s.tiles, s.top, q) {
    }
    WithoutPart(s.list, p);
    WithoutPart(Without(s.list, p), Next(h, s.top));
    PartOfPart(Without(Without(s.list, p), Next(h, s.top)), Without(s.list, p), s.list);
  }

  /** The size of the block that is cut off a free block of `size` bytes: what is left over must make a block. */
  function Cut(size: int, bsize: int): int {
    if size < bsize + 16 then size else bsize
  }

  /** What is left of a block of `size` bytes at `p` is the new root; the other listed blocks keep their order. */
  ghost predicate ListAfter(list': seq<int>, list: seq<int>, p: int, size: int, bsize: int) {
    if size < bsize + 16 then Part(list', list) else |list'| > 0 && list'[0] == p + bsize && Part(list'[1..], list)
  }

  lemma PlaceAnswers(s: Heap, x: int, bsize: int)
    requires HeapInv(s) && Fits(s.tiles, bsize, x) && 16 <= bsize
    ensures var s', size := PlaceHeap(s, x, bsize), s.tiles[x].size;
      && AddsExactly(Live(s.tiles, s.bot), Live(s'.tiles, s.bot), x, Cut(size, bsize))
      && ListAfter(s'.list, Without(s.list, x), x, size, bsize)
  {
    LivePlace(s, x, bsize);
    PartSelf(Without(s.list, x));
    var s', size := PlaceHeap(s, x, bsize), s.tiles[x].size;
    assert size >= bsize + 16 ==> s'.list[1..] == Without(s.list, x);
  }

  lemma ListAfterPart(list': seq<int>, list: seq<int>, list0: seq<int>, p: int, size: int, bsize: int)
    requires ListAfter(list', list, p, size, bsize) && Part(list, list0)
    ensures ListAfter(list', list0, p, size, bsize)
  {
    if size < bsize + 16 {
      PartOfPart(list', list, list0);
    } else {
      PartOfPart(list'[1..], list, list0);
    }
  }

  /** What malloc delivers from a free block of `size` bytes at `p`. */
  ghost predicate Delivers(s: Heap, r: Outcome, p: int, size: int, bsize: int, top: int) {
    && r.ptr == p && r.heap.bot == s.bot && r.heap.top == top
    && AddsExactly(Live(s.tiles, s.bot), Live(r.heap.tiles, s.bot), p, Cut(size, bsize))
    && ListAfter(r.heap.list, s.list, p, size, bsize)
  }

  lemma MallocFits(s: Heap, n: int, max: int)
    requires HeapInv(s) && 0 < n && exists x :: Fits(s.tiles, BlockSize(n), x)
    ensures var b, r := BlockSize(n), Malloc(s, n, max);
      IsFirst(s.tiles, s.list, b, r.ptr) && r.ptr in s.tiles && Delivers(s, r, r.ptr, s.tiles[r.ptr].size, b, s.top)
  {
    var b, r := BlockSize(n), Malloc(s, n, max);
    BlockSizeFits(n);
    ListInTiles(s);
    FirstFitIs(s, b);
    FirstFitFits(s, b);
    var p := FirstFit(s.tiles, s.list, b);
    hide HeapInv; hide BlockSize; hide FirstFit; hide Live; hide IsFirst; hide ListAfter; hide AddsExactly;
    hide PlaceTiles; hide PlaceList; hide Part; hide Without;
    PlaceAnswers(s, p, b);
    WithoutPart(s.list, p);
    ListAfterPart(r.heap.list, Without(s.list, p), s.list, p, s.tiles[p].size, b);
  }

  lemma GrownPlaces(s: Heap, ext: int, b: int)
    requires HeapInv(s) && 16 <= b <= ext && Mult8(ext)
    ensures var r := GrowAndPlace(s, ext, b);
      IsLastFree(s.tiles, s.top, r.ptr) && Delivers(s, r, r.ptr, s.top + ext - r.ptr, b, s.top + ext)
  {
    hide HeapInv; hide Live; hide ListAfter; hide AddsExactly; hide Mult8;
    hide PlaceTiles; hide PlaceList; hide Part; hide Grow; hide IsLastFree;
    GrowFits(s, ext);
    var g := Grow(s, ext);
    var p := g.list[0];
    GrowInv(s, ext);
    GrowAnswers(s, ext);
    LiveGrow(s, ext);
    PlaceAnswers(g, p, b);
    assert Without(g.list, p) == g.list[1..];
    ListAfterPart(PlaceHeap(g, p, b).list, g.list[1..], s.list, p, g.tiles[p].size, b);
  }

  lemma MallocGrows(s: Heap, n: int, max: int)
    requires HeapInv(s) && 0 < n && (forall x :: !Fits(s.tiles, BlockSize(n), x))
    ensures var b, r := BlockSize(n), Malloc(s, n, max);
      var ext := if b > 4096 then b else 4096;
      if ext < 0x8000_0000 && s.top + ext <= max
      then IsLastFree(s.tiles, s.top, r.ptr) && Delivers(s, r, r.ptr, s.top + ext - r.ptr, b, s.top + ext)
      else r == Outcome(s, 0)
  {
    hide HeapInv; hide BlockSize; hide FirstFit; hide Live; hide ListAfter; hide AddsExactly; hide GrowAndPlace;
    hide IsLastFree; hide Fits; hide Delivers; hide Mult8; hide PlaceHeap;
    var b := BlockSize(n);
    BlockSizeFits(n);
    MallocReady(s, n);
    FirstFitFits(s, b);
    if CanGrow(s.top, ExtendSize(b), max) {
      GrownPlaces(s, ExtendSize(b), b);
    }
  }

  // ---------------------------------------------------------------- free

  /** Merging and listing `x`: the new root is the block with `x` in it, the others keep their order. */
  lemma ReleaseAnswers(h: Tiles, bot: int, top: int, list: seq<int>, x: int)
    requires Open(h, bot, top, list, x)
    ensures var s' := ReleaseHeap(h, bot, top, list, x);
      && s'.bot == bot && s'.top == top && |s'.list| > 0 && Part(s'.list[1..], list) && s'.list[0] == Lo(h, x)
      && Free(s'.tiles, s'.list[0]) && s'.list[0] <= x < s'.list[0] + s'.tiles[s'.list[0]].size
  {
    StretchEdges(h, bot, top, x);
    var lo, list' := Lo(h, x), MergeList(h, list, x);
    assert ReleaseHeap(h, bot, top, list, x).list[1..] == list';
    WithoutPart(list, lo);
    WithoutPart(Without(list, lo), Next(h, x));
    PartOfPart(list', Without(list, lo), list);
  }

  /** free: the block joins the free blocks on its two sides, and what comes of it is the new root. */
  lemma FreeAnswers(s: Heap, x: int)
    requires HeapInv(s) && x in Live(s.tiles, s.bot)
    ensures var s' := FreeBlock(s, x);
      && s'.bot == s.bot && s'.top == s.top && |s'.list| > 0 && Part(s'.list[1..], s.list)
      && Free(s'.tiles, s'.list[0]) && s'.list[0] <= x < s'.list[0] + s'.tiles[s'.list[0]].size
  {
    MarkOpen(s.tiles, s.bot, s.top, s.list, x);
    hide HeapInv; hide Open; hide MarkTiles;
    ReleaseAnswers(MarkTiles(s.tiles, x, false), s.bot, s.top, s.list, x);
  }

  // ---------------------------------------------------------------- realloc

  /** The free block `f` below `x` makes room for `bsize` bytes and a remainder. */
  ghost predicate RoomBelow(h: Tiles, x: int, f: int, bsize: int)
    requires x in h
  {
    FreeBelow(h, x, f) && h[f].size + h[x].size >= bsize + 16
  }

  ghost predicate RoomAbove(h: Tiles, x: int, bsize: int)
    requires x in h
  {
    Free(h, Next(h, x)) && h[x].size + h[Next(h, x)].size >= bsize + 16
  }

  /** The block at `x` has become one of exactly `bsize` bytes at `p`, and the free rest behind it is the root. */
  ghost predicate Resized(s: Heap, r: Outcome, x: int, p: int, bsize: int) {
    && r.ptr == p && r.heap.bot == s.bot && r.heap.top == s.top
    && AddsExactly(Live(s.tiles, s.bot) - {x}, Live(r.heap.tiles, s.bot), p, bsize)
    && |r.heap.list| > 0 && r.heap.list[0] == p + bsize && Part(r.heap.list[1..], s.list)
  }

  lemma SplitReleaseAnswers(s: Heap, lo: int, hi: int, first: int, list: seq<int>)
    requires 16 <= first && first + 16 <= hi - lo && Part(list, s.list)
    requires Open(SplitTiles(s.tiles, lo, hi, first), s.bot, s.top, list, lo + first)
    ensures var s' := SplitRelease(s, lo, hi, first, list);
      s'.bot == s.bot && s'.top == s.top && |s'.list| > 0 && s'.list[0] == lo + first && Part(s'.list[1..], s.list)
  {
    var h := SplitTiles(s.tiles, lo, hi, first);
    assert TilesSound(h, s.bot, s.top);
    hide SplitTiles; hide Open; hide Lo; hide Part;
    SplitStretch(s.tiles, s.bot, s.top, lo, hi, first);
    ReleaseAnswers(h, s.bot, s.top, list, lo + first);
    PartOfPart(SplitRelease(s, lo, hi, first, list).list[1..], list, s.list);
  }

  lemma ShrinkAnswers(s: Heap, x: int, b: int)
    requires HeapInv(s) && x in Live(s.tiles, s.bot) && 16 <= b && Mult8(b) && s.tiles[x].size >= b + 16
    ensures Resized(s, Outcome(SplitRelease(s, x, Next(s.tiles, x), b, s.list), x), x, x, b)
  {
    assert x in s.tiles && s.tiles[x].alloc && x != s.bot;
    hide HeapInv; hide Live; hide AddsExactly; hide Open; hide SplitTiles; hide Part; hide SplitRelease;
    ShrinkOpen(s, x, b);
    ShrinkLive(s, x, b);
    PartSelf(s.list);
    SplitReleaseAnswers(s, x, Next(s.tiles, x), b, s.list);
  }

  lemma PrevOpen(s: Heap, p: int, x: int, b: int, total: int)
    requires HeapInv(s) && x in Live(s.tiles, s.bot) && x in s.tiles && 16 <= b && Mult8(b) && RoomBelow(s.tiles, x, p, b)
    requires total == s.tiles[x].size + s.tiles[p].size
    ensures Open(SplitTiles(s.tiles, p, p + total, b), s.bot, s.top, Without(s.list, p), p + b)
    ensures Next(s.tiles, x) == p + total && b + 16 <= p + total - p && Part(Without(s.list, p), s.list)
  {
    hide HeapInv; hide Open; hide SplitTiles; hide Part; hide Without; hide Mult8;
    AbsorbOpen(s, p, p, x, b, total);
    WithoutPart(s.list, p);
  }

  lemma AbsorbPrevAnswers(s: Heap, p: int, x: int, b: int)
    requires HeapInv(s) && x in Live(s.tiles, s.bot) && 16 <= b && Mult8(b) && x in s.tiles && RoomBelow(s.tiles, x, p, b)
    ensures Resized(s, Outcome(SplitRelease(s, p, Next(s.tiles, x), b, Without(s.list, p)), p), x, p, b)
  {
    hide HeapInv; hide Live; hide AddsExactly; hide Open; hide SplitTiles; hide Part; hide Without; hide SplitRelease;
    hide Mult8;
    PrevOpen(s, p, x, b, s.tiles[x].size + s.tiles[p].size);
    AbsorbPrevLive(s, p, x, b);
    SplitReleaseAnswers(s, p, Next(s.tiles, x), b, Without(s.list, p));
  }

  lemma AbsorbNextAnswers(s: Heap, x: int, b: int)
    requires HeapInv(s) && x in Live(s.tiles, s.bot) && 16 <= b && Mult8(b) && x in s.tiles && RoomAbove(s.tiles, x, b)
    ensures Resized(s, Outcome(AbsorbNext(s, x, b), x), x, x, b)
  {
    hide HeapInv; hide Live; hide AddsExactly; hide SplitTiles; hide Part; hide Without;
    AbsorbNextLive(s, x, b);
    WithoutPart(s.list, Next(s.tiles, x));
    var s' := AbsorbNext(s, x, b);
    assert s'.list[1..] == Without(s.list, Next(s.tiles, x));
  }

  /** The neighbour below is one block. */
  lemma OneBelow(s: Heap, x: int, f: int)
    requires HeapInv(s) && FreeBelow(s.tiles, x, f) && x in s.tiles
    ensures Lo(s.tiles, x) == f
  {
    LoOf(s.tiles, s.bot, s.top, x, f);
  }

  /** realloc to n > 0 bytes: which of its five ways it takes, where the block then is, and how large. */
  lemma ReallocAnswers(s: Heap, x: int, n: int, max: int)
    requires HeapInv(s) && x in Live(s.tiles, s.bot) && 0 < n
    ensures var h, b, r, m := s.tiles, BlockSize(n), Realloc(s, x, n, max), Malloc(s, n, max);
      && (h[x].size >= b + 16 ==> Resized(s, r, x, x, b))
      && (h[x].size == b ==> r == Outcome(s, x))
      && (h[x].size < b + 16 && h[x].size != b ==>
           && (forall f :: RoomBelow(h, x, f, b) ==> Resized(s, r, x, f, b))
           && ((forall f :: !RoomBelow(h, x, f, b)) ==>
                if RoomAbove(h, x, b) then Resized(s, r, x, x, b)
                else if m.ptr == 0 then r == Outcome(s, 0)
                else x in m.heap.tiles && r == Outcome(FreeBlock(m.heap, x), m.ptr)))
  {
    var h, b := s.tiles, BlockSize(n);
    BlockSizeFits(n);
    MoveAllowed(s, x, n, max);
    hide HeapInv; hide BlockSize; hide FreeBlock; hide Malloc; hide SplitRelease; hide AbsorbNext; hide Resized; hide Mult8;
    if h[x].size >= b + 16 {
      ShrinkAnswers(s, x, b);
    } else if h[x].size != b {
      if f :| RoomBelow(h, x, f, b) {
        forall g | RoomBelow(h, x, g, b) ensures g == Lo(h, x) {
          OneBelow(s, x, g);
        }
        AbsorbPrevAnswers(s, f, x, b);
      } else {
        assert !RoomBelow(h, x, Lo(h, x), b);
        if RoomAbove(h, x, b) {
          AbsorbNextAnswers(s, x, b);
        }
      }
    }
  }

  /** realloc to n > 0 bytes fails exactly if the block is neither of the size wanted nor large enough to be split, no
      free neighbour makes it so, no free block fits, and the arena is exhausted. */
  lemma ReallocFailsExactly(s: Heap, x: int, n: int, max: int)
    requires HeapInv(s) && x in Live(s.tiles, s.bot) && 0 < n
    ensures var h, b := s.tiles, BlockSize(n);
      var ext := if b > 4096 then b else 4096;
      Realloc(s, x, n, max).ptr == 0 <==>
        && h[x].size != b && h[x].size < b + 16
        && (forall f :: FreeBelow(h, x, f) ==> h[f].size + h[x].size < b + 16)
        && (Free(h, Next(h, x)) ==> h[x].size + h[Next(h, x)].size < b + 16)
        && (forall y :: !Fits(h, b, y))
        && !(ext < 0x8000_0000 && s.top + ext <= max)
  {
    var h, b := s.tiles, BlockSize(n);
    NotNull(s);
    ReallocAnswers(s, x, n, max);
    MallocFailsExactly(s, n, max);
    hide HeapInv; hide BlockSize; hide FreeBlock; hide Malloc; hide Realloc; hide Fits;
    assert forall f :: RoomBelow(h, x, f, b) ==> f in h;
    assert forall f :: FreeBelow(h, x, f) && h[f].size + h[x].size >= b + 16 ==> RoomBelow(h, x, f, b);
  }
}
