/** The allocator itself: words written in place in one memory, tied to the abstract heap. */
module Allocator {
  import opened Numbers
  import opened HeapTiling
  import opened HeapMemory
  import opened Sequences
  import opened AllocatorSpec
  import opened AllocatorOps
  import opened AllocatorMemory

  class MemoryManager {
    /** The process's memory; slot p is the word at byte address p. */
    const mem: array<int>
    /** The arena [start, maxAddr) that mem_sbrk hands out; the heap is [start, brk). */
    const start: int
    const maxAddr: int
    var brk: int
    var prolBp: int
    var rootBp: int

    ghost var tiles: Tiles
    ghost var list: seq<int>

    /** The fields and the memory store the abstract heap. */
    ghost predicate Rep()
      reads this, mem
    {
      RepOn(mem[..])
    }

    ghost predicate RepOn(m: Memory)
      reads this
    {
      && 8 <= start && prolBp == start + 8 && brk <= maxAddr <= mem.Length < 0xffff_ffff
      && Stores(m, tiles, prolBp, brk, list)
      && rootBp == list[0]
    }

    /** The root has no predecessor. */
    ghost predicate RootZero()
      reads this, mem
    {
      0 <= rootBp < mem.Length - 4 && mem[rootBp + 4] == 0
    }

    /** cut_out of the root. */
    method CutRootOut(bp: int)
      requires Rep() && bp == rootBp && bp in list && bp != prolBp
      modifies mem, this`rootBp, this`list
      ensures Rep() && RootZero() && list == Without(old(list), bp)
      ensures mem[..] == CutMemory(old(mem[..]), old(rootBp), bp) && rootBp == CutRoot(old(mem[..]), old(rootBp), bp)
      ensures Keeps(old(mem[..]), mem[..], tiles, prolBp, brk, 0)
    {
      hide Stores; hide Keeps; hide Without;
      ghost var m, ns := mem[..], list;
      NodeReads(m, tiles, prolBp, brk, ns, 0);
      rootBp := mem[bp];
      mem[rootBp + 4] := 0;
      CutFirst(m, mem[..], tiles, prolBp, brk, ns);
      list := Without(ns, bp);
    }

    /** cut_out of another block, at position k of the list. */
    method CutInner(bp: int, ghost k: int)
      requires Rep() && bp != rootBp && 0 <= k < |list| && list[k] == bp && bp != prolBp
      modifies mem, this`list
      ensures Rep() && list == Without(old(list), bp)
      ensures mem[..] == CutMemory(old(mem[..]), rootBp, bp)
      ensures Keeps(old(mem[..]), mem[..], tiles, prolBp, brk, 0)
      ensures old(RootZero()) ==> RootZero()
    {
      hide Stores; hide Keeps; hide Without;
      ghost var m, ns := mem[..], list;
      NodeReads(m, tiles, prolBp, brk, ns, k);
      mem[mem[bp + 4]] := mem[bp];
      mem[mem[bp] + 4] := mem[bp + 4];
      CutMiddle(m, mem[..], tiles, prolBp, brk, ns, k);
      list := Without(ns, bp);
    }

    /** Takes a listed block out of the free list. */
    method CutOut(bp: int)
      requires Rep() && bp in list && bp != prolBp
      modifies mem, this`rootBp, this`list
      ensures Rep() && list == Without(old(list), bp)
      ensures mem[..] == CutMemory(old(mem[..]), old(rootBp), bp) && rootBp == CutRoot(old(mem[..]), old(rootBp), bp)
      ensures Keeps(old(mem[..]), mem[..], tiles, prolBp, brk, 0)
      ensures old(RootZero()) ==> RootZero()
    {
      hide Stores; hide Keeps; hide Without; hide CutMemory;
      ghost var k :| 0 <= k < |list| && list[k] == bp;
      if bp == rootBp {
        CutRootOut(bp);
      } else {
        CutInner(bp, k);
      }
    }

    /** Makes a free block that is not listed the new root. */
    method SetRoot(bp: int) returns (r: int)
      requires Rep() && (bp == rootBp || (Free(tiles, bp) && bp !in list))
      modifies mem, this`rootBp, this`list
      ensures Rep() && list == if bp == old(rootBp) then old(list) else [bp] + old(list)
      ensures r == bp == rootBp
      ensures Keeps(old(mem[..]), mem[..], tiles, prolBp, brk, 0)
      ensures bp == old(rootBp) ==> mem[..] == old(mem[..])
      ensures bp != old(rootBp) ==> RootZero() && mem[..] == PushMemory(old(mem[..]), old(rootBp), bp)
    {
      ghost var m, ns := mem[..], list;
      if bp == rootBp {
        assert Keeps(m, mem[..], tiles, prolBp, brk, 0);
        return bp;
      }
      NodeFacts(m, tiles, prolBp, brk, ns);
      hide Stores; hide Keeps;
      mem[rootBp + 4] := bp;
      mem[bp] := rootBp;
      mem[bp + 4] := 0;
      PushFirst(m, mem[..], tiles, prolBp, brk, ns, bp);
      list := [bp] + ns;
      rootBp := bp;
      return bp;
    }

    // The address macros of the source.

    function NextBlkp(bp: int): int
      requires 4 <= bp <= mem.Length
      reads mem
    {
      bp + SizeOf(mem[bp - WSIZE])
    }

    function PrevBlkp(bp: int): int
      requires 8 <= bp <= mem.Length
      reads mem
    {
      bp - SizeOf(mem[bp - DSIZE])
    }

    function Ftrp(bp: int): int
      requires 4 <= bp <= mem.Length
      reads mem
    {
      bp + SizeOf(mem[bp - WSIZE]) - DSIZE
    }

    /** PUT: the value is an address or a tagged size, so the cast to unsigned int loses nothing. */
    method Put(p: int, v: int)
      requires 0 <= p < mem.Length && 0 <= v < 0x1_0000_0000
      modifies mem
      ensures mem[..] == old(mem[..])[p := v]
    {
      mem[p] := v;
    }

    /** The pair PUT(HDRP(bp), w); PUT(FTRP(bp), w) with w = PACK(size, alloc). */
    method PutTags(bp: int, size: int, alloc: bool)
      requires 4 <= bp && 16 <= size && bp + size <= mem.Length && SizeOf(Pack(size, alloc)) == size && 0 <= Pack(size, alloc) < 0x1_0000_0000
      modifies mem
      ensures mem[..] == old(mem[..])[bp - 4 := Pack(size, alloc)][bp + size - 8 := Pack(size, alloc)]
    {
      hide SizeOf; hide Pack;
      Put(bp - WSIZE, Pack(size, alloc));
      Put(Ftrp(bp), Pack(size, alloc));
    }

    /** What a merging branch of Coalesce leaves behind: the list is final in m1, the outer tags are written on top. */
    twostate predicate Merged(bp: int, m1: Memory)
      reads this, mem
    {
      && bp in tiles && 4 <= Lo(tiles, bp) && Lo(tiles, bp) + 8 <= Hi(tiles, bp) <= |m1|
      && list == MergeList(tiles, old(list), bp)
      && Stores(m1, tiles, prolBp, brk, list) && rootBp == list[0]
      && Keeps(old(mem[..]), m1, tiles, prolBp, brk, 0)
      && (old(RootZero()) ==> 0 <= rootBp < |m1| - 4 && m1[rootBp + 4] == 0)
      && var w := Pack(Hi(tiles, bp) - Lo(tiles, bp), false);
         mem[..] == m1[Lo(tiles, bp) - 4 := w][Hi(tiles, bp) - 8 := w]
    }

    /** Only the next block is free: merge forward. */
    method MergeForward(bp: int) returns (r: int, ghost m1: Memory)
      requires Rep() && Open(tiles, prolBp, brk, list, bp)
      requires Lo(tiles, bp) == bp && Free(tiles, Next(tiles, bp))
      modifies mem, this`rootBp, this`list
      ensures Merged(bp, m1) && r == Lo(tiles, bp)
    {
      hide Stores; hide Keeps; hide Open; hide SizeOf; hide AllocOf; hide MergeList; hide Lo; hide Hi;
      hide Without; hide Free; hide Pack; hide CutMemory; hide CutRoot;
      CoalesceStart(mem[..], tiles, prolBp, brk, list, bp);
      var size := SizeOf(mem[bp - WSIZE]);
      CutOut(NextBlkp(bp));
      m1 := mem[..];
      ReadNeighbours(m1, tiles, prolBp, brk, list, bp);
      size := size + SizeOf(mem[Ftrp(NextBlkp(bp))]);
      assert bp == Lo(tiles, bp) && size == Hi(tiles, bp) - Lo(tiles, bp);
      PutTags(bp, size, false);
      assert bp + size - 8 == Hi(tiles, bp) - 8;
      r := bp;
    }

    /** Only the previous block is free: merge backward. */
    method MergeBackward(bp: int) returns (r: int, ghost m1: Memory)
      requires Rep() && Open(tiles, prolBp, brk, list, bp)
      requires Lo(tiles, bp) != bp && !Free(tiles, Next(tiles, bp))
      modifies mem, this`rootBp, this`list
      ensures Merged(bp, m1) && r == Lo(tiles, bp)
    {
      hide Stores; hide Keeps; hide Open; hide SizeOf; hide AllocOf; hide MergeList; hide Lo; hide Hi;
      hide Without; hide Free; hide Pack; hide CutMemory; hide CutRoot;
      CoalesceStart(mem[..], tiles, prolBp, brk, list, bp);
      var size := SizeOf(mem[bp - WSIZE]);
      CutOut(PrevBlkp(bp));
      m1 := mem[..];
      ReadNeighbours(m1, tiles, prolBp, brk, list, bp);
      size := size + SizeOf(mem[PrevBlkp(bp) - WSIZE]);
      assert PrevBlkp(bp) == Lo(tiles, bp) && size == Hi(tiles, bp) - Lo(tiles, bp);
      r := PutBackTags(bp, size, Prev(tiles, prolBp, brk, bp));
    }

    /** The tag writes of the three-way merge: PUT(HDRP(PREV_BLKP(bp)), w); PUT(FTRP(NEXT_BLKP(bp)), w). */
    method PutOuterTags(bp: int, size: int, ghost p: int) returns (r: int)
      requires Neighbours(mem[..], tiles, bp, p) && Lo(tiles, bp) != bp && Free(tiles, Next(tiles, bp))
      requires 0 <= Pack(size, false) < 0x1_0000_0000
      modifies mem
      ensures mem[..] == old(mem[..])[Lo(tiles, bp) - 4 := Pack(size, false)][Hi(tiles, bp) - 8 := Pack(size, false)]
      ensures r == Lo(tiles, bp)
    {
      hide SizeOf; hide AllocOf; hide Lo; hide Hi; hide Free; hide Pack;
      Put(PrevBlkp(bp) - WSIZE, Pack(size, false));
      Put(Ftrp(NextBlkp(bp)), Pack(size, false));
      r := PrevBlkp(bp);
    }

    /** The tag writes of the backward merge: PUT(FTRP(bp), w); PUT(HDRP(PREV_BLKP(bp)), w). */
    method PutBackTags(bp: int, size: int, ghost p: int) returns (r: int)
      requires Neighbours(mem[..], tiles, bp, p) && Lo(tiles, bp) != bp && !Free(tiles, Next(tiles, bp))
      requires 0 <= Pack(size, false) < 0x1_0000_0000
      modifies mem
      ensures mem[..] == old(mem[..])[Lo(tiles, bp) - 4 := Pack(size, false)][Hi(tiles, bp) - 8 := Pack(size, false)]
      ensures r == Lo(tiles, bp)
    {
      hide SizeOf; hide AllocOf; hide Lo; hide Hi; hide Free; hide Pack;
      SwapWrites(mem[..], Hi(tiles, bp) - 8, Lo(tiles, bp) - 4, Pack(size, false));
      Put(Ftrp(bp), Pack(size, false));
      Put(PrevBlkp(bp) - WSIZE, Pack(size, false));
      r := PrevBlkp(bp);
    }

    /** The alloc bits coalesce looks at. */
    method NeighbourBits(bp: int) returns (prevAlloc: bool, nextAlloc: bool)
      requires Rep() && Open(tiles, prolBp, brk, list, bp)
      ensures prevAlloc <==> Lo(tiles, bp) == bp
      ensures nextAlloc <==> !Free(tiles, Next(tiles, bp))
    {
      hide Stores; hide Open; hide SizeOf; hide AllocOf; hide Lo; hide Hi; hide Free; hide Tiling; hide Prev;
      NeighboursOf(mem[..], tiles, prolBp, brk, list, bp);
      prevAlloc := AllocOf(mem[Ftrp(PrevBlkp(bp))]);
      nextAlloc := AllocOf(mem[NextBlkp(bp) - WSIZE]);
    }

    /** Both neighbours are free: merge all three. */
    method MergeBoth(bp: int) returns (r: int, ghost m1: Memory)
      requires Rep() && Open(tiles, prolBp, brk, list, bp)
      requires Lo(tiles, bp) != bp && Free(tiles, Next(tiles, bp))
      modifies mem, this`rootBp, this`list
      ensures Merged(bp, m1) && r == Lo(tiles, bp)
    {
      hide Stores; hide Keeps; hide Open; hide SizeOf; hide AllocOf; hide MergeList; hide Lo; hide Hi;
      hide Without; hide Free; hide Pack; hide CutMemory; hide CutRoot;
      ghost var m := mem[..];
      CoalesceStart(m, tiles, prolBp, brk, list, bp);
      var size := SizeOf(mem[bp - WSIZE]);
      CutOut(PrevBlkp(bp));
      ghost var m0 := mem[..];
      ReadNeighbours(m0, tiles, prolBp, brk, list, bp);
      CutOut(NextBlkp(bp));
      m1 := mem[..];
      KeepsTwice(m, m0, m1, tiles, tiles, prolBp, brk, brk, 0, 0);
      ReadNeighbours(m1, tiles, prolBp, brk, list, bp);
      size := size + SizeOf(mem[PrevBlkp(bp) - WSIZE]) + SizeOf(mem[Ftrp(NextBlkp(bp))]);
      assert PrevBlkp(bp) == Lo(tiles, bp) && size == Hi(tiles, bp) - Lo(tiles, bp);
      r := PutOuterTags(bp, size, Prev(tiles, prolBp, brk, bp));
    }

    /** Merges the unlisted free block `bp` with its free neighbours. */
    method Coalesce(bp: int) returns (r: int)
      requires Rep() && Open(tiles, prolBp, brk, list, bp)
      modifies mem, this`rootBp, this`list, this`tiles
      ensures bp in old(tiles) && Rep()
      ensures tiles == MergeTiles(old(tiles), bp) && list == MergeList(old(tiles), old(list), bp)
      ensures r == Lo(old(tiles), bp)
      ensures Keeps(old(mem[..]), mem[..], old(tiles), prolBp, brk, 0)
      ensures old(RootZero()) ==> RootZero()
      ensures Lo(old(tiles), bp) == bp && !Free(old(tiles), Next(old(tiles), bp)) ==> mem[..] == old(mem[..]) && rootBp == old(rootBp)
    {
      hide Stores; hide Keeps; hide Open; hide SizeOf; hide AllocOf; hide MergeList; hide MergeTiles; hide Lo;
      hide Hi; hide Without; hide Free; hide Pack;
      ghost var m, m1, h, ns := mem[..], mem[..], tiles, list;
      CoalesceIndices(m, h, prolBp, brk, ns, bp);
      var prevAlloc, nextAlloc := NeighbourBits(bp);
      if prevAlloc && nextAlloc {
        MergeNothing(h, prolBp, brk, ns, bp);
        KeepsSame(m, h, prolBp, brk, 0);
        return bp;
      } else if prevAlloc && !nextAlloc {
        r, m1 := MergeForward(bp);
      } else if !prevAlloc && nextAlloc {
        r, m1 := MergeBackward(bp);
      } else {
        r, m1 := MergeBoth(bp);
      }
      CoalesceEnd(m, m1, mem[..], h, prolBp, brk, ns, bp);
      tiles := MergeTiles(h, bp);
    }

    // ---------------------------------------------------------------- find_fit and place

    /** The abstract heap this object stores. */
    ghost function View(): Heap
      reads this
    {
      Heap(prolBp, tiles, list, brk)
    }

    /** What holds between public calls. */
    ghost predicate Valid()
      reads this, mem
    {
      Rep() && RootZero() && Inv(tiles, prolBp, brk, list)
    }

    /** First fit along the free list; 0 when the walk arrives at the prologue. */
    method FindFit(bsize: int) returns (r: int)
      requires Valid()
      ensures HeapInv(View()) && (forall i :: 0 <= i < |list| ==> list[i] in tiles) && r == FirstFit(tiles, list, bsize)
    {
      hide Stores; hide Inv; hide SizeOf; hide FirstFit; hide ListSound; hide Spread;
      ListInTiles(View());
      NodeFacts(mem[..], tiles, prolBp, brk, list);
      assert list[0..] == list;
      var bp := rootBp;
      ghost var k := 0;
      while bp != prolBp
        invariant 0 <= k < |list| && bp == list[k]
        invariant FirstFit(tiles, list, bsize) == FirstFit(tiles, list[k..], bsize)
        decreases |list| - k
      {
        ListNode(mem[..], tiles, prolBp, brk, list, k);
        FirstFitStep(tiles, list, bsize, k);
        if bsize <= SizeOf(mem[bp - WSIZE]) {
          return bp;
        }
        bp := mem[bp];
        k := k + 1;
      }
      ListEnd(tiles, prolBp, list, k);
      FirstFitStep(tiles, list, bsize, k);
      return 0;
    }

    /** PUTs the tags of a used block of `first` bytes at `bp` and of the free remainder behind it. */
    method PutSplit(bp: int, first: int, rest: int)
      requires 4 <= bp && 16 <= first && 16 <= rest && bp + first + rest <= mem.Length < 0xffff_ffff
      requires Mult8(first) && Mult8(rest)
      modifies mem
      ensures mem[..] == SplitMemory(old(mem[..]), bp, bp + first + rest, first)
    {
      hide SizeOf; hide Mult8;
      PackSize(first, true);
      PackSize(rest, false);
      PutTags(bp, first, true);
      assert SizeOf(mem[bp - 4]) == first;
      PutTags(NextBlkp(bp), rest, false);
    }

    /** The branch of place that uses the whole block. */
    method PlaceWhole(bp: int, initsize: int)
      requires Rep() && RootZero() && Free(tiles, bp) && bp != prolBp && bp !in list && initsize == tiles[bp].size
      requires 4 <= bp && 16 <= initsize && bp + initsize <= mem.Length && Mult8(initsize)
      modifies mem, this`tiles
      ensures Rep() && RootZero() && tiles == MarkTiles(old(tiles), bp, true)
      ensures Keeps(old(mem[..]), mem[..], old(tiles), prolBp, brk, 0)
    {
      hide Stores; hide Keeps; hide SizeOf; hide Mult8; hide MarkTiles;
      ghost var m := mem[..];
      PackSize(initsize, true);
      PutTags(bp, initsize, true);
      RetagOne(m, mem[..], tiles, prolBp, brk, list, bp, true, 0);
      tiles := MarkTiles(tiles, bp, true);
    }

    /** The branch of place that splits the block and makes the remainder the root. */
    method PlaceSplit(bp: int, bsize: int, initsize: int)
      requires Rep() && bp in tiles && bp != prolBp && initsize == tiles[bp].size && Edge(tiles, brk, Next(tiles, bp))
      requires 4 <= bp && 16 <= bsize && bsize + 16 <= initsize && bp + initsize <= mem.Length && Mult8(bsize) && Mult8(initsize)
      requires forall a :: a in tiles && tiles[a].alloc && bp <= a < Next(tiles, bp) ==> a == 0
      requires forall y :: y in list ==> y < bp || Next(tiles, bp) <= y
      modifies mem, this`rootBp, this`list, this`tiles
      ensures Rep() && RootZero() && tiles == SplitTiles(old(tiles), bp, Next(old(tiles), bp), bsize) && list == [bp + bsize] + old(list)
      ensures Keeps(old(mem[..]), mem[..], old(tiles), prolBp, brk, 0)
    {
      hide Stores; hide Keeps; hide SizeOf; hide Mult8; hide SplitTiles; hide SplitMemory; hide Free;
      hide Spread; hide ListSound;
      NodeFacts(mem[..], tiles, prolBp, brk, list);
      assert rootBp in list;
      ghost var m, h, hi := mem[..], tiles, Next(tiles, bp);
      MultSub(initsize, bsize);
      PutSplit(bp, bsize, initsize - bsize);
      ghost var m1 := mem[..];
      RetagTwo(m, m, h, prolBp, brk, list, bp, hi, bsize, 0);
      RestFree(h, bp, hi, bsize, list);
      SplitHeader(m, bp, hi, bsize);
      SplitOthers(h, bp, hi, bsize, 0);
      tiles := SplitTiles(h, bp, hi, bsize);
      var r := SetRoot(NextBlkp(bp));
      KeepsTwice(m, m1, mem[..], h, tiles, prolBp, brk, brk, 0, 0);
    }

    /** Allocates `bsize` bytes on the free block `bp`; what is left over is listed if it makes a block. */
    method Place(bp: int, bsize: int)
      requires Valid() && Free(tiles, bp) && 16 <= bsize <= tiles[bp].size && Mult8(bsize)
      modifies mem, this`rootBp, this`list, this`tiles
      ensures Valid()
      ensures tiles == PlaceTiles(old(tiles), bp, bsize) && list == PlaceList(old(tiles), old(list), bp, bsize)
      ensures Keeps(old(mem[..]), mem[..], old(tiles), prolBp, brk, 0)
    {
      hide Stores; hide Keeps; hide Inv; hide SizeOf; hide Pack; hide Mult8; hide MarkTiles; hide SplitTiles;
      hide Free; hide Without; hide CutMemory; hide CutRoot;
      ghost var m, h, ns := mem[..], tiles, list;
      PlaceStart(m, h, prolBp, brk, ns, bp);
      PlaceInv(h, prolBp, brk, ns, bp, bsize);
      var initsize := SizeOf(mem[bp - WSIZE]);
      CutOut(bp);
      ghost var m1 := mem[..];
      PlaceStart(m, h, prolBp, brk, ns, bp);
      if initsize < bsize + MIN_BSIZE {
        PlaceWhole(bp, initsize);
      } else {
        PlaceSplit(bp, bsize, initsize);
      }
      KeepsTwice(m, m1, mem[..], h, h, prolBp, brk, brk, 0, 0);
    }

    /** set_root(coalesce(bp)) */
    method ReleaseBlock(bp: int) returns (r: int)
      requires Rep() && Open(tiles, prolBp, brk, list, bp)
      modifies mem, this`rootBp, this`list, this`tiles
      ensures Valid()
      ensures tiles == MergeTiles(old(tiles), bp) && list == ReleaseList(old(tiles), old(list), bp)
      ensures r == Lo(old(tiles), bp) == rootBp && r != 0
      ensures Keeps(old(mem[..]), mem[..], old(tiles), prolBp, brk, 0)
    {
      hide Stores; hide Keeps; hide Open; hide Inv; hide MergeTiles; hide MergeList; hide Lo; hide PushMemory;
      ghost var m, h, ns := mem[..], tiles, list;
      ReleaseInv(h, prolBp, brk, ns, bp);
      ReleaseParts(m, h, prolBp, brk, ns, bp);
      var c := Coalesce(bp);
      ghost var m1 := mem[..];
      r := SetRoot(c);
      KeepsTwice(m, m1, mem[..], h, MergeTiles(h, bp), prolBp, brk, brk, 0, 0);
    }

    // ---------------------------------------------------------------- growing the heap

    /** mem_sbrk: the heap cannot shrink, and cannot grow past the arena. */
    method MemSbrk(incr: int) returns (p: int)
      modifies this`brk
      ensures incr < 0 || old(brk) + incr > maxAddr ==> p == -1 && brk == old(brk)
      ensures 0 <= incr && old(brk) + incr <= maxAddr ==> p == old(brk) && brk == old(brk) + incr
    {
      var oldBrk := brk;
      if incr < 0 || brk + incr > maxAddr {
        return -1;
      }
      brk := brk + incr;
      return oldBrk;
    }

    /** extend_heap: asks for `words` words, rounded up to an even number, and lists them as one free block. */
    method ExtendHeap(words: int) returns (r: int)
      requires Rep() && Inv(tiles, prolBp, brk, list) && 4 <= words < 0x3fff_ffff
      modifies mem, this`rootBp, this`list, this`tiles, this`brk
      ensures r == 0 <==> !CanGrow(old(brk), EvenBytes(words), maxAddr)
      ensures r == 0 ==> Rep() && View() == old(View()) && mem[..] == old(mem[..]) && rootBp == old(rootBp)
      ensures r != 0 ==> Valid() && View() == Grow(old(View()), EvenBytes(words)) && r == rootBp
      ensures r != 0 ==> Keeps(old(mem[..]), mem[..], old(tiles), prolBp, brk, 0)
    {
      hide Stores; hide Keeps; hide Inv; hide Open; hide SizeOf; hide Mult8; hide ExtendTiles; hide MergeTiles;
      hide MergeList; hide Lo;
      ghost var m, h, ns, top := mem[..], tiles, list, brk;
      EvenAligned(words);
      StoresRange(m, h, prolBp, top, ns);
      var size := if words % 2 != 0 then (words + 1) * WSIZE else words * WSIZE;
      var bp := MemSbrk(ToInt(size));
      if bp == -1 {
        return 0;
      }
      PackSize(size, false);
      PutTags(bp, size, false);
      Put(NextBlkp(bp) - WSIZE, Pack(0, true));
      ghost var m1 := mem[..];
      ExtendDone(m, m1, h, prolBp, top, ns, size);
      tiles := ExtendTiles(h, top, size);
      ReleaseInv(tiles, prolBp, brk, ns, top);
      ExtendKeeps(h, prolBp, top, size);
      r := ReleaseBlock(bp);
      KeepsTwice(m, m1, mem[..], h, ExtendTiles(h, top, size), prolBp, top + size, top + size, 0, 0);
    }

    // ---------------------------------------------------------------- the public calls

    /** mem_init: an empty heap in the arena [start, maxAddr) of the given memory. */
    constructor (memory: array<int>, start: int, maxAddr: int)
      requires 8 <= start <= maxAddr <= memory.Length < 0xffff_ffff && Mult8(start)
      ensures mem == memory && this.start == start && this.maxAddr == maxAddr && brk == start
    {
      mem := memory;
      this.start := start;
      this.maxAddr := maxAddr;
      brk := start;
      prolBp := 0;
      rootBp := 0;
      tiles := map[];
      list := [];
    }

    /** The words mm_init writes before it extends the heap. */
    method PutPrologue()
      requires 8 <= prolBp && prolBp + 24 <= mem.Length < 0xffff_ffff
      modifies mem, this`prolBp
      ensures prolBp == old(prolBp) + 8
      ensures mem[prolBp - 4] == Pack(16, true) && mem[prolBp + 8] == Pack(16, true) && mem[prolBp + 12] == Pack(0, true)
    {
      hide SizeOf;
      PackSize(MIN_BSIZE, true);
      Put(prolBp, 0);
      prolBp := prolBp + 2 * WSIZE;
      PutTags(prolBp, MIN_BSIZE, true);
      Put(prolBp, 0);
      Put(prolBp + WSIZE, NextBlkp(prolBp));
      Put(NextBlkp(prolBp) - WSIZE, Pack(0, true));
    }

    /** mm_init: a prologue, an epilogue and one free block of CHUNKSIZE bytes. */
    method Init() returns (r: int)
      requires 8 <= start <= maxAddr <= mem.Length < 0xffff_ffff && Mult8(start) && brk == start
      modifies this, mem
      ensures r == 0 || r == -1
      ensures r == 0 <==> start + 24 + CHUNKSIZE <= maxAddr
      ensures r == 0 ==> Valid() && Live(tiles, prolBp) == map[] && brk == start + 24 + CHUNKSIZE
      ensures r == 0 ==> list == [start + 24, prolBp] && tiles == map[prolBp := Block(16, true), start + 24 := Block(CHUNKSIZE, false)]
    {
      hide Stores; hide Inv; hide SizeOf; hide Keeps; hide Mult8; hide Pack; hide Grow; hide Live;
      hide EvenBytes; hide One;
      ExtendWords(MIN_BSIZE);
      prolBp := MemSbrk(6 * WSIZE);
      if prolBp == -1 {
        return -1;
      }
      PutPrologue();
      rootBp := prolBp;
      tiles := One(prolBp, MIN_BSIZE, true);
      list := [prolBp];
      MultSub(start, -8);
      PrologueStores(mem[..], prolBp);
      var bp := ExtendHeap(CHUNKSIZE / WSIZE);
      if bp == 0 {
        return -1;
      }
      FirstHeap(prolBp);
      return 0;
    }

    /** mm_malloc */
    method Malloc(size: int) returns (r: int)
      requires Valid() && 0 <= size <= 0xffff_ffe0
      modifies mem, this`rootBp, this`list, this`tiles, this`brk
      ensures old(HeapInv(View()))
      ensures Valid() && Outcome(View(), r) == AllocatorOps.Malloc(old(View()), size, maxAddr)
      ensures Keeps(old(mem[..]), mem[..], old(tiles), prolBp, brk, 0)
      ensures r == 0 ==> mem[..] == old(mem[..])
    {
      hide Stores; hide Keeps; hide Inv; hide Mult8; hide FirstFit; hide PlaceTiles; hide PlaceList; hide Grow;
      hide BlockSize;
      ghost var m, h, s := mem[..], tiles, View();
      KeepsSame(m, h, prolBp, brk, 0);
      if size == 0 {
        return 0;
      }
      BlockSizeFits(size);
      var bsize := BlockSize(size);
      r := FindFit(bsize);
      FirstFitFits(s, bsize);
      if r != 0 {
        Place(r, bsize);
        return r;
      }
      var extendsize := if bsize > CHUNKSIZE then bsize else CHUNKSIZE;
      ExtendWords(bsize);
      r := ExtendHeap(extendsize / WSIZE);
      if r == 0 {
        return 0;
      }
      ghost var m1, h1, top1 := mem[..], tiles, brk;
      GrowFits(s, extendsize);
      GrowKeeps(s, extendsize);
      Place(r, bsize);
      KeepsTwice(m, m1, mem[..], h, h1, prolBp, top1, brk, 0, 0);
    }

    /** mm_free */
    method FreePtr(ptr: int)
      requires Valid() && (ptr == 0 || ptr in Live(tiles, prolBp))
      modifies mem, this`rootBp, this`list, this`tiles
      ensures Valid()
      ensures ptr != 0 ==> View() == FreeBlock(old(View()), ptr)
      ensures ptr == 0 ==> View() == old(View()) && mem[..] == old(mem[..])
      ensures Keeps(old(mem[..]), mem[..], old(tiles), prolBp, brk, ptr)
    {
      hide Stores; hide Keeps; hide Inv; hide Open; hide SizeOf; hide Mult8; hide MarkTiles; hide MergeTiles;
      hide ReleaseList;
      ghost var m, h, ns := mem[..], tiles, list;
      if ptr == 0 {
        KeepsSame(m, h, prolBp, brk, 0);
        return;
      }
      FreeStart(m, h, prolBp, brk, ns, ptr);
      var size := SizeOf(mem[ptr - WSIZE]);
      PutTags(ptr, size, false);
      ghost var m1 := mem[..];
      RetagOne(m, m1, h, prolBp, brk, ns, ptr, false, ptr);
      tiles := MarkTiles(h, ptr, false);
      MarkOpen(h, prolBp, brk, ns, ptr);
      var r := ReleaseBlock(ptr);
      MarkOthers(h, prolBp, brk, ns, ptr);
      KeepsTwice(m, m1, mem[..], h, MarkTiles(h, ptr, false), prolBp, brk, brk, ptr, 0);
    }

    // ---------------------------------------------------------------- mm_realloc

    /** memmove: n bytes from src down to dst, or between ranges that do not meet. */
    method MemMove(dst: int, src: int, n: int)
      requires 0 <= dst && dst + n <= mem.Length && 0 <= src && (dst <= src || src + n <= dst)
      modifies mem
      ensures Moved(old(mem[..]), mem[..], dst, src, n)
    {
      var i := 0;
      while i < n
        invariant 0 <= i && (i <= n || i == 0)
        invariant forall p :: 0 <= p < mem.Length && !(dst <= p < dst + i) ==> mem[p] == old(mem[p])
        invariant forall p :: dst <= p < dst + i && p - dst + src < mem.Length ==> mem[p] == old(mem[p - dst + src])
      {
        if src + i < mem.Length {
          mem[dst + i] := mem[src + i];
        } else {
          // past the end of the modelled memory: anything may be read
          mem[dst + i] := *;
        }
        i := i + 1;
      }
    }

    /** Keeps `first` bytes at `bp` of the stretch of `total` bytes and releases the rest.  Since memory m was in
        order only words inside the stretch have been written. */
    method SplitAndRelease(bp: int, first: int, total: int, ghost m: Memory, ghost x: int)
      requires RepOn(m) && bp in tiles && bp != prolBp && Edge(tiles, brk, bp + total)
      requires 4 <= bp && 16 <= first && first + 16 <= total && bp + total <= mem.Length && Mult8(first) && Mult8(total)
      requires OnlyWithin(m, mem[..], bp, bp + total)
      requires forall a :: a in tiles && tiles[a].alloc && bp <= a < bp + total ==> a == x
      requires forall y :: y in list ==> y < bp || bp + total <= y
      requires Open(SplitTiles(tiles, bp, bp + total, first), prolBp, brk, list, bp + first)
      modifies mem, this`rootBp, this`list, this`tiles
      ensures Valid()
      ensures bp + first in SplitTiles(old(tiles), bp, bp + total, first)
      ensures View() == ReleaseHeap(SplitTiles(old(tiles), bp, bp + total, first), prolBp, brk, old(list), bp + first)
      ensures Keeps(m, mem[..], old(tiles), prolBp, brk, x)
      ensures Copied(old(mem[..]), mem[..], bp, bp, first - 8)
    {
      hide Stores; hide Keeps; hide Inv; hide Open; hide SizeOf; hide Mult8; hide SplitTiles; hide MergeTiles;
      hide ReleaseList; hide SplitMemory; hide OnlyWithin; hide Copied; hide Tiling;
      ghost var m1, h, ns, hi := mem[..], tiles, list, bp + total;
      MultSub(total, first);
      StoresRange(m, h, prolBp, brk, ns);
      PutSplit(bp, first, total - first);
      ghost var m2 := mem[..];
      RetagTwo(m, m1, h, prolBp, brk, ns, bp, hi, first, x);
      SplitHeader(m1, bp, hi, first);
      SplitCopies(m1, bp, hi, first);
      SplitUsed(h, bp, hi, first);
      SplitOthers(h, bp, hi, first, x);
      tiles := SplitTiles(h, bp, hi, first);
      ghost var h2 := tiles;
      var r := ReleaseBlock(NextBlkp(bp));
      KeptIsCopied(m2, mem[..], h2, prolBp, brk, ns, bp, 0);
      CopiedTwice(m1, m2, mem[..], bp, bp, bp, first - 8, first - 8);
      KeepsTwice(m, m2, mem[..], h, h2, prolBp, brk, brk, x, 0);
    }

    /** First path: the old block is split in place. */
    method Shrink(ptr: int, newbsize: int, oldbsize: int)
      requires Valid() && ptr in Live(tiles, prolBp) && oldbsize == tiles[ptr].size
      requires 16 <= newbsize && Mult8(newbsize) && tiles[ptr].size >= newbsize + MIN_BSIZE
      modifies mem, this`rootBp, this`list, this`tiles
      ensures Valid() && ptr in old(tiles)
      ensures ptr + newbsize in SplitTiles(old(tiles), ptr, Next(old(tiles), ptr), newbsize)
      ensures View() == SplitRelease(old(View()), ptr, Next(old(tiles), ptr), newbsize, old(list))
      ensures Keeps(old(mem[..]), mem[..], old(tiles), prolBp, brk, ptr)
      ensures Copied(old(mem[..]), mem[..], ptr, ptr, newbsize - 8)
    {
      hide Stores; hide Keeps; hide Inv; hide Open; hide SizeOf; hide AllocOf; hide Mult8; hide SplitTiles;
      hide MergeTiles; hide ReleaseList; hide Copied; hide Lo; hide Free; hide Tiling;
      ReallocReads(mem[..], tiles, prolBp, brk, list, ptr);
      ShrinkOpen(View(), ptr, newbsize);
      SplitAndRelease(ptr, newbsize, oldbsize, mem[..], ptr);
    }

    /** cut_out of the free block below and memmove of the payload onto it. */
    method MoveDown(ptr: int, newptr: int, newbsize: int, ghost total: int) returns (ghost m1: Memory)
      requires Rep() && ptr in tiles && tiles[ptr].alloc && ptr != prolBp && newptr in list && newptr != prolBp && newptr < ptr
      requires 16 <= newbsize && newbsize + MIN_BSIZE <= total && 0 <= newptr && newptr + total <= mem.Length && 0 <= ptr && Next(tiles, ptr) <= mem.Length
      modifies mem, this`rootBp, this`list
      ensures RepOn(m1) && list == Without(old(list), newptr)
      ensures Keeps(old(mem[..]), m1, tiles, prolBp, brk, ptr)
      ensures OnlyWithin(m1, mem[..], newptr, newptr + total)
      ensures 16 <= tiles[ptr].size && Copied(old(mem[..]), mem[..], ptr, newptr, Min(tiles[ptr].size, newbsize) - 8)
    {
      hide Stores; hide Keeps; hide CutMemory; hide CutRoot; hide Without; hide Copied; hide Moved;
      hide OnlyWithin; hide Tiling;
      ghost var m, h, ns, n := mem[..], tiles, list, Min(tiles[ptr].size, newbsize) - 8;
      StoresRange(m, h, prolBp, brk, ns);
      CutOut(newptr);
      m1 := mem[..];
      KeptIsCopied(m, m1, h, prolBp, brk, ns, ptr, 0);
      KeepsWeaker(m, m1, h, prolBp, brk, ns, ptr);
      MemMove(newptr, ptr, newbsize - DSIZE);
      CopiedPrefix(m, m1, ptr, ptr, h[ptr].size - 8, n);
      MovedFacts(m1, mem[..], newptr, ptr, newbsize - 8, n, newptr + total);
      CopiedTwice(m, m1, mem[..], ptr, ptr, newptr, n, n);
    }

    /** Third path: the free block below is taken over and the payload moved down. */
    method AbsorbPrev(ptr: int, newbsize: int, totalbsize: int) returns (newptr: int)
      requires Valid() && ptr in Live(tiles, prolBp) && FreeBelow(tiles, ptr, Lo(tiles, ptr))
      requires 16 <= newbsize && Mult8(newbsize) && totalbsize == tiles[ptr].size + tiles[Lo(tiles, ptr)].size >= newbsize + MIN_BSIZE
      modifies mem, this`rootBp, this`list, this`tiles
      ensures Valid() && ptr in old(tiles) && newptr == Lo(old(tiles), ptr) && newptr != 0
      ensures newptr + newbsize in SplitTiles(old(tiles), newptr, Next(old(tiles), ptr), newbsize)
      ensures View() == SplitRelease(old(View()), newptr, Next(old(tiles), ptr), newbsize, Without(old(list), newptr))
      ensures Keeps(old(mem[..]), mem[..], old(tiles), prolBp, brk, ptr)
      ensures 16 <= old(tiles)[ptr].size && Copied(old(mem[..]), mem[..], ptr, newptr, Min(old(tiles)[ptr].size, newbsize) - 8)
    {
      hide Stores; hide Keeps; hide Inv; hide Open; hide SizeOf; hide AllocOf; hide Mult8; hide SplitTiles;
      hide MergeTiles; hide ReleaseList; hide Lo; hide Tiling; hide Without; hide Copied; hide OnlyWithin;
      ghost var m, h, ns := mem[..], tiles, list;
      ReallocReads(m, h, prolBp, brk, ns, ptr);
      newptr := PrevBlkp(ptr);
      assert newptr == Lo(h, ptr) && Next(h, ptr) == newptr + totalbsize && newptr + totalbsize <= mem.Length;
      AbsorbOpen(View(), newptr, newptr, ptr, newbsize, totalbsize);
      ghost var m1 := MoveDown(ptr, newptr, newbsize, totalbsize);
      ghost var m2, n := mem[..], Min(h[ptr].size, newbsize) - 8;
      SplitAndRelease(newptr, newbsize, totalbsize, m1, ptr);
      AbsorbPrevEnd(m, m1, m2, mem[..], h, prolBp, brk, ptr, newptr, n, newbsize - 8);
    }

    /** The part of the fourth path that both variants share: cut_out of the next block and the tags of the split. */
    method AbsorbNextSplit(ptr: int, newbsize: int, totalbsize: int)
      requires Valid() && ptr in Live(tiles, prolBp) && Free(tiles, Next(tiles, ptr))
      requires 16 <= newbsize && Mult8(newbsize) && totalbsize == tiles[ptr].size + tiles[Next(tiles, ptr)].size >= newbsize + MIN_BSIZE
      modifies mem, this`rootBp, this`list, this`tiles
      ensures Rep() && ptr in old(tiles) && Next(old(tiles), ptr) in old(tiles) && 4 <= ptr && ptr + totalbsize <= mem.Length
      ensures tiles == SplitTiles(old(tiles), ptr, ptr + totalbsize, newbsize) && list == Without(old(list), Next(old(tiles), ptr))
      ensures Open(tiles, prolBp, brk, list, ptr + newbsize)
      ensures mem[..] == SplitMemory(CutMemory(old(mem[..]), old(rootBp), Next(old(tiles), ptr)), ptr, ptr + totalbsize, newbsize)
      ensures rootBp == CutRoot(old(mem[..]), old(rootBp), Next(old(tiles), ptr))
      ensures !Free(old(tiles), ptr + totalbsize) && AbsorbNext(old(View()), ptr, newbsize) == Heap(prolBp, tiles, [ptr + newbsize] + list, brk)
      ensures Keeps(old(mem[..]), mem[..], old(tiles), prolBp, brk, ptr)
      ensures Copied(old(mem[..]), mem[..], ptr, ptr, Min(old(tiles)[ptr].size, newbsize) - 8)
      ensures NextBlkp(ptr) == ptr + newbsize
      ensures 16 <= old(tiles)[ptr].size && forall a :: a in old(tiles) && old(tiles)[a].alloc && ptr <= a < ptr + totalbsize ==> a == ptr
    {
      hide Stores; hide Keeps; hide Inv; hide Open; hide SizeOf; hide AllocOf; hide Mult8; hide SplitTiles;
      hide Lo; hide Tiling; hide Without; hide Copied; hide OnlyWithin; hide CutMemory; hide CutRoot;
      hide SplitMemory;
      ghost var m, h, ns, next := mem[..], tiles, list, Next(tiles, ptr);
      ReallocReads(m, h, prolBp, brk, ns, ptr);
      StoresRange(m, h, prolBp, brk, ns);
      AbsorbOpen(View(), ptr, next, ptr, newbsize, totalbsize);
      MultSub(totalbsize, newbsize);
      CutOut(NextBlkp(ptr));
      AbsorbNextStores(m, mem[..], h, prolBp, brk, ns, list, ptr, totalbsize, newbsize);
      PutSplit(ptr, newbsize, totalbsize - newbsize);
      tiles := SplitTiles(h, ptr, ptr + totalbsize, newbsize);
    }

    /** Fourth path: the free block above is taken over; the remainder is listed without coalescing. */
    method AbsorbNextBlock(ptr: int, newbsize: int, totalbsize: int)
      requires Valid() && ptr in Live(tiles, prolBp) && Free(tiles, Next(tiles, ptr))
      requires 16 <= newbsize && Mult8(newbsize) && totalbsize == tiles[ptr].size + tiles[Next(tiles, ptr)].size >= newbsize + MIN_BSIZE
      modifies mem, this`rootBp, this`list, this`tiles
      ensures Valid() && ptr in old(tiles) && Next(old(tiles), ptr) in old(tiles)
      ensures View() == AbsorbNext(old(View()), ptr, newbsize) && rootBp == ptr + newbsize
      ensures mem[..] == AbsorbMemory(old(mem[..]), old(rootBp), ptr, Next(old(tiles), ptr), newbsize, totalbsize)
      ensures Keeps(old(mem[..]), mem[..], old(tiles), prolBp, brk, ptr)
      ensures Copied(old(mem[..]), mem[..], ptr, ptr, Min(old(tiles)[ptr].size, newbsize) - 8)
    {
      hide Stores; hide Keeps; hide Inv; hide Open; hide SizeOf; hide Mult8; hide SplitTiles; hide Without;
      hide Copied; hide CutMemory; hide CutRoot; hide SplitMemory; hide PushMemory; hide AbsorbNext;
      ghost var m, h, s := mem[..], tiles, View();
      AbsorbNextMatchesCoalescing(s, ptr, newbsize);
      AbsorbNextSplit(ptr, newbsize, totalbsize);
      ghost var m2, h2, ns2 := mem[..], tiles, list;
      OpenHole(h2, prolBp, brk, list, ptr + newbsize);
      var r := SetRoot(NextBlkp(ptr));
      AbsorbNextEnd(m, m2, mem[..], h, h2, prolBp, brk, ns2, ptr, totalbsize, newbsize);
    }

    /** The same path as the other version of the file has it: the remainder goes through coalesce first. */
    method AbsorbNextBlockCoalescing(ptr: int, newbsize: int, totalbsize: int)
      requires Valid() && ptr in Live(tiles, prolBp) && Free(tiles, Next(tiles, ptr))
      requires 16 <= newbsize && Mult8(newbsize) && totalbsize == tiles[ptr].size + tiles[Next(tiles, ptr)].size >= newbsize + MIN_BSIZE
      modifies mem, this`rootBp, this`list, this`tiles
      ensures Valid() && ptr in old(tiles) && Next(old(tiles), ptr) in old(tiles)
      ensures View() == AbsorbNext(old(View()), ptr, newbsize) && rootBp == ptr + newbsize
      ensures mem[..] == AbsorbMemory(old(mem[..]), old(rootBp), ptr, Next(old(tiles), ptr), newbsize, totalbsize)
    {
      hide Stores; hide Keeps; hide Inv; hide Open; hide SizeOf; hide Mult8; hide SplitTiles; hide Without;
      hide Copied; hide CutMemory; hide CutRoot; hide SplitMemory; hide PushMemory; hide AbsorbNext;
      hide MergeTiles; hide MergeList; hide Lo;
      ghost var h, s := tiles, View();
      AbsorbNextMatchesCoalescing(s, ptr, newbsize);
      AbsorbNextSplit(ptr, newbsize, totalbsize);
      ghost var h2 := tiles;
      OpenHole(h2, prolBp, brk, list, ptr + newbsize);
      OpenStretch(h, prolBp, brk, list, ptr, ptr + totalbsize, newbsize);
      var c := Coalesce(NextBlkp(ptr));
      var r := SetRoot(c);
    }

    /** Last path: a new block, a copy of the payload, and the old block is freed. */
    method Move(ptr: int, size: int, oldbsize: int, newbsize: int) returns (newptr: int)
      requires Valid() && ptr in Live(tiles, prolBp) && 0 < size <= 0xffff_ffe0 && oldbsize == tiles[ptr].size && newbsize == BlockSize(size)
      modifies mem, this`rootBp, this`list, this`tiles, this`brk
      ensures old(HeapInv(View())) && Valid()
      ensures ptr in AllocatorOps.Malloc(old(View()), size, maxAddr).heap.tiles
      ensures var r := AllocatorOps.Malloc(old(View()), size, maxAddr);
              newptr == r.ptr && View() == if newptr == 0 then old(View()) else FreeBlock(r.heap, ptr)
      ensures newptr == 0 ==> mem[..] == old(mem[..])
      ensures Keeps(old(mem[..]), mem[..], old(tiles), prolBp, brk, ptr)
      ensures newptr != 0 ==> Copied(old(mem[..]), mem[..], ptr, newptr, Min(oldbsize, newbsize) - 8)
    {
      hide Stores; hide Keeps; hide Inv; hide Copied; hide Moved; hide BlockSize; hide FreeBlock;
      hide AllocatorOps.Malloc; hide SameWords;
      ghost var m, h, ns, top, s := mem[..], tiles, list, brk, View();
      BlockSizeFits(size);
      MallocLive(s, size, maxAddr);
      MallocKeepsLive(s, size, maxAddr);
      MoveAllowed(s, ptr, size, maxAddr);
      newptr := Malloc(size);
      ghost var m1, h1, ns1, top1 := mem[..], tiles, list, brk;
      KeepsWeaken2(m, m1, h, prolBp, top, top1, ns, ptr);
      if newptr == 0 {
        return 0;
      }
      MoveReady(m1, h1, prolBp, top1, ns1, ptr, newptr);
      var copysize := Min(oldbsize, newbsize) - DSIZE;
      MemMove(newptr, ptr, copysize);
      ghost var m2 := mem[..];
      MoveWrites(m1, m2, h1, prolBp, top1, ns1, ptr, newptr, copysize);
      FreePtr(ptr);
      KeepsAt(m, m1, h, prolBp, top, top1, ns, ptr);
      MoveEnd(m, m1, m2, mem[..], h, h1, prolBp, top, top1, ns, ns1, ptr, newptr, copysize);
    }

    /** mm_realloc */
    method Realloc(ptr: int, size: int) returns (r: int)
      requires Valid() && (ptr == 0 || ptr in Live(tiles, prolBp)) && 0 <= size <= 0xffff_ffe0
      modifies mem, this`rootBp, this`list, this`tiles, this`brk
      ensures old(HeapInv(View())) && Valid()
      ensures Outcome(View(), r) == if ptr == 0 then AllocatorOps.Malloc(old(View()), size, maxAddr)
                                                else AllocatorOps.Realloc(old(View()), ptr, size, maxAddr)
      ensures Keeps(old(mem[..]), mem[..], old(tiles), prolBp, brk, ptr)
      ensures size > 0 && r == 0 ==> mem[..] == old(mem[..])
      ensures ptr != 0 && r != 0 ==> ptr in old(tiles) && Copied(old(mem[..]), mem[..], ptr, r, Min(old(tiles)[ptr].size, BlockSize(size)) - 8)
    {
      hide Stores; hide Keeps; hide Inv; hide Copied; hide BlockSize; hide SizeOf; hide AllocOf;
      hide FreeBlock; hide AllocatorOps.Malloc; hide SplitRelease; hide AbsorbNext; hide Lo; hide Mult8;
      hide Tiling; hide AbsorbMemory; hide SplitTiles; hide Without;
      if ptr == 0 {
        r := Malloc(size);
        return;
      }
      if size == 0 {
        FreePtr(ptr);
        return 0;
      }
      ghost var m, h, ns := mem[..], tiles, list;
      BlockSizeFits(size);
      ReallocReads(m, h, prolBp, brk, ns, ptr);
      var oldbsize := SizeOf(mem[ptr - WSIZE]);
      var newbsize := BlockSize(size);
      var prevsize := SizeOf(mem[Ftrp(PrevBlkp(ptr))]);
      var nextsize := SizeOf(mem[Ftrp(NextBlkp(ptr))]);
      if oldbsize >= newbsize + MIN_BSIZE {
        Shrink(ptr, newbsize, oldbsize);
        return ptr;
      }
      if oldbsize == newbsize {
        KeptAll(m, h, prolBp, brk, ns, ptr);
        return ptr;
      }
      if !AllocOf(mem[Ftrp(PrevBlkp(ptr))]) && oldbsize + prevsize >= newbsize + MIN_BSIZE {
        r := AbsorbPrev(ptr, newbsize, oldbsize + prevsize);
        return r;
      }
      if !AllocOf(mem[NextBlkp(ptr) - WSIZE]) && oldbsize + nextsize >= newbsize + MIN_BSIZE {
        AbsorbNextBlock(ptr, newbsize, oldbsize + nextsize);
        return ptr;
      }
      r := Move(ptr, size, oldbsize, newbsize);
    }
  }
}
