/** Read-only walks over a heap: along the headers, as mm_check and the implicit allocator do it,
    and along the free list in both directions. */
module AllocatorWalks {
  import opened Numbers
  import opened HeapTiling
  import opened HeapMemory
  import opened Sequences
  import opened AllocatorSpec
  import opened AllocatorOps
  import opened AllocatorMemory
  import opened Allocator

  /** What a walk along the headers reads at `bp`, a block or the epilogue. */
  lemma WalkReads(m: Memory, h: Tiles, bot: int, top: int, ns: seq<int>, bp: int)
    requires Stores(m, h, bot, top, ns) && Edge(h, top, bp)
    ensures 4 <= bp <= |m| && (SizeOf(m[bp - 4]) == 0 <==> bp == top)
    ensures bp != top ==> bp in h && SizeOf(m[bp - 4]) == h[bp].size && AllocOf(m[bp - 4]) == h[bp].alloc &&
                          bp < Next(h, bp) <= top && Edge(h, top, Next(h, bp)) && Next(h, bp) - 8 >= 0 && m[Next(h, bp) - 8] == m[bp - 4]
    ensures bp in h ==> bp != top
  {
    if bp in h {
      BlockTags(m, h, bot, top, bp);
      assert HasNext(h, bp, top) && TagsAt(m, h, bp);
      assert bp + h[bp].size <= top;
    } else {
      assert m[top - 4] == 1;
    }
  }

  lemma WalkStep(h: Tiles, bot: int, top: int, bp: int, x: int)
    requires Tiling(h, bot, top) && bp in h && x in h && x < Next(h, bp)
    ensures x <= bp
  {
    assert Apart(h, bp, x);
  }

  /** mm_implicit.c's find_fit: first fit in address order over all blocks. */
  method FindFitImplicit(mm: MemoryManager, bsize: int) returns (r: int)
    requires mm.Valid()
    ensures r == 0 <==> forall x :: !Fits(mm.tiles, bsize, x)
    ensures r != 0 ==> Fits(mm.tiles, bsize, r) && forall x :: Fits(mm.tiles, bsize, x) ==> r <= x
  {
    hide Stores; hide Inv; hide SizeOf; hide AllocOf; hide Tiling;
    StoresRange(mm.mem[..], mm.tiles, mm.prolBp, mm.brk, mm.list);
    PrologueEdge(mm.tiles, mm.prolBp, mm.brk);
    var bp := mm.prolBp;
    WalkReads(mm.mem[..], mm.tiles, mm.prolBp, mm.brk, mm.list, bp);
    while SizeOf(mm.mem[bp - WSIZE]) > 0
      invariant Edge(mm.tiles, mm.brk, bp) && 4 <= bp <= mm.mem.Length
      invariant SizeOf(mm.mem[bp - WSIZE]) > 0 <==> bp != mm.brk
      invariant forall x :: Fits(mm.tiles, bsize, x) ==> bp <= x
      decreases mm.brk - bp
    {
      WalkReads(mm.mem[..], mm.tiles, mm.prolBp, mm.brk, mm.list, bp);
      if !AllocOf(mm.mem[bp - WSIZE]) && bsize <= SizeOf(mm.mem[bp - WSIZE]) {
        assert Fits(mm.tiles, bsize, bp);
        return bp;
      }
      forall x | Fits(mm.tiles, bsize, x) ensures mm.NextBlkp(bp) <= x {
        if x < Next(mm.tiles, bp) {
          WalkStep(mm.tiles, mm.prolBp, mm.brk, bp, x);
        }
      }
      bp := mm.NextBlkp(bp);
      WalkReads(mm.mem[..], mm.tiles, mm.prolBp, mm.brk, mm.list, bp);
    }
    forall x ensures !Fits(mm.tiles, bsize, x) {
      if x in mm.tiles {
        WalkReads(mm.mem[..], mm.tiles, mm.prolBp, mm.brk, mm.list, x);
      }
    }
    return 0;
  }

  lemma PrologueEdge(h: Tiles, bot: int, top: int)
    requires Tiling(h, bot, top)
    ensures bot in h && Edge(h, top, bot) && forall x :: x in h ==> bot <= x
  {
  }

  /** Both searches fail on the same heaps, so the allocator grows the heap only when nothing fits. */
  method SearchesAgree(mm: MemoryManager, bsize: int) returns (fast: int, plain: int)
    requires mm.Valid()
    ensures fast == 0 <==> plain == 0
    ensures fast != 0 ==> Fits(mm.tiles, bsize, fast) && Fits(mm.tiles, bsize, plain) && plain <= fast
  {
    hide Stores; hide Inv; hide FirstFit;
    ListInTiles(mm.View());
    FirstFitFits(mm.View(), bsize);
    fast := mm.FindFit(bsize);
    plain := FindFitImplicit(mm, bsize);
  }

  /** The header walk of mm_check: every block once, in address order, header equal to footer, and no byte unaccounted for. */
  method WalkHeap(mm: MemoryManager) returns (w: seq<int>, total: int)
    requires mm.Valid()
    ensures Consecutive(mm.tiles, w) && |w| > 0 && w[0] == mm.prolBp
    ensures forall a :: a in w <==> a in mm.tiles
    ensures total == SumSizes(mm.tiles, w) == (mm.brk - mm.start) - 8
    ensures forall a :: a in w ==> TagsEqual(mm.mem[..], a)
  {
    hide Stores; hide Inv; hide SizeOf; hide AllocOf; hide Tiling; hide Walk; hide SumSizes; hide Consecutive;
    hide TagsEqual;
    ghost var h, bot, top := mm.tiles, mm.prolBp, mm.brk;
    StoresRange(mm.mem[..], h, bot, top, mm.list);
    PrologueEdge(h, bot, top);
    var bp := mm.prolBp;
    w, total := [], 0;
    WalkReads(mm.mem[..], h, bot, top, mm.list, bp);
    while SizeOf(mm.mem[bp - WSIZE]) > 0
      invariant Edge(h, top, bp) && 4 <= bp <= mm.mem.Length && bot <= bp
      invariant SizeOf(mm.mem[bp - WSIZE]) > 0 <==> bp != top
      invariant Walk(h, bot, top, bot) == w + Walk(h, bot, top, bp)
      invariant total == bp - bot
      decreases top - bp
    {
      WalkReads(mm.mem[..], h, bot, top, mm.list, bp);
      WalkUnfold(h, bot, top, bp);
      w := w + [bp];
      total := total + SizeOf(mm.mem[bp - WSIZE]);
      bp := mm.NextBlkp(bp);
      WalkReads(mm.mem[..], h, bot, top, mm.list, bp);
    }
    WalkUnfold(h, bot, top, top);
    assert Walk(h, bot, top, bot) == w;
    WalkWhole(mm.mem[..], h, bot, top, mm.list);
  }

  /** Header and footer of the block at `a` are the same word. */
  ghost predicate TagsEqual(m: Memory, a: int) {
    4 <= a <= |m| && 0 <= a + SizeOf(m[a - 4]) - 8 < |m| && m[a + SizeOf(m[a - 4]) - 8] == m[a - 4]
  }

  lemma WalkWhole(m: Memory, h: Tiles, bot: int, top: int, ns: seq<int>)
    requires Stores(m, h, bot, top, ns)
    ensures bot in h && Tiling(h, bot, top)
    ensures var w := Walk(h, bot, top, bot);
            Consecutive(h, w) && SumSizes(h, w) == top - bot && |w| > 0 && w[0] == bot &&
            (forall a :: a in w <==> a in h) && (forall a :: a in w ==> TagsEqual(m, a))
  {
    hide Tags; hide Links; hide ListSound; hide Aligned; hide Disjoint; hide Walk; hide SizeOf;
    hide Consecutive; hide SumSizes;
    StoresRange(m, h, bot, top, ns);
    WalkSum(h, bot, top, bot);
    WalkUnfold(h, bot, top, bot);
    forall a ensures a in Walk(h, bot, top, bot) <==> a in h {
      WalkMeets(h, bot, top, bot, a);
    }
    forall a | a in h ensures TagsEqual(m, a) {
      WalkReads(m, h, bot, top, ns, a);
    }
  }

  lemma WalkUnfold(h: Tiles, bot: int, top: int, a: int)
    requires Tiling(h, bot, top) && Edge(h, top, a) && bot <= a
    ensures a == top ==> Walk(h, bot, top, a) == []
    ensures a != top ==> a in h && Edge(h, top, Next(h, a)) && bot <= Next(h, a) && Walk(h, bot, top, a) == [a] + Walk(h, bot, top, Next(h, a))
  {
    if a != top {
      assert HasNext(h, a, top);
    }
  }

  /** The free list from the root along SUCC, up to the prologue. */
  method WalkList(mm: MemoryManager) returns (w: seq<int>)
    requires mm.Valid()
    ensures Distinct(w) && forall a :: a in w <==> Free(mm.tiles, a)
    ensures w + [mm.prolBp] == mm.list
  {
    hide Stores; hide Inv; hide SizeOf;
    ListNodes(mm);
    var bp := mm.rootBp;
    w := [];
    while bp != mm.prolBp
      invariant |w| < |mm.list| && bp == mm.list[|w|] && w == mm.list[..|w|]
      decreases |mm.list| - |w|
    {
      ListNode(mm.mem[..], mm.tiles, mm.prolBp, mm.brk, mm.list, |w|);
      w := w + [bp];
      bp := mm.mem[bp];
    }
    ListFree(mm.tiles, mm.prolBp, mm.brk, mm.list, w);
  }

  /** The free list from the prologue along PRED, as mm_check prints it, up to the 0 that ends it. */
  method WalkListBack(mm: MemoryManager) returns (w: seq<int>)
    requires mm.Valid()
    ensures |w| == |mm.list| - 1 && forall i :: 0 <= i < |w| ==> w[i] == mm.list[|w| - 1 - i]
  {
    hide Stores; hide Inv; hide SizeOf; hide ListSound;
    ListNodes(mm);
    ghost var k := |mm.list| - 1;
    BackNode(mm.mem[..], mm.tiles, mm.prolBp, mm.brk, mm.list, k);
    var bp := mm.mem[mm.prolBp + WSIZE];
    w := [];
    while bp != 0
      invariant 0 <= k < |mm.list| && |w| == |mm.list| - 1 - k
      invariant bp == if k == 0 then 0 else mm.list[k - 1]
      invariant forall i :: 0 <= i < |w| ==> w[i] == mm.list[|mm.list| - 2 - i]
      decreases k
    {
      k := k - 1;
      BackNode(mm.mem[..], mm.tiles, mm.prolBp, mm.brk, mm.list, k);
      w := w + [bp];
      bp := mm.mem[bp + WSIZE];
    }
    NodeFacts(mm.mem[..], mm.tiles, mm.prolBp, mm.brk, mm.list);
  }

  lemma ListNodes(mm: MemoryManager)
    requires mm.Valid()
    ensures 0 < |mm.list| && mm.list[|mm.list| - 1] == mm.prolBp && mm.mem.Length > 4
  {
    NodeFacts(mm.mem[..], mm.tiles, mm.prolBp, mm.brk, mm.list);
  }

  /** What PRED of node k holds: node k-1, or 0 at the root. */
  lemma BackNode(m: Memory, h: Tiles, bot: int, top: int, ns: seq<int>, k: int)
    requires Stores(m, h, bot, top, ns) && 0 <= k < |ns|
    ensures 0 <= ns[k] < |m| - 4 && 0 < ns[k]
    ensures 0 < k ==> m[ns[k] + 4] == ns[k - 1]
  {
    NodeFacts(m, h, bot, top, ns);
    assert 0 < k ==> Linked(m, ns, k - 1);
  }

  lemma ListFree(h: Tiles, bot: int, top: int, ns: seq<int>, w: seq<int>)
    requires Inv(h, bot, top, ns) && |w| < |ns| && w == ns[..|w|] && ns[|w|] == bot
    ensures Distinct(w) && w + [bot] == ns && forall a :: a in w <==> Free(h, a)
  {
    assert |w| == |ns| - 1;
    assert ns == w + [bot];
    forall a ensures a in w <==> Free(h, a) {
      if a in w {
        var i :| 0 <= i < |w| && w[i] == a;
        assert ns[i] == a && a in ns && a != bot;
      }
      if Free(h, a) {
        assert a in ns && a != bot;
      }
    }
  }
}
