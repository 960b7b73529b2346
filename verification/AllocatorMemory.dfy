/** Memory that represents an abstract heap, and which writes keep it representing one. */
module AllocatorMemory {
  import opened Numbers
  import opened HeapTiling
  import opened HeapMemory
  import opened Sequences
  import opened AllocatorSpec

  /** `m` stores the tiles `h` in headers and footers and the list `ns` in link words. */
  ghost predicate Stores(m: Memory, h: Tiles, bot: int, top: int, ns: seq<int>) {
    && TilesSound(h, bot, top) && Aligned(h) && ListSound(h, bot, ns)
    && Tags(m, h, top) && Links(m, ns)
  }

  /** The words of [a, b) are the same in both memories. */
  ghost predicate SameWords(m: Memory, m': Memory, a: int, b: int) {
    |m| == |m'| && forall p :: a <= p < b && 0 <= p < |m| ==> m'[p] == m[p]
  }

  /** The payloads of all live blocks but `x`, and everything outside the heap, are the same in both memories. */
  ghost predicate Keeps(m: Memory, m': Memory, h: Tiles, bot: int, top: int, x: int) {
    && SameWords(m, m', 0, bot - DSIZE) && SameWords(m, m', top, |m|)
    && (forall a {:trigger SameWords(m, m', a, Next(h, a) - 8)} ::
          a in h && h[a].alloc && a != bot && a != x ==> SameWords(m, m', a, Next(h, a) - 8))
  }

  /** The words kept by two steps, the second on tiles where the live blocks of the first still exist. */
  lemma KeepsTwice(m: Memory, m1: Memory, m2: Memory, h: Tiles, h1: Tiles, bot: int, top: int, top1: int, x: int, x1: int)
    requires Keeps(m, m1, h, bot, top, x) && Keeps(m1, m2, h1, bot, top1, x1) && top <= top1
    requires forall a :: a in h && h[a].alloc && a != bot && a != x ==> a != x1 && a in h1 && h1[a] == h[a]
    ensures Keeps(m, m2, h, bot, top1, x)
  {
    forall a | a in h && h[a].alloc && a != bot && a != x ensures SameWords(m, m2, a, Next(h, a) - 8) {
      assert SameWords(m, m1, a, Next(h, a) - 8) && SameWords(m1, m2, a, Next(h1, a) - 8);
    }
  }

  /** Only link words of nodes in `ns` differ. */
  ghost predicate OnlyLinks(m: Memory, m': Memory, ns: seq<int>) {
    && |m| == |m'|
    && (forall p :: 0 <= p < |m| && p !in ns && p - 4 !in ns ==> m'[p] == m[p])
  }

  /** Only words of the stretch [lo, hi), from its first header to its last footer, differ. */
  ghost predicate OnlyWithin(m: Memory, m': Memory, lo: int, hi: int) {
    && |m| == |m'|
    && (forall p :: 0 <= p < |m| && !(lo - 4 <= p < hi - 4) ==> m'[p] == m[p])
  }

  // ---------------------------------------------------------------- writing links

  /** Link words are neither headers nor footers. */
  lemma NotATag(h: Tiles, bot: int, top: int, a: int)
    requires Tiling(h, bot, top) && Aligned(h) && a in h
    ensures a - 4 !in h && a - 8 !in h
    ensures a + h[a].size - 8 !in h && a + h[a].size - 12 !in h
  {
    assert a - 8 in h ==> Apart(h, a - 8, a);
    assert a + h[a].size - 8 in h ==> Apart(h, a, a + h[a].size - 8);
    assert Mult8(a) && Mult8(h[a].size);
    assert !Mult8(a - 4) && !Mult8(a + h[a].size - 12);
  }

  lemma LinksKeepTags(m: Memory, m': Memory, h: Tiles, bot: int, top: int, ns: seq<int>)
    requires Tiling(h, bot, top) && Aligned(h) && Tags(m, h, top)
    requires OnlyLinks(m, m', ns) && forall x :: x in ns ==> x in h
    ensures Tags(m', h, top)
  {
    forall a | a in h ensures TagsAt(m', h, a) {
      assert TagsAt(m, h, a);
      NotATag(h, bot, top, a);
    }
    assert top - 4 !in ns && top - 8 !in ns;
  }

  lemma LinksKeepPayloads(m: Memory, m': Memory, h: Tiles, bot: int, top: int, ns: seq<int>)
    requires Tiling(h, bot, top) && OnlyLinks(m, m', ns)
    requires forall x :: x in ns ==> x == bot || Free(h, x)
    ensures Keeps(m, m', h, bot, top, 0)
  {
    forall x | x in ns ensures bot <= x && x + 4 < top {
      assert x in h;
    }
    forall p | 0 <= p < |m| && (p < bot || top <= p) ensures m'[p] == m[p] {
      assert p !in ns && p - 4 !in ns;
    }
    forall a | a in h && h[a].alloc && a != bot ensures SameWords(m, m', a, Next(h, a) - 8) {
      forall x | x in ns ensures x + 4 < a || Next(h, a) <= x {
        assert Apart(h, a, x);
      }
      forall p | a <= p < Next(h, a) - 8 && 0 <= p < |m| ensures m'[p] == m[p] {
        assert p !in ns && p - 4 !in ns;
      }
    }
  }

  // ---------------------------------------------------------------- writing tags

  lemma TagsWithin(m: Memory, m': Memory, h: Tiles, bot: int, top: int, lo: int, hi: int, part: Tiles)
    requires Tiling(h, bot, top) && Tags(m, h, top) && lo in h && Edge(h, top, hi) && lo < hi
    requires OnlyWithin(m, m', lo, hi)
    requires forall a :: a in part ==> TagsAt(m', part, a)
    ensures Tags(m', Replace(h, lo, hi, part), top)
  {
    var h' := Replace(h, lo, hi, part);
    forall a | a in h' ensures TagsAt(m', h', a) {
      if a in part {
        assert TagsAt(m', part, a);
      } else {
        assert TagsAt(m, h, a);
        Outside(h, bot, top, lo, hi, a);
      }
    }
  }

  /** Nodes outside the stretch keep their links. */
  lemma LinksWithin(m: Memory, m': Memory, h: Tiles, bot: int, top: int, lo: int, hi: int, ns: seq<int>)
    requires Tiling(h, bot, top) && Links(m, ns) && lo in h && Edge(h, top, hi) && lo < hi
    requires OnlyWithin(m, m', lo, hi)
    requires forall i :: 0 <= i < |ns| ==> ns[i] in h && !(lo <= ns[i] < hi)
    ensures Links(m', ns)
  {
    forall i | 0 <= i < |ns| - 1 ensures Linked(m', ns, i) {
      assert Linked(m, ns, i);
      Outside(h, bot, top, lo, hi, ns[i]);
      Outside(h, bot, top, lo, hi, ns[i + 1]);
    }
  }

  lemma WithinKeepsPayloads(m: Memory, m': Memory, h: Tiles, bot: int, top: int, lo: int, hi: int, x: int)
    requires Tiling(h, bot, top) && lo in h && Edge(h, top, hi) && lo < hi
    requires OnlyWithin(m, m', lo, hi)
    requires forall a :: a in h && h[a].alloc && lo <= a < hi ==> a == x
    ensures Keeps(m, m', h, bot, top, x)
  {
    forall a | a in h && h[a].alloc && a != bot && a != x ensures SameWords(m, m', a, Next(h, a) - 8) {
      Outside(h, bot, top, lo, hi, a);
    }
  }

  /** Rewriting the tags of an unlisted stretch stores the recut tiles. */
  lemma Retag(m: Memory, m': Memory, h: Tiles, bot: int, top: int, ns: seq<int>, lo: int, hi: int, part: Tiles)
    requires Stores(m, h, bot, top, ns) && lo in h && lo != bot && Edge(h, top, hi)
    requires Tiling(part, lo, hi) && Aligned(part)
    requires forall x :: x in ns ==> x < lo || hi <= x
    requires OnlyWithin(m, m', lo, hi)
    requires forall a :: a in part ==> TagsAt(m', part, a)
    ensures Stores(m', Replace(h, lo, hi, part), bot, top, ns)
  {
    assert lo < hi;
    forall i | 0 <= i < |ns| ensures ns[i] in h && !(lo <= ns[i] < hi) {
      assert ns[i] in ns;
    }
    hide Tiling; hide Aligned; hide ListSound; hide Tags; hide Links; hide Replace; hide OnlyWithin; hide TagsAt;
    AlignedReplace(h, lo, hi, part);
    ReplaceSound(h, bot, top, ns, lo, hi, part);
    TagsWithin(m, m', h, bot, top, lo, hi, part);
    LinksWithin(m, m', h, bot, top, lo, hi, ns);
  }

  // ---------------------------------------------------------------- cut_out and set_root

  lemma NodeFacts(m: Memory, h: Tiles, bot: int, top: int, ns: seq<int>)
    requires Stores(m, h, bot, top, ns)
    ensures 0 < |ns| && ListSound(h, bot, ns)
    ensures Spread(ns)
    ensures forall i :: 0 <= i < |ns| ==> ns[i] in ns && ns[i] in h && 16 <= ns[i] && ns[i] + 16 <= top <= |m|
    ensures forall x :: x in ns ==> x in h
  {
    ListSpread(h, bot, top, ns);
    forall i | 0 <= i < |ns| ensures ns[i] in ns && ns[i] in h && 16 <= ns[i] && ns[i] + 16 <= top <= |m| {
      assert ns[i] in ns;
      assert bot <= ns[i];
    }
  }

  /** What cut_out reads from the node at position k. */
  lemma NodeReads(m: Memory, h: Tiles, bot: int, top: int, ns: seq<int>, k: int)
    requires Stores(m, h, bot, top, ns) && 0 <= k < |ns| && ns[k] != bot
    ensures k < |ns| - 1 && 0 <= ns[k] < |m| - 4 && 0 <= ns[k + 1] < |m| - 4 && m[ns[k]] == ns[k + 1]
    ensures 0 < k ==> m[ns[k] + 4] == ns[k - 1] && 0 <= ns[k - 1] < |m| - 4 && ns[k - 1] != ns[k] && ns[k - 1] != ns[k] + 4
    ensures ns[k] == ns[0] ==> k == 0
    ensures 0 <= ns[0] < |m| - 4
    ensures Free(h, ns[k])
  {
    NodeFacts(m, h, bot, top, ns);
    assert Linked(m, ns, k);
    assert 0 < k ==> Linked(m, ns, k - 1);
  }

  /** All that a write of link words does to the rest. */
  lemma LinksOnly(m: Memory, m': Memory, h: Tiles, bot: int, top: int, ns: seq<int>)
    requires TilesSound(h, bot, top) && Aligned(h) && Tags(m, h, top)
    requires OnlyLinks(m, m', ns) && ListSound(h, bot, ns)
    ensures Tags(m', h, top) && Keeps(m, m', h, bot, top, 0)
  {
    LinksKeepTags(m, m', h, bot, top, ns);
    LinksKeepPayloads(m, m', h, bot, top, ns);
  }

  lemma FirstKept(m: Memory, ns: seq<int>, k: int)
    requires Spread(ns) && 0 < k < |ns| - 1
    requires 0 <= ns[k - 1] < |m| && 0 <= ns[k + 1] < |m| - 4 && 0 <= ns[0] < |m| - 4
    ensures m[ns[k - 1] := ns[k + 1]][ns[k + 1] + 4 := ns[k - 1]][ns[0] + 4] == m[ns[0] + 4]
  {
  }

  /** The links are rewritten around node k, 0 < k. */
  lemma CutMiddle(m: Memory, m': Memory, h: Tiles, bot: int, top: int, ns: seq<int>, k: int)
    requires Stores(m, h, bot, top, ns) && 0 < k < |ns| - 1
    requires 0 <= ns[k - 1] < |m| - 4 && 0 <= ns[k + 1] < |m| - 4 && 0 <= ns[0] < |m| - 4
    requires m' == m[ns[k - 1] := ns[k + 1]][ns[k + 1] + 4 := ns[k - 1]]
    ensures Stores(m', h, bot, top, Without(ns, ns[k]))
    ensures Keeps(m, m', h, bot, top, 0)
    ensures Without(ns, ns[k])[0] == ns[0] && m'[ns[0] + 4] == m[ns[0] + 4]
  {
    hide Tiling; hide Aligned; hide ListSound; hide Links; hide Tags; hide OnlyLinks; hide Spread; hide Keeps;
    hide Without; hide Distinct;
    NodeFacts(m, h, bot, top, ns);
    CutTwoLinks(m, m', ns, k);
    OnlyLastIsBot(h, bot, ns, k);
    FirstKept(m, ns, k);
    LinksOnly(m, m', h, bot, top, ns);
    Unlink(m, ns, k);
    SpreadDistinct(ns);
    WithoutAt(ns, k);
    CutSound(h, bot, ns, ns[k]);
  }

  lemma CutTwoLinks(m: Memory, m': Memory, ns: seq<int>, k: int)
    requires 0 < k < |ns| - 1 && 0 <= ns[k - 1] < |m| - 4 && 0 <= ns[k + 1] < |m| - 4
    requires m' == m[ns[k - 1] := ns[k + 1]][ns[k + 1] + 4 := ns[k - 1]]
    ensures OnlyLinks(m, m', ns)
  {
  }

  lemma OnlyLastIsBot(h: Tiles, bot: int, ns: seq<int>, k: int)
    requires ListSound(h, bot, ns) && 0 <= k < |ns| - 1
    ensures ns[k] != bot
  {
  }

  lemma CutFirst(m: Memory, m': Memory, h: Tiles, bot: int, top: int, ns: seq<int>)
    requires Stores(m, h, bot, top, ns) && 2 <= |ns|
    requires 0 <= ns[1] < |m| - 4 && m' == m[ns[1] + 4 := 0]
    ensures Stores(m', h, bot, top, Without(ns, ns[0]))
    ensures Keeps(m, m', h, bot, top, 0)
    ensures Without(ns, ns[0])[0] == ns[1]
  {
    hide Tiling; hide Aligned; hide ListSound; hide Links; hide Tags; hide OnlyLinks; hide Spread; hide Keeps;
    hide Without; hide Distinct;
    NodeFacts(m, h, bot, top, ns);
    CutOneLink(m, m', ns);
    OnlyLastIsBot(h, bot, ns, 0);
    LinksOnly(m, m', h, bot, top, ns);
    UnlinkFirst(m, ns);
    WithoutFirst(ns);
    CutSound(h, bot, ns, ns[0]);
  }

  lemma WithoutFirst(ns: seq<int>)
    requires 2 <= |ns|
    ensures Without(ns, ns[0]) == ns[1..] && ns[1..][0] == ns[1]
  {
  }

  lemma CutOneLink(m: Memory, m': Memory, ns: seq<int>)
    requires 2 <= |ns| && 0 <= ns[1] < |m| - 4 && m' == m[ns[1] + 4 := 0]
    ensures OnlyLinks(m, m', ns)
  {
  }

  /** set_root on the unlisted free block `x` */
  lemma PushFirst(m: Memory, m': Memory, h: Tiles, bot: int, top: int, ns: seq<int>, x: int)
    requires Stores(m, h, bot, top, ns) && Free(h, x) && x !in ns
    requires 0 <= ns[0] < |m| - 4 && 0 <= x < |m| - 4
    requires m' == m[ns[0] + 4 := x][x := ns[0]][x + 4 := 0]
    ensures Stores(m', h, bot, top, [x] + ns)
    ensures Keeps(m, m', h, bot, top, 0)
  {
    PushSound(h, bot, ns, x);
    ListSpread(h, bot, top, [x] + ns);
    NodeFacts(m, h, bot, top, ns);
    assert OnlyLinks(m, m', [x] + ns);
    hide Tiling; hide Aligned; hide ListSound; hide Links; hide Tags; hide OnlyLinks; hide Spread; hide Keeps;
    LinksOnly(m, m', h, bot, top, [x] + ns);
    Push(m, ns, x);
  }

  // ---------------------------------------------------------------- reading tags

  /** Header and footer of a block, as the macros read them. */
  lemma BlockTags(m: Memory, h: Tiles, bot: int, top: int, a: int)
    requires Aligned(h) && Tags(m, h, top) && a in h
    ensures 4 <= a && 16 <= h[a].size && a + h[a].size <= |m|
    ensures SizeOf(m[a - 4]) == h[a].size && AllocOf(m[a - 4]) == h[a].alloc
    ensures SizeOf(m[a + h[a].size - 8]) == h[a].size && AllocOf(m[a + h[a].size - 8]) == h[a].alloc
  {
    assert TagsAt(m, h, a);
    assert Mult8(h[a].size);
    PackFields(h[a].size, h[a].alloc);
  }

  /** The alloc bit in front of the next block, which may be the epilogue. */
  lemma NextTag(m: Memory, h: Tiles, bot: int, top: int, a: int)
    requires Tiling(h, bot, top) && Aligned(h) && Tags(m, h, top) && a in h
    ensures 4 <= Next(h, a) <= |m| && AllocOf(m[Next(h, a) - 4]) == !Free(h, Next(h, a))
    ensures Next(h, a) == top ==> SizeOf(m[Next(h, a) - 4]) == 0
  {
    assert HasNext(h, a, top);
    if Next(h, a) in h {
      BlockTags(m, h, bot, top, Next(h, a));
      assert Next(h, a) + 16 <= top;
    } else {
      assert m[top - 4] == 1;
    }
  }

  /** PREV_BLKP finds the block below through its footer. */
  lemma PrevTag(m: Memory, h: Tiles, bot: int, top: int, a: int, p: int)
    requires TilesSound(h, bot, top) && Aligned(h) && Tags(m, h, top) && a in h && a != bot
    requires p == Prev(h, bot, top, a)
    ensures p in h && Next(h, p) == a && 8 <= a <= |m|
    ensures SizeOf(m[a - 8]) == h[p].size && AllocOf(m[a - 8]) == h[p].alloc
    ensures Lo(h, a) == if h[p].alloc then a else p
  {
    BlockTags(m, h, bot, top, p);
    LoOf(h, bot, top, a, p);
  }

  // ---------------------------------------------------------------- coalesce

  /** Everything coalesce reads around the unlisted free block `x`, whose lower neighbour is `p`. */
  ghost predicate Neighbours(m: Memory, h: Tiles, x: int, p: int) {
    && p in h && x in h && Next(h, p) == x && 4 <= p && p + 16 <= x && x + 16 <= Next(h, x) <= Hi(h, x) <= |m|
    && SizeOf(m[x - 8]) == SizeOf(m[p - 4]) == h[p].size && SizeOf(m[x - 4]) == h[x].size
    && AllocOf(m[x - 8]) == h[p].alloc && Lo(h, x) == (if h[p].alloc then x else p)
    && AllocOf(m[Next(h, x) - 4]) == !Free(h, Next(h, x))
    && Hi(h, x) == (if Free(h, Next(h, x)) then Next(h, Next(h, x)) else Next(h, x))
    && (Free(h, Next(h, x)) ==>
          SizeOf(m[Next(h, x) - 4]) == SizeOf(m[Hi(h, x) - 8]) == h[Next(h, x)].size && Next(h, x) + 16 <= Hi(h, x))
  }

  lemma ReadNeighbours(m: Memory, h: Tiles, bot: int, top: int, ns: seq<int>, x: int)
    requires Stores(m, h, bot, top, ns) && Free(h, x)
    ensures Neighbours(m, h, x, Prev(h, bot, top, x))
  {
    var p := Prev(h, bot, top, x);
    BlockTags(m, h, bot, top, x);
    NextTag(m, h, bot, top, x);
    PrevTag(m, h, bot, top, x, p);
    BlockTags(m, h, bot, top, p);
    if Free(h, Next(h, x)) {
      BlockTags(m, h, bot, top, Next(h, x));
    }
  }

  lemma NeighboursOf(m: Memory, h: Tiles, bot: int, top: int, ns: seq<int>, x: int)
    requires Stores(m, h, bot, top, ns) && Open(h, bot, top, ns, x)
    ensures Tiling(h, bot, top) && bot < x && x in h && Neighbours(m, h, x, Prev(h, bot, top, x))
  {
    ReadNeighbours(m, h, bot, top, ns, x);
  }

  /** After the neighbours are out of the list, writing the two outer tags merges the free stretch. */
  lemma MergeDone(m: Memory, m': Memory, h: Tiles, bot: int, top: int, list: seq<int>, x: int)
    requires Open(h, bot, top, list, x) && Stores(m, h, bot, top, MergeList(h, list, x))
    requires var lo, hi := Lo(h, x), Hi(h, x);
             4 <= lo && lo + 8 <= hi <= |m| && m' == m[lo - 4 := hi - lo][hi - 8 := hi - lo]
    ensures Stores(m', MergeTiles(h, x), bot, top, MergeList(h, list, x))
    ensures Keeps(m, m', h, bot, top, 0)
    ensures var r := MergeList(h, list, x)[0] + 4; 0 <= r < |m| && m'[r] == m[r]
  {
    hide Tiling; hide Aligned; hide ListSound; hide Tags; hide Links; hide MergeList; hide Keeps; hide Covers;
    hide CoalescedExcept;
    var lo, hi, ns := Lo(h, x), Hi(h, x), MergeList(h, list, x);
    var part := One(lo, hi - lo, false);
    StretchEdges(h, bot, top, x);
    MergeListSound(h, bot, top, list, x);
    MergePart(h, bot, top, list, x);
    assert OnlyWithin(m, m', lo, hi) && TagsAt(m', part, lo);
    WithinRest(m, m', h, bot, top, ns, lo, hi, 0);
    Retag(m, m', h, bot, top, ns, lo, hi, part);
  }

  lemma MergedSize(h: Tiles, bot: int, top: int, list: seq<int>, x: int)
    requires Open(h, bot, top, list, x)
    ensures SizeOf(Pack(Hi(h, x) - Lo(h, x), false)) == Hi(h, x) - Lo(h, x)
  {
    MergePart(h, bot, top, list, x);
    PackFields(Hi(h, x) - Lo(h, x), false);
  }

  /** The list that the cut_out calls of coalesce build step by step. */
  lemma MergeCuts(h: Tiles, bot: int, top: int, list: seq<int>, x: int)
    requires Open(h, bot, top, list, x)
    ensures MergeList(h, list, x) ==
              (var l := if Lo(h, x) == x then list else Without(list, Lo(h, x));
               if Free(h, Next(h, x)) then Without(l, Next(h, x)) else l)
    ensures Lo(h, x) != x ==> Lo(h, x) in list && Lo(h, x) != bot && Next(h, x) != Lo(h, x)
    ensures Free(h, Next(h, x)) ==> Next(h, x) in list && Next(h, x) != bot
    ensures Lo(h, x) != x && Free(h, Next(h, x)) ==> Next(h, x) in Without(list, Lo(h, x))
  {
    StretchEdges(h, bot, top, x);
    WithoutAbsent(list, x);
    CutSound(h, bot, list, Lo(h, x));
    if !Free(h, Next(h, x)) {
      WithoutAbsent(Without(list, Lo(h, x)), Next(h, x));
    }
  }

  /** Tags and list around `x` before coalesce starts. */
  lemma CoalesceStart(m: Memory, h: Tiles, bot: int, top: int, ns: seq<int>, x: int)
    requires Stores(m, h, bot, top, ns) && Open(h, bot, top, ns, x)
    ensures Neighbours(m, h, x, Prev(h, bot, top, x)) && Tiling(h, bot, top) && bot < x && x in h && Free(h, x)
    ensures MergeList(h, ns, x) ==
              (var l := if Lo(h, x) == x then ns else Without(ns, Lo(h, x));
               if Free(h, Next(h, x)) then Without(l, Next(h, x)) else l)
    ensures Lo(h, x) != x ==> Lo(h, x) in ns && Lo(h, x) != bot
    ensures Free(h, Next(h, x)) ==> Next(h, x) in ns && Next(h, x) != bot
    ensures Lo(h, x) != x && Free(h, Next(h, x)) ==> Next(h, x) in Without(ns, Lo(h, x))
    ensures SizeOf(Pack(Hi(h, x) - Lo(h, x), false)) == Hi(h, x) - Lo(h, x)
    ensures 0 <= Pack(Hi(h, x) - Lo(h, x), false) <= |m|
  {
    ReadNeighbours(m, h, bot, top, ns, x);
    MergeCuts(h, bot, top, ns, x);
    MergedSize(h, bot, top, ns, x);
  }

  /** The outcome of coalesce, from the cut_out calls m to m1 and the final tag writes m1 to m'. */
  lemma CoalesceEnd(m: Memory, m1: Memory, m': Memory, h: Tiles, bot: int, top: int, ns: seq<int>, x: int)
    requires Open(h, bot, top, ns, x) && Stores(m1, h, bot, top, MergeList(h, ns, x))
    requires Keeps(m, m1, h, bot, top, 0)
    requires 4 <= Lo(h, x) && Lo(h, x) + 8 <= Hi(h, x) <= |m1|
    requires m' == m1[Lo(h, x) - 4 := Pack(Hi(h, x) - Lo(h, x), false)][Hi(h, x) - 8 := Pack(Hi(h, x) - Lo(h, x), false)]
    ensures Stores(m', MergeTiles(h, x), bot, top, MergeList(h, ns, x))
    ensures Keeps(m, m', h, bot, top, 0)
    ensures var r := MergeList(h, ns, x)[0] + 4; 0 <= r < |m1| && m'[r] == m1[r]
  {
    MergeDone(m1, m', h, bot, top, ns, x);
    KeepsTwice(m, m1, m', h, h, bot, top, top, 0, 0);
  }

  lemma KeepsSame(m: Memory, h: Tiles, bot: int, top: int, x: int)
    ensures Keeps(m, m, h, bot, top, x)
  {
  }

  lemma SwapWrites(m: Memory, p: int, q: int, w: int)
    requires 0 <= p < |m| && 0 <= q < |m|
    ensures m[p := w][q := w] == m[q := w][p := w]
  {
  }

  lemma CoalesceIndices(m: Memory, h: Tiles, bot: int, top: int, ns: seq<int>, x: int)
    requires Stores(m, h, bot, top, ns) && Open(h, bot, top, ns, x)
    ensures x in h && (!Free(h, Next(h, x)) ==> Hi(h, x) == Next(h, x))
  {
  }

  // ---------------------------------------------------------------- retagging stretches

  /** What a write inside an unlisted stretch leaves alone. */
  lemma WithinRest(m: Memory, m': Memory, h: Tiles, bot: int, top: int, ns: seq<int>, lo: int, hi: int, e: int)
    requires Stores(m, h, bot, top, ns) && lo in h && lo != bot && lo < hi && Edge(h, top, hi)
    requires OnlyWithin(m, m', lo, hi)
    requires forall a :: a in h && h[a].alloc && lo <= a < hi ==> a == e
    requires forall y :: y in ns ==> y < lo || hi <= y
    ensures Keeps(m, m', h, bot, top, e)
    ensures 0 <= ns[0] + 4 < |m| && m'[ns[0] + 4] == m[ns[0] + 4]
  {
    hide Aligned; hide Tags; hide Links; hide Keeps; hide Distinct;
    NodeFacts(m, h, bot, top, ns);
    Outside(h, bot, top, lo, hi, ns[0]);
    WithinKeepsPayloads(m, m', h, bot, top, lo, hi, e);
  }

  /** The block `x` gets alloc bit `alloc`. */
  lemma RetagOne(m: Memory, m': Memory, h: Tiles, bot: int, top: int, ns: seq<int>, x: int, alloc: bool, e: int)
    requires Stores(m, h, bot, top, ns) && x in h && x != bot && x !in ns && (h[x].alloc ==> e == x)
    requires 4 <= x && 16 <= h[x].size && Next(h, x) <= |m|
    requires m' == m[x - 4 := Pack(h[x].size, alloc)][Next(h, x) - 8 := Pack(h[x].size, alloc)]
    ensures Stores(m', MarkTiles(h, x, alloc), bot, top, ns)
    ensures Keeps(m, m', h, bot, top, e)
    ensures 0 <= ns[0] + 4 < |m| && m'[ns[0] + 4] == m[ns[0] + 4]
  {
    hide Aligned; hide Tags; hide Links; hide ListSound; hide Keeps; hide Disjoint;
    var hi, part := Next(h, x), One(x, h[x].size, alloc);
    NothingInside(h, bot, top, x);
    OneTiling(x, h[x].size, alloc);
    assert OnlyWithin(m, m', x, hi) && TagsAt(m', part, x);
    NodeFacts(m, h, bot, top, ns);
    OneAligned(h, x, alloc);
    Retag(m, m', h, bot, top, ns, x, hi, part);
    WithinRest(m, m', h, bot, top, ns, x, hi, e);
  }

  lemma OneAligned(h: Tiles, x: int, alloc: bool)
    requires Aligned(h) && x in h
    ensures Aligned(One(x, h[x].size, alloc))
  {
    assert Mult8(x) && Mult8(h[x].size);
  }

  /** The four tag words of a split stretch. */
  ghost function SplitMemory(m: Memory, lo: int, hi: int, first: int): Memory
    requires 4 <= lo && 16 <= first && first + 16 <= hi - lo && hi <= |m|
  {
    var mid, rest := lo + first, hi - lo - first;
    m[lo - 4 := Pack(first, true)][mid - 8 := Pack(first, true)][mid - 4 := Pack(rest, false)][hi - 8 := Pack(rest, false)]
  }

  lemma SplitTags(m: Memory, lo: int, hi: int, first: int)
    requires 4 <= lo && 16 <= first && first + 16 <= hi - lo && hi <= |m|
    ensures OnlyWithin(m, SplitMemory(m, lo, hi, first), lo, hi)
    ensures var t, m' := Two(lo, first, hi - lo - first), SplitMemory(m, lo, hi, first);
            TagsAt(m', t, lo) && TagsAt(m', t, lo + first)
  {
    var t := Two(lo, first, hi - lo - first);
    assert t[lo] == Block(first, true) && t[lo + first] == Block(hi - lo - first, false);
  }

  /** The stretch, whose words may have been overwritten (m to m1), is cut into a used block of `first` bytes and a free remainder. */
  lemma RetagTwo(m: Memory, m1: Memory, h: Tiles, bot: int, top: int, ns: seq<int>, lo: int, hi: int, first: int, e: int)
    requires Stores(m, h, bot, top, ns) && lo in h && lo != bot && Edge(h, top, hi)
    requires 4 <= lo && 16 <= first && first + 16 <= hi - lo && hi <= |m1| && Mult8(first) && Mult8(hi - lo)
    requires OnlyWithin(m, m1, lo, hi)
    requires forall a :: a in h && h[a].alloc && lo <= a < hi ==> a == e
    requires forall y :: y in ns ==> y < lo || hi <= y
    ensures Stores(SplitMemory(m1, lo, hi, first), SplitTiles(h, lo, hi, first), bot, top, ns)
    ensures Keeps(m, SplitMemory(m1, lo, hi, first), h, bot, top, e)
    ensures 0 <= ns[0] + 4 < |m| && SplitMemory(m1, lo, hi, first)[ns[0] + 4] == m[ns[0] + 4]
  {
    hide Tags; hide Links; hide ListSound; hide Keeps; hide Tiling; hide SplitMemory; hide TagsAt; hide Mult8;
    hide TilesSound;
    var part := Two(lo, first, hi - lo - first);
    var m' := SplitMemory(m1, lo, hi, first);
    SplitTags(m1, lo, hi, first);
    assert OnlyWithin(m, m', lo, hi);
    hide OnlyWithin;
    assert forall a :: a in part ==> TagsAt(m', part, a);
    TwoTiling(lo, first, hi - lo - first);
    assert Mult8(lo);
    TwoAligned(lo, first, hi - lo - first);
    hide Aligned;
    Retag(m, m', h, bot, top, ns, lo, hi, part);
    WithinRest(m, m', h, bot, top, ns, lo, hi, e);
  }

  lemma PackSize(size: int, alloc: bool)
    requires Mult8(size)
    ensures SizeOf(Pack(size, alloc)) == size
  {
    PackFields(size, alloc);
  }

  // ---------------------------------------------------------------- walking the list

  /** What find_fit reads at node k. */
  lemma ListNode(m: Memory, h: Tiles, bot: int, top: int, ns: seq<int>, k: int)
    requires Stores(m, h, bot, top, ns) && 0 <= k < |ns| && ns[k] != bot
    ensures k + 1 < |ns| && ns[k] in h && 4 <= ns[k] < |m|
    ensures m[ns[k]] == ns[k + 1] && SizeOf(m[ns[k] - 4]) == h[ns[k]].size
  {
    NodeReads(m, h, bot, top, ns, k);
    BlockTags(m, h, bot, top, ns[k]);
  }

  lemma ListEnd(h: Tiles, bot: int, ns: seq<int>, k: int)
    requires ListSound(h, bot, ns) && 0 <= k < |ns| && ns[k] == bot
    ensures k == |ns| - 1
  {
  }

  // ---------------------------------------------------------------- place

  /** What place reads and needs to know about the free block `x`. */
  lemma PlaceStart(m: Memory, h: Tiles, bot: int, top: int, ns: seq<int>, x: int)
    requires Stores(m, h, bot, top, ns) && Inv(h, bot, top, ns) && Free(h, x)
    ensures x in h && x in ns && x != bot && 4 <= x && 16 <= h[x].size && Next(h, x) <= |m| && SizeOf(m[x - 4]) == h[x].size
    ensures SizeOf(Pack(h[x].size, true)) == h[x].size && Mult8(h[x].size)
    ensures Edge(h, top, Next(h, x)) && x !in Without(ns, x)
    ensures forall y :: y in Without(ns, x) ==> y < x || Next(h, x) <= y
    ensures forall a :: a in h && h[a].alloc && x <= a < Next(h, x) ==> a == 0
  {
    TakeList(h, bot, top, ns, x);
    BlockTags(m, h, bot, top, x);
    PackSize(h[x].size, true);
    NothingInside(h, bot, top, x);
  }

  /** The remainder of a split can be listed. */
  lemma RestFree(h: Tiles, lo: int, hi: int, first: int, ns: seq<int>)
    requires 16 <= first && first + 16 <= hi - lo
    requires forall y :: y in ns ==> y < lo || hi <= y
    ensures Free(SplitTiles(h, lo, hi, first), lo + first) && lo + first !in ns
  {
  }

  /** The header of the used part, as NEXT_BLKP reads it. */
  lemma SplitHeader(m: Memory, lo: int, hi: int, first: int)
    requires 4 <= lo && 16 <= first && first + 16 <= hi - lo && hi <= |m| && Mult8(first)
    ensures |SplitMemory(m, lo, hi, first)| == |m| && SizeOf(SplitMemory(m, lo, hi, first)[lo - 4]) == first
  {
    PackSize(first, true);
  }

  /** Blocks in use outside the stretch are not affected by a split. */
  lemma SplitOthers(h: Tiles, lo: int, hi: int, first: int, e: int)
    requires forall a :: a in h && h[a].alloc && lo <= a < hi ==> a == e
    ensures forall a :: a in h && h[a].alloc && a != e ==> 0 < first < hi - lo ==> a in SplitTiles(h, lo, hi, first) && SplitTiles(h, lo, hi, first)[a] == h[a]
  {
  }

  // ---------------------------------------------------------------- extend_heap

  lemma ExtendTags(m: Memory, m': Memory, h: Tiles, bot: int, top: int, size: int)
    requires Tiling(h, bot, top) && Tags(m, h, top) && 16 <= size && top + size <= |m|
    requires m' == m[top - 4 := Pack(size, false)][top + size - 8 := Pack(size, false)][top + size - 4 := Pack(0, true)]
    ensures Tags(m', ExtendTiles(h, top, size), top + size)
  {
    var h' := ExtendTiles(h, top, size);
    forall a | a in h' ensures TagsAt(m', h', a) {
      if a in h && a != top {
        assert TagsAt(m, h, a);
      }
    }
  }

  /** The old epilogue header becomes the header of the new free block, and a new epilogue is written. */
  lemma ExtendDone(m: Memory, m': Memory, h: Tiles, bot: int, top: int, ns: seq<int>, size: int)
    requires Stores(m, h, bot, top, ns) && Inv(h, bot, top, ns) && 16 <= size && top + size <= |m| && Mult8(size)
    requires m' == m[top - 4 := Pack(size, false)][top + size - 8 := Pack(size, false)][top + size - 4 := Pack(0, true)]
    ensures Stores(m', ExtendTiles(h, top, size), bot, top + size, ns)
    ensures Open(ExtendTiles(h, top, size), bot, top + size, ns, top)
    ensures Keeps(m, m', h, bot, top + size, 0)
  {
    hide ListSound; hide Aligned; hide Covers; hide Coalesced; hide CoalescedExcept; hide Tags;
    hide ExtendTiles; hide Disjoint; hide Spread;
    ExtendOpen(h, bot, top, ns, size);
    NodeFacts(m, h, bot, top, ns);
    ExtendTags(m, m', h, bot, top, size);
    forall i | 0 <= i < |ns| - 1 ensures Linked(m', ns, i) {
      assert Linked(m, ns, i);
    }
    assert Links(m', ns);
  }

  /** The merged block is free, unlisted and not 0, and merging touches no block in use. */
  lemma ReleaseParts(m: Memory, h: Tiles, bot: int, top: int, ns: seq<int>, x: int)
    requires Open(h, bot, top, ns, x)
    ensures x in h && 0 < Lo(h, x) && Free(MergeTiles(h, x), Lo(h, x)) && Lo(h, x) !in MergeList(h, ns, x)
    ensures 0 < |MergeList(h, ns, x)| && Lo(h, x) != MergeList(h, ns, x)[0]
    ensures forall a :: a in h && h[a].alloc ==> a in MergeTiles(h, x) && MergeTiles(h, x)[a] == h[a]
  {
    StretchEdges(h, bot, top, x);
    MergeListSound(h, bot, top, ns, x);
    MergePart(h, bot, top, ns, x);
    assert MergeList(h, ns, x)[0] in MergeList(h, ns, x);
  }

  lemma StoresRange(m: Memory, h: Tiles, bot: int, top: int, ns: seq<int>)
    requires Stores(m, h, bot, top, ns)
    ensures 16 <= bot < top <= |m| && bot + 16 <= top && Tiling(h, bot, top)
    ensures forall a :: a in h ==> 16 <= a && 16 <= h[a].size
  {
  }

  lemma ExtendKeeps(h: Tiles, bot: int, top: int, size: int)
    requires Tiling(h, bot, top)
    ensures forall a :: a in h && h[a].alloc ==> a in ExtendTiles(h, top, size) && ExtendTiles(h, top, size)[a] == h[a]
  {
  }

  // ---------------------------------------------------------------- mm_init

  /** A heap that consists of the prologue alone. */
  lemma PrologueStores(m: Memory, bot: int)
    requires 16 <= bot && Mult8(bot) && bot + 16 <= |m|
    requires m[bot - 4] == Pack(16, true) && m[bot + 8] == Pack(16, true) && m[bot + 12] == Pack(0, true)
    ensures Stores(m, One(bot, 16, true), bot, bot + 16, [bot])
    ensures Inv(One(bot, 16, true), bot, bot + 16, [bot])
  {
    OneTiling(bot, 16, true);
    assert TagsAt(m, One(bot, 16, true), bot);
  }

  // ---------------------------------------------------------------- mm_free

  lemma FreeStart(m: Memory, h: Tiles, bot: int, top: int, ns: seq<int>, x: int)
    requires Stores(m, h, bot, top, ns) && Inv(h, bot, top, ns) && x in h && h[x].alloc && x != bot
    ensures 4 <= x && 16 <= h[x].size && Next(h, x) <= |m| && SizeOf(m[x - 4]) == h[x].size
    ensures SizeOf(Pack(h[x].size, false)) == h[x].size && x !in ns && Mult8(h[x].size)
  {
    BlockTags(m, h, bot, top, x);
    PackSize(h[x].size, false);
  }

  lemma MarkOthers(h: Tiles, bot: int, top: int, ns: seq<int>, x: int)
    requires Inv(h, bot, top, ns) && x in h
    ensures forall a :: a in h && a != x ==> a != 0 && a in MarkTiles(h, x, false) && MarkTiles(h, x, false)[a] == h[a]
  {
    NothingInside(h, bot, top, x);
  }

  // ---------------------------------------------------------------- the exact writes of the list operations

  function Rd(m: Memory, p: int): int {
    if 0 <= p < |m| then m[p] else 0
  }

  function Wr(m: Memory, p: int, v: int): (r: Memory)
    ensures |r| == |m|
  {
    if 0 <= p < |m| then m[p := v] else m
  }

  /** The memory after cut_out(x). */
  function CutMemory(m: Memory, root: int, x: int): (r: Memory)
    ensures |r| == |m|
  {
    if x == root then Wr(m, Rd(m, x) + 4, 0)
    else
      var m1 := Wr(m, Rd(m, x + 4), Rd(m, x));
      Wr(m1, Rd(m1, x) + 4, Rd(m1, x + 4))
  }

  /** The root after cut_out(x). */
  function CutRoot(m: Memory, root: int, x: int): int {
    if x == root then Rd(m, x) else root
  }

  /** The memory after set_root(x) with x != root. */
  function PushMemory(m: Memory, root: int, x: int): Memory {
    Wr(Wr(Wr(m, root + 4, x), x, root), x + 4, 0)
  }

  // ---------------------------------------------------------------- mm_realloc

  /** The n bytes at `dst` in m' are those at `src` in m. */
  ghost predicate Copied(m: Memory, m': Memory, src: int, dst: int, n: int) {
    0 <= n && 0 <= src && src + n <= |m| && 0 <= dst && dst + n <= |m'| && m'[dst..dst + n] == m[src..src + n]
  }

  /** Writing inside the payload of a block in use disturbs nothing else. */
  lemma PayloadWrite(m: Memory, m': Memory, h: Tiles, bot: int, top: int, ns: seq<int>, x: int)
    requires Stores(m, h, bot, top, ns) && x in h && h[x].alloc && x != bot
    requires |m'| == |m| && forall p :: 0 <= p < |m| && !(x <= p < Next(h, x) - 8) ==> m'[p] == m[p]
    ensures Stores(m', h, bot, top, ns) && Keeps(m, m', h, bot, top, x)
    ensures 0 <= ns[0] + 4 < |m| && m'[ns[0] + 4] == m[ns[0] + 4]
  {
    hide Distinct; hide Aligned; hide Spread;
    NodeFacts(m, h, bot, top, ns);
    forall a | a in h ensures TagsAt(m', h, a) {
      assert TagsAt(m, h, a);
      assert Apart(h, x, a);
    }
    forall y | y in ns ensures y + 4 < x || Next(h, x) <= y {
      assert Apart(h, x, y);
    }
    forall i | 0 <= i < |ns| - 1 ensures Linked(m', ns, i) {
      assert Linked(m, ns, i) && ns[i] in ns && ns[i + 1] in ns;
    }
    assert ns[0] in ns;
    forall a | a in h && h[a].alloc && a != bot && a != x ensures SameWords(m, m', a, Next(h, a) - 8) {
      assert Apart(h, x, a);
    }
  }

  lemma CopiedTwice(m: Memory, m1: Memory, m2: Memory, a: int, b: int, c: int, n: int, n1: int)
    requires Copied(m, m1, a, b, n) && Copied(m1, m2, b, c, n1) && n <= n1
    ensures Copied(m, m2, a, c, n)
  {
    assert m2[c..c + n] == m2[c..c + n1][..n] && m1[b..b + n] == m1[b..b + n1][..n];
  }

  lemma KeptIsCopied(m: Memory, m': Memory, h: Tiles, bot: int, top: int, ns: seq<int>, x: int, e: int)
    requires Stores(m, h, bot, top, ns) && Keeps(m, m', h, bot, top, e) && x in h && h[x].alloc && x != bot && x != e
    ensures Copied(m, m', x, x, h[x].size - 8)
  {
    hide ListSound; hide Aligned; hide Links; hide Disjoint;
    assert SameWords(m, m', x, Next(h, x) - 8);
  }

  /** The tag writes of a split spare the payload of the used part. */
  lemma SplitCopies(m: Memory, lo: int, hi: int, first: int)
    requires 4 <= lo && 16 <= first && first + 16 <= hi - lo && hi <= |m|
    ensures Copied(m, SplitMemory(m, lo, hi, first), lo, lo, first - 8)
  {
  }

  lemma SplitUsed(h: Tiles, lo: int, hi: int, first: int)
    requires 0 < first < hi - lo
    ensures lo in SplitTiles(h, lo, hi, first) && SplitTiles(h, lo, hi, first)[lo] == Block(first, true)
    ensures lo + first in SplitTiles(h, lo, hi, first)
  {
  }

  /** What mm_realloc reads around the live block `x` with lower neighbour `p`. */
  lemma ReallocReads(m: Memory, h: Tiles, bot: int, top: int, ns: seq<int>, x: int)
    requires Stores(m, h, bot, top, ns) && x in h && h[x].alloc && x != bot
    ensures Tiling(h, bot, top) && bot < x && 16 <= bot && h[bot].alloc
    ensures var p := Prev(h, bot, top, x);
            p in h && 4 <= p && p + 16 <= x && x + 16 <= Next(h, x) <= |m| &&
            SizeOf(m[x - 8]) == SizeOf(m[p - 4]) == h[p].size == x - p && SizeOf(m[x - 4]) == h[x].size &&
            AllocOf(m[x - 8]) == h[p].alloc && Lo(h, x) == (if h[p].alloc then x else p) &&
            (FreeBelow(h, x, Lo(h, x)) <==> !h[p].alloc)
    ensures var next := Next(h, x);
            AllocOf(m[next - 4]) == !Free(h, next) && 8 <= next + SizeOf(m[next - 4]) <= |m| &&
            (Free(h, next) ==> SizeOf(m[next + SizeOf(m[next - 4]) - 8]) == h[next].size && Next(h, next) <= top)
  {
    var p, next := Prev(h, bot, top, x), Next(h, x);
    BlockTags(m, h, bot, top, x);
    NextTag(m, h, bot, top, x);
    PrevTag(m, h, bot, top, x, p);
    BlockTags(m, h, bot, top, p);
    assert HasNext(h, x, top);
    if next in h {
      BlockTags(m, h, bot, top, next);
    }
  }

  lemma CopiedPrefix(m: Memory, m': Memory, src: int, dst: int, n: int, k: int)
    requires Copied(m, m', src, dst, n) && 0 <= k <= n
    ensures Copied(m, m', src, dst, k)
  {
    var u, v := m'[dst..dst + k], m[src..src + k];
    forall i | 0 <= i < k ensures u[i] == v[i] {
      assert u[i] == m'[dst..dst + n][i] && v[i] == m[src..src + n][i];
    }
    assert u == v;
  }

  lemma KeepsWeaker(m: Memory, m': Memory, h: Tiles, bot: int, top: int, ns: seq<int>, x: int)
    requires Stores(m, h, bot, top, ns) && Keeps(m, m', h, bot, top, 0)
    ensures Keeps(m, m', h, bot, top, x)
  {
  }

  /** m' is m after memmove(dst, src, n); what lies beyond the end of m may be anything. */
  ghost predicate Moved(m: Memory, m': Memory, dst: int, src: int, n: int) {
    && |m'| == |m|
    && (forall p :: 0 <= p < |m| && !(dst <= p < dst + n) ==> m'[p] == m[p])
    && (forall p :: 0 <= p < |m| && dst <= p < dst + n && 0 <= p - dst + src < |m| ==> m'[p] == m[p - dst + src])
  }

  lemma MovedFacts(m: Memory, m': Memory, dst: int, src: int, n: int, k: int, hi: int)
    requires Moved(m, m', dst, src, n) && 0 <= k <= n && 0 <= src && src + k <= |m| && 0 <= dst && dst + n + 4 <= hi <= |m|
    ensures Copied(m, m', src, dst, k) && OnlyWithin(m, m', dst, hi)
  {
  }

  /** The memory after the absorb-next path: cut_out(next), the tags of a split, set_root of the remainder. */
  ghost function AbsorbMemory(m: Memory, root: int, x: int, next: int, first: int, total: int): Memory {
    var m1 := CutMemory(m, root, next);
    if 4 <= x && 16 <= first && first + 16 <= total && x + total <= |m1|
      then PushMemory(SplitMemory(m1, x, x + total, first), CutRoot(m, root, next), x + first)
      else m
  }

  lemma OnlyWithinSame(m: Memory, lo: int, hi: int)
    ensures OnlyWithin(m, m, lo, hi)
  {
  }

  /** The split of the absorb-next path, after cut_out has led from m to m1. */
  lemma AbsorbNextStores(m: Memory, m1: Memory, h: Tiles, bot: int, top: int, ns: seq<int>, ns1: seq<int>, x: int, total: int, first: int)
    requires Stores(m, h, bot, top, ns) && Stores(m1, h, bot, top, ns1) && Keeps(m, m1, h, bot, top, 0)
    requires x in h && h[x].alloc && x != bot && Edge(h, top, x + total)
    requires 4 <= x && 16 <= first && first + 16 <= total && x + total <= |m1| && Mult8(first) && Mult8(total) && 16 <= h[x].size
    requires forall a :: a in h && h[a].alloc && x <= a < x + total ==> a == x
    requires forall y :: y in ns1 ==> y < x || x + total <= y
    ensures var m' := SplitMemory(m1, x, x + total, first);
            Stores(m', SplitTiles(h, x, x + total, first), bot, top, ns1) && Keeps(m, m', h, bot, top, x) &&
            Copied(m, m', x, x, Min(h[x].size, first) - 8) && |m'| == |m1| && SizeOf(m'[x - 4]) == first
  {
    hide Stores; hide Keeps; hide SizeOf; hide Mult8; hide SplitTiles; hide Copied; hide OnlyWithin;
    hide SplitMemory;
    var n, m' := Min(h[x].size, first) - 8, SplitMemory(m1, x, x + total, first);
    OnlyWithinSame(m1, x, x + total);
    RetagTwo(m1, m1, h, bot, top, ns1, x, x + total, first, x);
    SplitHeader(m1, x, x + total, first);
    KeptIsCopied(m, m1, h, bot, top, ns, x, 0);
    SplitCopies(m1, x, x + total, first);
    CopiedPrefix(m, m1, x, x, h[x].size - 8, n);
    CopiedTwice(m, m1, m', x, x, x, n, first - 8);
    KeepsWeaker(m, m1, h, bot, top, ns, x);
    KeepsTwice(m, m1, m', h, h, bot, top, top, x, x);
  }

  /** The two halves of the absorb-prev path, m to m1 to m2 and on to m', put together. */
  lemma AbsorbPrevEnd(m: Memory, m1: Memory, m2: Memory, m': Memory, h: Tiles, bot: int, top: int, x: int, p: int, n: int, n1: int)
    requires Keeps(m, m1, h, bot, top, x) && Keeps(m1, m', h, bot, top, x)
    requires Copied(m, m2, x, p, n) && Copied(m2, m', p, p, n1) && n <= n1
    ensures Keeps(m, m', h, bot, top, x) && Copied(m, m', x, p, n)
  {
    hide Keeps; hide Copied;
    KeepsTwice(m, m1, m', h, h, bot, top, top, x, x);
    CopiedTwice(m, m2, m', x, p, p, n, n1);
  }

  lemma OpenHole(h: Tiles, bot: int, top: int, list: seq<int>, x: int)
    requires Open(h, bot, top, list, x)
    ensures Free(h, x) && x !in list && x in h && 0 < |list| && x != list[0]
  {
    assert list[0] in list;
  }

  /** The remainder of a split that borders on a used block has nothing to merge with. */
  lemma OpenStretch(h: Tiles, bot: int, top: int, list: seq<int>, lo: int, hi: int, first: int)
    requires 16 <= first && first + 16 <= hi - lo && !Free(h, hi)
    requires Open(SplitTiles(h, lo, hi, first), bot, top, list, lo + first)
    ensures var h' := SplitTiles(h, lo, hi, first);
            lo + first in h' && Lo(h', lo + first) == lo + first && !Free(h', Next(h', lo + first)) &&
            MergeTiles(h', lo + first) == h' && MergeList(h', list, lo + first) == list
  {
    SplitStretch(h, bot, top, lo, hi, first);
    MergeNothing(SplitTiles(h, lo, hi, first), bot, top, list, lo + first);
  }

  lemma AbsorbNextEnd(m: Memory, m2: Memory, m': Memory, h: Tiles, h2: Tiles, bot: int, top: int, list: seq<int>, x: int, total: int, first: int)
    requires Keeps(m, m2, h, bot, top, x) && Keeps(m2, m', h2, bot, top, 0) && Stores(m2, h2, bot, top, list)
    requires h2 == SplitTiles(h, x, x + total, first) && 16 <= first && first + 16 <= total && x in h && 16 <= h[x].size && x != bot && 4 <= x
    requires forall a :: a in h && h[a].alloc && x <= a < x + total ==> a == x
    requires Copied(m, m2, x, x, Min(h[x].size, first) - 8)
    ensures Keeps(m, m', h, bot, top, x) && Copied(m, m', x, x, Min(h[x].size, first) - 8)
  {
    hide Stores; hide Keeps; hide Copied; hide SplitTiles; hide Tiling;
    StoresRange(m2, h2, bot, top, list);
    SplitUsed(h, x, x + total, first);
    SplitOthers(h, x, x + total, first, x);
    KeptIsCopied(m2, m', h2, bot, top, list, x, 0);
    CopiedTwice(m, m2, m', x, x, x, Min(h[x].size, first) - 8, first - 8);
    KeepsTwice(m, m2, m', h, h2, bot, top, top, x, 0);
  }

  /** Two blocks in use: a copy from one payload into the other is a plain forward copy. */
  lemma MoveReady(m: Memory, h: Tiles, bot: int, top: int, ns: seq<int>, x: int, y: int)
    requires Stores(m, h, bot, top, ns) && x in h && y in h && x != y
    ensures 16 <= x && 16 <= y && 16 <= h[x].size && 16 <= h[y].size && Next(h, x) <= |m| && Next(h, y) <= |m|
    ensures y <= x || Next(h, x) <= y
  {
    assert Apart(h, x, y);
  }

  lemma MoveWrites(m: Memory, m': Memory, h: Tiles, bot: int, top: int, ns: seq<int>, x: int, y: int, n: int)
    requires Stores(m, h, bot, top, ns) && x in h && y in h && h[y].alloc && y != bot
    requires Moved(m, m', y, x, n) && 0 <= n <= h[y].size - 8 && n <= h[x].size - 8
    ensures Stores(m', h, bot, top, ns) && Keeps(m, m', h, bot, top, y) && Copied(m, m', x, y, n)
    ensures 0 <= ns[0] + 4 < |m| && m'[ns[0] + 4] == m[ns[0] + 4]
  {
    StoresRange(m, h, bot, top, ns);
    assert 0 <= x && x + n <= |m|;
    hide Stores; hide Keeps;
    PayloadWrite(m, m', h, bot, top, ns, y);
  }

  /** malloc (m to m1), memcpy (m1 to m2) and free (m2 to m') together. */
  lemma MoveEnd(m: Memory, m1: Memory, m2: Memory, m': Memory, h: Tiles, h1: Tiles, bot: int, top: int, top1: int, ns: seq<int>, ns1: seq<int>, x: int, y: int, n: int)
    requires Stores(m, h, bot, top, ns) && Stores(m2, h1, bot, top1, ns1) && top <= top1
    requires Keeps(m, m1, h, bot, top1, 0) && Keeps(m1, m2, h1, bot, top1, y) && Keeps(m2, m', h1, bot, top1, x)
    requires x in h && h[x].alloc && x != bot && y in h1 && h1[y].alloc && y != bot && x != y
    requires forall a :: a in h && h[a].alloc && a != bot ==> a != y && a in h1 && h1[a] == h[a]
    requires 0 <= n <= h[x].size - 8 && n <= h1[y].size - 8 && Copied(m1, m2, x, y, n) && SameWords(m, m1, x, Next(h, x) - 8)
    ensures Keeps(m, m', h, bot, top1, x) && Copied(m, m', x, y, n)
  {
    hide Stores; hide Keeps; hide Copied;
    SameIsCopied(m, m1, h, bot, top, ns, x, n);
    KeptIsCopied(m2, m', h1, bot, top1, ns1, y, x);
    CopiedPrefix(m2, m', y, y, h1[y].size - 8, n);
    CopiedTwice(m, m1, m2, x, x, y, n, n);
    CopiedTwice(m, m2, m', x, y, y, n, n);
    KeepsWeaken2(m, m1, h, bot, top, top1, ns, x);
    KeepsTwice(m, m1, m2, h, h1, bot, top1, top1, x, y);
    KeepsTwice(m, m2, m', h, h1, bot, top1, top1, x, x);
  }

  lemma SameIsCopied(m: Memory, m': Memory, h: Tiles, bot: int, top: int, ns: seq<int>, x: int, n: int)
    requires Stores(m, h, bot, top, ns) && x in h && SameWords(m, m', x, Next(h, x) - 8) && 0 <= n <= h[x].size - 8
    ensures Copied(m, m', x, x, n)
  {
    StoresRange(m, h, bot, top, ns);
    hide Stores;
  }

  lemma KeepsWeaken2(m: Memory, m': Memory, h: Tiles, bot: int, top: int, top1: int, ns: seq<int>, x: int)
    requires Stores(m, h, bot, top, ns) && Keeps(m, m', h, bot, top1, 0)
    ensures Keeps(m, m', h, bot, top1, x)
  {
    StoresRange(m, h, bot, top, ns);
    hide Stores;
  }

  lemma KeepsAt(m: Memory, m': Memory, h: Tiles, bot: int, top: int, top1: int, ns: seq<int>, x: int)
    requires Stores(m, h, bot, top, ns) && Keeps(m, m', h, bot, top1, 0) && x in h && h[x].alloc && x != bot
    ensures SameWords(m, m', x, Next(h, x) - 8)
  {
    StoresRange(m, h, bot, top, ns);
    hide Stores;
  }

  /** Doing nothing keeps everything. */
  lemma KeptAll(m: Memory, h: Tiles, bot: int, top: int, ns: seq<int>, x: int)
    requires Stores(m, h, bot, top, ns) && x in h
    ensures Keeps(m, m, h, bot, top, x) && Copied(m, m, x, x, h[x].size - 8)
  {
    StoresRange(m, h, bot, top, ns);
    hide Stores;
  }
}
