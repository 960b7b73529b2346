/** The heap as a partition of an address range into blocks.

    A `Tiles` value maps the payload address of every block (the C variable `bp`) to
    its size and allocation bit.  `Tiling(h, lo, hi)` says that the blocks fill the range
    [lo, hi) exactly, without gaps or overlaps.
 */
module HeapTiling {
  import opened Numbers

  datatype Block = Block(size: int, alloc: bool)

  type Tiles = map<int, Block>

  /** The block at `a` ends at `hi` or where another block starts. */
  ghost predicate HasNext(h: Tiles, a: int, hi: int)
    requires a in h
  {
    a + h[a].size == hi || a + h[a].size in h
  }

  /** Of two different blocks one ends before the other starts. */
  ghost predicate Apart(h: Tiles, a: int, b: int)
    requires a in h && b in h
  {
    (a < b ==> a + h[a].size <= b) && (b < a ==> b + h[b].size <= a)
  }

  ghost predicate Disjoint(h: Tiles) {
    forall a, b {:trigger Apart(h, a, b)} :: a in h && b in h ==> Apart(h, a, b)
  }

  ghost predicate Tiling(h: Tiles, lo: int, hi: int) {
    && lo in h
    && (forall a :: a in h ==> lo <= a && 16 <= h[a].size && a + h[a].size <= hi)
    && (forall a {:trigger HasNext(h, a, hi)} :: a in h ==> HasNext(h, a, hi))
    && Disjoint(h)
  }

  lemma MultSub(x: int, y: int)
    requires Mult8(x) && Mult8(y)
    ensures Mult8(x - y)
  {
  }

  /** Every block starts on an 8-byte boundary and has a size that is a multiple of 8. */
  ghost predicate Aligned(h: Tiles) {
    forall a :: a in h ==> Mult8(a) && Mult8(h[a].size)
  }

  /** `e` is a place where a block starts or the range ends. */
  predicate Edge(h: Tiles, hi: int, e: int) {
    e == hi || e in h
  }

  function One(lo: int, size: int, alloc: bool): Tiles {
    map[lo := Block(size, alloc)]
  }

  /** A block split in two; the first part is in use, the remainder is free. */
  function Two(lo: int, first: int, rest: int): Tiles {
    map[lo := Block(first, true), lo + first := Block(rest, false)]
  }

  /** Throws away the blocks that start in [lo, hi) and puts `part` in their place. */
  function Replace(h: Tiles, lo: int, hi: int, part: Tiles): Tiles {
    (map a | a in h && (a < lo || hi <= a) :: h[a]) + part
  }

  lemma OneTiling(lo: int, size: int, alloc: bool)
    requires 16 <= size
    ensures Tiling(One(lo, size, alloc), lo, lo + size)
  {
  }

  lemma TwoTiling(lo: int, first: int, rest: int)
    requires 16 <= first && 16 <= rest
    ensures Tiling(Two(lo, first, rest), lo, lo + first + rest)
  {
    var t := Two(lo, first, rest);
    assert forall a :: a in t <==> a == lo || a == lo + first;
    assert HasNext(t, lo, lo + first + rest);
  }

  lemma TwoAligned(lo: int, first: int, rest: int)
    requires Mult8(lo) && Mult8(first) && Mult8(first + rest)
    ensures Aligned(Two(lo, first, rest))
  {
    hide Mult8;
    MultSub(first + rest, first);
    MultAdd(lo, first);
  }

  lemma MultAdd(x: int, y: int)
    requires Mult8(x) && Mult8(y)
    ensures Mult8(x + y)
  {
  }

  lemma AlignedReplace(h: Tiles, lo: int, hi: int, part: Tiles)
    requires Aligned(h) && Aligned(part)
    ensures Aligned(Replace(h, lo, hi, part))
  {
  }

  /** A block of `h` that does not start in a stretch bounded by block edges lies wholly on one side of it. */
  lemma Outside(h: Tiles, bot: int, top: int, lo: int, hi: int, a: int)
    requires Tiling(h, bot, top) && lo in h && Edge(h, top, hi) && lo < hi
    requires a in h && !(lo <= a < hi)
    ensures a + h[a].size <= lo || hi <= a
  {
    assert Apart(h, a, lo);
  }

  lemma ReplaceDisjoint(h: Tiles, bot: int, top: int, lo: int, hi: int, part: Tiles)
    requires Tiling(h, bot, top)
    requires lo in h && Edge(h, top, hi)
    requires Tiling(part, lo, hi)
    ensures Disjoint(Replace(h, lo, hi, part))
  {
    var h' := Replace(h, lo, hi, part);
    forall a, b | a in h' && b in h' ensures Apart(h', a, b) {
      if a in part && b in part {
        assert Apart(part, a, b);
      } else if a !in part && b !in part {
        assert Apart(h, a, b);
      } else if a in part {
        Outside(h, bot, top, lo, hi, b);
      } else {
        Outside(h, bot, top, lo, hi, a);
      }
    }
  }

  lemma ReplaceNext(h: Tiles, bot: int, top: int, lo: int, hi: int, part: Tiles, a: int)
    requires Tiling(h, bot, top)
    requires lo in h && Edge(h, top, hi)
    requires Tiling(part, lo, hi)
    requires a in Replace(h, lo, hi, part)
    ensures HasNext(Replace(h, lo, hi, part), a, top)
  {
    if a in part {
      assert HasNext(part, a, hi);
    } else {
      assert HasNext(h, a, top);
      Outside(h, bot, top, lo, hi, a);
    }
  }

  /** Exchanging one exactly tiled stretch for another leaves the whole exactly tiled. */
  lemma ReplaceTiling(h: Tiles, bot: int, top: int, lo: int, hi: int, part: Tiles)
    requires Tiling(h, bot, top)
    requires lo in h && Edge(h, top, hi)
    requires Tiling(part, lo, hi)
    ensures Tiling(Replace(h, lo, hi, part), bot, top)
  {
    var h' := Replace(h, lo, hi, part);
    forall a | a in h' ensures HasNext(h', a, top) {
      ReplaceNext(h, bot, top, lo, hi, part, a);
    }
    ReplaceDisjoint(h, bot, top, lo, hi, part);
  }

  /** Gluing a tiled stretch on at the end. */
  lemma AppendTiling(h: Tiles, bot: int, mid: int, top: int, part: Tiles)
    requires Tiling(h, bot, mid) && Tiling(part, mid, top)
    ensures Tiling(h + part, bot, top)
  {
    var h' := h + part;
    forall a | a in h' ensures HasNext(h', a, top) {
      if a in part {
        assert HasNext(part, a, top);
      } else {
        assert HasNext(h, a, mid);
      }
    }
    forall a, b | a in h' && b in h' ensures Apart(h', a, b) {
      if a in part && b in part {
        assert Apart(part, a, b);
      } else if a !in part && b !in part {
        assert Apart(h, a, b);
      }
    }
  }

  ghost predicate SameOutside(g: Tiles, h: Tiles, lo: int, hi: int) {
    forall a :: a < lo || hi <= a ==> (a in g <==> a in h) && (a in h ==> g[a] == h[a])
  }

  /** What was inside a replaced stretch does not matter. */
  lemma ReplaceSame(g: Tiles, h: Tiles, lo: int, hi: int, part: Tiles)
    requires SameOutside(g, h, lo, hi)
    ensures Replace(g, lo, hi, part) == Replace(h, lo, hi, part)
  {
  }

  /** Some block ends where the block at `a` starts: walking up from `p` must meet it. */
  lemma PrevExists(h: Tiles, bot: int, top: int, p: int, a: int)
    requires Tiling(h, bot, top) && p in h && Edge(h, top, a) && p < a
    ensures exists r :: r in h && r + h[r].size == a
    decreases a - p
  {
    assert HasNext(h, p, top);
    assert a in h ==> Apart(h, p, a);
    if p + h[p].size != a {
      PrevExists(h, bot, top, p + h[p].size, a);
    }
  }

  /** The block just below `a`. */
  ghost function Prev(h: Tiles, bot: int, top: int, a: int): (r: int)
    requires Tiling(h, bot, top) && Edge(h, top, a) && bot < a
    ensures r in h && r + h[r].size == a
  {
    PrevExists(h, bot, top, bot, a);
    var r :| r in h && r + h[r].size == a;
    r
  }

  /** No two neighbouring blocks are both free. */
  ghost predicate NextAllocated(h: Tiles, a: int)
    requires a in h
  {
    a + h[a].size in h ==> h[a + h[a].size].alloc
  }

  ghost predicate Coalesced(h: Tiles) {
    forall a {:trigger NextAllocated(h, a)} :: a in h && !h[a].alloc ==> NextAllocated(h, a)
  }

  /** The blocks from `a` on in address order, as a walk along the headers meets them. */
  ghost function Walk(h: Tiles, bot: int, top: int, a: int): seq<int>
    requires Tiling(h, bot, top) && Edge(h, top, a) && bot <= a
    decreases top - a
  {
    if a == top then [] else
      assert HasNext(h, a, top);
      [a] + Walk(h, bot, top, a + h[a].size)
  }

  /** The walk meets exactly the blocks from `a` on. */
  lemma {:induction false} WalkMeets(h: Tiles, bot: int, top: int, a: int, b: int)
    requires Tiling(h, bot, top) && Edge(h, top, a) && bot <= a
    ensures b in Walk(h, bot, top, a) <==> b in h && a <= b
    decreases top - a
  {
    if a != top {
      assert HasNext(h, a, top);
      WalkMeets(h, bot, top, a + h[a].size, b);
      assert b in h ==> Apart(h, a, b);
    } else if b in h {
      assert b + h[b].size <= top;
    }
  }

  ghost function SumSizes(h: Tiles, w: seq<int>): int
    requires forall i :: 0 <= i < |w| ==> w[i] in h
  {
    if w == [] then 0 else h[w[0]].size + SumSizes(h, w[1..])
  }

  /** Each block of the walk starts where the one before it ends. */
  ghost predicate Consecutive(h: Tiles, w: seq<int>) {
    && (forall i :: 0 <= i < |w| ==> w[i] in h)
    && (forall i :: 0 <= i < |w| - 1 ==> w[i + 1] == w[i] + h[w[i]].size)
  }

  /** The sizes met on the walk add up to the length of the range. */
  lemma {:induction false} WalkSum(h: Tiles, bot: int, top: int, a: int)
    requires Tiling(h, bot, top) && Edge(h, top, a) && bot <= a
    ensures Consecutive(h, Walk(h, bot, top, a))
    ensures SumSizes(h, Walk(h, bot, top, a)) == top - a
    decreases top - a
  {
    if a != top {
      assert HasNext(h, a, top);
      var rest := Walk(h, bot, top, a + h[a].size);
      WalkSum(h, bot, top, a + h[a].size);
      assert Walk(h, bot, top, a) == [a] + rest;
      assert ([a] + rest)[1..] == rest;
    }
  }
}
