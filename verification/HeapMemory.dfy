/** How the partition of the heap and the list of free blocks are stored in memory words.

    Memory is a sequence with one slot per byte address, of which only the slots at
    multiples of 4 are ever used: slot `p` is the 4-byte word at address `p`.
 */
module HeapMemory {
  import opened Numbers
  import opened HeapTiling
  import opened Sequences

  type Memory = seq<int>

  const WSIZE := 4
  const DSIZE := 8
  const CHUNKSIZE := 4096
  const MIN_BSIZE := 16

  /** PACK: the low three bits of a size are clear, so `|` is addition. */
  function Pack(size: int, alloc: bool): int {
    size + if alloc then 1 else 0
  }

  /** GET_SIZE: `w & ~7`. */
  function SizeOf(w: int): int {
    w - w % 8
  }

  /** GET_ALLOC: `w & 1`. */
  function AllocOf(w: int): bool {
    w % 2 == 1
  }

  lemma PackFields(size: int, alloc: bool)
    requires size % 8 == 0
    ensures SizeOf(Pack(size, alloc)) == size && AllocOf(Pack(size, alloc)) == alloc
  {
    var k := size / 8;
    assert size == 8 * k;
    if alloc {
      assert Pack(size, alloc) == 2 * (4 * k) + 1;
    } else {
      assert Pack(size, alloc) == 2 * (4 * k);
    }
  }

  /** size rounded up to an even number of words, in bytes */
  function EvenBytes(words: int): int {
    if words % 2 != 0 then (words + 1) * WSIZE else words * WSIZE
  }

  lemma EvenAligned(words: int)
    requires 4 <= words
    ensures Mult8(EvenBytes(words)) && 16 <= EvenBytes(words)
  {
  }

  /** A size_t argument passed where mem_sbrk expects an int. */
  function ToInt(size: int): int {
    if size < 0x8000_0000 then size else size - 0x1_0000_0000
  }

  /** Header and footer of the block at `a` both hold its size and allocation bit. */
  ghost predicate TagsAt(m: Memory, h: Tiles, a: int)
    requires a in h
  {
    && 4 <= a && 16 <= h[a].size && a + h[a].size <= |m|
    && m[a - 4] == Pack(h[a].size, h[a].alloc)
    && m[a + h[a].size - 8] == Pack(h[a].size, h[a].alloc)
  }

  /** All blocks are tagged and the epilogue header ends the heap. */
  ghost predicate Tags(m: Memory, h: Tiles, top: int) {
    && (forall a {:trigger TagsAt(m, h, a)} :: a in h ==> TagsAt(m, h, a))
    && 4 <= top <= |m| && m[top - 4] == Pack(0, true)
  }

  /** Nodes i and i+1 of the list point at each other. */
  ghost predicate Linked(m: Memory, ns: seq<int>, i: int)
    requires 0 <= i < |ns| - 1
  {
    && 0 <= ns[i] < |m| && 0 <= ns[i + 1] < |m| - 4
    && m[ns[i]] == ns[i + 1]
    && m[ns[i + 1] + 4] == ns[i]
  }

  ghost predicate Links(m: Memory, ns: seq<int>) {
    && (forall i {:trigger Linked(m, ns, i)} :: 0 <= i < |ns| - 1 ==> Linked(m, ns, i))
  }

  /** The two link words of different nodes never coincide. */
  ghost predicate Spread(ns: seq<int>) {
    forall i, j :: 0 <= i < j < |ns| ==> ns[i] + 8 <= ns[j] || ns[j] + 8 <= ns[i]
  }

  lemma SpreadDistinct(ns: seq<int>)
    requires Spread(ns)
    ensures Distinct(ns)
  {
  }

  /** Joining the neighbours of node k takes it out of the list. */
  lemma Unlink(m: Memory, ns: seq<int>, k: int)
    requires Links(m, ns) && Spread(ns) && 0 < k < |ns| - 1
    requires forall i :: 0 <= i < |ns| ==> 0 <= ns[i] < |m| - 4
    ensures Links(m[ns[k - 1] := ns[k + 1]][ns[k + 1] + 4 := ns[k - 1]], ns[..k] + ns[k + 1..])
  {
    var m' := m[ns[k - 1] := ns[k + 1]][ns[k + 1] + 4 := ns[k - 1]];
    var ns' := ns[..k] + ns[k + 1..];
    forall i | 0 <= i < |ns'| - 1 ensures Linked(m', ns', i) {
      if i < k - 1 {
        assert Linked(m, ns, i);
      } else if i >= k {
        assert Linked(m, ns, i + 1);
      }
    }
  }

  lemma UnlinkFirst(m: Memory, ns: seq<int>)
    requires Links(m, ns) && Spread(ns) && 2 <= |ns|
    requires forall i :: 0 <= i < |ns| ==> 0 <= ns[i] < |m| - 4
    ensures Links(m[ns[1] + 4 := 0], ns[1..])
  {
    var m', ns' := m[ns[1] + 4 := 0], ns[1..];
    forall i | 0 <= i < |ns'| - 1 ensures Linked(m', ns', i) {
      assert Linked(m, ns, i + 1);
    }
  }

  /** Pointing `x` and the old first node at each other puts `x` in front. */
  lemma Push(m: Memory, ns: seq<int>, x: int)
    requires Links(m, ns) && |ns| > 0 && Spread([x] + ns)
    requires forall i :: 0 <= i < |ns| ==> 0 <= ns[i] < |m| - 4
    requires 0 <= x < |m| - 4
    ensures Links(m[ns[0] + 4 := x][x := ns[0]][x + 4 := 0], [x] + ns)
  {
    var m' := m[ns[0] + 4 := x][x := ns[0]][x + 4 := 0];
    var ns' := [x] + ns;
    forall i | 0 <= i < |ns'| - 1 ensures Linked(m', ns', i) {
      assert ns'[0] == x && ns'[i + 1] == ns[i];
      assert x + 8 <= ns'[i + 1] || ns'[i + 1] + 8 <= x;
      if i > 0 {
        assert ns'[i] == ns[i - 1] && Linked(m, ns, i - 1);
        assert x + 8 <= ns'[i] || ns'[i] + 8 <= x;
        assert ns'[1] + 8 <= ns'[i + 1] || ns'[i + 1] + 8 <= ns'[1];
      }
    }
  }
}
