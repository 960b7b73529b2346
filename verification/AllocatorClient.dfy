/** Whole runs: a client that allocates, reallocates, frees and writes, as the trace driver does.

    The client's blocks behave like an ideal store: a map from block numbers to contents in
    which every operation affects the one entry it names and nothing else.
 */
module AllocatorClient {
  import opened Numbers
  import opened HeapTiling
  import opened HeapMemory
  import opened Sequences
  import opened AllocatorSpec
  import opened AllocatorOps
  import opened AllocatorMemory
  import opened Allocator

  const MAX_REQUEST := 0xffff_ffe0

  /** One request of a trace; `id` names the block. */
  datatype Request =
    | Alloc(id: int, n: int)
    | Resize(id: int, n: int)
    | Release(id: int)
    | Store(id: int, k: int, v: int)

  /** Address and requested size of a block. */
  datatype Entry = Entry(ptr: int, n: int)

  type Contents = map<int, seq<int>>

  /** An ideal store answers the request `q` in state `s` with state `t`; it may refuse to find room. */
  ghost predicate IdealStep(q: Request, s: Contents, t: Contents, refused: bool) {
    match q
    case Alloc(id, n) =>
      if id in s || refused then t == s
      else 0 < n && id in t && |t[id]| == n && t == s[id := t[id]]
    case Resize(id, n) =>
      if id !in s || (0 < n && refused) then t == s
      else if n <= 0 then t == s - {id}
      else id in t && |t[id]| == n && t == s[id := t[id]] &&
           var k := Min(|s[id]|, n); t[id][..k] == s[id][..k]
    case Release(id) =>
      t == s - {id}
    case Store(id, k, v) =>
      if id in s && 0 <= k < |s[id]| then t == s[id := s[id][k := v]] else t == s
  }

  /** The allocator's heap, the client's table and the ideal contents at one moment. */
  datatype Moment = Moment(heap: Heap, table: map<int, Entry>, store: Contents)

  /** The heap is in order and every block of the table is live. */
  ghost predicate Sound(p: Moment) {
    HeapInv(p.heap) && forall id {:trigger p.table[id]} :: id in p.table ==> p.table[id].ptr in Live(p.heap.tiles, p.heap.bot)
  }

  // The last cases below do not arise in sound moments, and every moment of a run is sound.

  ghost function MallocAnswer(s: Heap, n: int, max: int): Outcome {
    if HeapInv(s) then AllocatorOps.Malloc(s, n, max) else Outcome(s, 0)
  }

  ghost function ReallocAnswer(s: Heap, x: int, n: int, max: int): Outcome {
    if HeapInv(s) && x in Live(s.tiles, s.bot) && 0 <= n then AllocatorOps.Realloc(s, x, n, max) else Outcome(s, 0)
  }

  /** What the allocator answers a request, and the heap it leaves. */
  ghost function Answer(q: Request, p: Moment, max: int): Outcome {
    match q
    case Alloc(id, n) => if id in p.table then Outcome(p.heap, 0) else MallocAnswer(p.heap, n, max)
    case Resize(id, n) =>
      if id in p.table then ReallocAnswer(p.heap, p.table[id].ptr, n, max) else Outcome(p.heap, 0)
    case Release(id) =>
      Outcome(if id in p.table && p.table[id].ptr in p.heap.tiles then FreeBlock(p.heap, p.table[id].ptr) else p.heap, 0)
    case Store(_, _, _) => Outcome(p.heap, 0)
  }

  ghost function NextTable(q: Request, table: map<int, Entry>, ptr: int): map<int, Entry> {
    match q
    case Alloc(id, n) => if ptr == 0 then table else table[id := Entry(ptr, n)]
    case Resize(id, n) => if 0 < n && ptr == 0 then table else if n <= 0 then table - {id} else table[id := Entry(ptr, n)]
    case Release(id) => table - {id}
    case Store(_, _, _) => table
  }

  /** One request: heap and table follow the allocator, and the contents those of an ideal store that refuses
      exactly when the allocator answers NULL. */
  ghost predicate StepsTo(q: Request, p: Moment, p': Moment, max: int) {
    && p'.heap == Answer(q, p, max).heap
    && p'.table == NextTable(q, p.table, Answer(q, p, max).ptr)
    && IdealStep(q, p.store, p'.store, Answer(q, p, max).ptr == 0)
  }

  /** `hist` is a run on the requests `qs` that starts with no blocks.  All its moments are sound, so a request is
      refused by the allocator or not at all. */
  ghost predicate IdealRun(qs: seq<Request>, hist: seq<Moment>, max: int) {
    && |hist| == |qs| + 1 && hist[0].store == map[] && hist[0].table == map[]
    && (forall i :: 0 <= i < |hist| ==> Sound(hist[i]))
    && (forall i {:trigger qs[i]} :: 0 <= i < |qs| ==> StepsTo(qs[i], hist[i], hist[i + 1], max))
  }

  lemma RunOnce(qs: seq<Request>, hist: seq<Moment>, q: Request, t: Moment, max: int)
    requires IdealRun(qs, hist, max) && StepsTo(q, hist[|qs|], t, max) && Sound(t)
    ensures IdealRun(qs + [q], hist + [t], max)
  {
    hide StepsTo; hide Sound;
    forall i | 0 <= i < |qs + [q]| ensures StepsTo((qs + [q])[i], (hist + [t])[i], (hist + [t])[i + 1], max) {
      if i < |qs| {
        assert (qs + [q])[i] == qs[i];
      }
    }
  }

  /** A block of the client: large enough, and holding what the ideal store says. */
  ghost predicate Holds(m: Memory, live: map<int, int>, e: Entry, c: seq<int>) {
    && e.ptr in live && 0 < e.n && e.n + 8 <= live[e.ptr] && |c| == e.n
    && 0 <= e.ptr && e.ptr + e.n <= |m| && m[e.ptr..e.ptr + e.n] == c
  }

  ghost predicate Consistent(m: Memory, live: map<int, int>, table: map<int, Entry>, store: Contents) {
    && table.Keys == store.Keys
    && (forall id {:trigger table[id]} :: id in table ==> Holds(m, live, table[id], store[id]))
    && (forall i, j :: i in table && j in table && i != j ==> table[i].ptr != table[j].ptr)
  }

  /** Live blocks lie in the heap, on 8-byte boundaries, and do not overlap. */
  lemma LiveBlocksApart(s: Heap, a: int, b: int)
    requires HeapInv(s) && a in Live(s.tiles, s.bot) && b in Live(s.tiles, s.bot)
    ensures a % 8 == 0 && s.bot < a && a + Live(s.tiles, s.bot)[a] <= s.top
    ensures a < b ==> a + Live(s.tiles, s.bot)[a] <= b
  {
    assert Apart(s.tiles, a, b) && Apart(s.tiles, s.bot, a);
    assert Mult8(a);
  }

  /** What the trace driver checks: payloads are aligned, inside the heap, as large as asked for and pairwise disjoint. */
  lemma PayloadsValid(s: Heap, m: Memory, table: map<int, Entry>, store: Contents, i: int, j: int)
    requires HeapInv(s) && Consistent(m, Live(s.tiles, s.bot), table, store)
    requires i in table && j in table && i != j
    ensures table[i].ptr % 8 == 0
    ensures s.bot < table[i].ptr && table[i].ptr + table[i].n <= s.top
    ensures table[i].ptr + table[i].n <= table[j].ptr || table[j].ptr + table[j].n <= table[i].ptr
  {
    hide HeapInv; hide Live;
    var a, b := table[i], table[j];
    assert Holds(m, Live(s.tiles, s.bot), a, store[i]) && Holds(m, Live(s.tiles, s.bot), b, store[j]);
    LiveBlocksApart(s, a.ptr, b.ptr);
    LiveBlocksApart(s, b.ptr, a.ptr);
  }

  /** A kept payload still holds its contents. */
  lemma StillHolds(m: Memory, m': Memory, h: Tiles, bot: int, top: int, x: int, live': map<int, int>, e: Entry, c: seq<int>)
    requires Keeps(m, m', h, bot, top, x) && Holds(m, Live(h, bot), e, c) && e.ptr != x
    requires e.ptr in live' && live'[e.ptr] == Live(h, bot)[e.ptr]
    ensures Holds(m', live', e, c)
  {
    assert SameWords(m, m', e.ptr, Next(h, e.ptr) - 8);
    assert m'[e.ptr..e.ptr + e.n] == m[e.ptr..e.ptr + e.n];
  }

  /** An operation that keeps all payloads but the one at x, and all live blocks but the one at x, keeps the other entries. */
  lemma OthersHold(m: Memory, m': Memory, h: Tiles, bot: int, top: int, x: int, live': map<int, int>, table: map<int, Entry>, store: Contents)
    requires Consistent(m, Live(h, bot), table, store) && Keeps(m, m', h, bot, top, x)
    requires forall a :: a in Live(h, bot) && a != x ==> a in live' && live'[a] == Live(h, bot)[a]
    ensures forall i {:trigger table[i]} :: i in table && table[i].ptr != x ==> Holds(m', live', table[i], store[i])
  {
    hide Keeps; hide Live;
    forall i | i in table && table[i].ptr != x ensures Holds(m', live', table[i], store[i]) {
      assert Holds(m, Live(h, bot), table[i], store[i]);
      StillHolds(m, m', h, bot, top, x, live', table[i], store[i]);
    }
  }

  lemma BlockLarge(n: int)
    requires 0 <= n
    ensures 0 < n ==> n + 8 <= BlockSize(n)
  {
  }

  lemma NullNotLive(s: Heap)
    requires HeapInv(s)
    ensures 0 !in Live(s.tiles, s.bot)
  {
  }

  lemma ConsistentKeys(m: Memory, live: map<int, int>, table: map<int, Entry>, store: Contents)
    requires Consistent(m, live, table, store)
    ensures table.Keys == store.Keys
    ensures forall i :: i in table ==> table[i].ptr in live
    ensures forall i, j :: i in table && j in table && i != j ==> table[i].ptr != table[j].ptr
  {
    forall i | i in table ensures table[i].ptr in live {
      assert Holds(m, live, table[i], store[i]);
    }
  }

  lemma ConsistentSound(m: Memory, p: Moment)
    requires HeapInv(p.heap) && Consistent(m, Live(p.heap.tiles, p.heap.bot), p.table, p.store)
    ensures Sound(p)
  {
    ConsistentKeys(m, Live(p.heap.tiles, p.heap.bot), p.table, p.store);
  }

  lemma LiveInMemory(m: Memory, h: Tiles, bot: int, top: int, ns: seq<int>, x: int)
    requires Stores(m, h, bot, top, ns) && x in Live(h, bot)
    ensures 16 <= x && x + Live(h, bot)[x] <= |m| && 0 !in Live(h, bot)
  {
  }

  /** Entering a block that is not in the table yet. */
  lemma Enter(m: Memory, live: map<int, int>, table: map<int, Entry>, store: Contents, id: int, e: Entry)
    requires table.Keys == store.Keys
    requires forall i {:trigger table[i]} :: i in table && i != id ==> Holds(m, live, table[i], store[i]) && table[i].ptr != e.ptr
    requires forall i, j :: i in table && j in table && i != j ==> table[i].ptr != table[j].ptr
    requires e.ptr in live && 0 < e.n && e.n + 8 <= live[e.ptr] && 0 <= e.ptr && e.ptr + e.n <= |m|
    ensures Consistent(m, live, table[id := e], store[id := m[e.ptr..e.ptr + e.n]])
  {
  }

  lemma Leave(m: Memory, live: map<int, int>, table: map<int, Entry>, store: Contents, id: int)
    requires table.Keys == store.Keys
    requires forall i {:trigger table[i]} :: i in table && i != id ==> Holds(m, live, table[i], store[i])
    requires forall i, j :: i in table && j in table && i != j ==> table[i].ptr != table[j].ptr
    ensures Consistent(m, live, table - {id}, store - {id})
  {
  }

  lemma EntryHolds(m: Memory, live: map<int, int>, table: map<int, Entry>, store: Contents, id: int)
    requires Consistent(m, live, table, store) && id in table
    ensures id in store && Holds(m, live, table[id], store[id])
  {
  }

  lemma StoredLength(m: Memory, live: map<int, int>, table: map<int, Entry>, store: Contents, id: int)
    requires Consistent(m, live, table, store) && id in table
    ensures id in store && |store[id]| == table[id].n
  {
    EntryHolds(m, live, table, store, id);
  }

  lemma LiveBlock(h: Tiles, bot: int, p: int)
    requires p in Live(h, bot)
    ensures p in h && h[p].alloc && p != bot && h[p].size == Live(h, bot)[p]
  {
  }

  /** A write to one word of a payload. */
  lemma WriteInside(m: Memory, m': Memory, h: Tiles, bot: int, top: int, ns: seq<int>, p: int, k: int, v: int)
    requires Stores(m, h, bot, top, ns) && p in h && h[p].alloc && p != bot && 0 <= k < h[p].size - 8
    requires 0 <= p + k < |m| && m' == m[p + k := v]
    ensures Stores(m', h, bot, top, ns) && Keeps(m, m', h, bot, top, p)
    ensures 0 <= ns[0] + 4 < |m| && m'[ns[0] + 4] == m[ns[0] + 4]
  {
    hide Stores; hide Keeps;
    PayloadWrite(m, m', h, bot, top, ns, p);
  }

  /** What realloc copied is the common prefix of old and new contents. */
  lemma ResizeKeeps(m: Memory, m': Memory, h: Tiles, bot: int, e: Entry, c: seq<int>, r: int, n: int)
    requires Holds(m, Live(h, bot), e, c) && 0 < n && n + 8 <= BlockSize(n)
    requires Copied(m, m', e.ptr, r, Min(h[e.ptr].size, BlockSize(n)) - 8) && 0 <= r && r + n <= |m'|
    ensures var k := Min(|c|, n); m'[r..r + n][..k] == c[..k]
  {
    hide BlockSize;
    var k := Min(|c|, n);
    CopiedPrefix(m, m', e.ptr, r, Min(h[e.ptr].size, BlockSize(n)) - 8, k);
    assert m'[r..r + n][..k] == m'[r..r + k];
    assert c[..k] == m[e.ptr..e.ptr + k];
  }

  lemma ResizeSteps(p: Moment, p': Moment, id: int, n: int, r: int, max: int)
    requires HeapInv(p.heap) && id in p.table && id in p.store && p.table[id].ptr in Live(p.heap.tiles, p.heap.bot) && 0 <= n
    requires Outcome(p'.heap, r) == AllocatorOps.Realloc(p.heap, p.table[id].ptr, n, max)
    requires p'.table == NextTable(Resize(id, n), p.table, r)
    requires IdealStep(Resize(id, n), p.store, p'.store, r == 0)
    ensures StepsTo(Resize(id, n), p, p', max)
  {
    hide HeapInv; hide Live; hide AllocatorOps.Realloc; hide IdealStep;
  }

  class Client {
    const mm: MemoryManager
    /** The driver's tables of block addresses and sizes. */
    var table: map<int, Entry>
    ghost var store: Contents

    ghost predicate Ok()
      reads this, mm, mm.mem
    {
      mm.Valid() && Consistent(mm.mem[..], Live(mm.tiles, mm.prolBp), table, store)
    }

    ghost function Now(): Moment
      reads this, mm
    {
      Moment(mm.View(), table, store)
    }

    constructor (mm: MemoryManager)
      requires mm.Valid()
      ensures this.mm == mm && Ok() && store == map[]
    {
      this.mm := mm;
      table := map[];
      store := map[];
    }

    method DoAlloc(id: int, n: int)
      requires Ok() && id !in table && 0 <= n <= MAX_REQUEST
      modifies this, mm, mm.mem
      ensures Ok() && StepsTo(Alloc(id, n), old(Now()), Now(), mm.maxAddr)
    {
      hide Keeps; hide Live; hide Consistent; hide AllocatorOps.Malloc; hide BlockSize; hide Stores; hide Inv;
      ghost var m, h, bot, s := mm.mem[..], mm.tiles, mm.prolBp, mm.View();
      ghost var live := Live(h, bot);
      MallocLive(s, n, mm.maxAddr);
      NullNotLive(s);
      BlockLarge(n);
      var r := mm.Malloc(n);
      if r != 0 {
        ghost var live' := Live(mm.tiles, bot);
        ConsistentKeys(m, live, table, store);
        OthersHold(m, mm.mem[..], h, bot, mm.brk, 0, live', table, store);
        LiveInMemory(mm.mem[..], mm.tiles, bot, mm.brk, mm.list, r);
        Enter(mm.mem[..], live', table, store, id, Entry(r, n));
        store := store[id := mm.mem[r..r + n]];
        table := table[id := Entry(r, n)];
      }
    }

    method DoRelease(id: int)
      requires Ok() && id in table
      modifies this, mm, mm.mem
      ensures Ok() && StepsTo(Release(id), old(Now()), Now(), mm.maxAddr)
    {
      hide Keeps; hide Live; hide Consistent; hide Stores; hide Inv; hide FreeBlock;
      hide Holds;
      ghost var m, h, bot, s := mm.mem[..], mm.tiles, mm.prolBp, mm.View();
      ghost var live := Live(h, bot);
      ConsistentKeys(m, live, table, store);
      NullNotLive(s);
      var ptr := table[id].ptr;
      LiveBlock(h, bot, ptr);
      LiveFree(s, ptr);
      mm.FreePtr(ptr);
      ghost var live' := Live(mm.tiles, bot);
      OthersHold(m, mm.mem[..], h, bot, mm.brk, ptr, live', table, store);
      Leave(mm.mem[..], live', table, store, id);
      store := store - {id};
      table := table - {id};
    }

    method DoResize(id: int, n: int)
      requires Ok() && id in table && 0 <= n <= MAX_REQUEST
      modifies this, mm, mm.mem
      ensures Ok() && StepsTo(Resize(id, n), old(Now()), Now(), mm.maxAddr)
    {
      hide Keeps; hide Live; hide Consistent; hide Stores; hide Inv; hide AllocatorOps.Realloc; hide BlockSize;
      hide Copied; hide StepsTo; hide Holds; hide AllocatorOps.Malloc; hide FreeBlock;
      ghost var p := Now();
      ghost var m, h, bot, s := mm.mem[..], mm.tiles, mm.prolBp, mm.View();
      ghost var live := Live(h, bot);
      ConsistentKeys(m, live, table, store);
      NullNotLive(s);
      var ptr := table[id].ptr;
      ReallocLive(s, ptr, n, mm.maxAddr);
      BlockLarge(n);
      var r := mm.Realloc(ptr, n);
      ghost var live' := Live(mm.tiles, bot);
      if n == 0 {
        OthersHold(m, mm.mem[..], h, bot, mm.brk, ptr, live', table, store);
        Leave(mm.mem[..], live', table, store, id);
        store := store - {id};
        table := table - {id};
      } else if r != 0 {
        OthersHold(m, mm.mem[..], h, bot, mm.brk, ptr, live', table, store);
        LiveInMemory(mm.mem[..], mm.tiles, bot, mm.brk, mm.list, r);
        Enter(mm.mem[..], live', table, store, id, Entry(r, n));
        EntryHolds(m, live, table, store, id);
        ResizeKeeps(m, mm.mem[..], h, bot, table[id], store[id], r, n);
        ghost var c := mm.mem[r..r + n];
        store := store[id := c];
        table := table[id := Entry(r, n)];
      }
      ResizeSteps(p, Now(), id, n, r, mm.maxAddr);
    }

    /** The client writes into a payload it owns. */
    method DoStore(id: int, k: int, v: int)
      requires Ok() && id in table && 0 <= k < table[id].n
      modifies this, mm.mem
      ensures Ok() && StepsTo(Store(id, k, v), old(Now()), Now(), mm.maxAddr)
    {
      hide Keeps; hide Live; hide Consistent; hide Stores; hide Inv;
      ghost var m, h, bot, s := mm.mem[..], mm.tiles, mm.prolBp, mm.View();
      ghost var live := Live(h, bot);
      ConsistentKeys(m, live, table, store);
      EntryHolds(m, live, table, store, id);
      var p := table[id].ptr;
      LiveBlock(h, bot, p);
      WriteInside(m, m[p + k := v], h, bot, mm.brk, mm.list, p, k, v);
      mm.mem[p + k] := v;
      OthersHold(m, mm.mem[..], h, bot, mm.brk, p, live, table, store);
      Enter(mm.mem[..], live, table, store, id, table[id]);
      store := store[id := store[id][k := v]];
      assert table[id := table[id]] == table;
    }

    /** One request; requests about blocks that do not exist (or exist already) are not passed on. */
    method Serve(q: Request)
      requires Ok() && (q.Alloc? || q.Resize? ==> 0 <= q.n <= MAX_REQUEST)
      modifies this, mm, mm.mem
      ensures Ok() && StepsTo(q, old(Now()), Now(), mm.maxAddr)
    {
      hide Consistent; hide Stores; hide Inv; hide Live; hide Holds;
      ConsistentKeys(mm.mem[..], Live(mm.tiles, mm.prolBp), table, store);
      match q
      case Alloc(id, n) =>
        if id !in table { DoAlloc(id, n); }
      case Resize(id, n) =>
        if id in table { DoResize(id, n); }
      case Release(id) =>
        if id in table { DoRelease(id); } else { assert store - {id} == store; }
      case Store(id, k, v) =>
        if id in table {
          StoredLength(mm.mem[..], Live(mm.tiles, mm.prolBp), table, store, id);
          if 0 <= k < table[id].n { DoStore(id, k, v); }
        }
    }

    /** Any trace of requests: the contents of all live blocks evolve as in an ideal store that refuses a
        request exactly when the abstract allocator does. */
    method Run(qs: seq<Request>) returns (ghost hist: seq<Moment>)
      requires Ok() && store == map[]
      requires forall q :: q in qs && (q.Alloc? || q.Resize?) ==> 0 <= q.n <= MAX_REQUEST
      modifies this, mm, mm.mem
      ensures Ok() && IdealRun(qs, hist, mm.maxAddr) && hist[0].heap == old(mm.View()) && Now() == hist[|qs|]
    {
      hide StepsTo; hide Live; hide Sound; hide Consistent; hide HeapInv;
      ConsistentKeys(mm.mem[..], Live(mm.tiles, mm.prolBp), table, store);
      ConsistentSound(mm.mem[..], Now());
      assert table == map[];
      hist := [Now()];
      for i := 0 to |qs|
        invariant Ok() && IdealRun(qs[..i], hist, mm.maxAddr) && hist[0].heap == old(mm.View()) && Now() == hist[i]
      {
        ghost var before := Now();
        assert qs[i] in qs;
        Serve(qs[i]);
        ConsistentSound(mm.mem[..], Now());
        RunOnce(qs[..i], hist, qs[i], Now(), mm.maxAddr);
        assert qs[..i + 1] == qs[..i] + [qs[i]];
        hist := hist + [Now()];
      }
      assert qs[..|qs|] == qs;
    }
  }
}
