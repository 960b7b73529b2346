/** The tracer's list against the blocks libc itself has handed out. */
module LibcBlocks {
  import opened MemList
  import opened MemTrace

  /** The blocks libc has handed out and not got back, with their sizes. */
  type Blocks = map<int, int>

  function Grant(heap: Blocks, size: int, res: int): Blocks {
    if res != 0 then heap[res := size] else heap
  }

  /** What libc does on the call that the wrapper passes on: nothing for a bad free, a fresh block for a
      realloc of a bad address; a realloc to no bytes frees, and another one that answers NULL keeps the block. */
  function LibcDo(heap: Blocks, es: seq<Entry>, c: Call): Blocks {
    match c
    case Malloc(size, res) => Grant(heap, size, res)
    case Calloc(nmemb, size, res) => Grant(heap, Product(nmemb, size), res)
    case Realloc(ptr, size, res) =>
      if ptr == 0 || !IsLive(es, ptr) then Grant(heap, size, res)
      else if size == 0 then Grant(heap - {ptr}, 0, res)
      else if res == 0 then heap
      else (heap - {ptr})[res := size]
    case Free(ptr) => if ptr != 0 && IsLive(es, ptr) then heap - {ptr} else heap
  }

  /** What libc promises, about its own blocks: the answer is NULL, or an address it has not handed out, or,
      for a realloc that reaches it with an address, that address. */
  predicate HonestLibc(heap: Blocks, es: seq<Entry>, c: Call) {
    match c
    case Malloc(size, res) => size >= 0 && (res == 0 || res !in heap)
    case Calloc(_, _, res) => res == 0 || res !in heap
    case Realloc(ptr, size, res) =>
      size >= 0 && (res == 0 || res !in heap || (res == ptr && IsLive(es, ptr)))
    case Free(_) => true
  }

  lemma SizeIsNat(heap: Blocks, t: Trace, c: Call)
    requires HonestLibc(heap, t.es, c)
    ensures c.Realloc? ==> c.newSize >= 0
  {
  }

  /** The calls after which libc has a block the list knows nothing of: a growing realloc that fails, and a
      realloc to no bytes of NULL or of a live block that is answered with an address. */
  predicate Leaks(es: seq<Entry>, c: Call) {
    && c.Realloc?
    && (if c.newSize == 0 then (c.ptr == 0 || IsLive(es, c.ptr)) && c.res != 0
        else c.ptr != 0 && IsLive(es, c.ptr) && c.newSize > SizeOf(es, c.ptr) && c.res == 0)
  }

  /** A realloc to no more than the listed size that moves the block: the list goes on showing the old address.
      It happens to a block that was shrunk before, whose listed size is more than libc has kept. */
  predicate Moves(es: seq<Entry>, c: Call) {
    && c.Realloc? && c.ptr != 0 && IsLive(es, c.ptr)
    && 0 < c.newSize <= SizeOf(es, c.ptr) && c.res != 0 && c.res != c.ptr
  }

  predicate Loses(es: seq<Entry>, c: Call) {
    Leaks(es, c) || Moves(es, c)
  }

  ghost predicate HonestAlong(t: Trace, heap: Blocks, calls: seq<Call>)
    decreases |calls|
  {
    calls == [] ||
    (HonestLibc(heap, t.es, calls[0]) && HonestAlong(Do(t, calls[0]), LibcDo(heap, t.es, calls[0]), calls[1..]))
  }

  function LibcRun(t: Trace, heap: Blocks, calls: seq<Call>): Blocks
    decreases |calls|
  {
    if calls == [] then heap else LibcRun(Do(t, calls[0]), LibcDo(heap, t.es, calls[0]), calls[1..])
  }

  ghost predicate NothingMoved(t: Trace, calls: seq<Call>)
    decreases |calls|
  {
    calls == [] || (!Moves(t.es, calls[0]) && NothingMoved(Do(t, calls[0]), calls[1..]))
  }

  ghost predicate NothingLost(t: Trace, calls: seq<Call>)
    decreases |calls|
  {
    calls == [] || (!Loses(t.es, calls[0]) && NothingLost(Do(t, calls[0]), calls[1..]))
  }

  /** Every block the list has as live is one of libc's, and no larger there than the list says. */
  ghost predicate Within(es: seq<Entry>, heap: Blocks) {
    0 !in heap && forall p {:trigger IsLive(es, p)} :: IsLive(es, p) ==> p in heap && heap[p] <= SizeOf(es, p)
  }

  /** libc's blocks are those the list has as live. */
  ghost predicate Agree(es: seq<Entry>, heap: Blocks) {
    forall p {:trigger IsLive(es, p)} :: p in heap ==> IsLive(es, p)
  }

  /** What adding a block does to the live blocks. */
  lemma AllocBlocks(es: seq<Entry>, ptr: int, size: int)
    requires Sorted(es) && ZeroOrOne(es) && !IsLive(es, ptr)
    ensures IsLive(Alloc(es, ptr, size), ptr) && SizeOf(Alloc(es, ptr, size), ptr) == size
    ensures forall p {:trigger IsLive(Alloc(es, ptr, size), p)} :: p != ptr ==>
              IsLive(Alloc(es, ptr, size), p) == IsLive(es, p) &&
              (IsLive(es, p) ==> SizeOf(Alloc(es, ptr, size), p) == SizeOf(es, p))
  {
    AllocHas(es, ptr, size);
    forall p | p != ptr
      ensures IsLive(Alloc(es, ptr, size), p) == IsLive(es, p)
      ensures IsLive(es, p) ==> SizeOf(Alloc(es, ptr, size), p) == SizeOf(es, p)
    {
      AllocOther(es, ptr, size, p);
    }
  }

  lemma AllocOther(es: seq<Entry>, ptr: int, size: int, p: int)
    requires Sorted(es) && p != ptr
    ensures IsLive(Alloc(es, ptr, size), p) == IsLive(es, p)
    ensures IsLive(es, p) ==> SizeOf(Alloc(es, ptr, size), p) == SizeOf(es, p)
  {
    hide Place; hide Sorted;
    PlaceOrder(es, ptr, p);
    if Has(es, ptr) {
      SamePlace(es, Place(es, ptr), Entry(ptr, size, es[Place(es, ptr)].cnt + 1), p);
    } else {
      InsertPlace(es, Place(es, ptr), Entry(ptr, size, 1), p);
    }
  }

  /** Where a search ends after an entry has been put in at its place. */
  lemma InsertPlace(es: seq<Entry>, k: nat, e: Entry, p: int)
    requires Sorted(es) && k == Place(es, e.ptr) && !Has(es, e.ptr) && p != e.ptr
    ensures Place(es[..k] + [e] + es[k..], p) == Place(es, p) + if p < e.ptr then 0 else 1
  {
    PlaceOrder(es, e.ptr, p);
    PlaceIs(es[..k] + [e] + es[k..], p, Place(es, p) + if p < e.ptr then 0 else 1);
  }

  lemma PlaceOrder(es: seq<Entry>, a: int, b: int)
    requires Sorted(es)
    ensures a < b ==> Place(es, a) <= Place(es, b)
    ensures a < b && Has(es, a) ==> Place(es, a) < Place(es, b)
    ensures b < a ==> Place(es, b) <= Place(es, a)
  {
  }

  /** A block is granted that libc had not handed out. */
  lemma GrantKeeps(t: Trace, heap: Blocks, size: int, res: int)
    requires Inv(t) && Within(t.es, heap) && (res == 0 || res !in heap)
    ensures Within(Gain(t, size, res).es, Grant(heap, size, res))
    ensures Agree(Gain(t, size, res).es, Grant(heap, size, res)) <==> Agree(t.es, heap)
  {
    if res != 0 {
      AllocBlocks(t.es, res, size);
      hide IsLive; hide Alloc; hide SizeOf;
      assert Agree(t.es, heap) ==> Agree(Alloc(t.es, res, size), heap[res := size]);
      assert forall p :: p in heap ==> IsLive(Alloc(t.es, res, size), p) == IsLive(t.es, p);
    }
  }

  lemma FreedBlocks(es: seq<Entry>, ptr: int)
    requires Sorted(es) && ZeroOrOne(es) && IsLive(es, ptr)
    ensures !IsLive(Dealloc(es, ptr), ptr)
    ensures forall p {:trigger IsLive(Dealloc(es, ptr), p)} :: p != ptr ==>
              IsLive(Dealloc(es, ptr), p) == IsLive(es, p) &&
              (IsLive(es, p) ==> SizeOf(Dealloc(es, ptr), p) == SizeOf(es, p))
  {
    DeallocLive(es, ptr);
    forall p | p != ptr && IsLive(es, p)
      ensures IsLive(Dealloc(es, ptr), p) && SizeOf(Dealloc(es, ptr), p) == SizeOf(es, p)
    {
      SamePlace(es, Place(es, ptr), es[Place(es, ptr)].(cnt := es[Place(es, ptr)].cnt - 1), p);
    }
  }

  /** A live block goes back to libc. */
  lemma GiveBack(t: Trace, heap: Blocks, ptr: int)
    requires Inv(t) && Within(t.es, heap) && IsLive(t.es, ptr)
    ensures Within(Lose(t, ptr).es, heap - {ptr}) && Within(Lose(t, ptr).es, heap)
    ensures Agree(Lose(t, ptr).es, heap - {ptr}) <==> Agree(t.es, heap)
    ensures !Agree(Lose(t, ptr).es, heap)
  {
    FreedBlocks(t.es, ptr);
    assert ptr in heap;
    assert forall p :: p in heap && p != ptr ==> IsLive(Dealloc(t.es, ptr), p) == IsLive(t.es, p);
  }

  lemma Shrunk(t: Trace, heap: Blocks, ptr: int, size: int)
    requires Within(t.es, heap) && IsLive(t.es, ptr) && size <= SizeOf(t.es, ptr)
    ensures Within(t.es, (heap - {ptr})[ptr := size])
    ensures Agree(t.es, (heap - {ptr})[ptr := size]) <==> Agree(t.es, heap)
  {
    assert ptr in heap;
  }

  /** A growing realloc: the new block may be where the old one was. */
  lemma Grown(t: Trace, heap: Blocks, ptr: int, size: int, res: int)
    requires Inv(t) && Within(t.es, heap) && IsLive(t.es, ptr) && res != 0 && (res !in heap || res == ptr)
    ensures Has(t.es, ptr)
    ensures Within(Gain(Lose(t, ptr), size, res).es, (heap - {ptr})[res := size])
    ensures Agree(Gain(Lose(t, ptr), size, res).es, (heap - {ptr})[res := size]) <==> Agree(t.es, heap)
  {
    hide IsLive; hide Inv; hide Within; hide Agree; hide Gain; hide Lose; hide Has;
    LiveIsListed(t.es, ptr);
    LoseKeeps(t, ptr);
    GiveBack(t, heap, ptr);
    GrantKeeps(Lose(t, ptr), heap - {ptr}, size, res);
  }

  lemma HonestIsOk(t: Trace, heap: Blocks, c: Call)
    requires Within(t.es, heap) && HonestLibc(heap, t.es, c)
    ensures LibcOk(t, c) && 0 !in heap && !IsLive(t.es, 0)
  {
  }

  lemma ZeroBytes(es: seq<Entry>, heap: Blocks, res: int)
    requires Within(es, heap) && (res == 0 || res !in heap)
    ensures Within(es, Grant(heap, 0, res))
    ensures Agree(es, Grant(heap, 0, res)) <==> Agree(es, heap) && res == 0
  {
    if res != 0 {
      assert !IsLive(es, res);
      assert res in Grant(heap, 0, res);
    }
  }

  lemma ReallocAgrees(t: Trace, heap: Blocks, ptr: int, size: int, res: int)
    requires Inv(t) && Within(t.es, heap) && HonestLibc(heap, t.es, Realloc(ptr, size, res)) && !IsLive(t.es, 0)
    requires !Moves(t.es, Realloc(ptr, size, res))
    ensures var c := Realloc(ptr, size, res);
      && Within(Do(t, c).es, LibcDo(heap, t.es, c))
      && (Agree(Do(t, c).es, LibcDo(heap, t.es, c)) <==> Agree(t.es, heap) && !Leaks(t.es, c))
  {
    hide IsLive; hide Inv; hide Within; hide Agree; hide Gain; hide Lose; hide Has; hide Place; hide Grant;
    if ptr == 0 && size == 0 {
      ZeroBytes(t.es, heap, res);
    } else if ptr == 0 || !IsLive(t.es, ptr) {
      GrantKeeps(t, heap, size, res);
    } else {
      LiveIsListed(t.es, ptr);
      GiveBack(t, heap, ptr);
      if size == 0 {
        ZeroBytes(Lose(t, ptr).es, heap - {ptr}, res);
      } else if size <= SizeOf(t.es, ptr) {
        Shrunk(t, heap, ptr, size);
      } else if res != 0 {
        Grown(t, heap, ptr, size, res);
      } else {
        GainNull(Lose(t, ptr), size);
      }
    }
  }

  lemma GainNull(t: Trace, size: int)
    ensures Gain(t, size, 0).es == t.es
  {
  }

  /** A step that moves nothing keeps the list's live blocks among libc's. */
  lemma StepAgrees(t: Trace, heap: Blocks, c: Call)
    requires Inv(t) && Within(t.es, heap) && HonestLibc(heap, t.es, c) && !Moves(t.es, c)
    ensures LibcOk(t, c) && Within(Do(t, c).es, LibcDo(heap, t.es, c))
    ensures Agree(Do(t, c).es, LibcDo(heap, t.es, c)) <==> Agree(t.es, heap) && !Leaks(t.es, c)
  {
    hide IsLive; hide Inv; hide Within; hide Agree; hide Gain; hide Lose; hide Has; hide Place; hide Grant; hide LibcOk;
    HonestIsOk(t, heap, c);
    match c {
      case Malloc(size, res) => GrantKeeps(t, heap, size, res);
      case Calloc(nmemb, size, res) => GrantKeeps(t, heap, Product(nmemb, size), res);
      case Realloc(ptr, size, res) => ReallocAgrees(t, heap, ptr, size, res);
      case Free(ptr) =>
        if ptr != 0 && IsLive(t.es, ptr) {
          LiveIsListed(t.es, ptr);
          GiveBack(t, heap, ptr);
        }
    }
  }

  /** A block of libc's that the list does not have as live. */
  predicate Stray(es: seq<Entry>, heap: Blocks, p: int) {
    p in heap && !IsLive(es, p)
  }

  /** A step that moves a block leaves libc the new address, unlisted, and the list the old one. */
  lemma MoveStrays(t: Trace, heap: Blocks, c: Call)
    requires Within(t.es, heap) && HonestLibc(heap, t.es, c) && Moves(t.es, c)
    ensures LibcOk(t, c) && Do(t, c) == t && Stray(t.es, LibcDo(heap, t.es, c), c.res)
    ensures IsLive(t.es, c.ptr) && c.ptr !in LibcDo(heap, t.es, c)
  {
  }

  lemma GainStray(t: Trace, heap: Blocks, size: int, res: int, p: int)
    requires Sorted(t.es) && Stray(t.es, heap, p) && res != p
    ensures Sorted(Gain(t, size, res).es) && Stray(Gain(t, size, res).es, Grant(heap, size, res), p)
  {
    if res != 0 {
      AllocSorted(t.es, res, size);
      AllocOther(t.es, res, size, p);
    }
  }

  lemma LoseStray(t: Trace, heap: Blocks, ptr: int, p: int)
    requires Sorted(t.es) && Has(t.es, ptr) && Stray(t.es, heap, p) && ptr != p
    ensures Sorted(Lose(t, ptr).es) && Stray(Lose(t, ptr).es, heap - {ptr}, p)
  {
    SamePlace(t.es, Place(t.es, ptr), t.es[Place(t.es, ptr)].(cnt := t.es[Place(t.es, ptr)].cnt - 1), p);
  }

  /** Whatever comes after, a stray block stays one: libc does not hand it out again, and the wrappers do not
      pass it on. */
  lemma StrayStays(t: Trace, heap: Blocks, c: Call, p: int)
    requires Sorted(t.es) && Stray(t.es, heap, p) && p != 0 && HonestLibc(heap, t.es, c)
    ensures Sorted(Do(t, c).es) && Stray(Do(t, c).es, LibcDo(heap, t.es, c), p)
  {
    assert p in heap && !IsLive(t.es, p);
    hide IsLive; hide Gain; hide Lose; hide Has; hide Place; hide Sorted;
    match c {
      case Malloc(size, res) => GainStray(t, heap, size, res, p);
      case Calloc(nmemb, size, res) => GainStray(t, heap, Product(nmemb, size), res, p);
      case Free(ptr) =>
        if ptr != 0 && IsLive(t.es, ptr) {
          LiveIsListed(t.es, ptr);
          LoseStray(t, heap, ptr, p);
        }
      case Realloc(ptr, size, res) =>
        if ptr == 0 || !IsLive(t.es, ptr) {
          GainStray(t, heap, size, res, p);
        } else {
          LiveIsListed(t.es, ptr);
          LoseStray(t, heap, ptr, p);
          GainStray(Lose(t, ptr), heap - {ptr}, size, res, p);
        }
    }
  }

  lemma {:induction false} StrayForever(t: Trace, heap: Blocks, calls: seq<Call>, p: int)
    requires Sorted(t.es) && Stray(t.es, heap, p) && p != 0 && HonestAlong(t, heap, calls)
    ensures Stray(Run(t, calls).es, LibcRun(t, heap, calls), p)
    decreases |calls|
  {
    hide Do; hide LibcDo; hide HonestLibc; hide Sorted; hide Stray;
    if calls != [] {
      StrayStays(t, heap, calls[0], p);
      StrayForever(Do(t, calls[0]), LibcDo(heap, t.es, calls[0]), calls[1..], p);
    }
  }

  lemma SomeStray(es: seq<Entry>, heap: Blocks) returns (p: int)
    requires Within(es, heap) && !Agree(es, heap)
    ensures Stray(es, heap, p) && p != 0
  {
    p :| p in heap && !IsLive(es, p);
  }

  lemma StrayDisagrees(es: seq<Entry>, heap: Blocks, p: int)
    requires Stray(es, heap, p)
    ensures !SameBlocks(es, heap)
  {
    assert p in heap <==> !IsLive(es, p);
  }

  ghost predicate SameBlocks(es: seq<Entry>, heap: Blocks) {
    forall p {:trigger IsLive(es, p)} :: p in heap <==> IsLive(es, p)
  }

  lemma InvSorted(t: Trace)
    requires Inv(t)
    ensures Sorted(t.es)
  {
  }

  /** The step after which libc has a stray block. */
  lemma LossStrays(t: Trace, heap: Blocks, c: Call) returns (p: int)
    requires Inv(t) && Within(t.es, heap) && HonestLibc(heap, t.es, c) && Loses(t.es, c)
    ensures Sorted(Do(t, c).es) && Stray(Do(t, c).es, LibcDo(heap, t.es, c), p) && p != 0
  {
    hide Do; hide LibcDo; hide Inv; hide Within; hide Agree; hide LibcOk; hide Sorted; hide Leaks; hide Stray;
    if Moves(t.es, c) {
      MoveStrays(t, heap, c);
      InvSorted(t);
      p := c.res;
    } else {
      StepAgrees(t, heap, c);
      DoKeeps(t, c);
      InvSorted(Do(t, c));
      p := SomeStray(Do(t, c).es, LibcDo(heap, t.es, c));
    }
  }

  lemma {:induction false} RunAgrees(t: Trace, heap: Blocks, calls: seq<Call>)
    requires Inv(t) && Within(t.es, heap) && Agree(t.es, heap) && HonestAlong(t, heap, calls)
    ensures SameBlocks(Run(t, calls).es, LibcRun(t, heap, calls)) <==> NothingLost(t, calls)
    decreases |calls|
  {
    hide Do; hide LibcDo; hide Inv; hide HonestLibc; hide LibcOk; hide Leaks; hide Moves; hide Sorted; hide IsLive;
    if calls != [] {
      var t', heap' := Do(t, calls[0]), LibcDo(heap, t.es, calls[0]);
      if Loses(t.es, calls[0]) {
        var p := LossStrays(t, heap, calls[0]);
        StrayForever(t', heap', calls[1..], p);
        StrayDisagrees(Run(t, calls).es, LibcRun(t, heap, calls), p);
      } else {
        StepAgrees(t, heap, calls[0]);
        DoKeeps(t, calls[0]);
        RunAgrees(t', heap', calls[1..]);
      }
    }
  }

  /** As long as nothing is moved the list's live blocks are libc's, and libc answers as the list needs. */
  lemma {:induction false} RunWithin(t: Trace, heap: Blocks, calls: seq<Call>)
    requires Inv(t) && Within(t.es, heap) && HonestAlong(t, heap, calls) && NothingMoved(t, calls)
    ensures LibcOkAlong(t, calls) && Within(Run(t, calls).es, LibcRun(t, heap, calls))
    decreases |calls|
  {
    hide Do; hide LibcDo; hide Inv; hide Within; hide Agree; hide HonestLibc; hide LibcOk; hide Leaks; hide Moves;
    if calls != [] {
      StepAgrees(t, heap, calls[0]);
      DoKeeps(t, calls[0]);
      RunWithin(Do(t, calls[0]), LibcDo(heap, t.es, calls[0]), calls[1..]);
    }
  }

  /** After any run the blocks the list has as live are libc's blocks exactly if no call has leaked or moved one;
      and if none was moved, each of them is one of libc's and no larger there than listed. */
  lemma LiveIsReal(calls: seq<Call>)
    requires HonestAlong(START, map[], calls)
    ensures var es, heap := Run(START, calls).es, LibcRun(START, map[], calls);
      && ((forall p :: p in heap <==> IsLive(es, p)) <==> NothingLost(START, calls))
      && (NothingMoved(START, calls) ==> forall p :: IsLive(es, p) ==> p in heap && heap[p] <= SizeOf(es, p))
  {
    assert Inv(START) && Within([], map[]) && Agree([], map[]);
    RunAgrees(START, map[], calls);
    if NothingMoved(START, calls) {
      RunWithin(START, map[], calls);
    }
  }

  /** An honest libc answers as the list needs exactly unless it hands out an address which it has got back, or
      has never handed out, but which the list has as live. */
  predicate Reuses(heap: Blocks, t: Trace, c: Call) {
    match c
    case Malloc(_, res) => IsLive(t.es, res) && res != 0 && res !in heap
    case Calloc(_, _, res) => IsLive(t.es, res) && res != 0 && res !in heap
    case Realloc(ptr, size, res) =>
      && IsLive(t.es, res) && res != 0 && res !in heap
      && (if ptr == 0 || !IsLive(t.es, ptr) then ptr != 0 || size != 0 else size > SizeOf(t.es, ptr) && size != 0 && res != ptr)
    case Free(_) => false
  }

  ghost predicate NothingReused(t: Trace, heap: Blocks, calls: seq<Call>)
    decreases |calls|
  {
    calls == [] ||
    (!Reuses(heap, t, calls[0]) && NothingReused(Do(t, calls[0]), LibcDo(heap, t.es, calls[0]), calls[1..]))
  }

  lemma HonestAnswers(t: Trace, heap: Blocks, c: Call)
    requires HonestLibc(heap, t.es, c)
    ensures LibcOk(t, c) <==> !Reuses(heap, t, c)
  {
    hide IsLive; hide SizeOf;
    if c.Realloc? && IsLive(t.es, c.ptr) {
      LiveIsListed(t.es, c.ptr);
    }
  }

  lemma {:induction false} HonestAnswersAlong(t: Trace, heap: Blocks, calls: seq<Call>)
    requires HonestAlong(t, heap, calls)
    ensures LibcOkAlong(t, calls) <==> NothingReused(t, heap, calls)
    decreases |calls|
  {
    hide Do; hide LibcDo; hide HonestLibc; hide LibcOk; hide Reuses;
    if calls != [] {
      HonestAnswers(t, heap, calls[0]);
      HonestAnswersAlong(Do(t, calls[0]), LibcDo(heap, t.es, calls[0]), calls[1..]);
    }
  }

  /** With an honest libc, as long as it reuses no address the list has as live - and it cannot unless it has
      moved a block - every block is listed once with count 0 or 1, and allocated minus freed bytes is the size
      of the listed live blocks exactly if no request for bytes was refused. */
  lemma CountsAreExact(calls: seq<Call>)
    requires HonestAlong(START, map[], calls)
    ensures NothingMoved(START, calls) ==> NothingReused(START, map[], calls)
    ensures var t := Run(START, calls);
      NothingReused(START, map[], calls) ==>
        && Sorted(t.es) && ZeroOrOne(t.es)
        && t.nAllocb - t.nFreeb >= Live(t.es)
        && (t.nAllocb - t.nFreeb == Live(t.es) <==> NothingRefused(START, calls))
  {
    assert Inv(START) && Within([], map[]);
    HonestAnswersAlong(START, map[], calls);
    if NothingMoved(START, calls) {
      RunWithin(START, map[], calls);
    }
    if LibcOkAlong(START, calls) {
      RunKeeps(START, calls);
      RunLoses(START, calls);
    }
  }

  // ---------------------------------------------------------------- calls after which list and libc differ

  /** A run of one call and then others. */
  lemma FirstCall(t: Trace, heap: Blocks, c: Call, rest: seq<Call>)
    requires HonestLibc(heap, t.es, c)
    ensures var t', heap' := Do(t, c), LibcDo(heap, t.es, c);
      && (HonestAlong(t, heap, [c] + rest) <==> HonestAlong(t', heap', rest))
      && Run(t, [c] + rest) == Run(t', rest) && LibcRun(t, heap, [c] + rest) == LibcRun(t', heap', rest)
      && (NothingRefused(t, [c] + rest) <==> !Refused(t.es, c) && NothingRefused(t', rest))
  {
    hide Do; hide LibcDo; hide HonestLibc; hide Refused;
    assert ([c] + rest)[1..] == rest;
  }

  lemma NoCalls(t: Trace, heap: Blocks)
    ensures HonestAlong(t, heap, []) && Run(t, []) == t && LibcRun(t, heap, []) == heap && NothingRefused(t, [])
  {
  }

  /** A list of one entry. */
  lemma OneEntry(e: Entry, p: int)
    ensures Has([e], p) <==> p == e.ptr
    ensures p == e.ptr ==> Place([e], p) == 0
  {
  }

  /** The state after one block of `size` bytes at 64 has been allocated. */
  function OneBlock(size: int): Trace {
    START.(es := [Entry(64, size, 1)], nMalloc := 1, nAllocb := size)
  }

  lemma FirstMalloc(size: int)
    requires size >= 0
    ensures HonestLibc(map[], [], Malloc(size, 64)) && !Refused([], Malloc(size, 64))
    ensures Do(START, Malloc(size, 64)) == OneBlock(size) && LibcDo(map[], [], Malloc(size, 64)) == map[64 := size]
  {
  }

  lemma GrowthFails()
    ensures HonestLibc(map[64 := 8], OneBlock(8).es, Realloc(64, 16, 0))
    ensures LibcDo(map[64 := 8], OneBlock(8).es, Realloc(64, 16, 0)) == map[64 := 8]
    ensures !IsLive(Do(OneBlock(8), Realloc(64, 16, 0)).es, 64)
  {
    hide Has; hide Place;
    var e := Entry(64, 8, 1);
    OneEntry(e, 64);
    OneEntry(e.(cnt := 0), 64);
    GainNull(Lose(OneBlock(8), 64), 16);
    assert Dealloc([e], 64) == [e.(cnt := 0)];
  }

  /** A block that could not grow is forgotten: libc still has its 8 bytes, the list has none. */
  lemma ForgottenBlock()
    ensures var calls := [Malloc(8, 64)] + ([Realloc(64, 16, 0)] + []);
      HonestAlong(START, map[], calls) && 64 in LibcRun(START, map[], calls) && !IsLive(Run(START, calls).es, 64)
  {
    hide Do; hide IsLive; hide LibcDo; hide HonestLibc; hide OneBlock;
    FirstMalloc(8);
    FirstCall(START, map[], Malloc(8, 64), [Realloc(64, 16, 0)] + []);
    GrowthFails();
    FirstCall(OneBlock(8), map[64 := 8], Realloc(64, 16, 0), []);
    NoCalls(Do(OneBlock(8), Realloc(64, 16, 0)), map[64 := 8]);
  }

  /** Shrinking leaves the list as it is, and so does growing again into another block. */
  lemma ShrinkAndMove()
    ensures var t, a, b := OneBlock(100), Realloc(64, 8, 64), Realloc(64, 100, 400);
      && IsLive(t.es, 64) && !IsLive(t.es, 400)
      && HonestLibc(map[64 := 100], t.es, a) && HonestLibc(map[64 := 8], t.es, b)
      && !Refused(t.es, a) && !Refused(t.es, b) && Do(t, a) == t && Do(t, b) == t
      && LibcDo(map[64 := 100], t.es, a) == map[64 := 8] && LibcDo(map[64 := 8], t.es, b) == map[400 := 100]
  {
    hide Has; hide Place;
    OneEntry(Entry(64, 100, 1), 64);
    OneEntry(Entry(64, 100, 1), 400);
    assert (map[64 := 100] - {64})[64 := 8] == map[64 := 8];
    assert (map[64 := 8] - {64})[400 := 100] == map[400 := 100];
  }

  /** The address that has been left is handed out again, and the list counts it twice. */
  lemma AddressReused()
    ensures var t, c := OneBlock(100), Malloc(8, 64);
      && HonestLibc(map[400 := 100], t.es, c) && !Refused(t.es, c)
      && Do(t, c) == t.(es := [Entry(64, 8, 2)], nMalloc := 2, nAllocb := 108)
  {
    hide Has; hide Place;
    OneEntry(Entry(64, 100, 1), 64);
    assert Alloc([Entry(64, 100, 1)], 64, 8) == [Entry(64, 8, 2)];
  }

  /** A block that is shrunk and then grown again to its listed size may be moved: then libc has the new
      address and the list the old one. */
  lemma MovedBlock(rest: seq<Call>)
    ensures var calls := [Malloc(100, 64)] + ([Realloc(64, 8, 64)] + ([Realloc(64, 100, 400)] + rest));
      && (HonestAlong(START, map[], calls) <==> HonestAlong(OneBlock(100), map[400 := 100], rest))
      && Run(START, calls) == Run(OneBlock(100), rest)
      && LibcRun(START, map[], calls) == LibcRun(OneBlock(100), map[400 := 100], rest)
      && (NothingRefused(START, calls) <==> NothingRefused(OneBlock(100), rest))
    ensures IsLive(OneBlock(100).es, 64) && !IsLive(OneBlock(100).es, 400)
  {
    hide Do; hide IsLive; hide LibcDo; hide HonestLibc; hide OneBlock; hide Refused;
    var a, b := Realloc(64, 8, 64), Realloc(64, 100, 400);
    FirstMalloc(100);
    ShrinkAndMove();
    FirstCall(START, map[], Malloc(100, 64), [a] + ([b] + rest));
    FirstCall(OneBlock(100), map[64 := 100], a, [b] + rest);
    FirstCall(OneBlock(100), map[64 := 8], b, rest);
  }

  lemma MovedBlockDiffers()
    ensures var calls := [Malloc(100, 64)] + ([Realloc(64, 8, 64)] + ([Realloc(64, 100, 400)] + []));
      && HonestAlong(START, map[], calls) && LibcRun(START, map[], calls) == map[400 := 100]
      && IsLive(Run(START, calls).es, 64) && !IsLive(Run(START, calls).es, 400)
  {
    hide IsLive; hide OneBlock;
    MovedBlock([]);
    NoCalls(OneBlock(100), map[400 := 100]);
  }

  /** When libc then hands the old address out again the counts are off though nothing was refused: the report
      says 108 bytes, and no block counts as live. */
  lemma ReusedAddress()
    ensures var calls := [Malloc(100, 64)] + ([Realloc(64, 8, 64)] + ([Realloc(64, 100, 400)] + ([Malloc(8, 64)] + [])));
      var t := Run(START, calls);
      && HonestAlong(START, map[], calls) && NothingRefused(START, calls)
      && t.nAllocb - t.nFreeb == 108 && Live(t.es) == 0
  {
    hide Do; hide LibcDo; hide HonestLibc; hide Refused; hide Run; hide HonestAlong; hide NothingRefused;
    MovedBlock([Malloc(8, 64)] + []);
    AddressReused();
    FirstCall(OneBlock(100), map[400 := 100], Malloc(8, 64), []);
    NoCalls(Do(OneBlock(100), Malloc(8, 64)), LibcDo(map[400 := 100], OneBlock(100).es, Malloc(8, 64)));
    assert [Entry(64, 8, 2)][..0] == [];
  }
}
