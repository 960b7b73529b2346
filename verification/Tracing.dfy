/** The tracer itself: the wrappers around malloc, calloc, realloc and free. */
module Tracing {
  import opened MemList
  import opened MemTrace
  import opened LibcBlocks

  /** What the log says about an address to be freed. */
  datatype Log = Quiet | IllegalFree | DoubleFree

  class Tracer {
    const list: List
    var nMalloc: int
    var nCalloc: int
    var nRealloc: int
    var nAllocb: int
    var nFreeb: int
    ghost var lost: int

    ghost function View(): Trace
      reads this, list, list.nodes
    {
      Trace(list.View(), nMalloc, nCalloc, nRealloc, nAllocb, nFreeb, lost)
    }

    ghost predicate Valid()
      reads this, list, list.head, list.nodes
    {
      list.Valid()
    }

    /** init */
    constructor ()
      ensures Valid() && View() == START
      ensures fresh(list) && fresh(list.head) && list.nodes == []
    {
      list := new List();
      nMalloc, nCalloc, nRealloc, nAllocb, nFreeb, lost := 0, 0, 0, 0, 0, 0;
    }

    /** The bookkeeping of every wrapper that asks libc for a block. */
    method Gained(size: int, res: int)
      requires Valid()
      modifies this, list, list.head, list.nodes
      ensures Valid() && View() == Gain(old(View()), size, res)
      ensures forall n :: n in list.nodes ==> n in old(list.nodes) || fresh(n)
    {
      hide Alloc;
      nAllocb := nAllocb + size;
      if res != 0 {
        var _ := list.AllocBlock(res, size);
      } else {
        lost := lost + size;
      }
    }

    method Malloc(size: int, res: int)
      requires Valid()
      modifies this, list, list.head, list.nodes
      ensures Valid() && View() == Do(old(View()), Call.Malloc(size, res))
      ensures forall n :: n in list.nodes ==> n in old(list.nodes) || fresh(n)
    {
      hide Alloc;
      nMalloc := nMalloc + 1;
      Gained(size, res);
    }

    method Calloc(nmemb: int, size: int, res: int)
      requires Valid()
      modifies this, list, list.head, list.nodes
      ensures Valid() && View() == Do(old(View()), Call.Calloc(nmemb, size, res))
      ensures forall n :: n in list.nodes ==> n in old(list.nodes) || fresh(n)
    {
      hide Alloc; hide Product;
      nCalloc := nCalloc + 1;
      Gained(Product(nmemb, size), res);
    }

    /** The bookkeeping of a block that goes back to libc. */
    method Lost(ptr: int, i: Item)
      requires Valid() && Has(list.View(), ptr) && i == list.nodes[Place(list.View(), ptr)]
      modifies this, list.nodes
      ensures Valid() && View() == Lose(old(View()), ptr) && list.nodes == old(list.nodes)
    {
      hide Place; hide Dealloc; hide Sorted; hide List.Linked;
      ghost var es, k := list.View(), Place(list.View(), ptr);
      var _ := list.DeallocBlock(ptr);
      DeallocAt(es, ptr);
      assert list.View()[k].size == i.size;
      nFreeb := nFreeb + i.size;
    }

    lemma SizeRead(ptr: int, i: Item)
      requires Has(list.View(), ptr) && i == list.nodes[Place(list.View(), ptr)]
      ensures i.size == SizeOf(list.View(), ptr)
    {
    }

    /** realloc of a live block. */
    method ReallocBlock(ptr: int, size: int, res: int, i: Item)
      requires Valid() && size >= 0 && ptr != 0 && IsLive(list.View(), ptr) && i == list.nodes[Place(list.View(), ptr)]
      modifies this, list, list.head, list.nodes
      ensures Valid() && View() == Do(old(View()), Call.Realloc(ptr, size, res))
      ensures forall n :: n in list.nodes ==> n in old(list.nodes) || fresh(n)
    {
      hide Alloc; hide Dealloc; hide Place; hide Sorted; hide List.Linked; hide Gain; hide Lose; hide Has;
      ghost var t := View();
      LiveIsListed(t.es, ptr);
      SizeRead(ptr, i);
      if size == 0 {
        Lost(ptr, i);
      } else if size > i.size {
        Lost(ptr, i);
        Gained(size, res);
        SameCount(t, ptr, size, res);
        nRealloc := nRealloc + 1;
      }
    }

    method Realloc(ptr: int, size: int, res: int) returns (log: Log)
      requires Valid() && size >= 0
      modifies this, list, list.head, list.nodes
      ensures Valid() && View() == Do(old(View()), Call.Realloc(ptr, size, res))
      ensures log == LogOf(old(View()), ptr)
      ensures log == IllegalFree <==> ptr != 0 && forall e :: e in old(list.View()) ==> e.ptr != ptr
      ensures log == DoubleFree <==> ptr != 0 && exists e :: e in old(list.View()) && e.ptr == ptr && e.cnt == 0
      ensures forall n :: n in list.nodes ==> n in old(list.nodes) || fresh(n)
    {
      hide Alloc; hide Dealloc; hide Place; hide Sorted; hide List.Linked;
      LogIs(View(), ptr);
      log := Quiet;
      if ptr == 0 {
        if size > 0 {
          nRealloc := nRealloc + 1;
          Gained(size, res);
        }
      } else {
        var i := list.Find(ptr);
        if i == null || i.cnt == 0 {
          log := if i == null then IllegalFree else DoubleFree;
          nRealloc := nRealloc + 1;
          Gained(size, res);
        } else {
          ReallocBlock(ptr, size, res, i);
        }
      }
    }

    method Free(ptr: int) returns (log: Log)
      requires Valid()
      modifies this, list.nodes
      ensures Valid() && View() == Do(old(View()), Call.Free(ptr)) && list.nodes == old(list.nodes)
      ensures log == LogOf(old(View()), ptr)
      ensures log == IllegalFree <==> ptr != 0 && forall e :: e in old(list.View()) ==> e.ptr != ptr
      ensures log == DoubleFree <==> ptr != 0 && exists e :: e in old(list.View()) && e.ptr == ptr && e.cnt == 0
    {
      hide Dealloc; hide Place; hide Sorted; hide List.Linked;
      LogIs(View(), ptr);
      log := Quiet;
      if ptr == 0 {
        return;
      }
      var i := list.Find(ptr);
      if i == null {
        return IllegalFree;
      } else if i.cnt == 0 {
        return DoubleFree;
      }
      Lost(ptr, i);
    }

    method Step(c: Call)
      requires Valid() && (c.Realloc? ==> c.newSize >= 0)
      modifies this, list, list.head, list.nodes
      ensures Valid() && View() == Do(old(View()), c)
      ensures forall n :: n in list.nodes ==> n in old(list.nodes) || fresh(n)
    {
      hide Do; hide Sorted; hide List.Linked;
      match c {
        case Malloc(size, res) => Malloc(size, res);
        case Calloc(nmemb, size, res) => Calloc(nmemb, size, res);
        case Realloc(ptr, size, res) =>
          var _ := Realloc(ptr, size, res);
        case Free(ptr) =>
          var _ := Free(ptr);
      }
    }

    /** A whole traced program. */
    method Serve(calls: seq<Call>)
      requires Valid() && View() == START && HonestAlong(START, map[], calls)
      modifies this, list, list.head, list.nodes
      ensures Valid() && View() == Run(START, calls)
      ensures nAllocb - nFreeb == Weighted(list.View()) + Slips(START, calls)
      ensures NothingReused(START, map[], calls) ==>
                (nAllocb - nFreeb == Live(list.View()) <==> NothingRefused(START, calls))
    {
      hide Do; hide LibcDo; hide HonestLibc; hide Sorted; hide List.Linked;
      var k := 0;
      ghost var heap: Blocks := map[];
      while k < |calls|
        invariant 0 <= k <= |calls| && Valid()
        invariant Run(View(), calls[k..]) == Run(START, calls)
        invariant HonestAlong(View(), heap, calls[k..])
        invariant forall i :: 0 <= i < |list.nodes| ==> list.nodes[i] in old(list.nodes) || fresh(list.nodes[i])
      {
        assert calls[k..][0] == calls[k] && calls[k..][1..] == calls[k + 1..];
        SizeIsNat(heap, View(), calls[k]);
        heap := LibcDo(heap, View().es, calls[k]);
        Step(calls[k]);
        assert forall i :: 0 <= i < |list.nodes| ==> list.nodes[i] in list.nodes;
        k := k + 1;
      }
      CountsAreExact(calls);
      Conservation(calls);
    }

    /** fini: walks the list for the blocks not freed; the average needs at least one counted call. */
    method Fini() returns (allocTotal: int, allocAvg: int, freeTotal: int, blocks: seq<Entry>)
      requires Valid() && nMalloc + nCalloc + nRealloc > 0
      ensures allocTotal == nAllocb && freeTotal == nFreeb
      ensures allocAvg == nAllocb / (nMalloc + nCalloc + nRealloc)
      ensures blocks == NonFreed(View().es)
    {
      hide Sorted;
      allocTotal, freeTotal := nAllocb, nFreeb;
      allocAvg := allocTotal / (nMalloc + nCalloc + nRealloc);
      blocks := [];
      ghost var es, k := list.View(), 0;
      var cur := list.head;
      while cur.next != null
        invariant 0 <= k <= |es| && cur == list.Prev(k) && cur.next == list.NodeAt(k)
        invariant blocks == NonFreed(es[..k])
        decreases |es| - k
      {
        assert list.NextOk(k);
        cur := cur.next;
        assert es[..k + 1][..k] == es[..k];
        if cur.cnt > 0 {
          blocks := blocks + [Entry(cur.ptr, cur.size, cur.cnt)];
        }
        k := k + 1;
      }
      assert es[..k] == es;
    }
  }

  function LogOf(t: Trace, ptr: int): Log {
    if ptr == 0 || IsLive(t.es, ptr) then Quiet else if Has(t.es, ptr) then DoubleFree else IllegalFree
  }

  lemma LogIs(t: Trace, ptr: int)
    requires Sorted(t.es)
    ensures LogOf(t, ptr) == IllegalFree <==> ptr != 0 && forall e :: e in t.es ==> e.ptr != ptr
    ensures LogOf(t, ptr) == DoubleFree <==> ptr != 0 && exists e :: e in t.es && e.ptr == ptr && e.cnt == 0
  {
    HasListed(t.es, ptr);
    assert Has(t.es, ptr) ==> t.es[Place(t.es, ptr)] in t.es;
  }
}
