/** The tracer's list of memory blocks: singly linked, sorted by address, behind a dummy element. */
module MemList {

  /** What the list says about a block: its address, its size, and how often it is allocated. */
  datatype Entry = Entry(ptr: int, size: int, cnt: int)

  // ---------------------------------------------------------------- the operations on sequences

  ghost predicate Sorted(es: seq<Entry>) {
    forall i, j :: 0 <= i < j < |es| ==> es[i].ptr < es[j].ptr
  }

  /** The first position whose address is not below ptr. */
  function Place(es: seq<Entry>, ptr: int): (k: nat)
    ensures k <= |es| && (k < |es| ==> es[k].ptr >= ptr)
    ensures forall i :: 0 <= i < k ==> es[i].ptr < ptr
  {
    if es == [] || es[0].ptr >= ptr then 0 else 1 + Place(es[1..], ptr)
  }

  predicate Has(es: seq<Entry>, ptr: int) {
    Place(es, ptr) < |es| && es[Place(es, ptr)].ptr == ptr
  }

  function Alloc(es: seq<Entry>, ptr: int, size: int): seq<Entry> {
    var k := Place(es, ptr);
    if Has(es, ptr) then es[k := Entry(ptr, size, es[k].cnt + 1)]
    else es[..k] + [Entry(ptr, size, 1)] + es[k..]
  }

  function Dealloc(es: seq<Entry>, ptr: int): seq<Entry> {
    var k := Place(es, ptr);
    if Has(es, ptr) then es[k := es[k].(cnt := es[k].cnt - 1)] else es
  }

  /** The search by address finds the one position it can. */
  lemma PlaceIs(es: seq<Entry>, ptr: int, k: nat)
    requires k <= |es|
    requires forall i :: 0 <= i < k ==> es[i].ptr < ptr
    requires k < |es| ==> es[k].ptr >= ptr
    ensures Place(es, ptr) == k
  {
  }

  lemma HasAny(es: seq<Entry>, ptr: int, k: nat)
    requires Sorted(es) && k < |es| && es[k].ptr == ptr
    ensures Place(es, ptr) == k && Has(es, ptr)
  {
    PlaceIs(es, ptr, k);
  }

  lemma HasListed(es: seq<Entry>, ptr: int)
    requires Sorted(es)
    ensures Has(es, ptr) <==> exists e :: e in es && e.ptr == ptr
    ensures forall e :: e in es && e.ptr == ptr ==> Has(es, ptr) && e == es[Place(es, ptr)]
  {
    if Has(es, ptr) {
      assert es[Place(es, ptr)] in es;
    }
    forall e | e in es && e.ptr == ptr ensures Has(es, ptr) && e == es[Place(es, ptr)] {
      var i :| 0 <= i < |es| && es[i] == e;
      HasAny(es, ptr, i);
    }
  }

  /** How often the block at this address is listed as allocated, 0 if it is not listed. */
  ghost function CountOf(es: seq<Entry>, ptr: int): int {
    if e :| e in es && e.ptr == ptr then e.cnt else 0
  }

  lemma CountIs(es: seq<Entry>, ptr: int, k: nat)
    requires Sorted(es) && k < |es| && es[k].ptr == ptr
    ensures CountOf(es, ptr) == es[k].cnt
  {
    assert es[k] in es;
  }

  lemma UpdateEntries(es: seq<Entry>, k: nat, x: Entry)
    requires Sorted(es) && k < |es| && x.ptr == es[k].ptr
    ensures forall e :: e in es[k := x] <==> (e in es && e.ptr != x.ptr) || e == x
  {
    var after := es[k := x];
    assert after[k] == x;
    forall e | e in es && e.ptr != x.ptr ensures e in after {
      var i :| 0 <= i < |es| && es[i] == e;
      assert after[i] == e;
    }
    forall e | e in after && e != x ensures e in es && e.ptr != x.ptr {
      var i :| 0 <= i < |after| && after[i] == e;
      assert es[i] == e;
    }
  }

  lemma InsertEntries(es: seq<Entry>, k: nat, x: Entry)
    requires k <= |es|
    ensures forall e :: e in es[..k] + [x] + es[k..] <==> e in es || e == x
  {
    assert es == es[..k] + es[k..];
  }

  /** An allocation gives the address one entry, with the new size and one more count, and leaves the others. */
  lemma AllocEntries(es: seq<Entry>, ptr: int, size: int)
    requires Sorted(es)
    ensures forall e :: e in Alloc(es, ptr, size) <==>
              (e in es && e.ptr != ptr) || e == Entry(ptr, size, CountOf(es, ptr) + 1)
  {
    var k := Place(es, ptr);
    HasListed(es, ptr);
    if Has(es, ptr) {
      CountIs(es, ptr, k);
      UpdateEntries(es, k, Entry(ptr, size, es[k].cnt + 1));
    } else {
      InsertEntries(es, k, Entry(ptr, size, 1));
    }
  }

  /** A free takes one from the count of the address, if it is listed, and leaves the other entries. */
  lemma DeallocEntries(es: seq<Entry>, ptr: int)
    requires Sorted(es)
    ensures forall d :: d in es && d.ptr == ptr ==>
              forall e :: e in Dealloc(es, ptr) <==> (e in es && e.ptr != ptr) || e == Entry(ptr, d.size, d.cnt - 1)
    ensures (forall e :: e in es ==> e.ptr != ptr) ==> Dealloc(es, ptr) == es
  {
    var k := Place(es, ptr);
    HasListed(es, ptr);
    if Has(es, ptr) {
      UpdateEntries(es, k, Entry(ptr, es[k].size, es[k].cnt - 1));
    }
  }

  lemma DeallocSorted(es: seq<Entry>, ptr: int)
    requires Sorted(es)
    ensures Sorted(Dealloc(es, ptr))
  {
  }

  lemma AllocSorted(es: seq<Entry>, ptr: int, size: int)
    requires Sorted(es)
    ensures Sorted(Alloc(es, ptr, size))
  {
    var k, after := Place(es, ptr), Alloc(es, ptr, size);
    if !Has(es, ptr) {
      forall i, j | 0 <= i < j < |after| ensures after[i].ptr < after[j].ptr {
        if k < |es| && j > k {
          assert j > k + 1 ==> es[k].ptr < es[j - 1].ptr;
        }
      }
    }
  }

  // ---------------------------------------------------------------- the code

  class Item {
    var ptr: int
    var size: int
    var cnt: int
    var next: Item?

    constructor (ptr: int, size: int, cnt: int)
      ensures this.ptr == ptr && this.size == size && this.cnt == cnt && next == null
    {
      this.ptr := ptr;
      this.size := size;
      this.cnt := cnt;
      next := null;
    }
  }

  class List {
    const head: Item
    ghost var nodes: seq<Item>

    ghost function NodeAt(i: nat): Item?
      reads this
    {
      if i < |nodes| then nodes[i] else null
    }

    ghost predicate Valid()
      reads this, head, nodes
    {
      Linked() && Sorted(View())
    }

    ghost function View(): (es: seq<Entry>)
      reads this, nodes
      ensures |es| == |nodes|
      ensures forall i :: 0 <= i < |es| ==> es[i] == Entry(nodes[i].ptr, nodes[i].size, nodes[i].cnt)
    {
      seq(|nodes|, i requires 0 <= i < |nodes| reads this, nodes => Entry(nodes[i].ptr, nodes[i].size, nodes[i].cnt))
    }

    /** new_list */
    constructor ()
      ensures Valid() && View() == [] && fresh(head) && nodes == []
    {
      head := new Item(0, 0, 0);
      nodes := [];
    }

    ghost predicate NextOk(i: nat)
      requires i < |nodes|
      reads this, nodes
    {
      nodes[i].next == NodeAt(i + 1)
    }

    ghost predicate AllDiffer()
      reads this
    {
      head !in nodes && forall i, j :: 0 <= i < j < |nodes| ==> nodes[i] != nodes[j]
    }

    /** The list as far as its links go. */
    ghost predicate Linked()
      reads this, head, nodes
    {
      AllDiffer() && head.next == NodeAt(0) && forall i {:trigger NextOk(i)} :: 0 <= i < |nodes| ==> NextOk(i)
    }

    ghost function Prev(k: nat): Item
      requires k <= |nodes|
      reads this
    {
      if k == 0 then head else nodes[k - 1]
    }

    /** The loop of alloc: the first item whose address is not below ptr, and the one before it. */
    method Locate(ptr: int) returns (prev: Item, cur: Item?, ghost k: nat)
      requires Linked()
      ensures k == Place(View(), ptr) && cur == NodeAt(k) && prev == Prev(k)
    {
      prev, cur := head, head.next;
      k := 0;
      while cur != null && cur.ptr < ptr
        invariant 0 <= k <= |nodes| && cur == NodeAt(k) && prev == Prev(k)
        invariant forall j :: 0 <= j < k ==> View()[j].ptr < ptr
        decreases |nodes| - k
      {
        assert NextOk(k);
        prev := cur;
        cur := cur.next;
        k := k + 1;
      }
      PlaceIs(View(), ptr, k);
    }

    /** A new item in the view. */
    lemma ViewInserted(was: seq<Item>, es: seq<Entry>, i: Item, k: nat)
      requires k <= |was| == |es| && nodes == was[..k] + [i] + was[k..]
      requires forall j :: 0 <= j < |was| ==> es[j] == Entry(was[j].ptr, was[j].size, was[j].cnt)
      ensures View() == es[..k] + [Entry(i.ptr, i.size, i.cnt)] + es[k..]
      ensures i in nodes && forall n :: n in nodes ==> n in was || n == i
    {
      assert nodes[k] == i;
    }

    /** The link writes of alloc. */
    method Splice(prev: Item, cur: Item?, i: Item, ghost k: nat)
      requires Linked() && k <= |nodes| && prev == Prev(k) && cur == NodeAt(k)
      requires i != head && i !in nodes && i.next == null
      modifies this`nodes, prev`next, i`next
      ensures Linked() && nodes == old(nodes)[..k] + [i] + old(nodes)[k..]
    {
      if cur != null {
        i.next := cur;
      }
      prev.next := i;
      nodes := nodes[..k] + [i] + nodes[k..];
      forall j | 0 <= j < |nodes| ensures NextOk(j) {
        if j < k - 1 {
          assert old(NextOk(j));
        } else if j > k {
          assert old(NextOk(j - 1));
        }
      }
    }

    /** Links a new item in at position k. */
    method Insert(prev: Item, cur: Item?, i: Item, ghost k: nat)
      requires Linked() && k <= |nodes| && prev == Prev(k) && cur == NodeAt(k)
      requires i != head && i !in nodes && i.next == null
      modifies this`nodes, prev`next, i`next
      ensures Linked() && View() == old(View()[..k] + [Entry(i.ptr, i.size, i.cnt)] + View()[k..])
      ensures i in nodes && forall n :: n in nodes ==> n in old(nodes) || n == i
    {
      hide Linked;
      ghost var es, was := View(), nodes;
      Splice(prev, cur, i, k);
      ViewInserted(was, es, i, k);
    }

    /** Overwrites the size and the count of item k. */
    method Update(cur: Item, size: int, cnt: int, ghost k: nat)
      requires Linked() && k < |nodes| && cur == nodes[k]
      modifies cur`size, cur`cnt
      ensures Linked() && View() == old(View())[k := Entry(cur.ptr, size, cnt)]
    {
      cur.size := size;
      cur.cnt := cnt;
      forall j | 0 <= j < |nodes| ensures NextOk(j) {
        assert old(NextOk(j));
      }
      assert head.next == NodeAt(0);
    }

    method AllocBlock(ptr: int, size: int) returns (i: Item)
      requires Valid()
      modifies this, head, nodes
      ensures Valid() && View() == Alloc(old(View()), ptr, size)
      ensures i in nodes && forall n :: n in nodes ==> n in old(nodes) || fresh(n)
    {
      hide Sorted; hide Place; hide Linked;
      ghost var es := View();
      AllocSorted(es, ptr, size);
      i := new Item(ptr, size, 1);
      var prev, cur, k := Locate(ptr);
      if cur != null && cur.ptr == i.ptr {
        Update(cur, i.size, cur.cnt + 1, k);
        i := cur;
      } else {
        PrevIsNode(k);
        Insert(prev, cur, i, k);
      }
    }

    lemma PrevIsNode(k: nat)
      requires k <= |nodes|
      ensures Prev(k) == head || Prev(k) in nodes
    {
    }

    method DeallocBlock(ptr: int) returns (cur: Item?)
      requires Valid()
      modifies nodes
      ensures Valid() && View() == Dealloc(old(View()), ptr)
      ensures cur != null <==> Has(old(View()), ptr)
      ensures cur != null ==> cur == nodes[Place(old(View()), ptr)]
    {
      hide Sorted; hide Place;
      ghost var es := View();
      DeallocSorted(es, ptr);
      cur := head.next;
      ghost var k := 0;
      while cur != null && cur.ptr != ptr
        invariant 0 <= k <= |nodes| && cur == NodeAt(k)
        invariant forall j :: 0 <= j < k ==> es[j].ptr != ptr
        decreases |nodes| - k
      {
        assert NextOk(k);
        cur := cur.next;
        k := k + 1;
      }
      if cur != null {
        HasAny(es, ptr, k);
        Update(cur, cur.size, cur.cnt - 1, k);
      }
    }

    method Find(ptr: int) returns (i: Item?)
      requires Valid()
      ensures i != null <==> Has(View(), ptr)
      ensures i != null ==> i == nodes[Place(View(), ptr)]
    {
      i := head.next;
      ghost var k := 0;
      while i != null && ptr > i.ptr
        invariant 0 <= k <= |nodes| && i == NodeAt(k)
        invariant forall j :: 0 <= j < k ==> View()[j].ptr < ptr
        decreases |nodes| - k
      {
        assert NextOk(k);
        i := i.next;
        k := k + 1;
      }
      PlaceIs(View(), ptr, k);
      if i == null || i.ptr != ptr {
        i := null;
      }
    }
  }
}
