/** The allocation tracer: its byte counts against the list of blocks. */
module MemTrace {
  import opened MemList

  /** size_t arithmetic */
  const SIZES := 0x1_0000_0000_0000_0000

  function Product(nmemb: int, size: int): int {
    (nmemb * size) % SIZES
  }

  /** The product of two size_t arguments is what remains of it in 64 bits. */
  lemma ProductWraps(nmemb: int, size: int)
    requires 0 <= nmemb && 0 <= size
    ensures 0 <= Product(nmemb, size) < 0x1_0000_0000_0000_0000
    ensures Product(nmemb, size) == nmemb * size <==> nmemb * size < 0x1_0000_0000_0000_0000
    ensures exists q :: nmemb * size == q * 0x1_0000_0000_0000_0000 + Product(nmemb, size)
  {
    var q := nmemb * size / SIZES;
    assert nmemb * size == q * 0x1_0000_0000_0000_0000 + Product(nmemb, size);
  }

  /** The list and the counters.  `lost` sums the sizes of requests libc has answered with NULL. */
  datatype Trace = Trace(es: seq<Entry>, nMalloc: int, nCalloc: int, nRealloc: int, nAllocb: int, nFreeb: int, lost: int)

  const START := Trace([], 0, 0, 0, 0, 0, 0)

  /** Whether a block is allocated, as far as the list knows. */
  predicate IsLive(es: seq<Entry>, ptr: int) {
    Has(es, ptr) && es[Place(es, ptr)].cnt != 0
  }

  function SizeOf(es: seq<Entry>, ptr: int): int
    requires Has(es, ptr)
  {
    es[Place(es, ptr)].size
  }

  /** What an allocation adds: `res` is libc's answer. */
  function Gain(t: Trace, size: int, res: int): Trace {
    if res != 0 then t.(es := Alloc(t.es, res, size), nAllocb := t.nAllocb + size)
    else t.(nAllocb := t.nAllocb + size, lost := t.lost + size)
  }

  function Lose(t: Trace, ptr: int): Trace
    requires Has(t.es, ptr)
  {
    t.(es := Dealloc(t.es, ptr), nFreeb := t.nFreeb + SizeOf(t.es, ptr))
  }

  datatype Call =
    | Malloc(size: int, res: int)
    | Calloc(nmemb: int, count: int, res: int)
    | Realloc(ptr: int, newSize: int, res: int)
    | Free(ptr: int)

  function Do(t: Trace, c: Call): Trace {
    match c
    case Malloc(size, res) => Gain(t, size, res).(nMalloc := t.nMalloc + 1)
    case Calloc(nmemb, size, res) => Gain(t, Product(nmemb, size), res).(nCalloc := t.nCalloc + 1)
    case Realloc(ptr, size, res) =>
      if ptr == 0 && size == 0 then t
      else if ptr == 0 || !IsLive(t.es, ptr) then Gain(t, size, res).(nRealloc := t.nRealloc + 1)
      else if size == 0 then Lose(t, ptr)
      else if size <= SizeOf(t.es, ptr) then t
      else Gain(Lose(t, ptr), size, res).(nRealloc := t.nRealloc + 1)
    case Free(ptr) => if ptr != 0 && IsLive(t.es, ptr) then Lose(t, ptr) else t
  }

  /** Sizes are size_t, and an address that goes into the list is not one the list has as live, except that
      a growing realloc may leave the block where it is. */
  predicate LibcOk(t: Trace, c: Call) {
    match c
    case Malloc(size, res) => size >= 0 && (res == 0 || !IsLive(t.es, res))
    case Calloc(_, _, res) => res == 0 || !IsLive(t.es, res)
    case Realloc(ptr, size, res) =>
      size >= 0 &&
      (if ptr == 0 && size == 0 then true
       else if ptr == 0 || !IsLive(t.es, ptr) then res == 0 || !IsLive(t.es, res)
       else if size <= SizeOf(t.es, ptr) || size == 0 then true
       else res == 0 || res == ptr || !IsLive(t.es, res))
    case Free(_) => true
  }

  // ---------------------------------------------------------------- the byte count

  /** The bytes of the blocks with count 1. */
  function Live(es: seq<Entry>): int {
    if es == [] then 0 else Live(es[..|es| - 1]) + LiveSize(es[|es| - 1])
  }

  function LiveSize(e: Entry): int {
    if e.cnt == 1 then e.size else 0
  }

  ghost predicate ZeroOrOne(es: seq<Entry>) {
    forall k :: 0 <= k < |es| ==> es[k].cnt == 0 || es[k].cnt == 1
  }

  ghost predicate Balanced(es: seq<Entry>, allocb: int, freeb: int, lost: int) {
    Sorted(es) && ZeroOrOne(es) && allocb - freeb == Live(es) + lost && lost >= 0
  }

  ghost predicate Inv(t: Trace) {
    Balanced(t.es, t.nAllocb, t.nFreeb, t.lost)
  }

  lemma {:induction false} LiveUpdate(es: seq<Entry>, k: nat, e: Entry)
    requires k < |es|
    ensures Live(es[k := e]) == Live(es) - LiveSize(es[k]) + LiveSize(e)
  {
    var n := |es| - 1;
    if k < n {
      LiveUpdate(es[..n], k, e);
      assert es[k := e][..n] == es[..n][k := e];
    } else {
      assert es[k := e][..n] == es[..n];
    }
  }

  lemma {:induction false} LiveInsert(es: seq<Entry>, k: nat, e: Entry)
    requires k <= |es|
    ensures Live(es[..k] + [e] + es[k..]) == Live(es) + LiveSize(e)
  {
    var n, after := |es|, es[..k] + [e] + es[k..];
    if k < n {
      LiveInsert(es[..n - 1], k, e);
      assert after[..n] == es[..n - 1][..k] + [e] + es[..n - 1][k..];
      assert after[n] == es[n - 1];
    } else {
      assert after[..n] == es;
    }
  }

  /** Allocating a block that is not live adds its bytes. */
  lemma AllocLive(es: seq<Entry>, ptr: int, size: int)
    requires Sorted(es) && ZeroOrOne(es) && !IsLive(es, ptr)
    ensures Sorted(Alloc(es, ptr, size)) && ZeroOrOne(Alloc(es, ptr, size))
    ensures Live(Alloc(es, ptr, size)) == Live(es) + size
  {
    AllocSorted(es, ptr, size);
    var k := Place(es, ptr);
    if Has(es, ptr) {
      LiveUpdate(es, k, Entry(ptr, size, es[k].cnt + 1));
    } else {
      LiveInsert(es, k, Entry(ptr, size, 1));
    }
  }

  /** Freeing a live block takes its bytes away and leaves it dead. */
  lemma DeallocLive(es: seq<Entry>, ptr: int)
    requires Sorted(es) && ZeroOrOne(es) && IsLive(es, ptr)
    ensures Sorted(Dealloc(es, ptr)) && ZeroOrOne(Dealloc(es, ptr)) && !IsLive(Dealloc(es, ptr), ptr)
    ensures Live(Dealloc(es, ptr)) == Live(es) - SizeOf(es, ptr)
    ensures forall p :: p != ptr ==> IsLive(Dealloc(es, ptr), p) == IsLive(es, p)
  {
    hide Place;
    var k := Place(es, ptr);
    var e := es[k].(cnt := es[k].cnt - 1);
    LiveUpdate(es, k, e);
    forall p ensures Place(es[k := e], p) == Place(es, p) {
      SamePlace(es, k, e, p);
    }
  }

  lemma SamePlace(es: seq<Entry>, k: nat, e: Entry, p: int)
    requires k < |es| && e.ptr == es[k].ptr
    ensures Place(es[k := e], p) == Place(es, p)
  {
    PlaceIs(es[k := e], p, Place(es, p));
  }

  lemma GainKeeps(t: Trace, size: int, res: int)
    requires Inv(t) && size >= 0 && (res == 0 || !IsLive(t.es, res))
    ensures Inv(Gain(t, size, res))
  {
    if res != 0 {
      AllocLive(t.es, res, size);
    }
  }

  lemma LoseKeeps(t: Trace, ptr: int)
    requires Inv(t) && IsLive(t.es, ptr)
    ensures Inv(Lose(t, ptr)) && !IsLive(Lose(t, ptr).es, ptr)
    ensures forall p :: IsLive(Lose(t, ptr).es, p) ==> IsLive(t.es, p)
  {
    DeallocLive(t.es, ptr);
  }

  lemma LiveIsListed(es: seq<Entry>, ptr: int)
    requires IsLive(es, ptr)
    ensures Has(es, ptr)
  {
  }

  lemma DoKeeps(t: Trace, c: Call)
    requires Inv(t) && LibcOk(t, c)
    ensures Inv(Do(t, c))
  {
    hide Balanced; hide Gain; hide Lose; hide IsLive;
    match c {
      case Malloc(size, res) =>
        GainKeeps(t, size, res);
      case Calloc(nmemb, size, res) =>
        GainKeeps(t, Product(nmemb, size), res);
      case Realloc(ptr, size, res) =>
        if ptr != 0 && IsLive(t.es, ptr) {
          LoseKeeps(t, ptr);
          LiveIsListed(t.es, ptr);
          if size != 0 && size > SizeOf(t.es, ptr) {
            GainKeeps(Lose(t, ptr), size, res);
          }
        } else if ptr != 0 || size != 0 {
          GainKeeps(t, size, res);
        }
      case Free(ptr) =>
        if ptr != 0 && IsLive(t.es, ptr) {
          LoseKeeps(t, ptr);
        }
    }
  }

  // ---------------------------------------------------------------- whole runs

  ghost predicate LibcOkAlong(t: Trace, calls: seq<Call>)
    decreases |calls|
  {
    calls == [] || (LibcOk(t, calls[0]) && LibcOkAlong(Do(t, calls[0]), calls[1..]))
  }

  function Run(t: Trace, calls: seq<Call>): Trace
    decreases |calls|
  {
    if calls == [] then t else Run(Do(t, calls[0]), calls[1..])
  }

  lemma {:induction false} RunKeeps(t: Trace, calls: seq<Call>)
    requires Inv(t) && LibcOkAlong(t, calls)
    ensures Inv(Run(t, calls))
    decreases |calls|
  {
    hide Inv; hide Do; hide LibcOk;
    if calls != [] {
      DoKeeps(t, calls[0]);
      RunKeeps(Do(t, calls[0]), calls[1..]);
    }
  }

  lemma {:induction false} RunLast(t: Trace, calls: seq<Call>)
    requires calls != []
    ensures Run(t, calls) == Do(Run(t, calls[..|calls| - 1]), calls[|calls| - 1])
    decreases |calls|
  {
    hide Do;
    var n := |calls| - 1;
    if n > 0 {
      RunLast(Do(t, calls[0]), calls[1..]);
      assert calls[1..][..n - 1] == calls[..n][1..];
    } else {
      assert calls[1..] == [] && calls[..0] == [];
    }
  }

  /** A realloc that counts: a growing one, one of a bad address, or one of NULL for bytes. */
  predicate Counts(es: seq<Entry>, c: Call) {
    c.Realloc? &&
    if c.ptr == 0 then c.newSize != 0 else !IsLive(es, c.ptr) || (c.newSize != 0 && c.newSize > SizeOf(es, c.ptr))
  }

  /** The calls of malloc, those of calloc, and the calls of realloc that count. */
  function Mallocs(calls: seq<Call>): set<int> {
    set k | 0 <= k < |calls| && calls[k].Malloc?
  }

  function Callocs(calls: seq<Call>): set<int> {
    set k | 0 <= k < |calls| && calls[k].Calloc?
  }

  predicate CountsAt(calls: seq<Call>, k: nat)
    requires k < |calls|
  {
    Counts(Run(START, calls[..k]).es, calls[k])
  }

  function Reallocs(calls: seq<Call>): set<int> {
    set k | 0 <= k < |calls| && CountsAt(calls, k)
  }

  lemma MoreMallocs(calls: seq<Call>)
    requires calls != []
    ensures |Mallocs(calls)| == |Mallocs(calls[..|calls| - 1])| + if calls[|calls| - 1].Malloc? then 1 else 0
  {
    var n := |calls| - 1;
    assert Mallocs(calls) == if calls[n].Malloc? then Mallocs(calls[..n]) + {n} else Mallocs(calls[..n]);
  }

  lemma MoreCallocs(calls: seq<Call>)
    requires calls != []
    ensures |Callocs(calls)| == |Callocs(calls[..|calls| - 1])| + if calls[|calls| - 1].Calloc? then 1 else 0
  {
    var n := |calls| - 1;
    assert Callocs(calls) == if calls[n].Calloc? then Callocs(calls[..n]) + {n} else Callocs(calls[..n]);
  }

  lemma MoreReallocs(calls: seq<Call>)
    requires calls != []
    ensures |Reallocs(calls)| == |Reallocs(calls[..|calls| - 1])| + if CountsAt(calls, |calls| - 1) then 1 else 0
  {
    hide Run; hide Counts;
    var n := |calls| - 1;
    var before := calls[..n];
    forall k | 0 <= k < n ensures CountsAt(before, k) == CountsAt(calls, k) {
      assert before[..k] == calls[..k];
    }
    assert Reallocs(calls) == if CountsAt(calls, n) then Reallocs(before) + {n} else Reallocs(before);
  }

  lemma NoneCounted()
    ensures Run(START, []) == START && Mallocs([]) == {} && Callocs([]) == {} && Reallocs([]) == {}
  {
  }

  /** What fini divides by: the calls of malloc and of calloc, and the calls of realloc that count. */
  lemma {:induction false} CallsCounted(calls: seq<Call>)
    ensures var t := Run(START, calls);
      t.nMalloc == |Mallocs(calls)| && t.nCalloc == |Callocs(calls)| && t.nRealloc == |Reallocs(calls)|
  {
    hide Run; hide Do; hide Counts; hide Mallocs; hide Callocs; hide Reallocs;
    if calls == [] {
      NoneCounted();
    } else {
      var n := |calls| - 1;
      CallsCounted(calls[..n]);
      RunLast(START, calls);
      DoCounts(Run(START, calls[..n]), calls[n]);
      MoreMallocs(calls);
      MoreCallocs(calls);
      MoreReallocs(calls);
    }
  }

  lemma DoCounts(t: Trace, c: Call)
    ensures var u := Do(t, c);
      && u.nMalloc == t.nMalloc + (if c.Malloc? then 1 else 0)
      && u.nCalloc == t.nCalloc + (if c.Calloc? then 1 else 0)
      && u.nRealloc == t.nRealloc + (if Counts(t.es, c) then 1 else 0)
  {
    hide Has; hide Place; hide Alloc; hide Dealloc; hide Product;
    if c.Realloc? && IsLive(t.es, c.ptr) {
      LiveIsListed(t.es, c.ptr);
    }
  }

  /** The bytes a call asks libc for, as far as it counts. */
  function Asked(es: seq<Entry>, c: Call): int {
    match c
    case Malloc(size, _) => size
    case Calloc(nmemb, size, _) => Product(nmemb, size)
    case Realloc(_, size, _) => if Counts(es, c) then size else 0
    case Free(_) => 0
  }

  function AskedAlong(t: Trace, calls: seq<Call>): int
    decreases |calls|
  {
    if calls == [] then 0 else Asked(t.es, calls[0]) + AskedAlong(Do(t, calls[0]), calls[1..])
  }

  /** The bytes reported as allocated are those asked for, whatever libc answered; with conservation this says what is
      reported as freed. */
  lemma {:induction false} BytesAsked(t: Trace, calls: seq<Call>)
    ensures Run(t, calls).nAllocb == t.nAllocb + AskedAlong(t, calls)
    decreases |calls|
  {
    if calls != [] {
      DoAsks(t, calls[0]);
      hide Do; hide Asked;
      BytesAsked(Do(t, calls[0]), calls[1..]);
    }
  }

  lemma DoAsks(t: Trace, c: Call)
    ensures Do(t, c).nAllocb == t.nAllocb + Asked(t.es, c)
  {
    hide Has; hide Place; hide Alloc; hide Dealloc; hide Product;
    if c.Realloc? && IsLive(t.es, c.ptr) {
      LiveIsListed(t.es, c.ptr);
    }
  }

  /** Calls that ask libc for bytes and get NULL: by their own arguments, and for realloc by what the list
      says of the block. */
  predicate Refused(es: seq<Entry>, c: Call) {
    match c
    case Malloc(size, res) => res == 0 && size != 0
    case Calloc(nmemb, size, res) => res == 0 && Product(nmemb, size) != 0
    case Realloc(ptr, size, res) =>
      res == 0 && size != 0 && (ptr == 0 || !IsLive(es, ptr) || size > SizeOf(es, ptr))
    case Free(_) => false
  }

  ghost predicate NothingRefused(t: Trace, calls: seq<Call>)
    decreases |calls|
  {
    calls == [] || (!Refused(t.es, calls[0]) && NothingRefused(Do(t, calls[0]), calls[1..]))
  }

  lemma DoLoses(t: Trace, c: Call)
    requires LibcOk(t, c)
    ensures Do(t, c).lost >= t.lost
    ensures Do(t, c).lost == t.lost <==> !Refused(t.es, c)
  {
    hide Has; hide Place; hide Alloc; hide Dealloc; hide Product;
    ProductIsNat(c);
  }

  lemma ProductIsNat(c: Call)
    ensures c.Calloc? ==> Product(c.nmemb, c.count) >= 0
  {
  }

  lemma {:induction false} RunLoses(t: Trace, calls: seq<Call>)
    requires LibcOkAlong(t, calls)
    ensures Run(t, calls).lost >= t.lost
    ensures Run(t, calls).lost == t.lost <==> NothingRefused(t, calls)
    decreases |calls|
  {
    hide Do; hide LibcOk; hide Refused;
    if calls != [] {
      DoLoses(t, calls[0]);
      RunLoses(Do(t, calls[0]), calls[1..]);
    }
  }

  /** One malloc that gets NULL is enough. */
  lemma RefusedMalloc()
    ensures var calls, t := [Malloc(8, 0)], Run(START, [Malloc(8, 0)]);
      LibcOkAlong(START, calls) && t.nAllocb - t.nFreeb == 8 && Live(t.es) == 0
  {
    var c := Malloc(8, 0);
    assert [c][1..] == [];
    assert Run(Do(START, c), []) == Do(START, c);
  }

  // ---------------------------------------------------------------- conservation, whatever libc answers

  /** Each listed block counted as often as the list has it as allocated. */
  function Weighted(es: seq<Entry>): int {
    if es == [] then 0 else Weighted(es[..|es| - 1]) + es[|es| - 1].cnt * es[|es| - 1].size
  }

  lemma {:induction false} WeightedUpdate(es: seq<Entry>, k: nat, e: Entry)
    requires k < |es|
    ensures Weighted(es[k := e]) == Weighted(es) - es[k].cnt * es[k].size + e.cnt * e.size
  {
    var n := |es| - 1;
    if k < n {
      WeightedUpdate(es[..n], k, e);
      assert es[k := e][..n] == es[..n][k := e];
    } else {
      assert es[k := e][..n] == es[..n];
    }
  }

  lemma {:induction false} WeightedInsert(es: seq<Entry>, k: nat, e: Entry)
    requires k <= |es|
    ensures Weighted(es[..k] + [e] + es[k..]) == Weighted(es) + e.cnt * e.size
  {
    var n, after := |es|, es[..k] + [e] + es[k..];
    if k < n {
      WeightedInsert(es[..n - 1], k, e);
      assert after[..n] == es[..n - 1][..k] + [e] + es[..n - 1][k..];
      assert after[n] == es[n - 1];
    } else {
      assert after[..n] == es;
    }
  }

  /** What a grant of `size` bytes at `res` puts out of balance: all of it if libc refuses; and if the list has
      the address as allocated, its old size gives way to the new one for every allocation it counts. */
  function GrantSlip(es: seq<Entry>, size: int, res: int): int {
    if res == 0 then size
    else if Has(es, res) then es[Place(es, res)].cnt * (es[Place(es, res)].size - size)
    else 0
  }

  function Slip(t: Trace, c: Call): int {
    match c
    case Malloc(size, res) => GrantSlip(t.es, size, res)
    case Calloc(nmemb, size, res) => GrantSlip(t.es, Product(nmemb, size), res)
    case Realloc(ptr, size, res) =>
      if ptr == 0 && size == 0 then 0
      else if ptr == 0 || !IsLive(t.es, ptr) then GrantSlip(t.es, size, res)
      else if size == 0 || size <= SizeOf(t.es, ptr) then 0
      else GrantSlip(Lose(t, ptr).es, size, res)
    case Free(_) => 0
  }

  function Slips(t: Trace, calls: seq<Call>): int
    decreases |calls|
  {
    if calls == [] then 0 else Slip(t, calls[0]) + Slips(Do(t, calls[0]), calls[1..])
  }

  /** How far the byte counts are ahead of the list. */
  function Ahead(t: Trace): int {
    t.nAllocb - t.nFreeb - Weighted(t.es)
  }

  lemma Slipped(cnt: int, was: int, size: int)
    ensures (cnt + 1) * size == cnt * size + size && cnt * (was - size) == cnt * was - cnt * size
  {
  }

  lemma GainSlips(t: Trace, size: int, res: int)
    ensures Ahead(Gain(t, size, res)) == Ahead(t) + GrantSlip(t.es, size, res)
  {
    hide Weighted; hide Place;
    var k := Place(t.es, res);
    if res != 0 && Has(t.es, res) {
      var e := t.es[k];
      WeightedUpdate(t.es, k, Entry(res, size, e.cnt + 1));
      Slipped(e.cnt, e.size, size);
    } else if res != 0 {
      WeightedInsert(t.es, k, Entry(res, size, 1));
    }
  }

  lemma LoseSlips(t: Trace, ptr: int)
    requires Has(t.es, ptr)
    ensures Ahead(Lose(t, ptr)) == Ahead(t)
  {
    var e := t.es[Place(t.es, ptr)];
    WeightedUpdate(t.es, Place(t.es, ptr), e.(cnt := e.cnt - 1));
    assert (e.cnt - 1) * e.size == e.cnt * e.size - e.size;
  }

  lemma DoSlips(t: Trace, c: Call)
    ensures Ahead(Do(t, c)) == Ahead(t) + Slip(t, c)
  {
    hide Gain; hide Lose; hide GrantSlip; hide IsLive; hide Has; hide Ahead; hide Weighted;
    match c {
      case Malloc(size, res) => GainSlips(t, size, res); CountsApart(Gain(t, size, res));
      case Calloc(nmemb, size, res) =>
        GainSlips(t, Product(nmemb, size), res);
        CountsApart(Gain(t, Product(nmemb, size), res));
      case Free(ptr) =>
        if ptr != 0 && IsLive(t.es, ptr) {
          LiveIsListed(t.es, ptr);
          LoseSlips(t, ptr);
        }
      case Realloc(ptr, size, res) =>
        GainSlips(t, size, res);
        CountsApart(Gain(t, size, res));
        if ptr != 0 && IsLive(t.es, ptr) {
          LiveIsListed(t.es, ptr);
          LoseSlips(t, ptr);
          GainSlips(Lose(t, ptr), size, res);
          CountsApart(Gain(Lose(t, ptr), size, res));
        }
    }
  }

  lemma CountsApart(t: Trace)
    ensures forall n :: Ahead(t.(nMalloc := n)) == Ahead(t)
    ensures forall n :: Ahead(t.(nCalloc := n)) == Ahead(t)
    ensures forall n :: Ahead(t.(nRealloc := n)) == Ahead(t)
  {
  }

  lemma {:induction false} RunSlips(t: Trace, calls: seq<Call>)
    ensures Ahead(Run(t, calls)) == Ahead(t) + Slips(t, calls)
    decreases |calls|
  {
    hide Do; hide Ahead; hide Slip;
    if calls != [] {
      DoSlips(t, calls[0]);
      RunSlips(Do(t, calls[0]), calls[1..]);
    }
  }

  /** Whatever libc answers: allocated minus freed bytes is the size of the listed blocks, each counted as often
      as it is allocated, plus what the single calls have put out of balance. */
  lemma Conservation(calls: seq<Call>)
    ensures var t := Run(START, calls); t.nAllocb - t.nFreeb == Weighted(t.es) + Slips(START, calls)
  {
    hide Run; hide Slips; hide Weighted;
    NoneListed();
    RunSlips(START, calls);
  }

  lemma NoneListed()
    ensures Weighted([]) == 0
  {
  }

  // ---------------------------------------------------------------- single calls

  /** Freeing what is not allocated, or is freed already, changes nothing; so does a second free. */
  lemma BadFrees(t: Trace, ptr: int)
    requires Inv(t)
    ensures !IsLive(t.es, ptr) ==> Do(t, Free(ptr)) == t
    ensures Do(Do(t, Free(ptr)), Free(ptr)) == Do(t, Free(ptr))
  {
    if ptr != 0 && IsLive(t.es, ptr) {
      LoseKeeps(t, ptr);
    }
  }

  /** Allocating and freeing leaves the live bytes as they were, and moves both counters by the size. */
  lemma AllocThenFree(t: Trace, size: int, res: int)
    requires Inv(t) && LibcOk(t, Malloc(size, res)) && res != 0
    ensures var u := Do(Do(t, Malloc(size, res)), Free(res));
            Live(u.es) == Live(t.es) && u.nAllocb == t.nAllocb + size && u.nFreeb == t.nFreeb + size && !IsLive(u.es, res)
  {
    var u := Do(t, Malloc(size, res));
    AllocLive(t.es, res, size);
    AllocHas(t.es, res, size);
    DeallocLive(u.es, res);
  }

  lemma AllocHas(es: seq<Entry>, ptr: int, size: int)
    requires Sorted(es) && ZeroOrOne(es) && !IsLive(es, ptr)
    ensures IsLive(Alloc(es, ptr, size), ptr) && SizeOf(Alloc(es, ptr, size), ptr) == size
  {
    PlaceIs(Alloc(es, ptr, size), ptr, Place(es, ptr));
  }

  /** What fini lists as not freed. */
  function NonFreed(es: seq<Entry>): seq<Entry> {
    if es == [] then []
    else
      var e := es[|es| - 1];
      NonFreed(es[..|es| - 1]) + if e.cnt > 0 then [e] else []
  }

  /** It is the entries with a count above 0, as they are and in address order. */
  lemma {:induction false} NonFreedExactly(es: seq<Entry>)
    requires Sorted(es)
    ensures Sorted(NonFreed(es)) && forall e :: e in NonFreed(es) <==> e in es && e.cnt > 0
  {
    if es != [] {
      var n := |es| - 1;
      NonFreedExactly(es[..n]);
      forall e | e in es[..n] ensures e.ptr < es[n].ptr {
      }
      assert es == es[..n] + [es[n]];
      var before := NonFreed(es[..n]);
      assert NonFreed(es) == if es[n].cnt > 0 then before + [es[n]] else before;
      assert forall i :: 0 <= i < |before| ==> before[i] in before && before[i] in es[..n];
    }
  }

  function Bytes(es: seq<Entry>): int {
    if es == [] then 0 else Bytes(es[..|es| - 1]) + es[|es| - 1].size
  }

  /** The blocks listed as not freed make up exactly the live bytes. */
  lemma {:induction false} NonFreedBytes(es: seq<Entry>)
    requires ZeroOrOne(es)
    ensures Bytes(NonFreed(es)) == Live(es)
  {
    if es != [] {
      var n := |es| - 1;
      NonFreedBytes(es[..n]);
      assert NonFreed(es[..n]) + [es[n]] != [] && (NonFreed(es[..n]) + [es[n]])[..|NonFreed(es[..n])|] == NonFreed(es[..n]);
      assert NonFreed(es[..n]) + [] == NonFreed(es[..n]);
    }
  }

  lemma SameCount(t: Trace, ptr: int, size: int, res: int)
    requires Has(t.es, ptr)
    ensures Gain(Lose(t, ptr), size, res).nRealloc == t.nRealloc
  {
  }

  lemma DeallocAt(es: seq<Entry>, ptr: int)
    requires Has(es, ptr)
    ensures |Dealloc(es, ptr)| == |es| && Dealloc(es, ptr)[Place(es, ptr)].size == SizeOf(es, ptr)
  {
  }
}
