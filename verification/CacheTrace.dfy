/** The simulator on recency stacks, and what it counts over whole traces. */
module CacheTrace {
  import opened Numbers
  import opened Sequences
  import opened Recency
  import opened AddressBits

  // ---------------------------------------------------------------- the trace

  /** A line of the trace file. */
  datatype Event = Event(instr: char, addr: int)

  /** The addresses the cache is accessed with: a load or store once, a modify twice, anything else not at all. */
  function Accesses(trace: seq<Event>): seq<int> {
    if trace == [] then []
    else
      var e := trace[|trace| - 1];
      Accesses(trace[..|trace| - 1]) +
      if e.instr == 'M' then [e.addr, e.addr] else if e.instr == 'L' || e.instr == 'S' then [e.addr] else []
  }

  /** How many events of the trace have this instruction. */
  function Count(trace: seq<Event>, instr: char): int {
    |set k | 0 <= k < |trace| && trace[k].instr == instr|
  }

  lemma CountMore(trace: seq<Event>, instr: char)
    requires trace != []
    ensures Count(trace, instr) ==
              Count(trace[..|trace| - 1], instr) + if trace[|trace| - 1].instr == instr then 1 else 0
  {
    var n := |trace| - 1;
    var all, before := set k | 0 <= k < |trace| && trace[k].instr == instr, set k | 0 <= k < n && trace[..n][k].instr == instr;
    assert all == if trace[n].instr == instr then before + {n} else before;
  }

  /** There are as many accesses as loads and stores, and two for each modify. */
  lemma {:induction false} AccessCount(trace: seq<Event>)
    ensures |Accesses(trace)| == Count(trace, 'L') + Count(trace, 'S') + 2 * Count(trace, 'M')
  {
    if trace != [] {
      hide Count;
      AccessCount(trace[..|trace| - 1]);
      CountMore(trace, 'L');
      CountMore(trace, 'S');
      CountMore(trace, 'M');
    } else {
      assert Accesses(trace) == [];
    }
  }

  /** The event at k makes its accesses behind those of the events before it. */
  lemma {:induction false} AccessesAt(trace: seq<Event>, k: nat)
    requires k < |trace|
    ensures var uses, p, e := Accesses(trace), |Accesses(trace[..k])|, trace[k];
      && |Accesses(trace[..k + 1])| == p + (if e.instr == 'M' then 2 else if e.instr == 'L' || e.instr == 'S' then 1 else 0)
      && |Accesses(trace[..k + 1])| <= |uses|
      && (e.instr == 'M' ==> uses[p] == uses[p + 1] == e.addr)
      && (e.instr == 'L' || e.instr == 'S' ==> uses[p] == e.addr)
    decreases |trace|
  {
    var n := |trace| - 1;
    if k < n {
      AccessesAt(trace[..n], k);
      assert trace[..n][..k] == trace[..k] && trace[..n][..k + 1] == trace[..k + 1];
    } else {
      assert trace[..k + 1] == trace;
    }
  }

  lemma NextAccesses(trace: seq<Event>, k: nat)
    requires k < |trace|
    ensures var uses, e := Accesses(trace[..k]), trace[k];
      Accesses(trace[..k + 1]) ==
        if e.instr == 'M' then uses + [e.addr] + [e.addr] else if e.instr == 'L' || e.instr == 'S' then uses + [e.addr] else uses
  {
    assert trace[..k + 1][..k] == trace[..k];
  }

  // ---------------------------------------------------------------- the abstract simulator

  /** Recency stacks of all sets, and the counters. */
  datatype Sim = Sim(stacks: seq<seq<int>>, hits: int, misses: int, evictions: int)

  function SimStart(S: nat): Sim {
    Sim(seq(S, _ => []), 0, 0, 0)
  }

  /** One access with E lines per set. */
  function SimAccess(x: Sim, E: nat, setIndex: int, tag: int): (y: Sim)
    requires 0 <= setIndex < |x.stacks|
    ensures |y.stacks| == |x.stacks|
  {
    var st := x.stacks[setIndex];
    var hit := tag in Top(st, E);
    Sim(x.stacks[setIndex := Touch(st, tag)],
        if hit then x.hits + 1 else x.hits,
        if hit then x.misses else x.misses + 1,
        if !hit && |st| >= E then x.evictions + 1 else x.evictions)
  }

  ghost predicate InRange(uses: seq<int>) {
    forall k :: 0 <= k < |uses| ==> 0 <= uses[k] < WORD
  }

  /** The simulation of a whole sequence of accesses. */
  function Simulation(uses: seq<int>, E: nat, s: nat, b: nat): (x: Sim)
    requires 1 <= s && s + b <= 63 && InRange(uses)
    ensures |x.stacks| == Pow2(s)
  {
    if uses == [] then SimStart(Pow2(s))
    else
      var addr := uses[|uses| - 1];
      BitsOf(addr, s, b);
      SimAccess(Simulation(uses[..|uses| - 1], E, s, b), E, SetOf(addr, s, b), TagOf(addr, s, b))
  }

  /** One more access. */
  lemma OneMore(uses: seq<int>, addr: int, E: nat, s: nat, b: nat)
    requires 1 <= s && s + b <= 63 && InRange(uses) && 0 <= addr < WORD
    ensures 0 <= SetOf(addr, s, b) < Pow2(s) && InRange(uses + [addr])
    ensures Simulation(uses + [addr], E, s, b) == SimAccess(Simulation(uses, E, s, b), E, SetOf(addr, s, b), TagOf(addr, s, b))
  {
    hide Pow2; hide SimAccess; hide SetOf; hide TagOf;
    BitsOf(addr, s, b);
    assert (uses + [addr])[..|uses|] == uses;
  }

  lemma NoUses(E: nat, s: nat, b: nat)
    requires 1 <= s && s + b <= 63
    ensures Accesses([]) == [] && InRange([]) && Simulation([], E, s, b) == SimStart(Pow2(s))
  {
  }

  /** The tags accessed in set `i`, in order. */
  function TagsOf(uses: seq<int>, i: int, s: nat, b: nat): seq<int>
    requires s + b <= 63
  {
    if uses == [] then []
    else
      var addr := uses[|uses| - 1];
      TagsOf(uses[..|uses| - 1], i, s, b) + if SetOf(addr, s, b) == i then [TagOf(addr, s, b)] else []
  }

  lemma StackOfMore(tr: seq<int>, tag: int)
    ensures StackOf(tr + [tag]) == Touch(StackOf(tr), tag)
  {
    assert (tr + [tag])[..|tr|] == tr;
  }

  /** Each set's stack is the recency stack of the tags used in that set. */
  lemma {:induction false} StacksFollowTrace(uses: seq<int>, E: nat, s: nat, b: nat, i: int)
    requires 1 <= s && s + b <= 63 && InRange(uses) && 0 <= i < Pow2(s)
    ensures Simulation(uses, E, s, b).stacks[i] == StackOf(TagsOf(uses, i, s, b))
  {
    hide Pow2; hide SetOf; hide TagOf; hide Touch; hide Top;
    if uses != [] {
      var n := |uses| - 1;
      StacksFollowTrace(uses[..n], E, s, b, i);
      BitsOf(uses[n], s, b);
      var before := TagsOf(uses[..n], i, s, b);
      StackOfMore(before, TagOf(uses[n], s, b));
      assert before + [] == before;
    }
  }

  // ---------------------------------------------------------------- which accesses hit

  /** The tags other than `t` used in set `i` after the access at j and before the one at k. */
  ghost function Between(uses: seq<int>, j: int, k: int, i: int, t: int, s: nat, b: nat): set<int>
    requires s + b <= 63 && 0 <= j && k <= |uses|
  {
    set m | j < m < k && SetOf(uses[m], s, b) == i && TagOf(uses[m], s, b) != t :: TagOf(uses[m], s, b)
  }

  /** The access at k finds its block in the cache: the block was accessed before, and since then fewer than E others
      of its set. */
  ghost predicate HitAt(uses: seq<int>, k: int, E: nat, s: nat, b: nat)
    requires s + b <= 63 && 0 <= k < |uses|
  {
    exists j :: 0 <= j < k && SetOf(uses[j], s, b) == SetOf(uses[k], s, b) && TagOf(uses[j], s, b) == TagOf(uses[k], s, b) &&
                |Between(uses, j, k, SetOf(uses[k], s, b), TagOf(uses[k], s, b), s, b)| < E
  }

  /** j is the last access to the block before the end. */
  ghost predicate LastAt(uses: seq<int>, j: int, i: int, t: int, s: nat, b: nat)
    requires s + b <= 63
  {
    && 0 <= j < |uses| && SetOf(uses[j], s, b) == i && TagOf(uses[j], s, b) == t
    && forall m :: j < m < |uses| && SetOf(uses[m], s, b) == i ==> TagOf(uses[m], s, b) != t
  }

  lemma {:induction false} LastExists(uses: seq<int>, i: int, t: int, s: nat, b: nat) returns (j: int)
    requires s + b <= 63
    ensures t in TagsOf(uses, i, s, b) ==> LastAt(uses, j, i, t, s, b)
    ensures t !in TagsOf(uses, i, s, b) ==> forall m :: 0 <= m < |uses| && SetOf(uses[m], s, b) == i ==> TagOf(uses[m], s, b) != t
  {
    hide SetOf; hide TagOf;
    j := -1;
    if uses != [] {
      var n := |uses| - 1;
      if SetOf(uses[n], s, b) == i && TagOf(uses[n], s, b) == t {
        j := n;
      } else {
        j := LastExists(uses[..n], i, t, s, b);
        assert forall m :: 0 <= m < n ==> uses[..n][m] == uses[m];
      }
    }
  }

  lemma {:induction false} UsedBetween(uses: seq<int>, j: int, i: int, t: int, s: nat, b: nat)
    requires s + b <= 63 && LastAt(uses, j, i, t, s, b)
    ensures t in TagsOf(uses, i, s, b) && UsedSince(TagsOf(uses, i, s, b), t) == Between(uses, j, |uses|, i, t, s, b)
    decreases |uses|
  {
    hide SetOf; hide TagOf;
    var n := |uses| - 1;
    var tr := TagsOf(uses, i, s, b);
    if j == n {
      assert tr[|tr| - 1] == t;
      assert Between(uses, j, |uses|, i, t, s, b) == {};
    } else {
      assert forall m :: 0 <= m < n ==> uses[..n][m] == uses[m];
      UsedBetween(uses[..n], j, i, t, s, b);
      var before := Between(uses[..n], j, n, i, t, s, b);
      if SetOf(uses[n], s, b) == i {
        assert tr[..|tr| - 1] == TagsOf(uses[..n], i, s, b);
        assert Between(uses, j, |uses|, i, t, s, b) == before + {TagOf(uses[n], s, b)};
      } else {
        assert tr == TagsOf(uses[..n], i, s, b);
        assert Between(uses, j, |uses|, i, t, s, b) == before;
      }
    }
  }

  lemma SubsetSize(x: set<int>, y: set<int>)
    requires x <= y
    ensures |x| <= |y|
  {
    assert y == x + (y - x);
  }

  /** The last access of a run of accesses hits in the simulation exactly if it should. */
  lemma HitIffRecent(uses: seq<int>, E: nat, s: nat, b: nat)
    requires 1 <= s && s + b <= 63 && uses != [] && InRange(uses)
    ensures var n := |uses| - 1;
      var x, y := Simulation(uses[..n], E, s, b), Simulation(uses, E, s, b);
      if HitAt(uses, n, E, s, b) then y.hits == x.hits + 1 && y.misses == x.misses
      else y.hits == x.hits && y.misses == x.misses + 1
  {
    hide Pow2; hide SetOf; hide TagOf; hide Touch; hide Top; hide Between; hide LastAt; hide UsedSince;
    var n := |uses| - 1;
    var before := uses[..n];
    BitsOf(uses[n], s, b);
    var i, t := SetOf(uses[n], s, b), TagOf(uses[n], s, b);
    StacksFollowTrace(before, E, s, b, i);
    HeldIffRecent(TagsOf(before, i, s, b), E, t);
    var j := LastExists(before, i, t, s, b);
    RecentIsHit(uses, j, E, s, b);
  }

  lemma RecentIsHit(uses: seq<int>, j: int, E: nat, s: nat, b: nat)
    requires s + b <= 63 && uses != []
    requires var n := |uses| - 1;
      var i, t, tr := SetOf(uses[n], s, b), TagOf(uses[n], s, b), TagsOf(uses[..n], SetOf(uses[n], s, b), s, b);
      && (t in tr ==> LastAt(uses[..n], j, i, t, s, b))
      && (t !in tr ==> forall m :: 0 <= m < n && SetOf(uses[..n][m], s, b) == i ==> TagOf(uses[..n][m], s, b) != t)
    ensures var n := |uses| - 1;
      var tr, t := TagsOf(uses[..n], SetOf(uses[n], s, b), s, b), TagOf(uses[n], s, b);
      HitAt(uses, n, E, s, b) <==> t in tr && |UsedSince(tr, t)| < E
  {
    hide SetOf; hide TagOf; hide TagsOf; hide UsedSince;
    var n := |uses| - 1;
    var before, i, t := uses[..n], SetOf(uses[n], s, b), TagOf(uses[n], s, b);
    assert forall m :: 0 <= m < n ==> before[m] == uses[m];
    if t in TagsOf(before, i, s, b) {
      UsedBetween(before, j, i, t, s, b);
      assert Between(before, j, n, i, t, s, b) == Between(uses, j, n, i, t, s, b);
      forall k | 0 <= k < n && SetOf(uses[k], s, b) == i && TagOf(uses[k], s, b) == t
        ensures |Between(uses, j, n, i, t, s, b)| <= |Between(uses, k, n, i, t, s, b)|
      {
        SubsetSize(Between(uses, j, n, i, t, s, b), Between(uses, k, n, i, t, s, b));
      }
    }
  }

  /** The accesses among the first k that hit. */
  ghost function HitSet(uses: seq<int>, k: nat, E: nat, s: nat, b: nat): set<int>
    requires s + b <= 63 && k <= |uses|
  {
    set m | 0 <= m < k && HitAt(uses, m, E, s, b)
  }

  lemma HitAtPrefix(uses: seq<int>, n: nat, m: nat, E: nat, s: nat, b: nat)
    requires s + b <= 63 && m < n <= |uses|
    ensures HitAt(uses[..n], m, E, s, b) <==> HitAt(uses, m, E, s, b)
  {
    hide SetOf; hide TagOf;
    forall j | 0 <= j < m ensures uses[..n][j] == uses[j] &&
      Between(uses[..n], j, m, SetOf(uses[m], s, b), TagOf(uses[m], s, b), s, b) == Between(uses, j, m, SetOf(uses[m], s, b), TagOf(uses[m], s, b), s, b) {
    }
  }

  /** The counters are what they should be: hits are the accesses to a block of which fewer than E others of its set
      have been accessed since its last access, and all other accesses are misses. */
  lemma {:induction false} HitsCounted(uses: seq<int>, E: nat, s: nat, b: nat)
    requires 1 <= s && s + b <= 63 && InRange(uses)
    ensures Simulation(uses, E, s, b).hits == |HitSet(uses, |uses|, E, s, b)|
    ensures Simulation(uses, E, s, b).misses == |uses| - |HitSet(uses, |uses|, E, s, b)|
  {
    hide SetOf; hide TagOf; hide SimAccess; hide HitAt;
    if uses == [] {
      assert HitSet(uses, 0, E, s, b) == {};
    } else {
      var n := |uses| - 1;
      HitsCounted(uses[..n], E, s, b);
      HitIffRecent(uses, E, s, b);
      forall m | 0 <= m < n ensures HitAt(uses[..n], m, E, s, b) <==> HitAt(uses, m, E, s, b) {
        HitAtPrefix(uses, n, m, E, s, b);
      }
      var before := HitSet(uses[..n], n, E, s, b);
      assert HitSet(uses, |uses|, E, s, b) == if HitAt(uses, n, E, s, b) then before + {n} else before;
    }
  }

  // ---------------------------------------------------------------- properties of whole traces

  /** Number of valid lines, given the stacks. */
  function ValidLines(stacks: seq<seq<int>>, E: nat): int {
    if stacks == [] then 0 else ValidLines(stacks[..|stacks| - 1], E) + Min(E, |stacks[|stacks| - 1]|)
  }

  lemma {:induction false} ValidLinesUpdate(stacks: seq<seq<int>>, E: nat, i: int, st: seq<int>)
    requires 0 <= i < |stacks|
    ensures ValidLines(stacks[i := st], E) == ValidLines(stacks, E) - Min(E, |stacks[i]|) + Min(E, |st|)
  {
    var n := |stacks| - 1;
    if i < n {
      ValidLinesUpdate(stacks[..n], E, i, st);
      assert stacks[i := st][..n] == stacks[..n][i := st];
    } else {
      assert stacks[i := st][..n] == stacks[..n];
    }
  }

  lemma {:induction false} ValidLinesBound(stacks: seq<seq<int>>, E: nat)
    ensures 0 <= ValidLines(stacks, E) <= |stacks| * E
  {
    if stacks != [] {
      ValidLinesBound(stacks[..|stacks| - 1], E);
    }
  }

  lemma {:induction false} ValidLinesNone(stacks: seq<seq<int>>, E: nat)
    requires forall i :: 0 <= i < |stacks| ==> stacks[i] == []
    ensures ValidLines(stacks, E) == 0
  {
    if stacks != [] {
      ValidLinesNone(stacks[..|stacks| - 1], E);
    }
  }

  /** The first k lines of set i. */
  function Cells(i: int, k: nat): set<(int, int)> {
    set e | 0 <= e < k :: (i, e)
  }

  lemma {:induction false} CellsCount(i: int, k: nat)
    ensures |Cells(i, k)| == k
  {
    if k > 0 {
      CellsCount(i, k - 1);
      assert Cells(i, k) == Cells(i, k - 1) + {(i, k - 1)};
    }
  }

  function Filling(stacks: seq<seq<int>>, E: nat, i: int): int
    requires 0 <= i < |stacks|
  {
    Min(E, |stacks[i]|)
  }

  /** ValidLines is a number of lines: of each set as many as its stack fills. */
  lemma {:induction false} ValidLinesCount(stacks: seq<seq<int>>, E: nat, n: nat, cells: set<(int, int)>)
    requires n <= |stacks|
    requires forall i, e :: (i, e) in cells <==> 0 <= i < n && 0 <= e < Filling(stacks, E, i)
    ensures |cells| == ValidLines(stacks[..n], E)
  {
    if n == 0 {
      forall c ensures c !in cells {
        var (i, e) := c;
        assert (i, e) !in cells;
      }
      assert cells == {};
    } else {
      var top := Cells(n - 1, Filling(stacks, E, n - 1));
      var rest := cells - top;
      CellsCount(n - 1, Filling(stacks, E, n - 1));
      forall i, e ensures (i, e) in top <==> i == n - 1 && 0 <= e < Filling(stacks, E, n - 1) {
      }
      ValidLinesCount(stacks, E, n - 1, rest);
      assert top <= cells;
      assert cells == rest + top;
      assert stacks[..n][..n - 1] == stacks[..n - 1];
    }
  }

  /** What one access keeps: distinct stacks, and the balance of the counters. */
  ghost predicate Balanced(x: Sim, E: nat, uses: int) {
    && (forall i :: 0 <= i < |x.stacks| ==> Distinct(x.stacks[i]))
    && x.hits + x.misses == uses
    && x.misses - x.evictions == ValidLines(x.stacks, E)
  }

  lemma AccessBalanced(x: Sim, E: nat, uses: int, i: int, tag: int)
    requires 0 <= i < |x.stacks| && Balanced(x, E, uses)
    ensures Balanced(SimAccess(x, E, i, tag), E, uses + 1)
  {
    hide Distinct;
    var st := x.stacks[i];
    TouchDistinct(st, tag);
    ValidLinesUpdate(x.stacks, E, i, Touch(st, tag));
    MissMeansNew(st, E, tag);
  }

  lemma MissMeansNew(st: seq<int>, E: nat, tag: int)
    ensures tag in Top(st, E) ==> tag in st
    ensures |st| <= E ==> Top(st, E) == st
  {
  }

  /** The second access of a modify hits. */
  lemma SecondUseHits(x: Sim, E: nat, i: int, tag: int)
    requires 0 <= i < |x.stacks| && 1 <= E
    ensures var y := SimAccess(x, E, i, tag);
            SimAccess(y, E, i, tag).hits == y.hits + 1 && SimAccess(y, E, i, tag).misses == y.misses
  {
    var st := Touch(x.stacks[i], tag);
    assert Top(st, E)[0] == tag;
  }

  /** Over any run of accesses: every one hits or misses, and each miss that did not evict has filled one more line. */
  lemma {:induction false} CountsBalance(uses: seq<int>, E: nat, s: nat, b: nat)
    requires 1 <= s && s + b <= 63 && InRange(uses)
    ensures Balanced(Simulation(uses, E, s, b), E, |uses|)
    ensures 0 <= Simulation(uses, E, s, b).misses - Simulation(uses, E, s, b).evictions <= Pow2(s) * E
  {
    hide SimAccess; hide Pow2; hide SetOf; hide TagOf;
    var x := Simulation(uses, E, s, b);
    if uses == [] {
      ValidLinesNone(x.stacks, E);
    } else {
      var n := |uses| - 1;
      CountsBalance(uses[..n], E, s, b);
      BitsOf(uses[n], s, b);
      AccessBalanced(Simulation(uses[..n], E, s, b), E, n, SetOf(uses[n], s, b), TagOf(uses[n], s, b));
    }
    ValidLinesBound(x.stacks, E);
  }

  /** `y` is a simulation with at least as many lines: same stacks, at least as many hits. */
  ghost predicate NoWorse(x: Sim, y: Sim) {
    x.stacks == y.stacks && x.hits <= y.hits && x.misses >= y.misses
  }

  lemma AccessNoWorse(x: Sim, y: Sim, E: nat, E': nat, i: int, tag: int)
    requires NoWorse(x, y) && E <= E' && 0 <= i < |x.stacks|
    ensures NoWorse(SimAccess(x, E, i, tag), SimAccess(y, E', i, tag))
    ensures SimAccess(x, E, i, tag).stacks == SimAccess(y, E', i, tag).stacks
  {
    TopGrows(x.stacks[i], E, E');
  }

  lemma TopGrows(st: seq<int>, E: nat, E': nat)
    requires E <= E'
    ensures forall t :: t in Top(st, E) ==> t in Top(st, E')
  {
    assert Top(st, E) == Top(st, E')[..Min(E, |st|)];
  }

  /** More lines per set never cost a miss, and hold all that fewer lines hold. */
  lemma {:induction false} MoreLinesNoMoreMisses(uses: seq<int>, E: nat, E': nat, s: nat, b: nat)
    requires 1 <= s && s + b <= 63 && InRange(uses) && E <= E'
    ensures NoWorse(Simulation(uses, E, s, b), Simulation(uses, E', s, b))
    ensures forall i, t :: 0 <= i < Pow2(s) && t in Top(Simulation(uses, E, s, b).stacks[i], E) ==>
              t in Top(Simulation(uses, E', s, b).stacks[i], E')
  {
    hide SimAccess; hide Pow2; hide SetOf; hide TagOf; hide Top;
    if uses != [] {
      var n := |uses| - 1;
      MoreLinesNoMoreMisses(uses[..n], E, E', s, b);
      BitsOf(uses[n], s, b);
      AccessNoWorse(Simulation(uses[..n], E, s, b), Simulation(uses[..n], E', s, b), E, E', SetOf(uses[n], s, b), TagOf(uses[n], s, b));
    }
    forall i | 0 <= i < Pow2(s)
      ensures forall t :: t in Top(Simulation(uses, E, s, b).stacks[i], E) ==> t in Top(Simulation(uses, E, s, b).stacks[i], E')
    {
      TopGrows(Simulation(uses, E, s, b).stacks[i], E, E');
    }
  }
}
