/** The cache simulator: lines with timestamps, tied to the recency stacks. */
module CacheSim {
  import opened Numbers
  import opened Sequences
  import opened Recency
  import opened AddressBits
  import opened CacheTrace

  datatype Line = Line(tag: int, valid: bool, useTime: int)

  /** Line slot[r] holds the tag in stack position r. */
  ghost predicate Placed(row: seq<Line>, st: seq<int>, slot: seq<int>) {
    && |slot| == Min(|row|, |st|)
    && (forall r :: 0 <= r < |slot| ==> 0 <= slot[r] < |slot| && row[slot[r]].tag == st[r])
  }

  /** Later in the stack means an older timestamp. */
  ghost predicate Ordered(row: seq<Line>, cnt: int, slot: seq<int>) {
    && (forall r :: 0 <= r < |slot| ==> 0 <= slot[r] < |row| && row[slot[r]].useTime <= cnt)
    && (forall r, q :: 0 <= r < q < |slot| ==> row[slot[r]].useTime > row[slot[q]].useTime)
  }

  /** The valid lines are the first ones, and each has a stack position. */
  ghost predicate Filled(row: seq<Line>, slot: seq<int>) {
    && |slot| <= |row|
    && (forall e :: 0 <= e < |row| ==> (row[e].valid <==> e < |slot|))
    && (forall e :: 0 <= e < |slot| ==> e in slot)
  }

  /** The lines `row` of a set, last used at time `cnt`, hold the top of the recency stack `st`;
      `slot` gives the line of each stack position. */
  ghost predicate SetOk(row: seq<Line>, cnt: int, st: seq<int>, slot: seq<int>) {
    Distinct(st) && Distinct(slot) && Placed(row, st, slot) && Ordered(row, cnt, slot) && Filled(row, slot)
  }

  /** The tags of the valid lines. */
  ghost function Contents(row: seq<Line>): set<int> {
    set e | 0 <= e < |row| && row[e].valid :: row[e].tag
  }

  /** The valid lines hold exactly the most recently used distinct tags, as many as there are lines for. */
  lemma ContentsAreRecent(row: seq<Line>, cnt: int, st: seq<int>, slot: seq<int>)
    requires SetOk(row, cnt, st, slot)
    ensures forall t :: t in Contents(row) <==> t in Top(st, |row|)
  {
    var k := |slot|;
    forall t ensures t in Contents(row) <==> t in Top(st, |row|) {
      if t in Contents(row) {
        var e :| 0 <= e < |row| && row[e].valid && row[e].tag == t;
        assert e in slot;
        var r :| 0 <= r < k && slot[r] == e;
        assert Top(st, |row|)[r] == t;
      }
      if t in Top(st, |row|) {
        var r :| 0 <= r < k && st[r] == t;
        assert row[slot[r]].valid && row[slot[r]].tag == t;
      }
    }
  }

  /** No tag is held twice, timestamps of valid lines differ, and none is later than the use counter. */
  lemma LinesDiffer(row: seq<Line>, cnt: int, st: seq<int>, slot: seq<int>)
    requires SetOk(row, cnt, st, slot)
    ensures forall d, e :: 0 <= d < e < |row| && row[d].valid && row[e].valid ==>
              row[d].tag != row[e].tag && row[d].useTime != row[e].useTime
    ensures forall e :: 0 <= e < |row| && row[e].valid ==> row[e].useTime <= cnt
  {
    forall e | 0 <= e < |row| && row[e].valid ensures row[e].useTime <= cnt {
      var r := SlotOf(row, slot, e);
    }
    forall d, e | 0 <= d < e < |row| && row[d].valid && row[e].valid
      ensures row[d].tag != row[e].tag && row[d].useTime != row[e].useTime
    {
      var r := SlotOf(row, slot, d);
      var q := SlotOf(row, slot, e);
      assert st[r] != st[q];
    }
  }

  lemma SlotOf(row: seq<Line>, slot: seq<int>, e: int) returns (r: nat)
    requires Filled(row, slot) && 0 <= e < |row| && row[e].valid
    ensures r < |slot| && slot[r] == e
  {
    assert e in slot;
    r :| 0 <= r < |slot| && slot[r] == e;
  }

  /** The step all three cases of an access have in common: line `x` takes the tag and the newest time. */
  ghost predicate Written(row: seq<Line>, row': seq<Line>, x: int, tag: int, cnt: int) {
    0 <= x < |row| && row' == row[x := Line(tag, true, cnt + 1)]
  }

  /** Where the elements of Touch(s, s[r]) come from. */
  function Source(r: int, q: int): int {
    if q == 0 then r else if q <= r then q - 1 else q
  }

  lemma MovedToFront(s: seq<int>, r: int)
    requires Distinct(s) && 0 <= r < |s|
    ensures |Touch(s, s[r])| == |s|
    ensures forall q :: 0 <= q < |s| ==> Touch(s, s[r])[q] == s[Source(r, q)]
  {
    WithoutAt(s, r);
  }

  lemma OrderedAfter(row: seq<Line>, row': seq<Line>, cnt: int, slot: seq<int>, slot': seq<int>, x: int, tag: int)
    requires Ordered(row, cnt, slot) && Written(row, row', x, tag, cnt) && Distinct(slot')
    requires |slot'| > 0 && slot'[0] == x
    requires forall q :: 1 <= q < |slot'| ==> slot'[q] in slot
    requires forall p, q :: 1 <= p < q < |slot'| ==> row[slot'[p]].useTime > row[slot'[q]].useTime
    ensures Ordered(row', cnt + 1, slot')
  {
    forall q | 1 <= q < |slot'| ensures slot'[q] != x && row'[slot'[q]] == row[slot'[q]] && row[slot'[q]].useTime <= cnt {
      assert slot'[q] != slot'[0];
      var r :| 0 <= r < |slot| && slot[r] == slot'[q];
    }
  }

  /** A hit in stack position r. */
  lemma HitOk(row: seq<Line>, row': seq<Line>, cnt: int, st: seq<int>, slot: seq<int>, r: int)
    requires SetOk(row, cnt, st, slot) && 0 <= r < |slot|
    requires Written(row, row', slot[r], st[r], cnt)
    ensures SetOk(row', cnt + 1, Touch(st, st[r]), Touch(slot, slot[r]))
  {
    hide Touch; hide Distinct;
    var st', slot' := Touch(st, st[r]), Touch(slot, slot[r]);
    TouchDistinct(st, st[r]);
    TouchDistinct(slot, slot[r]);
    MovedToFront(st, r);
    MovedToFront(slot, r);
    assert Placed(row', st', slot') by {
      forall q | 0 <= q < |slot'| ensures 0 <= slot'[q] < |slot'| && row'[slot'[q]].tag == st'[q] {
        SlotOther(slot, r, Source(r, q));
      }
    }
    OrderedAfter(row, row', cnt, slot, slot', slot[r], st[r]);
  }

  lemma SlotOther(slot: seq<int>, r: int, q: int)
    requires Distinct(slot) && 0 <= r < |slot| && 0 <= q < |slot|
    ensures slot[q] == slot[r] <==> q == r
  {
  }

  /** A miss while line |slot| is still empty. */
  lemma FillOk(row: seq<Line>, row': seq<Line>, cnt: int, st: seq<int>, slot: seq<int>, tag: int)
    requires SetOk(row, cnt, st, slot) && |slot| < |row| && tag !in st
    requires Written(row, row', |slot|, tag, cnt)
    ensures SetOk(row', cnt + 1, Touch(st, tag), [|slot|] + slot)
  {
    hide Distinct; hide Touch;
    var st', slot' := Touch(st, tag), [|slot|] + slot;
    TouchAbsent(st, tag);
    PrependDistinct(st, tag);
    PrependDistinct(slot, |slot|);
    FillPlaced(row, row', cnt, st, slot, tag);
    OrderedAfter(row, row', cnt, slot, slot', |slot|, tag);
    forall e | 0 <= e < |slot'| ensures e in slot' {
      assert e < |slot| ==> e in slot;
    }
  }

  lemma TouchAbsent(st: seq<int>, tag: int)
    requires tag !in st
    ensures Touch(st, tag) == [tag] + st
  {
    WithoutAbsent(st, tag);
  }

  lemma FillPlaced(row: seq<Line>, row': seq<Line>, cnt: int, st: seq<int>, slot: seq<int>, tag: int)
    requires Placed(row, st, slot) && |slot| < |row| && Written(row, row', |slot|, tag, cnt)
    ensures Placed(row', [tag] + st, [|slot|] + slot)
  {
  }

  lemma PrependDistinct(slot: seq<int>, x: int)
    requires Distinct(slot) && x !in slot
    ensures Distinct([x] + slot)
  {
  }

  /** A miss when all lines are taken: the line of the last stack position is replaced. */
  lemma EvictOk(row: seq<Line>, row': seq<Line>, cnt: int, st: seq<int>, slot: seq<int>, tag: int)
    requires SetOk(row, cnt, st, slot) && |slot| == |row| > 0 && tag !in Top(st, |row|)
    requires Written(row, row', slot[|row| - 1], tag, cnt)
    ensures SetOk(row', cnt + 1, Touch(st, tag), Touch(slot, slot[|row| - 1]))
  {
    hide Distinct; hide Touch;
    var r := |row| - 1;
    var st', slot' := Touch(st, tag), Touch(slot, slot[r]);
    TouchDistinct(st, tag);
    TouchDistinct(slot, slot[r]);
    MovedToFront(slot, r);
    TouchBeyond(st, tag, |row|);
    assert Placed(row', st', slot') by {
      forall q | 0 <= q < |slot'| ensures 0 <= slot'[q] < |slot'| && row'[slot'[q]].tag == st'[q] {
        SlotOther(slot, r, Source(r, q));
      }
    }
    OrderedAfter(row, row', cnt, slot, slot', slot[r], tag);
  }

  /** Touching a tag beyond the first E positions shifts the first E - 1 down by one. */
  lemma TouchBeyond(st: seq<int>, tag: int, E: nat)
    requires Distinct(st) && 0 < E <= |st| && tag !in Top(st, E)
    ensures |Touch(st, tag)| >= |st| && Touch(st, tag)[0] == tag
    ensures forall q :: 1 <= q < E ==> Touch(st, tag)[q] == st[q - 1]
  {
    assert forall i :: 0 <= i < E ==> st[i] in Top(st, E) by {
      assert forall i :: 0 <= i < E ==> Top(st, E)[i] == st[i];
    }
    if tag in st {
      var k :| 0 <= k < |st| && st[k] == tag;
      WithoutAt(st, k);
    } else {
      WithoutAbsent(st, tag);
    }
  }

  // ---------------------------------------------------------------- what the searches find

  lemma FoundHit(row: seq<Line>, cnt: int, st: seq<int>, slot: seq<int>, x: int, tag: int)
    requires SetOk(row, cnt, st, slot) && 0 <= x < |row| && row[x].valid && row[x].tag == tag
    ensures tag in Top(st, |row|)
    ensures forall row' :: Written(row, row', x, tag, cnt) ==> SetOk(row', cnt + 1, Touch(st, tag), Touch(slot, x))
  {
    assert x in slot;
    var r :| 0 <= r < |slot| && slot[r] == x;
    assert st[r] == tag && Top(st, |row|)[r] == tag;
    forall row' | Written(row, row', x, tag, cnt) ensures SetOk(row', cnt + 1, Touch(st, tag), Touch(slot, x)) {
      HitOk(row, row', cnt, st, slot, r);
    }
  }

  lemma FoundNone(row: seq<Line>, cnt: int, st: seq<int>, slot: seq<int>, tag: int)
    requires SetOk(row, cnt, st, slot) && forall e :: 0 <= e < |row| && row[e].valid ==> row[e].tag != tag
    ensures tag !in Top(st, |row|)
  {
    ContentsAreRecent(row, cnt, st, slot);
  }

  lemma FoundEmpty(row: seq<Line>, cnt: int, st: seq<int>, slot: seq<int>, x: int, tag: int)
    requires SetOk(row, cnt, st, slot) && tag !in Top(st, |row|)
    requires 0 <= x < |row| && !row[x].valid && forall e :: 0 <= e < x ==> row[e].valid
    ensures |st| < |row|
    ensures forall row' :: Written(row, row', x, tag, cnt) ==> SetOk(row', cnt + 1, Touch(st, tag), [x] + slot)
  {
    assert |slot| < |row| ==> !row[|slot|].valid;
    assert x == |slot|;
    assert Top(st, |row|) == st;
    forall row' | Written(row, row', x, tag, cnt) ensures SetOk(row', cnt + 1, Touch(st, tag), [x] + slot) {
      FillOk(row, row', cnt, st, slot, tag);
    }
  }

  lemma LastIsOldest(row: seq<Line>, cnt: int, slot: seq<int>, r: int)
    requires Ordered(row, cnt, slot) && Filled(row, slot) && |slot| == |row| && 0 <= r < |slot|
    requires forall e :: 0 <= e < |row| ==> row[slot[r]].useTime <= row[e].useTime
    ensures r == |row| - 1
  {
    var last := slot[|row| - 1];
    assert row[slot[r]].useTime <= row[last].useTime;
  }

  lemma FoundVictim(row: seq<Line>, cnt: int, st: seq<int>, slot: seq<int>, x: int, tag: int)
    requires SetOk(row, cnt, st, slot) && tag !in Top(st, |row|) && |row| > 0
    requires forall e :: 0 <= e < |row| ==> row[e].valid
    requires 0 <= x < |row| && forall e :: 0 <= e < |row| ==> row[x].useTime <= row[e].useTime
    ensures |st| >= |row|
    ensures forall row' :: Written(row, row', x, tag, cnt) ==> SetOk(row', cnt + 1, Touch(st, tag), Touch(slot, x))
  {
    assert row[|row| - 1].valid;
    assert |slot| == |row|;
    assert x in slot;
    var r :| 0 <= r < |slot| && slot[r] == x;
    LastIsOldest(row, cnt, slot, r);
    forall row' | Written(row, row', x, tag, cnt) ensures SetOk(row', cnt + 1, Touch(st, tag), Touch(slot, x)) {
      EvictOk(row, row', cnt, st, slot, tag);
    }
  }

  class Cache {
    const s: nat
    const b: nat
    const E: nat
    const lines: array2<Line>
    const useCnt: array<int>
    var nHit: int
    var nMiss: int
    var nEvict: int

    ghost var stacks: seq<seq<int>>
    ghost var slots: seq<seq<int>>

    ghost function Row(i: int): (r: seq<Line>)
      requires 0 <= i < lines.Length0
      reads lines
      ensures |r| == lines.Length1 && forall e :: 0 <= e < |r| ==> r[e] == lines[i, e]
    {
      seq(lines.Length1, e requires 0 <= e < lines.Length1 reads lines => lines[i, e])
    }

    ghost predicate Shape()
      reads this
    {
      && 1 <= E && 1 <= s && s + b <= 63
      && lines.Length0 == useCnt.Length == Pow2(s) && lines.Length1 == E
      && |stacks| == |slots| == Pow2(s)
    }

    ghost predicate Valid()
      reads this, lines, useCnt
    {
      Shape() && forall i :: 0 <= i < |stacks| ==> SetOk(Row(i), useCnt[i], stacks[i], slots[i])
    }

    /** ValidLines of the stacks is the number of lines whose valid bit is set. */
    lemma ValidBits()
      requires Valid()
      ensures |set i, e | 0 <= i < Pow2(s) && 0 <= e < E && lines[i, e].valid :: (i, e)| == ValidLines(stacks, E)
    {
      var cells := set i, e | 0 <= i < Pow2(s) && 0 <= e < E && lines[i, e].valid :: (i, e);
      forall i, e ensures (i, e) in cells <==> 0 <= i < |stacks| && 0 <= e < Filling(stacks, E, i) {
        if 0 <= i < |stacks| {
          assert SetOk(Row(i), useCnt[i], stacks[i], slots[i]);
          if 0 <= e < E {
            assert Row(i)[e] == lines[i, e];
          }
        }
      }
      ValidLinesCount(stacks, E, |stacks|, cells);
      assert stacks[..|stacks|] == stacks;
    }

    ghost function View(): Sim
      reads this
    {
      Sim(stacks, nHit, nMiss, nEvict)
    }

    /** All lines start invalid. */
    constructor (s: nat, E: nat, b: nat)
      requires 1 <= E && 1 <= s && s + b <= 63
      ensures Valid() && View() == SimStart(Pow2(s)) && this.s == s && this.E == E && this.b == b
      ensures fresh(lines) && fresh(useCnt)
    {
      this.s := s;
      this.E := E;
      this.b := b;
      lines := new Line[Pow2(s), E]((i, e) => Line(0, false, 0));
      useCnt := new int[Pow2(s)](i => 0);
      nHit, nMiss, nEvict := 0, 0, 0;
      stacks := seq(Pow2(s), _ => []);
      slots := seq(Pow2(s), _ => []);
    }

    /** Line x of set i takes the tag and the set's next timestamp.  On a hit the line has the tag
        already, and on a hit or an eviction it is valid already. */
    method Use(i: int, x: int, tag: int, ghost st: seq<int>, ghost slot: seq<int>)
      requires Valid() && 0 <= i < |stacks| && 0 <= x < E
      requires forall row' :: Written(Row(i), row', x, tag, useCnt[i]) ==> SetOk(row', useCnt[i] + 1, st, slot)
      modifies lines, useCnt, this`stacks, this`slots
      ensures Valid() && stacks == old(stacks)[i := st]
    {
      ghost var row := Row(i);
      ghost var c := useCnt[i];
      useCnt[i] := useCnt[i] + 1;
      lines[i, x] := Line(tag, true, useCnt[i]);
      stacks := stacks[i := st];
      slots := slots[i := slot];
      assert Written(row, Row(i), x, tag, c);
      forall j | 0 <= j < |stacks| ensures SetOk(Row(j), useCnt[j], stacks[j], slots[j]) {
        if j != i {
          assert Row(j) == old(Row(j));
          assert old(SetOk(Row(j), useCnt[j], stacks[j], slots[j]));
        }
      }
    }

    /** The search loop: the line that holds the tag, or E; failing that, the lowest empty line, or E. */
    method Search(i: int, tag: int) returns (hitLine: int, emptyLine: int, setFull: bool)
      requires Shape() && 0 <= i < |stacks|
      ensures 0 <= hitLine <= E
      ensures hitLine < E ==> Row(i)[hitLine].valid && Row(i)[hitLine].tag == tag
      ensures hitLine == E ==> forall e :: 0 <= e < E && Row(i)[e].valid ==> Row(i)[e].tag != tag
      ensures hitLine == E ==> 0 <= emptyLine <= E && (setFull <==> emptyLine == E) && (forall e :: 0 <= e < emptyLine ==> Row(i)[e].valid)
      ensures hitLine == E && emptyLine < E ==> !Row(i)[emptyLine].valid
    {
      hitLine, emptyLine, setFull := E, E, true;
      var Ei := 0;
      while Ei < E
        invariant 0 <= Ei <= E && hitLine == E
        invariant forall e :: 0 <= e < Ei && lines[i, e].valid ==> lines[i, e].tag != tag
        invariant setFull <==> emptyLine == E
        invariant emptyLine == E || (0 <= emptyLine < Ei && !lines[i, emptyLine].valid)
        invariant forall e :: 0 <= e < Ei && e < emptyLine ==> lines[i, e].valid
      {
        if lines[i, Ei].valid {
          if lines[i, Ei].tag == tag {
            hitLine := Ei;
            break;
          }
        } else {
          emptyLine := if emptyLine < Ei then emptyLine else Ei;
          if setFull { setFull := false; }
        }
        Ei := Ei + 1;
      }
    }

    /** The line with the smallest timestamp. */
    method Victim(i: int) returns (victimLine: int)
      requires Shape() && 0 <= i < |stacks|
      ensures 0 <= victimLine < E && forall e :: 0 <= e < E ==> Row(i)[victimLine].useTime <= Row(i)[e].useTime
    {
      victimLine := 0;
      var leastRecent := lines[i, 0].useTime;
      var Ei := 1;
      while Ei < E
        invariant 1 <= Ei <= E && 0 <= victimLine < E && leastRecent == lines[i, victimLine].useTime
        invariant forall e :: 0 <= e < Ei ==> leastRecent <= lines[i, e].useTime
      {
        if leastRecent > lines[i, Ei].useTime {
          victimLine := Ei;
          leastRecent := lines[i, Ei].useTime;
        }
        Ei := Ei + 1;
      }
    }

    /** accessCache */
    method AccessCache(addr: int)
      requires Valid() && 0 <= addr < WORD
      modifies this, lines, useCnt
      ensures Shape() && 0 <= SetOf(addr, s, b) < Pow2(s)
      ensures Valid() && View() == SimAccess(old(View()), E, SetOf(addr, s, b), TagOf(addr, s, b))
    {
      hide SetOk; hide Touch; hide Pow2; hide SetOf; hide TagOf; hide Written; hide Top;
      BitsOf(addr, s, b);
      var tag := TagOf(addr, s, b);
      var i := SetOf(addr, s, b);
      ghost var row, c, st, slot := Row(i), useCnt[i], stacks[i], slots[i];
      var hitLine, emptyLine, setFull := Search(i, tag);
      if hitLine < E {
        FoundHit(row, c, st, slot, hitLine, tag);
        Use(i, hitLine, tag, Touch(st, tag), Touch(slot, hitLine));
        nHit := nHit + 1;
        return;
      }
      FoundNone(row, c, st, slot, tag);
      nMiss := nMiss + 1;
      if setFull {
        var victimLine := Victim(i);
        assert Row(i) == row;
        FoundVictim(row, c, st, slot, victimLine, tag);
        Use(i, victimLine, tag, Touch(st, tag), Touch(slot, victimLine));
        nEvict := nEvict + 1;
      } else {
        FoundEmpty(row, c, st, slot, emptyLine, tag);
        Use(i, emptyLine, tag, Touch(st, tag), [emptyLine] + slot);
      }
    }

    /** main's loop over the trace: a modify falls through to the access of loads and stores. */
    method Simulate(trace: seq<Event>)
      requires Valid() && View() == SimStart(Pow2(s)) && forall e :: e in trace ==> 0 <= e.addr < WORD
      modifies this, lines, useCnt
      ensures Valid() && InRange(Accesses(trace)) && View() == Simulation(Accesses(trace), E, s, b)
      ensures nHit + nMiss == Count(trace, 'L') + Count(trace, 'S') + 2 * Count(trace, 'M')
      ensures nHit == |HitSet(Accesses(trace), |Accesses(trace)|, E, s, b)|
      ensures nMiss - nEvict == |set i, e | 0 <= i < Pow2(s) && 0 <= e < E && lines[i, e].valid :: (i, e)|
      ensures forall i, t :: 0 <= i < Pow2(s) ==>
                (t in Contents(Row(i)) <==>
                 var tr := TagsOf(Accesses(trace), i, s, b); t in tr && |UsedSince(tr, t)| < E)
    {
      hide Pow2; hide SimAccess; hide SetOf; hide TagOf; hide SetOk; hide Count; hide HitSet;
      hide Simulation; hide Accesses; hide InRange; hide SimStart;
      NoUses(E, s, b);
      var k := 0;
      assert trace[..k] == [];
      while k < |trace|
        invariant 0 <= k <= |trace| && Valid() && InRange(Accesses(trace[..k]))
        invariant View() == Simulation(Accesses(trace[..k]), E, s, b)
      {
        var e := trace[k];
        ghost var uses := Accesses(trace[..k]);
        assert e in trace;
        NextAccesses(trace, k);
        if e.instr == 'M' {
          OneMore(uses, e.addr, E, s, b);
          AccessCache(e.addr);
          uses := uses + [e.addr];
        }
        if e.instr == 'M' || e.instr == 'L' || e.instr == 'S' {
          OneMore(uses, e.addr, E, s, b);
          AccessCache(e.addr);
          uses := uses + [e.addr];
        }
        k := k + 1;
      }
      assert trace[..k] == trace;
      Outcome(trace);
    }

    /** What the counters and lines are once the trace has been simulated. */
    lemma Outcome(trace: seq<Event>)
      requires Valid() && InRange(Accesses(trace)) && View() == Simulation(Accesses(trace), E, s, b)
      ensures nHit + nMiss == Count(trace, 'L') + Count(trace, 'S') + 2 * Count(trace, 'M')
      ensures nHit == |HitSet(Accesses(trace), |Accesses(trace)|, E, s, b)|
      ensures nMiss - nEvict == |set i, e | 0 <= i < Pow2(s) && 0 <= e < E && lines[i, e].valid :: (i, e)|
      ensures forall i, t :: 0 <= i < Pow2(s) ==>
                (t in Contents(Row(i)) <==>
                 var tr := TagsOf(Accesses(trace), i, s, b); t in tr && |UsedSince(tr, t)| < E)
    {
      hide Pow2; hide SimAccess; hide SetOf; hide TagOf; hide SetOk; hide Count; hide HitSet;
      var uses := Accesses(trace);
      AccessCount(trace);
      HitsCounted(uses, E, s, b);
      CountsBalance(uses, E, s, b);
      ValidBits();
      forall i, t | 0 <= i < Pow2(s)
        ensures t in Contents(Row(i)) <==> t in TagsOf(uses, i, s, b) && |UsedSince(TagsOf(uses, i, s, b), t)| < E
      {
        ContentsAreRecent(Row(i), useCnt[i], stacks[i], slots[i]);
        StacksFollowTrace(uses, E, s, b, i);
        HeldIffRecent(TagsOf(uses, i, s, b), E, t);
      }
    }
  }
}
