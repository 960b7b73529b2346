/** Least-recently-used replacement, without lines and timestamps.

    The recency stack of a cache set lists all tags the set has seen, most recently used
    first.  A set with E lines holds the first E tags of the stack.
 */
module Recency {
  import opened Numbers
  import opened Sequences

  /** The first E elements, or all if there are fewer. */
  function Top(st: seq<int>, E: nat): (r: seq<int>)
  {
    st[..Min(E, |st|)]
  }

  function Touch(st: seq<int>, tag: int): seq<int> {
    [tag] + Without(st, tag)
  }

  /** The recency stack after the tags `tr`, in this order. */
  function StackOf(tr: seq<int>): seq<int> {
    if tr == [] then [] else Touch(StackOf(tr[..|tr| - 1]), tr[|tr| - 1])
  }

  lemma TouchDistinct(st: seq<int>, tag: int)
    requires Distinct(st)
    ensures Distinct(Touch(st, tag))
    ensures forall y :: y in Touch(st, tag) <==> y in st || y == tag
    ensures |Touch(st, tag)| == if tag in st then |st| else |st| + 1
  {
    WithoutDistinct(st, tag);
    if tag in st {
      var k :| 0 <= k < |st| && st[k] == tag;
      WithoutAt(st, k);
    } else {
      WithoutAbsent(st, tag);
    }
  }

  /** The stack holds every tag seen, once. */
  lemma {:induction false} StackHolds(tr: seq<int>)
    ensures Distinct(StackOf(tr))
    ensures forall t :: t in StackOf(tr) <==> t in tr
  {
    if tr != [] {
      var rest, last := tr[..|tr| - 1], tr[|tr| - 1];
      StackHolds(rest);
      TouchDistinct(StackOf(rest), last);
      assert tr == rest + [last];
    }
  }

  /** The tags in front of `t` in the stack. */
  function Ahead(st: seq<int>, t: int): set<int> {
    if st == [] || st[0] == t then {} else {st[0]} + Ahead(st[1..], t)
  }

  /** The distinct tags used since the last use of `t`. */
  function UsedSince(tr: seq<int>, t: int): set<int>
    requires t in tr
  {
    var last := tr[|tr| - 1];
    if last == t then {}
    else
      assert tr == tr[..|tr| - 1] + [last];
      {last} + UsedSince(tr[..|tr| - 1], t)
  }

  lemma {:induction false} AheadWithout(st: seq<int>, x: int, t: int)
    requires Distinct(st) && t != x
    ensures Ahead(Without(st, x), t) == Ahead(st, t) - {x}
  {
    if st != [] {
      assert Distinct(st[1..]);
      if st[0] == x {
        AheadAbsent(st[1..], x, t);
      } else {
        AheadWithout(st[1..], x, t);
        assert Without(st, x)[1..] == Without(st[1..], x);
      }
    }
  }

  lemma {:induction false} AheadAbsent(st: seq<int>, x: int, t: int)
    requires x !in st
    ensures x !in Ahead(st, t)
  {
    if st != [] {
      AheadAbsent(st[1..], x, t);
    }
  }

  /** The tags in front of `t` in the recency stack are those used since `t` was. */
  lemma {:induction false} StackIsRecency(tr: seq<int>, t: int)
    requires t in tr
    ensures Ahead(StackOf(tr), t) == UsedSince(tr, t)
  {
    var rest, last := tr[..|tr| - 1], tr[|tr| - 1];
    assert tr == rest + [last];
    StackHolds(rest);
    if last != t {
      StackIsRecency(rest, t);
      AheadWithout(StackOf(rest), last, t);
      assert Touch(StackOf(rest), last)[1..] == Without(StackOf(rest), last);
    }
  }

  /** The first E elements are those with fewer than E elements in front of them. */
  lemma {:induction false} TopByAhead(st: seq<int>, E: nat, t: int)
    requires Distinct(st)
    ensures t in Top(st, E) <==> t in st && |Ahead(st, t)| < E
  {
    if st != [] && st[0] != t {
      assert Distinct(st[1..]);
      AheadAbsent(st[1..], st[0], t);
      assert |Ahead(st, t)| == |Ahead(st[1..], t)| + 1;
      if E > 0 {
        TopByAhead(st[1..], E - 1, t);
        assert Top(st, E) == [st[0]] + Top(st[1..], E - 1);
      }
    } else if st != [] {
      assert E > 0 ==> Top(st, E)[0] == t;
    }
  }

  /** A set with E lines still holds `t` exactly if fewer than E other tags have been used since. */
  lemma HeldIffRecent(tr: seq<int>, E: nat, t: int)
    ensures t in Top(StackOf(tr), E) <==> t in tr && |UsedSince(tr, t)| < E
  {
    StackHolds(tr);
    TopByAhead(StackOf(tr), E, t);
    if t in tr {
      StackIsRecency(tr, t);
    }
  }

  // ---------------------------------------------------------------- a set with E lines

  /** One access to a set that holds `c`, most recent first, and has E lines. */
  function LruTouch(c: seq<int>, tag: int, E: nat): seq<int> {
    Top(Touch(c, tag), E)
  }

  /** What a set with E lines holds after the tags `tr`. */
  function Lru(tr: seq<int>, E: nat): seq<int> {
    if tr == [] then [] else LruTouch(Lru(tr[..|tr| - 1], E), tr[|tr| - 1], E)
  }

  lemma TouchTopHit(st: seq<int>, E: nat, k: int)
    requires Distinct(st) && 0 <= k < |Top(st, E)|
    ensures Top(Touch(Top(st, E), st[k]), E) == Top(Touch(st, st[k]), E)
  {
    var c, n := Top(st, E), |Top(st, E)|;
    WithoutAt(st, k);
    WithoutAt(c, k);
    var full := [st[k]] + (st[..k] + st[k + 1..]);
    var r := [st[k]] + (st[..k] + st[k + 1..n]);
    assert c[..k] == st[..k] && c[k + 1..] == st[k + 1..n];
    assert Touch(c, st[k]) == r;
    assert full[..n] == r;
  }

  /** Forgetting what falls off the end does not change the first E elements. */
  lemma TouchTop(st: seq<int>, tag: int, E: nat)
    requires Distinct(st)
    ensures Top(Touch(Top(st, E), tag), E) == Top(Touch(st, tag), E)
  {
    var c := Top(st, E);
    if tag in c {
      var k :| 0 <= k < |c| && c[k] == tag;
      TouchTopHit(st, E, k);
    } else {
      WithoutAbsent(c, tag);
      if tag in st {
        var k :| 0 <= k < |st| && st[k] == tag;
        assert k >= |c|;
        WithoutAt(st, k);
      } else {
        WithoutAbsent(st, tag);
      }
    }
  }

  /** The bounded list is the top of the unbounded stack. */
  lemma {:induction false} LruIsTop(tr: seq<int>, E: nat)
    ensures Lru(tr, E) == Top(StackOf(tr), E)
  {
    if tr != [] {
      var rest := tr[..|tr| - 1];
      LruIsTop(rest, E);
      StackHolds(rest);
      TouchTop(StackOf(rest), tr[|tr| - 1], E);
    }
  }

  /** Inclusion: what a set with E lines holds, a set with more lines holds as well. */
  lemma Inclusion(tr: seq<int>, E: nat, E': nat)
    requires E <= E'
    ensures forall t :: t in Lru(tr, E) ==> t in Lru(tr, E')
  {
    LruIsTop(tr, E);
    LruIsTop(tr, E');
    assert Top(StackOf(tr), E) == Top(StackOf(tr), E')[..Min(E, |StackOf(tr)|)];
  }
}
