/** Removing an element from a sequence without duplicates. */
module Sequences {

  ghost predicate Distinct(ns: seq<int>) {
    forall i, j :: 0 <= i < j < |ns| ==> ns[i] != ns[j]
  }

  /** `ns` without the first occurrence of `x`. */
  function Without(ns: seq<int>, x: int): (r: seq<int>)
  {
    if ns == [] then []
    else if ns[0] == x then ns[1..]
    else [ns[0]] + Without(ns[1..], x)
  }

  lemma {:induction false} WithoutAt(ns: seq<int>, k: int)
    requires 0 <= k < |ns| && Distinct(ns)
    ensures Without(ns, ns[k]) == ns[..k] + ns[k + 1..]
  {
    if k > 0 {
      WithoutAt(ns[1..], k - 1);
      assert ns[1..][k - 1] == ns[k];
      assert ns[..k] + ns[k + 1..] == [ns[0]] + (ns[1..][..k - 1] + ns[1..][k..]);
    }
  }

  lemma {:induction false} WithoutAbsent(ns: seq<int>, x: int)
    requires x !in ns
    ensures Without(ns, x) == ns
  {
    if ns != [] {
      WithoutAbsent(ns[1..], x);
    }
  }

  lemma {:induction false} WithoutDistinct(ns: seq<int>, x: int)
    requires Distinct(ns)
    ensures Distinct(Without(ns, x))
    ensures forall y :: y in Without(ns, x) <==> y in ns && y != x
  {
    if ns != [] {
      WithoutDistinct(ns[1..], x);
      assert ns == [ns[0]] + ns[1..];
      if ns[0] != x {
        var r := Without(ns[1..], x);
        forall i, j | 0 <= i < j < |r| + 1 ensures ([ns[0]] + r)[i] != ([ns[0]] + r)[j] {
          assert r[j - 1] in r;
        }
      }
    }
  }

  lemma {:induction false} WithoutLast(ns: seq<int>, x: int)
    requires 0 < |ns| && x != ns[|ns| - 1]
    ensures 0 < |Without(ns, x)| && Without(ns, x)[|Without(ns, x)| - 1] == ns[|ns| - 1]
  {
    if ns[0] != x && 1 < |ns| {
      WithoutLast(ns[1..], x);
    }
  }

  /** `xs` is `ys` with some elements left out; the others are in the same order. */
  ghost predicate Part(xs: seq<int>, ys: seq<int>) {
    if xs == [] then true
    else ys != [] && if xs[0] == ys[0] then Part(xs[1..], ys[1..]) else Part(xs, ys[1..])
  }

  lemma {:induction false} PartLonger(xs: seq<int>, ys: seq<int>)
    requires ys != [] && Part(xs, ys[1..])
    ensures Part(xs, ys)
    decreases |ys|, 0
  {
    if xs != [] && xs[0] == ys[0] {
      PartShorter(xs, ys[1..]);
    }
  }

  lemma {:induction false} PartShorter(xs: seq<int>, ys: seq<int>)
    requires xs != [] && Part(xs, ys)
    ensures Part(xs[1..], ys)
    decreases |ys|, 1
  {
    if xs[0] == ys[0] {
      PartLonger(xs[1..], ys);
    } else {
      PartShorter(xs, ys[1..]);
      PartLonger(xs[1..], ys);
    }
  }

  lemma {:induction false} PartSelf(xs: seq<int>)
    ensures Part(xs, xs)
  {
    if xs != [] {
      PartSelf(xs[1..]);
    }
  }

  lemma {:induction false} WithoutPart(ns: seq<int>, x: int)
    ensures Part(Without(ns, x), ns)
  {
    if ns != [] {
      if ns[0] == x {
        PartSelf(ns[1..]);
        PartLonger(ns[1..], ns);
      } else {
        WithoutPart(ns[1..], x);
        assert Without(ns, x)[1..] == Without(ns[1..], x);
      }
    }
  }

  lemma {:induction false} PartOfPart(xs: seq<int>, ys: seq<int>, zs: seq<int>)
    requires Part(xs, ys) && Part(ys, zs)
    ensures Part(xs, zs)
    decreases |zs|
  {
    if xs != [] {
      if ys[0] != zs[0] {
        PartOfPart(xs, ys, zs[1..]);
        PartLonger(xs, zs);
      } else if xs[0] == ys[0] {
        PartOfPart(xs[1..], ys[1..], zs[1..]);
      } else {
        PartOfPart(xs, ys[1..], zs[1..]);
      }
    }
  }
}
