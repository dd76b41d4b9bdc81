/**
 * Sequence helpers standing in for the library operations the optimizer calls:
 * Python's `sum`, list concatenation, `np.sort(...)[::-1]` and `Series.unique()`.
 */
module Seqs {

  /** Sum of a sequence of millimetre lengths (Python's built-in `sum`). */
  function Sum(s: seq<nat>): nat
  {
    if |s| == 0 then 0 else Sum(s[..|s| - 1]) + s[|s| - 1]
  }

  lemma {:induction false} SumAppend(a: seq<nat>, b: seq<nat>)
    ensures Sum(a + b) == Sum(a) + Sum(b)
    decreases |b|
  {
    if |b| == 0 {
      assert a + b == a;
    } else {
      assert (a + b)[..|a + b| - 1] == a + b[..|b| - 1];
      SumAppend(a, b[..|b| - 1]);
    }
  }

  /** Sum only depends on the multiset of the elements. */
  lemma {:induction false} SumPermutation(a: seq<nat>, b: seq<nat>)
    requires multiset(a) == multiset(b)
    ensures Sum(a) == Sum(b)
    decreases |a|
  {
    if |a| == 0 {
      assert |b| == |multiset(b)| == 0;
    } else {
      var x := a[|a| - 1];
      var a' := a[..|a| - 1];
      assert a == a' + [x];
      assert x in multiset(b);
      var i :| 0 <= i < |b| && b[i] == x;
      var b' := b[..i] + b[i + 1..];
      assert b == b[..i] + [x] + b[i + 1..];
      assert multiset(b') == multiset(b) - multiset{x};
      assert multiset(a') == multiset(a) - multiset{x};
      SumPermutation(a', b');
      SumAppend(b[..i] + [x], b[i + 1..]);
      SumAppend(b[..i], [x]);
      SumAppend(b[..i], b[i + 1..]);
      assert Sum([x]) == x;
    }
  }

  /** Concatenation of all bars' piece lists, in bar order. */
  function Flatten(bars: seq<seq<nat>>): seq<nat>
  {
    if |bars| == 0 then [] else Flatten(bars[..|bars| - 1]) + bars[|bars| - 1]
  }

  /** Total number of pieces over all bars. */
  function PieceCount(bars: seq<seq<nat>>): nat
  {
    if |bars| == 0 then 0 else PieceCount(bars[..|bars| - 1]) + |bars[|bars| - 1]|
  }

  lemma {:induction false} FlattenLength(bars: seq<seq<nat>>)
    ensures |Flatten(bars)| == PieceCount(bars)
  {
    if |bars| > 0 {
      FlattenLength(bars[..|bars| - 1]);
    }
  }

  /** Replacing one bar's pieces replaces exactly that bar's share of the multiset. */
  lemma {:induction false} FlattenUpdate(bars: seq<seq<nat>>, i: nat, b: seq<nat>)
    requires i < |bars|
    ensures multiset(Flatten(bars[i := b])) == multiset(Flatten(bars)) - multiset(bars[i]) + multiset(b)
    ensures PieceCount(bars[i := b]) == PieceCount(bars) - |bars[i]| + |b|
    decreases |bars|
  {
    var n := |bars| - 1;
    var u := bars[i := b];
    assert u[..n] == if i == n then bars[..n] else bars[..n][i := b];
    if i == n {
      assert Flatten(u) == Flatten(bars[..n]) + b;
    } else {
      FlattenUpdate(bars[..n], i, b);
      assert Flatten(u) == Flatten(bars[..n][i := b]) + bars[n];
      FlattenContains(bars[..n], i);
    }
  }

  /** The multiset of one bar is part of the multiset of all bars. */
  lemma {:induction false} FlattenContains(bars: seq<seq<nat>>, i: nat)
    requires i < |bars|
    ensures multiset(bars[i]) <= multiset(Flatten(bars))
    ensures |bars[i]| <= PieceCount(bars)
    decreases |bars|
  {
    var n := |bars| - 1;
    if i < n {
      FlattenContains(bars[..n], i);
      assert bars[..n][i] == bars[i];
    }
  }

  predicate Descending(s: seq<nat>)
  {
    forall i, j :: 0 <= i < j < |s| ==> s[i] >= s[j]
  }

  /** Insert `x` into a descending sequence, keeping it descending. */
  function Insert(x: nat, s: seq<nat>): (r: seq<nat>)
    requires Descending(s)
    ensures multiset(r) == multiset(s) + multiset{x}
    ensures Descending(r)
    ensures |r| == |s| + 1
  {
    if |s| == 0 then [x]
    else if x >= s[0] then [x] + s
    else
      var t := Insert(x, s[1..]);
      assert s == [s[0]] + s[1..];
      BoundedByHead(s[0], s[1..], x, t);
      [s[0]] + t
  }

  lemma BoundedByHead(h: nat, s: seq<nat>, x: nat, t: seq<nat>)
    requires forall k :: 0 <= k < |s| ==> s[k] <= h
    requires x <= h
    requires multiset(t) == multiset(s) + multiset{x}
    requires Descending(t)
    ensures Descending([h] + t)
  {
    forall k | 0 <= k < |t|
      ensures t[k] <= h
    {
      assert t[k] in multiset(t);
      if t[k] != x {
        assert t[k] in multiset(s);
      }
    }
  }

  /** `np.sort(lengths)[::-1]`: the lengths, largest first. */
  function SortDescending(s: seq<nat>): (r: seq<nat>)
    ensures multiset(r) == multiset(s)
    ensures Descending(r)
    ensures |r| == |s|
  {
    if |s| == 0 then []
    else
      assert s == [s[0]] + s[1..];
      Insert(s[0], SortDescending(s[1..]))
  }

  /** `unique()`: the distinct elements in order of first appearance. */
  function Distinct(s: seq<string>): (r: seq<string>)
    ensures forall i, j :: 0 <= i < j < |r| ==> r[i] != r[j]
    ensures forall x :: x in r <==> x in s
  {
    if |s| == 0 then []
    else
      var d := Distinct(s[..|s| - 1]);
      assert forall x :: x in s <==> x in s[..|s| - 1] || x == s[|s| - 1];
      if s[|s| - 1] in d then d else d + [s[|s| - 1]]
  }

  /** A product of two positive numbers is positive. */
  lemma PositiveProduct(a: nat, b: nat)
    requires a > 0 && b > 0
    ensures a * b > 0
  {
  }
}
