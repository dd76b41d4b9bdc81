/**
 * First-fit-decreasing pattern generation for one profile and one stock length
 * (cutting_optimizer.py lines 62-82). `patterns` and `remaining_lengths` are two
 * parallel lists: bar `i` holds the pieces `patterns[i]` and has
 * `remaining_lengths[i]` millimetres of room left.
 */
module Packing {
  import opened Wrappers
  import opened Seqs

  /** The two parallel lists `patterns` and `remaining_lengths`. */
  datatype Packing = Packing(bars: seq<seq<nat>>, remaining: seq<int>)

  predicate Parallel(p: Packing)
  {
    |p.bars| == |p.remaining|
  }

  /** The index of the first bar whose remaining room is at least `x`, if any. */
  function FirstFit(remaining: seq<int>, x: nat): (r: Option<nat>)
    ensures r.Some? ==> r.value < |remaining| && x <= remaining[r.value]
    ensures r.Some? ==> forall j :: 0 <= j < r.value ==> remaining[j] < x
    ensures r.None? ==> forall j :: 0 <= j < |remaining| ==> remaining[j] < x
  {
    if |remaining| == 0 then None
    else if x <= remaining[0] then Some(0)
    else
      match FirstFit(remaining[1..], x)
      case None => None
      case Some(i) => Some(i + 1)
  }

  /**
   * One step of the heuristic: `x` goes into the first bar with room for it,
   * whose room then drops by `x + gap`; otherwise a new bar opens with
   * `stock - x - gap` left.
   */
  function Place(p: Packing, x: nat, stock: nat, gap: nat): (q: Packing)
    requires Parallel(p)
    ensures Parallel(q)
  {
    match FirstFit(p.remaining, x)
    case Some(i) => Packing(p.bars[i := p.bars[i] + [x]], p.remaining[i := p.remaining[i] - x - gap])
    case None => Packing(p.bars + [[x]], p.remaining + [stock - x - gap])
  }

  /** The packing after the heuristic has placed every length, in the given order. */
  function Pack(lengths: seq<nat>, stock: nat, gap: nat): (p: Packing)
    ensures Parallel(p)
  {
    if |lengths| == 0 then Packing([], [])
    else Place(Pack(lengths[..|lengths| - 1], stock, gap), lengths[|lengths| - 1], stock, gap)
  }

  /** The loop of lines 66-82, run on the lengths already sorted largest first. */
  method FirstFitDecreasing(lengths: seq<nat>, stock: nat, gap: nat)
    returns (patterns: seq<seq<nat>>, remaining: seq<int>)
    ensures Packing(patterns, remaining) == Pack(lengths, stock, gap)
    ensures multiset(Flatten(patterns)) == multiset(lengths)
    ensures |patterns| == |remaining| <= |lengths|
    ensures forall i :: 0 <= i < |patterns| ==> |patterns[i]| > 0
    ensures Accounted(Packing(patterns, remaining), stock, gap)
  {
    patterns, remaining := [], [];
    for k := 0 to |lengths|
      invariant Packing(patterns, remaining) == Pack(lengths[..k], stock, gap)
    {
      patterns, remaining := PlaceLength(patterns, remaining, lengths[k], stock, gap);
      assert lengths[..k + 1][..k] == lengths[..k];
    }
    assert lengths[..|lengths|] == lengths;
    PackShape(lengths, stock, gap);
    PackConserves(lengths, stock, gap);
    PackRemaining(lengths, stock, gap);
  }

  /**
   * The body of the loop for one length: scan the bars in creation order and
   * put the length into the first one with room, or open a new bar.
   */
  method PlaceLength(patterns: seq<seq<nat>>, remaining: seq<int>, length: nat, stock: nat, gap: nat)
    returns (patterns': seq<seq<nat>>, remaining': seq<int>)
    requires |patterns| == |remaining|
    ensures Packing(patterns', remaining') == Place(Packing(patterns, remaining), length, stock, gap)
  {
    patterns', remaining' := patterns, remaining;
    var added := false;
    var i := 0;
    while i < |remaining'| && !added
      decreases |remaining'| - i, if added then 0 else 1
      invariant 0 <= i <= |remaining'| == |remaining|
      invariant !added ==> patterns' == patterns && remaining' == remaining
      invariant !added ==> forall j :: 0 <= j < i ==> remaining[j] < length
      invariant added ==> Packing(patterns', remaining') == Place(Packing(patterns, remaining), length, stock, gap)
    {
      if length <= remaining'[i] {
        assert FirstFit(remaining, length) == Some(i);
        patterns' := patterns'[i := patterns'[i] + [length]];
        remaining' := remaining'[i := remaining'[i] - length - gap];
        added := true;
      } else {
        i := i + 1;
      }
    }
    if !added {
      assert FirstFit(remaining, length) == None;
      patterns' := patterns' + [[length]];
      remaining' := remaining' + [stock - length - gap];
    }
  }

  /**
   * First-fit choice: when some bar has room for `x`, the lowest-index such bar
   * receives it and no other bar changes.
   */
  lemma PlaceIntoFirstFit(p: Packing, x: nat, stock: nat, gap: nat, i: nat)
    requires Parallel(p) && i < |p.bars| && x <= p.remaining[i]
    requires forall j :: 0 <= j < i ==> p.remaining[j] < x
    ensures |Place(p, x, stock, gap).bars| == |p.bars|
    ensures Place(p, x, stock, gap).bars[i] == p.bars[i] + [x]
    ensures Place(p, x, stock, gap).remaining[i] == p.remaining[i] - x - gap
    ensures forall j :: 0 <= j < |p.bars| && j != i ==>
      Place(p, x, stock, gap).bars[j] == p.bars[j] && Place(p, x, stock, gap).remaining[j] == p.remaining[j]
  {
  }

  /**
   * A new bar is opened exactly when no bar has room: it goes last, holds only
   * `x`, and the existing bars are untouched.
   */
  lemma PlaceOpensBar(p: Packing, x: nat, stock: nat, gap: nat)
    requires Parallel(p)
    ensures (forall j :: 0 <= j < |p.remaining| ==> p.remaining[j] < x) <==>
      |Place(p, x, stock, gap).bars| == |p.bars| + 1
    ensures |Place(p, x, stock, gap).bars| == |p.bars| + 1 ==>
      Place(p, x, stock, gap) == Packing(p.bars + [[x]], p.remaining + [stock - x - gap])
  {
  }

  /** The number of bars never exceeds the number of pieces, and no bar is empty. */
  lemma {:induction false} PackShape(lengths: seq<nat>, stock: nat, gap: nat)
    ensures |Pack(lengths, stock, gap).bars| <= |lengths|
    ensures forall i :: 0 <= i < |Pack(lengths, stock, gap).bars| ==> |Pack(lengths, stock, gap).bars[i]| > 0
  {
    if |lengths| > 0 {
      PackShape(lengths[..|lengths| - 1], stock, gap);
    }
  }

  /**
   * Conservation: the bars' pieces, taken together, are a permutation of the
   * lengths; no piece is lost or duplicated.
   */
  lemma {:induction false} PackConserves(lengths: seq<nat>, stock: nat, gap: nat)
    ensures multiset(Flatten(Pack(lengths, stock, gap).bars)) == multiset(lengths)
    ensures PieceCount(Pack(lengths, stock, gap).bars) == |lengths|
  {
    if |lengths| > 0 {
      var n := |lengths| - 1;
      PackConserves(lengths[..n], stock, gap);
      PlaceConserves(Pack(lengths[..n], stock, gap), lengths[n], stock, gap);
      assert lengths == lengths[..n] + [lengths[n]];
    }
  }

  lemma PlaceConserves(p: Packing, x: nat, stock: nat, gap: nat)
    requires Parallel(p)
    ensures multiset(Flatten(Place(p, x, stock, gap).bars)) == multiset(Flatten(p.bars)) + multiset{x}
    ensures PieceCount(Place(p, x, stock, gap).bars) == PieceCount(p.bars) + 1
  {
    match FirstFit(p.remaining, x)
    case Some(i) =>
      FlattenUpdate(p.bars, i, p.bars[i] + [x]);
      FlattenContains(p.bars, i);
    case None =>
      assert (p.bars + [[x]])[..|p.bars|] == p.bars;
  }

  /** The accounting `remaining = stock - sum(piece + gap)` for every bar of `p`. */
  predicate Accounted(p: Packing, stock: nat, gap: nat)
    requires Parallel(p)
  {
    forall i :: 0 <= i < |p.bars| ==> p.remaining[i] == stock - Sum(p.bars[i]) - gap * |p.bars[i]|
  }

  /**
   * Remaining-capacity accounting: every bar has `stock` minus
   * `piece + gap` for each of its pieces left.
   */
  lemma {:induction false} PackRemaining(lengths: seq<nat>, stock: nat, gap: nat)
    ensures Accounted(Pack(lengths, stock, gap), stock, gap)
  {
    if |lengths| > 0 {
      var n := |lengths| - 1;
      PackRemaining(lengths[..n], stock, gap);
      PlaceAccounted(Pack(lengths[..n], stock, gap), lengths[n], stock, gap);
    }
  }

  lemma PlaceAccounted(p: Packing, x: nat, stock: nat, gap: nat)
    requires Parallel(p) && Accounted(p, stock, gap)
    ensures Accounted(Place(p, x, stock, gap), stock, gap)
  {
    var q := Place(p, x, stock, gap);
    match FirstFit(p.remaining, x)
    case Some(i) =>
      assert (p.bars[i] + [x])[..|p.bars[i]|] == p.bars[i];
      assert Sum(p.bars[i] + [x]) == Sum(p.bars[i]) + x;
    case None =>
      assert [x][..0] == [];
      assert Sum([x]) == x;
      assert q.bars[|p.bars|] == [x];
  }

  /**
   * When every piece fits an empty bar, no bar is over-committed by more than
   * one gap: the room left is at least `-gap` (not at least 0).
   */
  lemma {:induction false} PackRemainingBound(lengths: seq<nat>, stock: nat, gap: nat)
    requires forall k :: 0 <= k < |lengths| ==> lengths[k] <= stock
    ensures forall i :: 0 <= i < |Pack(lengths, stock, gap).remaining| ==> Pack(lengths, stock, gap).remaining[i] >= -(gap as int)
  {
    if |lengths| > 0 {
      PackRemainingBound(lengths[..|lengths| - 1], stock, gap);
    }
  }

  /**
   * The room left can be negative: a piece that exactly fills a bar leaves
   * `-gap`, and a piece longer than the stock opens a bar already short.
   */
  lemma RemainingCanBeNegative()
    ensures Pack([45, 45], 100, 10) == Packing([[45, 45]], [-10])
    ensures Pack([150], 100, 10) == Packing([[150]], [-60])
  {
    assert [45, 45][..1] == [45];
    assert [45][..0] == [];
    assert Pack([45], 100, 10) == Packing([[45]], [45]);
    assert FirstFit([45], 45) == Some(0);
    assert Pack([45, 45], 100, 10) == Place(Packing([[45]], [45]), 45, 100, 10);
    var q := Place(Packing([[45]], [45]), 45, 100, 10);
    assert q.bars == [[45]][0 := [45] + [45]];
    assert q.remaining == [45][0 := 45 - 45 - 10];
    var twice: seq<nat> := [45] + [45];
    assert twice == [45, 45];
    assert q.bars == [twice];
    assert q.bars == [[45, 45]];
    assert q.remaining == [-10];
    assert [150][..0] == [];
  }

  /** Unfolding one step of the heuristic. */
  lemma PackSnoc(lengths: seq<nat>, x: nat, stock: nat, gap: nat)
    ensures Pack(lengths + [x], stock, gap) == Place(Pack(lengths, stock, gap), x, stock, gap)
  {
    assert (lengths + [x])[..|lengths|] == lengths;
  }

  /**
   * The worked example: demand (A, 1200 mm, 5), (A, 800 mm, 3), (A, 1500 mm, 2),
   * sorted largest first, on 6000 mm stock with a 10 mm gap, gives three bars;
   * the fifth piece no longer fits the first bar (560 mm left) and opens the second.
   */
  lemma WorkedExample()
    ensures Pack([1500, 1500, 1200, 1200, 1200, 1200, 1200, 800, 800, 800], 6000, 10)
         == Packing([[1500, 1500, 1200, 1200], [1200, 1200, 1200, 800, 800], [800]], [560, 750, 5190])
  {
    WorkedExampleFirst();
    WorkedExampleMiddle();
    WorkedExampleLast();
  }

  lemma WorkedExampleFirst()
    ensures Pack([1500, 1500, 1200, 1200], 6000, 10) == Packing([[1500, 1500, 1200, 1200]], [560])
  {
    assert Pack([], 6000, 10) == Packing([], []);
    PackSnoc([], 1500, 6000, 10);
    assert [] + [1500] == [1500];
    assert FirstFit(Packing([], []).remaining, 1500) == None;
    assert Place(Packing([], []), 1500, 6000, 10) == Packing([[1500]], [4490]);
    PackSnoc([1500], 1500, 6000, 10);
    assert [1500] + [1500] == [1500, 1500];
    assert FirstFit(Packing([[1500]], [4490]).remaining, 1500) == Some(0);
    assert [1500] + [1500] == [1500, 1500];
    assert Place(Packing([[1500]], [4490]), 1500, 6000, 10) == Packing([[1500, 1500]], [2980]);
    PackSnoc([1500, 1500], 1200, 6000, 10);
    assert [1500, 1500] + [1200] == [1500, 1500, 1200];
    assert FirstFit(Packing([[1500, 1500]], [2980]).remaining, 1200) == Some(0);
    assert [1500, 1500] + [1200] == [1500, 1500, 1200];
    assert Place(Packing([[1500, 1500]], [2980]), 1200, 6000, 10) == Packing([[1500, 1500, 1200]], [1770]);
    PackSnoc([1500, 1500, 1200], 1200, 6000, 10);
    assert [1500, 1500, 1200] + [1200] == [1500, 1500, 1200, 1200];
    assert FirstFit(Packing([[1500, 1500, 1200]], [1770]).remaining, 1200) == Some(0);
    assert [1500, 1500, 1200] + [1200] == [1500, 1500, 1200, 1200];
    assert Place(Packing([[1500, 1500, 1200]], [1770]), 1200, 6000, 10) == Packing([[1500, 1500, 1200, 1200]], [560]);
  }

  lemma WorkedExampleMiddle()
    requires Pack([1500, 1500, 1200, 1200], 6000, 10) == Packing([[1500, 1500, 1200, 1200]], [560])
    ensures Pack([1500, 1500, 1200, 1200, 1200, 1200, 1200], 6000, 10) == Packing([[1500, 1500, 1200, 1200], [1200, 1200, 1200]], [560, 2370])
  {
    PackSnoc([1500, 1500, 1200, 1200], 1200, 6000, 10);
    assert [1500, 1500, 1200, 1200] + [1200] == [1500, 1500, 1200, 1200, 1200];
    assert FirstFit(Packing([[1500, 1500, 1200, 1200]], [560]).remaining, 1200) == None;
    assert Place(Packing([[1500, 1500, 1200, 1200]], [560]), 1200, 6000, 10) == Packing([[1500, 1500, 1200, 1200], [1200]], [560, 4790]);
    PackSnoc([1500, 1500, 1200, 1200, 1200], 1200, 6000, 10);
    assert [1500, 1500, 1200, 1200, 1200] + [1200] == [1500, 1500, 1200, 1200, 1200, 1200];
    assert FirstFit(Packing([[1500, 1500, 1200, 1200], [1200]], [560, 4790]).remaining, 1200) == Some(1);
    assert [1200] + [1200] == [1200, 1200];
    assert Place(Packing([[1500, 1500, 1200, 1200], [1200]], [560, 4790]), 1200, 6000, 10) == Packing([[1500, 1500, 1200, 1200], [1200, 1200]], [560, 3580]);
    PackSnoc([1500, 1500, 1200, 1200, 1200, 1200], 1200, 6000, 10);
    assert [1500, 1500, 1200, 1200, 1200, 1200] + [1200] == [1500, 1500, 1200, 1200, 1200, 1200, 1200];
    assert FirstFit(Packing([[1500, 1500, 1200, 1200], [1200, 1200]], [560, 3580]).remaining, 1200) == Some(1);
    assert [1200, 1200] + [1200] == [1200, 1200, 1200];
    assert Place(Packing([[1500, 1500, 1200, 1200], [1200, 1200]], [560, 3580]), 1200, 6000, 10) == Packing([[1500, 1500, 1200, 1200], [1200, 1200, 1200]], [560, 2370]);
  }

  lemma WorkedExampleLast()
    requires Pack([1500, 1500, 1200, 1200, 1200, 1200, 1200], 6000, 10) == Packing([[1500, 1500, 1200, 1200], [1200, 1200, 1200]], [560, 2370])
    ensures Pack([1500, 1500, 1200, 1200, 1200, 1200, 1200, 800, 800, 800], 6000, 10) == Packing([[1500, 1500, 1200, 1200], [1200, 1200, 1200, 800, 800], [800]], [560, 750, 5190])
  {
    PackSnoc([1500, 1500, 1200, 1200, 1200, 1200, 1200], 800, 6000, 10);
    assert [1500, 1500, 1200, 1200, 1200, 1200, 1200] + [800] == [1500, 1500, 1200, 1200, 1200, 1200, 1200, 800];
    assert FirstFit(Packing([[1500, 1500, 1200, 1200], [1200, 1200, 1200]], [560, 2370]).remaining, 800) == Some(1);
    assert [1200, 1200, 1200] + [800] == [1200, 1200, 1200, 800];
    assert Place(Packing([[1500, 1500, 1200, 1200], [1200, 1200, 1200]], [560, 2370]), 800, 6000, 10) == Packing([[1500, 1500, 1200, 1200], [1200, 1200, 1200, 800]], [560, 1560]);
    PackSnoc([1500, 1500, 1200, 1200, 1200, 1200, 1200, 800], 800, 6000, 10);
    assert [1500, 1500, 1200, 1200, 1200, 1200, 1200, 800] + [800] == [1500, 1500, 1200, 1200, 1200, 1200, 1200, 800, 800];
    assert FirstFit(Packing([[1500, 1500, 1200, 1200], [1200, 1200, 1200, 800]], [560, 1560]).remaining, 800) == Some(1);
    assert [1200, 1200, 1200, 800] + [800] == [1200, 1200, 1200, 800, 800];
    assert Place(Packing([[1500, 1500, 1200, 1200], [1200, 1200, 1200, 800]], [560, 1560]), 800, 6000, 10) == Packing([[1500, 1500, 1200, 1200], [1200, 1200, 1200, 800, 800]], [560, 750]);
    PackSnoc([1500, 1500, 1200, 1200, 1200, 1200, 1200, 800, 800], 800, 6000, 10);
    assert [1500, 1500, 1200, 1200, 1200, 1200, 1200, 800, 800] + [800] == [1500, 1500, 1200, 1200, 1200, 1200, 1200, 800, 800, 800];
    assert FirstFit(Packing([[1500, 1500, 1200, 1200], [1200, 1200, 1200, 800, 800]], [560, 750]).remaining, 800) == None;
    assert Place(Packing([[1500, 1500, 1200, 1200], [1200, 1200, 1200, 800, 800]], [560, 750]), 800, 6000, 10) == Packing([[1500, 1500, 1200, 1200], [1200, 1200, 1200, 800, 800], [800]], [560, 750, 5190]);
  }
}
