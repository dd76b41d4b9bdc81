/**
 * Piece-to-bar assignment (cutting_optimizer.py lines 133-149): every piece of
 * every bar, bars numbered from 1 in creation order, is bound to the first item
 * of the profile with that length whose identifier has not been recorded yet.
 * Identifiers restart per demand row, so an item can be skipped because another
 * item with the same identifier was already recorded.
 */
module Assignment {
  import opened Wrappers
  import opened Seqs
  import opened Demand

  /** One row of the results table. */
  datatype Assignment = Assignment(code: string, id: ItemId, length: nat, barNumber: nat)

  /** `[r.get('Item ID') for r in all_results]`. */
  function Ids(results: seq<Assignment>): seq<ItemId>
  {
    seq(|results|, i requires 0 <= i < |results| => results[i].id)
  }

  /** No identifier is recorded twice. */
  predicate DistinctIds(results: seq<Assignment>)
  {
    forall i, j :: 0 <= i < j < |results| ==> results[i].id != results[j].id
  }

  /** The position of the first item of length `x` whose identifier is not yet recorded. */
  function FirstUnassigned(items: seq<Item>, x: nat, results: seq<Assignment>): (r: Option<nat>)
    ensures r.Some? ==> r.value < |items| && items[r.value].length == x && items[r.value].id !in Ids(results)
    ensures r.Some? ==> forall j :: 0 <= j < r.value ==> items[j].length != x || items[j].id in Ids(results)
    ensures r.None? ==> forall j :: 0 <= j < |items| ==> items[j].length != x || items[j].id in Ids(results)
  {
    if |items| == 0 then None
    else if items[0].length == x && items[0].id !in Ids(results) then Some(0)
    else
      match FirstUnassigned(items[1..], x, results)
      case None => None
      case Some(j) => Some(j + 1)
  }

  /** The results after the pieces of one bar have been looked up, in order. */
  function AssignPieces(items: seq<Item>, code: string, pieces: seq<nat>, barNumber: nat, results: seq<Assignment>)
    : seq<Assignment>
  {
    if |pieces| == 0 then results
    else
      var before := AssignPieces(items, code, pieces[..|pieces| - 1], barNumber, results);
      var x := pieces[|pieces| - 1];
      match FirstUnassigned(items, x, before)
      case Some(j) => before + [Assignment(code, items[j].id, x, barNumber)]
      case None => before
  }

  /** The results after every bar has been processed; bar `i` (from 0) has number `i + 1`. */
  function AssignBars(items: seq<Item>, code: string, bars: seq<seq<nat>>, results: seq<Assignment>)
    : seq<Assignment>
  {
    if |bars| == 0 then results
    else AssignPieces(items, code, bars[|bars| - 1], |bars|, AssignBars(items, code, bars[..|bars| - 1], results))
  }

  /** The loop of lines 134-147 for one bar. */
  method AssignBar(items: seq<Item>, code: string, bar: seq<nat>, barNumber: nat, results: seq<Assignment>)
    returns (results': seq<Assignment>)
    ensures results' == AssignPieces(items, code, bar, barNumber, results)
  {
    results' := results;
    for k := 0 to |bar|
      invariant results' == AssignPieces(items, code, bar[..k], barNumber, results)
    {
      var length := bar[k];
      var unassigned := FirstUnassigned(items, length, results');
      if unassigned.Some? {
        results' := results' + [Assignment(code, items[unassigned.value].id, length, barNumber)];
      }
      assert bar[..k + 1][..k] == bar[..k];
    }
    assert bar[..|bar|] == bar;
  }

  /** What one recorded assignment says: a piece of bar `barNumber`, bound to a profile item of its length. */
  predicate Justified(a: Assignment, items: seq<Item>, code: string, bars: seq<seq<nat>>)
  {
    a.code == code && 1 <= a.barNumber <= |bars| && a.length in bars[a.barNumber - 1]
    && exists it :: it in items && it.id == a.id && it.length == a.length
  }

  /** One bar's lookups add at most one assignment per piece, each for that bar and a piece of it. */
  lemma {:induction false} AssignPiecesAppends(items: seq<Item>, code: string, bars: seq<seq<nat>>, b: nat,
                                                 pieces: seq<nat>, results: seq<Assignment>)
    requires 1 <= b <= |bars| && multiset(pieces) <= multiset(bars[b - 1])
    ensures var r := AssignPieces(items, code, pieces, b, results);
      |results| <= |r| <= |results| + |pieces| && r[..|results|] == results
      && forall k :: |results| <= k < |r| ==> r[k].barNumber == b && Justified(r[k], items, code, bars)
  {
    if |pieces| > 0 {
      var n := |pieces| - 1;
      assert pieces == pieces[..n] + [pieces[n]];
      assert multiset(pieces[..n]) <= multiset(pieces);
      AssignPiecesAppends(items, code, bars, b, pieces[..n], results);
      var before := AssignPieces(items, code, pieces[..n], b, results);
      var x := pieces[n];
      assert x in multiset(bars[b - 1]);
      match FirstUnassigned(items, x, before)
      case Some(j) =>
        var a := Assignment(code, items[j].id, x, b);
        assert items[j] in items;
        assert Justified(a, items, code, bars);
        var r := before + [a];
        assert r[..|results|] == before[..|results|];
      case None =>
    }
  }

  /**
   * The assigner only appends: each new result carries the number of the bar
   * whose piece it binds, has that piece's length and the identifier of a
   * profile item of that length; bar numbers never decrease; and there are at
   * most as many new results as pieces.
   */
  lemma {:induction false} AssignBarsAppends(items: seq<Item>, code: string, bars: seq<seq<nat>>, results: seq<Assignment>)
    ensures var r := AssignBars(items, code, bars, results);
      |results| <= |r| <= |results| + PieceCount(bars) && r[..|results|] == results
      && (forall k :: |results| <= k < |r| ==> Justified(r[k], items, code, bars))
      && (forall k, l :: |results| <= k < l < |r| ==> r[k].barNumber <= r[l].barNumber)
  {
    if |bars| > 0 {
      var n := |bars| - 1;
      var prefix := bars[..n];
      AssignBarsAppends(items, code, prefix, results);
      var mid := AssignBars(items, code, prefix, results);
      AssignPiecesAppends(items, code, bars, |bars|, bars[n], mid);
      var r := AssignBars(items, code, bars, results);
      forall k | |results| <= k < |mid|
        ensures Justified(r[k], items, code, bars) && r[k].barNumber <= n
      {
        assert r[k] == mid[k];
        assert Justified(mid[k], items, code, prefix);
        assert prefix[mid[k].barNumber - 1] == bars[mid[k].barNumber - 1];
      }
      assert r[..|results|] == mid[..|results|];
    }
  }

  /** Identifiers already recorded are never recorded again: distinct identifiers stay distinct. */
  lemma {:induction false} AssignPiecesDistinct(items: seq<Item>, code: string, pieces: seq<nat>, b: nat, results: seq<Assignment>)
    requires DistinctIds(results)
    ensures DistinctIds(AssignPieces(items, code, pieces, b, results))
  {
    if |pieces| > 0 {
      var n := |pieces| - 1;
      AssignPiecesDistinct(items, code, pieces[..n], b, results);
      var before := AssignPieces(items, code, pieces[..n], b, results);
      match FirstUnassigned(items, pieces[n], before)
      case Some(j) =>
        var r := before + [Assignment(code, items[j].id, pieces[n], b)];
        forall i | 0 <= i < |before|
          ensures r[i].id != r[|before|].id
        {
          assert Ids(before)[i] == before[i].id;
        }
      case None =>
    }
  }

  /** All recorded identifiers are pairwise distinct, provided the earlier ones were. */
  lemma {:induction false} AssignBarsDistinct(items: seq<Item>, code: string, bars: seq<seq<nat>>, results: seq<Assignment>)
    requires DistinctIds(results)
    ensures DistinctIds(AssignBars(items, code, bars, results))
  {
    if |bars| > 0 {
      AssignBarsDistinct(items, code, bars[..|bars| - 1], results);
      AssignPiecesDistinct(items, code, bars[|bars| - 1], |bars|, AssignBars(items, code, bars[..|bars| - 1], results));
    }
  }

  /** The lengths of the items whose identifiers are not recorded yet. */
  function Unassigned(items: seq<Item>, results: seq<Assignment>): multiset<nat>
  {
    if |items| == 0 then multiset{}
    else
      Unassigned(items[..|items| - 1], results) + Pending(items[|items| - 1], results)
  }

  /** An item's length while its identifier is unrecorded, nothing once it is. */
  function Pending(item: Item, results: seq<Assignment>): multiset<nat>
  {
    if item.id in Ids(results) then multiset{} else multiset{item.length}
  }

  predicate DistinctItemIds(items: seq<Item>)
  {
    forall i, j :: 0 <= i < j < |items| ==> items[i].id != items[j].id
  }

  /** A length among the unassigned ones is found by the lookup. */
  lemma {:induction false} UnassignedFound(items: seq<Item>, x: nat, results: seq<Assignment>)
    requires x in Unassigned(items, results)
    ensures FirstUnassigned(items, x, results).Some?
  {
    var n := |items| - 1;
    if x in Unassigned(items[..n], results) {
      UnassignedFound(items[..n], x, results);
      var j := FirstUnassigned(items[..n], x, results).value;
      assert items[..n][j] == items[j];
    } else {
      assert items[n].length == x && items[n].id !in Ids(results);
    }
  }

  /** Recording an item's identifier removes exactly that item's length, when identifiers are distinct. */
  lemma {:induction false} UnassignedAfterRecord(items: seq<Item>, results: seq<Assignment>, j: nat, a: Assignment)
    requires DistinctItemIds(items) && j < |items| && items[j].id !in Ids(results) && a.id == items[j].id
    ensures items[j].length in Unassigned(items, results)
    ensures Unassigned(items, results + [a]) == Unassigned(items, results) - multiset{items[j].length}
  {
    var n := |items| - 1;
    IdsSnoc(results, a);
    assert DistinctItemIds(items[..n]);
    if j == n {
      UnassignedUntouched(items[..n], results, a);
    } else {
      assert items[..n][j] == items[j];
      UnassignedAfterRecord(items[..n], results, j, a);
      assert items == items[..n] + [items[n]];
      UnassignedStep(items[..n], items[n], results, a, items[j].length);
    }
  }

  /** The last item keeps its contribution when its identifier is not the recorded one. */
  lemma UnassignedStep(prefix: seq<Item>, last: Item, results: seq<Assignment>, a: Assignment, l: nat)
    requires last.id != a.id
    requires l in Unassigned(prefix, results)
    requires Unassigned(prefix, results + [a]) == Unassigned(prefix, results) - multiset{l}
    ensures l in Unassigned(prefix + [last], results)
    ensures Unassigned(prefix + [last], results + [a]) == Unassigned(prefix + [last], results) - multiset{l}
  {
    assert (prefix + [last])[..|prefix|] == prefix;
    IdsSnoc(results, a);
    assert Pending(last, results + [a]) == Pending(last, results);
  }

  lemma IdsSnoc(results: seq<Assignment>, a: Assignment)
    ensures Ids(results + [a]) == Ids(results) + [a.id]
    ensures forall id :: id in Ids(results + [a]) <==> id in Ids(results) || id == a.id
  {
    assert Ids(results + [a]) == Ids(results) + [a.id];
  }

  lemma {:induction false} UnassignedUntouched(items: seq<Item>, results: seq<Assignment>, a: Assignment)
    requires forall i :: 0 <= i < |items| ==> items[i].id != a.id
    ensures Unassigned(items, results + [a]) == Unassigned(items, results)
  {
    if |items| > 0 {
      var n := |items| - 1;
      IdsSnoc(results, a);
      UnassignedUntouched(items[..n], results, a);
    }
  }

  /** The `Length` column of some results. */
  function ResultLengths(results: seq<Assignment>): seq<nat>
  {
    seq(|results|, i requires 0 <= i < |results| => results[i].length)
  }

  /**
   * With distinct identifiers and enough unrecorded items, one bar's lookups
   * record one result per piece, and the new results' lengths are exactly the
   * bar's pieces: grouped by bar number, the results give back the bar.
   */
  lemma {:induction false} AssignPiecesComplete(items: seq<Item>, code: string, pieces: seq<nat>, b: nat, results: seq<Assignment>)
    requires DistinctItemIds(items) && multiset(pieces) <= Unassigned(items, results)
    ensures |AssignPieces(items, code, pieces, b, results)| == |results| + |pieces|
    ensures Unassigned(items, AssignPieces(items, code, pieces, b, results)) == Unassigned(items, results) - multiset(pieces)
    ensures AssignPieces(items, code, pieces, b, results)[..|results|] == results
    ensures multiset(ResultLengths(AssignPieces(items, code, pieces, b, results)[|results|..])) == multiset(pieces)
  {
    if |pieces| > 0 {
      var n := |pieces| - 1;
      var x := pieces[n];
      assert pieces == pieces[..n] + [x];
      AssignPiecesComplete(items, code, pieces[..n], b, results);
      var before := AssignPieces(items, code, pieces[..n], b, results);
      assert x in Unassigned(items, before);
      UnassignedFound(items, x, before);
      var j := FirstUnassigned(items, x, before).value;
      UnassignedAfterRecord(items, before, j, Assignment(code, items[j].id, x, b));
    }
    AssignPiecesGiveBack(items, code, pieces, b, results);
  }

  /**
   * The lengths of one bar's new results are some of the bar's pieces, and all
   * of them when every piece was recorded.
   */
  lemma {:induction false} AssignPiecesGiveBack(items: seq<Item>, code: string, pieces: seq<nat>, b: nat, results: seq<Assignment>)
    ensures var r := AssignPieces(items, code, pieces, b, results);
      |results| <= |r| <= |results| + |pieces| && r[..|results|] == results
      && multiset(ResultLengths(r[|results|..])) <= multiset(pieces)
      && (|r| == |results| + |pieces| ==> multiset(ResultLengths(r[|results|..])) == multiset(pieces))
  {
    var r := AssignPieces(items, code, pieces, b, results);
    if |pieces| == 0 {
      assert r[|results|..] == [];
    } else {
      var n := |pieces| - 1;
      var x := pieces[n];
      assert pieces == pieces[..n] + [x];
      AssignPiecesGiveBack(items, code, pieces[..n], b, results);
      var before := AssignPieces(items, code, pieces[..n], b, results);
      match FirstUnassigned(items, x, before)
      case Some(j) =>
        ResultLengthsSnoc(before, |results|, Assignment(code, items[j].id, x, b));
      case None =>
    }
  }

  /** Appending a result adds its length to the lengths of the results from `k` on. */
  lemma ResultLengthsSnoc(before: seq<Assignment>, k: nat, a: Assignment)
    requires k <= |before|
    ensures (before + [a])[..k] == before[..k]
    ensures multiset(ResultLengths((before + [a])[k..])) == multiset(ResultLengths(before[k..])) + multiset{a.length}
  {
    assert (before + [a])[k..] == before[k..] + [a];
    assert ResultLengths(before[k..] + [a]) == ResultLengths(before[k..]) + [a.length];
  }

  /**
   * When the profile's identifiers are all distinct and its unrecorded items
   * supply every piece's length, every piece gets its own result and consumes one
   * unassigned length.
   */
  lemma {:induction false} AssignBarsComplete(items: seq<Item>, code: string, bars: seq<seq<nat>>, results: seq<Assignment>)
    requires DistinctItemIds(items) && multiset(Flatten(bars)) <= Unassigned(items, results)
    ensures |AssignBars(items, code, bars, results)| == |results| + PieceCount(bars)
    ensures Unassigned(items, AssignBars(items, code, bars, results)) == Unassigned(items, results) - multiset(Flatten(bars))
  {
    if |bars| > 0 {
      var n := |bars| - 1;
      assert Flatten(bars) == Flatten(bars[..n]) + bars[n];
      AssignBarsComplete(items, code, bars[..n], results);
      AssignPiecesComplete(items, code, bars[n], |bars|, AssignBars(items, code, bars[..n], results));
    }
  }

  /**
   * Fewer results than pieces: a profile with rows (A, 1000 mm, 2) and
   * (A, 1000 mm, 1) expands to items A_1, A_2, A_1; the three pieces in one bar
   * record A_1 and A_2, and the second A_1 is skipped because its identifier is
   * already recorded.
   */
  lemma FewerAssignmentsThanPieces()
    ensures var items := Expand([DemandLine("A", 1000, 2.0), DemandLine("A", 1000, 1.0)]);
      items == [Item("A", 1000, ItemId("A", 1)), Item("A", 1000, ItemId("A", 2)), Item("A", 1000, ItemId("A", 1))]
      && AssignBars(items, "A", [[1000, 1000, 1000]], [])
        == [Assignment("A", ItemId("A", 1), 1000, 1), Assignment("A", ItemId("A", 2), 1000, 1)]
  {
    var lines := [DemandLine("A", 1000, 2.0), DemandLine("A", 1000, 1.0)];
    assert lines[..1] == [lines[0]];
    assert [lines[0]][..0] == [];
    assert Copies(2.0) == 2;
    assert Copies(1.0) == 1;
    var items := [Item("A", 1000, ItemId("A", 1)), Item("A", 1000, ItemId("A", 2)), Item("A", 1000, ItemId("A", 1))];
    assert Expand(lines) == items;
    var bar: seq<nat> := [1000, 1000, 1000];
    var a1 := Assignment("A", ItemId("A", 1), 1000, 1);
    var a2 := Assignment("A", ItemId("A", 2), 1000, 1);
    assert [bar][..0] == [];
    assert bar[..2][..1] == [1000] && [1000][..0] == [];
    assert bar[..2] == [1000, 1000];
    assert FirstUnassigned(items, 1000, []) == Some(0);
    assert AssignPieces(items, "A", [1000], 1, []) == [a1];
    assert Ids([a1]) == [ItemId("A", 1)];
    assert FirstUnassigned(items, 1000, [a1]) == Some(1);
    assert AssignPieces(items, "A", [1000, 1000], 1, []) == [a1, a2];
    assert Ids([a1, a2]) == [ItemId("A", 1), ItemId("A", 2)];
    assert FirstUnassigned(items, 1000, [a1, a2]) == None;
  }
}
