/**
 * Demand expansion (cutting_optimizer.py lines 26-48): every demand row becomes
 * `int(Quantity)` unit items, and the items are then grouped by profile code.
 */
module Demand {
  import opened Seqs

  /** One row of the validated input table: profile code, length in mm, quantity. */
  datatype DemandLine = DemandLine(code: string, length: nat, quantity: real)

  /**
   * The item identifier `f"{code}_{i}"`. The decimal suffix after the last
   * underscore holds no underscore, so two identifiers are equal strings exactly
   * when code and sequence number agree; the pair stands for the string.
   */
  datatype ItemId = ItemId(code: string, seqNo: nat)

  /** One unit of demand: a row of the expanded table. */
  datatype Item = Item(code: string, length: nat, id: ItemId)

  /** Python's `int()` on a number: truncation toward zero. */
  function Truncate(q: real): (n: int)
    ensures q >= 0.0 ==> 0 <= n && n as real <= q < n as real + 1.0
    ensures q < 0.0 ==> n <= 0 && n as real - 1.0 < q <= n as real
  {
    if q >= 0.0 then q.Floor else -((-q).Floor)
  }

  /** How many times `range(int(q))` iterates: never negative. */
  function Copies(q: real): nat
  {
    if Truncate(q) < 0 then 0 else Truncate(q)
  }

  /** The items one row contributes, numbered from 1. */
  function ExpandLine(line: DemandLine): seq<Item>
  {
    seq(Copies(line.quantity), (i: nat) => Item(line.code, line.length, ItemId(line.code, i + 1)))
  }

  /** The expanded table: the rows' items, row after row. */
  function Expand(lines: seq<DemandLine>): seq<Item>
  {
    if |lines| == 0 then [] else Expand(lines[..|lines| - 1]) + ExpandLine(lines[|lines| - 1])
  }

  /** Number of items the rows before `lines` end produce. */
  function TotalCopies(lines: seq<DemandLine>): nat
  {
    if |lines| == 0 then 0 else TotalCopies(lines[..|lines| - 1]) + Copies(lines[|lines| - 1].quantity)
  }

  /** The two nested loops of the expansion, appending one item at a time. */
  method ExpandDemand(lines: seq<DemandLine>) returns (items: seq<Item>)
    ensures items == Expand(lines)
  {
    items := [];
    for r := 0 to |lines|
      invariant items == Expand(lines[..r])
    {
      var line := lines[r];
      var count := Copies(line.quantity);
      ghost var before := items;
      for i := 0 to count
        invariant items == before + ExpandLine(line)[..i]
      {
        items := items + [Item(line.code, line.length, ItemId(line.code, i + 1))];
        assert ExpandLine(line)[..i + 1] == ExpandLine(line)[..i] + [ExpandLine(line)[i]];
      }
      assert ExpandLine(line)[..count] == ExpandLine(line);
      assert lines[..r + 1][..r] == lines[..r];
    }
    assert lines[..|lines|] == lines;
  }

  /**
   * Row `r` produces exactly `int(Quantity)` items, all with the row's code and
   * length and with identifiers `<code>_1 ... <code>_q`, placed after the items of
   * the earlier rows.
   */
  lemma {:induction false} ExpandRow(lines: seq<DemandLine>, r: nat, i: nat)
    requires r < |lines| && i < Copies(lines[r].quantity)
    ensures TotalCopies(lines[..r]) + i < |Expand(lines)|
    ensures Expand(lines)[TotalCopies(lines[..r]) + i]
         == Item(lines[r].code, lines[r].length, ItemId(lines[r].code, i + 1))
    decreases |lines|
  {
    var n := |lines| - 1;
    ExpandSize(lines[..n]);
    if r == n {
      assert lines[..n][..r] == lines[..r];
    } else {
      ExpandRow(lines[..n], r, i);
      assert lines[..n][..r] == lines[..r];
      assert lines[..n][r] == lines[r];
    }
  }

  /** The expansion's size is the sum of the truncated quantities. */
  lemma {:induction false} ExpandSize(lines: seq<DemandLine>)
    ensures |Expand(lines)| == TotalCopies(lines)
  {
    if |lines| > 0 {
      ExpandSize(lines[..|lines| - 1]);
    }
  }

  /**
   * Identifiers restart at `_1` for every row: two rows of one profile give two
   * items with the same identifier.
   */
  lemma DuplicateIdsAcrossRows()
    ensures var items := Expand([DemandLine("A", 1000, 2.0), DemandLine("A", 800, 1.5)]);
      |items| == 3 && items[0].id == items[2].id == ItemId("A", 1) && items[0].length != items[2].length
  {
    var lines := [DemandLine("A", 1000, 2.0), DemandLine("A", 800, 1.5)];
    assert lines[..1] == [lines[0]];
    assert [lines[0]][..0] == [];
    assert Copies(2.0) == 2;
    assert Copies(1.5) == 1;
  }

  // Grouping by profile code (lines 38-48).

  /** The `Profile Code` column of the expanded table. */
  function Codes(items: seq<Item>): seq<string>
  {
    seq(|items|, i requires 0 <= i < |items| => items[i].code)
  }

  /** `expanded_df['Profile Code'].unique()`. */
  function ProfileCodes(items: seq<Item>): seq<string>
  {
    Distinct(Codes(items))
  }

  /** `expanded_df[expanded_df['Profile Code'] == code]`, in table order. */
  function ProfileItems(items: seq<Item>, code: string): seq<Item>
  {
    if |items| == 0 then []
    else
      var rest := ProfileItems(items[..|items| - 1], code);
      if items[|items| - 1].code == code then rest + [items[|items| - 1]] else rest
  }

  /** The `Length` column of a profile's rows. */
  function Lengths(items: seq<Item>): seq<nat>
  {
    seq(|items|, i requires 0 <= i < |items| => items[i].length)
  }

  /**
   * The filter keeps exactly the items of the profile, every copy of them: each
   * kept item has the code, and an item with the code is kept as often as it
   * occurs in the table.
   */
  lemma {:induction false} ProfileItemsExact(items: seq<Item>, code: string)
    ensures forall it :: it in ProfileItems(items, code) <==> it in items && it.code == code
    ensures forall it :: multiset(ProfileItems(items, code))[it] == if it.code == code then multiset(items)[it] else 0
    ensures |ProfileItems(items, code)| <= |items|
  {
    if |items| > 0 {
      var n := |items| - 1;
      ProfileItemsExact(items[..n], code);
      assert items == items[..n] + [items[n]];
    }
  }

  /**
   * The filter keeps table order: filtering two consecutive parts of the table
   * and joining the results is filtering the whole table.
   */
  lemma {:induction false} ProfileItemsAppend(items: seq<Item>, more: seq<Item>, code: string)
    ensures ProfileItems(items + more, code) == ProfileItems(items, code) + ProfileItems(more, code)
  {
    if |more| > 0 {
      var n := |more| - 1;
      ProfileItemsAppend(items, more[..n], code);
      assert (items + more)[..|items + more| - 1] == items + more[..n];
    } else {
      assert items + more == items;
    }
  }

  /** A single row is kept exactly when it has the code. */
  lemma ProfileItemsSingle(it: Item, code: string)
    ensures ProfileItems([it], code) == if it.code == code then [it] else []
  {
    assert [it][..0] == [];
  }

  /** A non-empty table has at least one profile code. */
  lemma ProfileCodesNonEmpty(items: seq<Item>)
    requires |items| > 0
    ensures |ProfileCodes(items)| > 0
  {
    assert Codes(items)[0] in Codes(items);
  }

  /** Every listed profile code has at least one item, so no profile is empty. */
  lemma ProfileNonEmpty(items: seq<Item>, code: string)
    requires code in ProfileCodes(items)
    ensures |ProfileItems(items, code)| > 0
  {
    assert code in Codes(items);
    var i :| 0 <= i < |items| && items[i].code == code;
    ProfileItemsExact(items, code);
    assert items[i] in ProfileItems(items, code);
  }
}
