/**
 * Per-bar pattern rows and the per-profile summary (cutting_optimizer.py lines
 * 116-131 and 153-168), computed from the winning run's bars.
 */
module Metrics {
  import opened Seqs
  import opened Packing

  /** One row of the patterns table (the `+`-joined pattern string is left out). */
  datatype PatternRow = PatternRow(code: string, barNumber: nat, stock: nat, used: int, remaining: int,
                                   efficiency: real, pieces: nat)

  /** The row of bar number `barNumber`: used = stock - remaining, efficiency = sum / stock. */
  function PatternRowOf(code: string, barNumber: nat, stock: nat, bar: seq<nat>, remaining: int): PatternRow
    requires stock > 0
  {
    PatternRow(code, barNumber, stock, stock - remaining, remaining, Sum(bar) as real / stock as real, |bar|)
  }

  /** The rows of all bars, numbered from 1 in creation order. */
  function PatternRows(code: string, bars: seq<seq<nat>>, remaining: seq<int>, stock: nat): (rows: seq<PatternRow>)
    requires |bars| == |remaining| && stock > 0
    ensures |rows| == |bars|
  {
    seq(|bars|, i requires 0 <= i < |bars| => PatternRowOf(code, i + 1, stock, bars[i], remaining[i]))
  }

  /**
   * For a bar of the heuristic with positive lengths, the used length is its
   * pieces plus one gap per piece, the bar holds a piece and its efficiency is
   * positive; when every length also fits the stock, the efficiency is at most 1.
   */
  lemma BarRowBounds(code: string, lengths: seq<nat>, stock: nat, gap: nat, i: nat)
    requires stock > 0 && forall k :: 0 <= k < |lengths| ==> 0 < lengths[k]
    requires i < |Pack(lengths, stock, gap).bars|
    ensures var p := Pack(lengths, stock, gap);
      var row := PatternRowOf(code, i + 1, stock, p.bars[i], p.remaining[i]);
      row.used == Sum(p.bars[i]) + gap * |p.bars[i]| && row.pieces > 0 && 0.0 < row.efficiency
      && ((forall k :: 0 <= k < |lengths| ==> lengths[k] <= stock) ==> row.efficiency <= 1.0)
  {
    var p := Pack(lengths, stock, gap);
    var bar := p.bars[i];
    PackRemaining(lengths, stock, gap);
    PackShape(lengths, stock, gap);
    BarPiecesPositive(lengths, stock, gap, i);
    SumAtLeastHead(bar);
    PositiveRatio(Sum(bar), stock);
    if forall k :: 0 <= k < |lengths| ==> lengths[k] <= stock {
      PackRemainingBound(lengths, stock, gap);
      AtLeastOnce(gap, |bar|);
      assert p.remaining[i] == stock - Sum(bar) - gap * |bar|;
      RatioInUnit(Sum(bar), stock);
    }
  }

  lemma PositiveRatio(a: nat, b: nat)
    requires 0 < a && 0 < b
    ensures 0.0 < a as real / b as real
  {
  }

  lemma BarPiecesPositive(lengths: seq<nat>, stock: nat, gap: nat, i: nat)
    requires forall k :: 0 <= k < |lengths| ==> 0 < lengths[k]
    requires i < |Pack(lengths, stock, gap).bars|
    ensures forall k :: 0 <= k < |Pack(lengths, stock, gap).bars[i]| ==> Pack(lengths, stock, gap).bars[i][k] > 0
  {
    var p := Pack(lengths, stock, gap);
    PackConserves(lengths, stock, gap);
    FlattenContains(p.bars, i);
    forall k | 0 <= k < |p.bars[i]|
      ensures p.bars[i][k] > 0
    {
      assert p.bars[i][k] in multiset(p.bars[i]);
      assert p.bars[i][k] in multiset(lengths);
    }
  }

  lemma RatioInUnit(a: nat, b: nat)
    requires 0 < a <= b
    ensures 0.0 < a as real / b as real <= 1.0
  {
    var r := a as real / b as real;
    assert r * b as real == a as real;
  }

  lemma {:induction false} SumAtLeastHead(s: seq<nat>)
    requires |s| > 0
    ensures Sum(s) >= s[0]
  {
    if |s| > 1 {
      SumAtLeastHead(s[..|s| - 1]);
    }
  }

  lemma AtLeastOnce(g: nat, n: nat)
    requires n >= 1
    ensures g * n >= g
  {
  }

  /** One row of the summary table. */
  datatype Summary = Summary(code: string, totalPieces: nat, totalBars: nat, totalNeeded: nat, totalStock: nat,
                             waste: int, overallEfficiency: real, averageBarEfficiency: real)

  /** `sum(pattern['Stock Length'] for pattern in pattern_data)`. */
  function StockTotal(rows: seq<PatternRow>): nat
  {
    if |rows| == 0 then 0 else StockTotal(rows[..|rows| - 1]) + rows[|rows| - 1].stock
  }

  /** The sum of the rows' efficiencies; divided by the row count it is `np.mean`. */
  function EfficiencyTotal(rows: seq<PatternRow>): real
  {
    if |rows| == 0 then 0.0 else EfficiencyTotal(rows[..|rows| - 1]) + rows[|rows| - 1].efficiency
  }

  /** The summary of one profile from its lengths, its bars and their rows (lines 154-168). */
  function Summarize(code: string, lengths: seq<nat>, bars: seq<seq<nat>>, rows: seq<PatternRow>, gap: nat): Summary
    requires |rows| > 0 && StockTotal(rows) > 0
  {
    var needed := Sum(lengths);
    var total := StockTotal(rows);
    Summary(code, |lengths|, |bars|, needed, total, total - needed - (|lengths| - |bars|) * gap,
            needed as real / total as real, EfficiencyTotal(rows) / |rows| as real)
  }

  /** Every row carries the same stock length, so the stock total is stock times bars. */
  lemma {:induction false} StockTotalUniform(rows: seq<PatternRow>, stock: nat)
    requires forall i :: 0 <= i < |rows| ==> rows[i].stock == stock
    ensures StockTotal(rows) == stock * |rows|
  {
    if |rows| > 0 {
      StockTotalUniform(rows[..|rows| - 1], stock);
    }
  }

  /** The efficiencies of the rows add up to all pieces over one stock length. */
  lemma {:induction false} EfficiencyTotalOfRows(rows: seq<PatternRow>, bars: seq<seq<nat>>, stock: nat)
    requires |rows| == |bars| && stock > 0
    requires forall i :: 0 <= i < |rows| ==> rows[i].efficiency == Sum(bars[i]) as real / stock as real
    ensures EfficiencyTotal(rows) == Sum(Flatten(bars)) as real / stock as real
  {
    var sr := stock as real;
    if |bars| == 0 {
      assert 0.0 / sr == 0.0;
    } else {
      var n := |bars| - 1;
      EfficiencyTotalOfRows(rows[..n], bars[..n], stock);
      SumAppend(Flatten(bars[..n]), bars[n]);
      var a := Sum(Flatten(bars[..n])) as real;
      var b := Sum(bars[n]) as real;
      DivAdd(a, b, sr);
      assert EfficiencyTotal(rows) == EfficiencyTotal(rows[..n]) + rows[n].efficiency;
      assert Sum(Flatten(bars)) as real == a + b;
    }
  }

  lemma DivAdd(a: real, b: real, s: real)
    requires s > 0.0
    ensures a / s + b / s == (a + b) / s
  {
  }

  /** The rooms left add up to the stock used minus all pieces and one gap per piece. */
  function RemainingTotal(remaining: seq<int>): int
  {
    if |remaining| == 0 then 0 else RemainingTotal(remaining[..|remaining| - 1]) + remaining[|remaining| - 1]
  }

  lemma {:induction false} RemainingTotalAccounted(bars: seq<seq<nat>>, remaining: seq<int>, stock: nat, gap: nat)
    requires Parallel(Packing(bars, remaining)) && Accounted(Packing(bars, remaining), stock, gap)
    ensures RemainingTotal(remaining) == stock * |bars| - Sum(Flatten(bars)) - gap * PieceCount(bars)
  {
    if |bars| > 0 {
      var n := |bars| - 1;
      assert Accounted(Packing(bars[..n], remaining[..n]), stock, gap) by {
        forall i | 0 <= i < n
          ensures remaining[..n][i] == stock - Sum(bars[..n][i]) - gap * |bars[..n][i]|
        {
          assert remaining[..n][i] == remaining[i] && bars[..n][i] == bars[i];
        }
      }
      RemainingTotalAccounted(bars[..n], remaining[..n], stock, gap);
      SumAppend(Flatten(bars[..n]), bars[n]);
      MulStep(stock, n);
      MulAdd(gap, PieceCount(bars[..n]), |bars[n]|);
    }
  }

  lemma MulStep(a: int, n: int)
    ensures a * (n + 1) == a * n + a
  {
  }

  lemma MulAdd(a: int, b: int, c: int)
    ensures a * (b + c) == a * b + a * c
  {
  }

  lemma DivDiv(x: real, s: real, n: real)
    requires s > 0.0 && n > 0.0
    ensures (x / s) / n == x / (s * n)
  {
  }

  /**
   * The summary of the heuristic's bars for a non-empty profile: the stock total
   * is stock times bars; the waste is the room left in all bars plus one gap per
   * bar (the last piece of a bar is charged no cut); the overall efficiency is the
   * run's score; and, since every bar has the same stock length, the average bar
   * efficiency equals the overall efficiency.
   */
  lemma SummaryOfPack(code: string, lengths: seq<nat>, stock: nat, gap: nat)
    requires |lengths| > 0 && stock > 0
    ensures var p := Pack(lengths, stock, gap);
      var rows := PatternRows(code, p.bars, p.remaining, stock);
      |rows| > 0 && StockTotal(rows) > 0 && StockTotal(rows) == stock * |p.bars|
      && var s := Summarize(code, lengths, p.bars, rows, gap);
      s.totalPieces == PieceCount(p.bars) && s.totalBars == |p.bars|
      && s.waste == RemainingTotal(p.remaining) + gap * |p.bars|
      && s.overallEfficiency == Sum(Flatten(p.bars)) as real / (stock * |p.bars|) as real
      && s.averageBarEfficiency == s.overallEfficiency
  {
    var p := Pack(lengths, stock, gap);
    var rows := PatternRows(code, p.bars, p.remaining, stock);
    PackShape(lengths, stock, gap);
    PackConserves(lengths, stock, gap);
    FlattenLength(p.bars);
    SumPermutation(Flatten(p.bars), lengths);
    StockTotalUniform(rows, stock);
    var total := stock * |p.bars|;
    PositiveProduct(stock, |p.bars|);
    SummaryWaste(code, lengths, stock, gap);
    SummaryMean(code, lengths, stock, gap);
  }

  lemma SummaryWaste(code: string, lengths: seq<nat>, stock: nat, gap: nat)
    requires |lengths| > 0 && stock > 0
    ensures var p := Pack(lengths, stock, gap);
      var rows := PatternRows(code, p.bars, p.remaining, stock);
      |rows| > 0 && StockTotal(rows) > 0
      && Summarize(code, lengths, p.bars, rows, gap).waste == RemainingTotal(p.remaining) + gap * |p.bars|
  {
    var p := Pack(lengths, stock, gap);
    PackShape(lengths, stock, gap);
    PackConserves(lengths, stock, gap);
    PackRemaining(lengths, stock, gap);
    FlattenLength(p.bars);
    SumPermutation(Flatten(p.bars), lengths);
    WasteOfBars(code, lengths, p.bars, p.remaining, stock, gap);
  }

  /** The waste of accounted bars that hold exactly the lengths. */
  lemma WasteOfBars(code: string, lengths: seq<nat>, bars: seq<seq<nat>>, remaining: seq<int>, stock: nat, gap: nat)
    requires Parallel(Packing(bars, remaining)) && Accounted(Packing(bars, remaining), stock, gap)
    requires |bars| > 0 && stock > 0
    requires Sum(Flatten(bars)) == Sum(lengths) && PieceCount(bars) == |lengths|
    ensures var rows := PatternRows(code, bars, remaining, stock);
      |rows| > 0 && StockTotal(rows) > 0
      && Summarize(code, lengths, bars, rows, gap).waste == RemainingTotal(remaining) + gap * |bars|
  {
    var rows := PatternRows(code, bars, remaining, stock);
    StockTotalUniform(rows, stock);
    PositiveProduct(stock, |bars|);
    RemainingTotalAccounted(bars, remaining, stock, gap);
    MulSub(gap, |lengths|, |bars|);
  }

  lemma MulSub(a: int, b: int, c: int)
    ensures (b - c) * a == a * b - a * c
  {
  }

  lemma SummaryMean(code: string, lengths: seq<nat>, stock: nat, gap: nat)
    requires |lengths| > 0 && stock > 0
    ensures var p := Pack(lengths, stock, gap);
      var rows := PatternRows(code, p.bars, p.remaining, stock);
      |rows| > 0 && StockTotal(rows) > 0 && StockTotal(rows) == stock * |p.bars|
      && var s := Summarize(code, lengths, p.bars, rows, gap);
      s.overallEfficiency == Sum(Flatten(p.bars)) as real / (stock * |p.bars|) as real
      && s.averageBarEfficiency == s.overallEfficiency
  {
    var p := Pack(lengths, stock, gap);
    PackShape(lengths, stock, gap);
    PackConserves(lengths, stock, gap);
    FlattenLength(p.bars);
    SumPermutation(Flatten(p.bars), lengths);
    SummaryEfficiencies(code, lengths, p.bars, p.remaining, stock, gap);
  }

  /** For bars of one stock length the mean bar efficiency is the overall efficiency. */
  lemma SummaryEfficiencies(code: string, lengths: seq<nat>, bars: seq<seq<nat>>, remaining: seq<int>, stock: nat, gap: nat)
    requires |bars| == |remaining| && |bars| > 0 && stock > 0 && Sum(Flatten(bars)) == Sum(lengths)
    ensures var rows := PatternRows(code, bars, remaining, stock);
      |rows| > 0 && StockTotal(rows) > 0 && StockTotal(rows) == stock * |bars|
      && var s := Summarize(code, lengths, bars, rows, gap);
      s.overallEfficiency == Sum(lengths) as real / (stock * |bars|) as real
      && s.averageBarEfficiency == s.overallEfficiency
  {
    var rows := PatternRows(code, bars, remaining, stock);
    StockTotalUniform(rows, stock);
    PositiveProduct(stock, |bars|);
    EfficiencyTotalOfRows(rows, bars, stock);
    MeanEqualsOverall(EfficiencyTotal(rows), Sum(lengths) as real, StockTotal(rows), stock, |rows|);
  }

  lemma MeanEqualsOverall(e: real, x: real, t: nat, stock: nat, n: nat)
    requires stock > 0 && n > 0 && t == stock * n && e == x / stock as real
    ensures e / n as real == x / t as real
  {
    CastMul(stock, n);
    DivDiv(x, stock as real, n as real);
  }

  lemma CastMul(a: nat, b: nat)
    ensures (a * b) as real == a as real * b as real
  {
  }
}
