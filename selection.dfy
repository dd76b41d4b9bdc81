/**
 * Candidate scoring and selection over the stock-length options
 * (cutting_optimizer.py lines 53-105): the heuristic runs once per stock length,
 * each run is scored, and the best run so far is kept under one of two objectives.
 */
module Selection {
  import opened Wrappers
  import opened Seqs
  import opened Packing

  /** The two optimisation objectives. */
  datatype Objective = MaxEfficiency | MinBarCount

  const MaxEfficiencyLabel: string := "Tối Ưu Hiệu Suất Cao Nhất"

  /** Every label other than the highest-efficiency one selects the bar-count objective. */
  function ObjectiveOf(name: string): (o: Objective)
    ensures o == MaxEfficiency <==> name == MaxEfficiencyLabel
  {
    if name == MaxEfficiencyLabel then MaxEfficiency else MinBarCount
  }

  /** One scored run of the heuristic for one stock length. */
  datatype Candidate = Candidate(stock: nat, bars: seq<seq<nat>>, remaining: seq<int>, efficiency: real)

  /** `total_used / (stock * len(patterns))`, or 0 when the denominator is 0. */
  function Efficiency(bars: seq<seq<nat>>, stock: nat): real
  {
    var total := stock * |bars|;
    if total > 0 then Sum(Flatten(bars)) as real / total as real else 0.0
  }

  /** Run the heuristic for one stock length and score the result. */
  function Evaluate(lengths: seq<nat>, stock: nat, gap: nat): Candidate
  {
    var p := Pack(lengths, stock, gap);
    Candidate(stock, p.bars, p.remaining, Efficiency(p.bars, stock))
  }

  function Candidates(lengths: seq<nat>, options: seq<nat>, gap: nat): (cs: seq<Candidate>)
    ensures |cs| == |options|
  {
    seq(|options|, i requires 0 <= i < |options| => Evaluate(lengths, options[i], gap))
  }

  /**
   * The candidate's score is the demanded length over the stock consumed: the
   * bars together hold exactly the lengths, so the numerator is their sum.
   * With at least one length and a positive stock there is at least one bar, and
   * with positive lengths the score is positive.
   */
  lemma EvaluateScore(lengths: seq<nat>, stock: nat, gap: nat)
    requires |lengths| > 0 && stock > 0
    ensures var c := Evaluate(lengths, stock, gap);
      |c.bars| > 0 && c.efficiency == Sum(lengths) as real / (stock * |c.bars|) as real
  {
    var p := Pack(lengths, stock, gap);
    PackConserves(lengths, stock, gap);
    SumPermutation(Flatten(p.bars), lengths);
    FlattenLength(p.bars);
    PositiveProduct(stock, |p.bars|);
  }

  /** With positive lengths and a positive stock, every run scores above 0. */
  lemma EvaluatePositive(lengths: seq<nat>, stock: nat, gap: nat)
    requires |lengths| > 0 && stock > 0
    requires forall k :: 0 <= k < |lengths| ==> lengths[k] > 0
    ensures Evaluate(lengths, stock, gap).efficiency > 0.0
  {
    var c := Evaluate(lengths, stock, gap);
    EvaluateScore(lengths, stock, gap);
    PositiveProduct(stock, |c.bars|);
    SumPositive(lengths);
    var num := Sum(lengths) as real;
    var den := (stock * |c.bars|) as real;
    assert num > 0.0 && den > 0.0;
    assert num / den > 0.0;
  }

  lemma {:induction false} SumPositive(s: seq<nat>)
    requires |s| > 0 && forall k :: 0 <= k < |s| ==> s[k] > 0
    ensures Sum(s) > 0
  {
  }

  /** The best-so-far state: None stands for the initial values (efficiency 0, bar count infinity). */
  function BestEfficiency(best: Option<Candidate>): real
  {
    if best.None? then 0.0 else best.value.efficiency
  }

  /** Whether candidate `c` replaces the best so far (lines 92 and 100). */
  predicate Improves(obj: Objective, c: Candidate, best: Option<Candidate>)
  {
    match obj
    case MaxEfficiency => c.efficiency > BestEfficiency(best)
    case MinBarCount =>
      best.None? || |c.bars| < |best.value.bars|
      || (|c.bars| == |best.value.bars| && c.efficiency > best.value.efficiency)
  }

  function Chosen(cands: seq<Candidate>, r: Option<nat>): Option<Candidate>
    requires r.Some? ==> r.value < |cands|
  {
    if r.None? then None else Some(cands[r.value])
  }

  /** The index of the candidate the scan keeps, candidates taken in order. */
  function Select(cands: seq<Candidate>, obj: Objective): (r: Option<nat>)
    ensures r.Some? ==> r.value < |cands|
  {
    if |cands| == 0 then None
    else
      var prev := Select(cands[..|cands| - 1], obj);
      if Improves(obj, cands[|cands| - 1], Chosen(cands[..|cands| - 1], prev)) then Some(|cands| - 1) else prev
  }

  /** The loop of lines 61-105: evaluate every option and keep the best run so far. */
  method ChooseStockLength(lengths: seq<nat>, options: seq<nat>, gap: nat, obj: Objective)
    returns (best: Option<Candidate>)
    ensures best == Chosen(Candidates(lengths, options, gap), Select(Candidates(lengths, options, gap), obj))
  {
    best := None;
    for k := 0 to |options|
      invariant best == Chosen(Candidates(lengths, options[..k], gap), Select(Candidates(lengths, options[..k], gap), obj))
    {
      var stock := options[k];
      var patterns, remaining := FirstFitDecreasing(lengths, stock, gap);
      var totalUsed := Sum(Flatten(patterns));
      var totalStock := stock * |patterns|;
      var efficiency := if totalStock > 0 then totalUsed as real / totalStock as real else 0.0;
      var current := Candidate(stock, patterns, remaining, efficiency);
      CandidatesSnoc(lengths, options, k, gap);
      SelectSnoc(Candidates(lengths, options[..k], gap), current, obj);
      if Improves(obj, current, best) {
        best := Some(current);
      }
    }
    assert options[..|options|] == options;
  }

  /** One more option adds its own run at the end of the candidates. */
  lemma CandidatesSnoc(lengths: seq<nat>, options: seq<nat>, k: nat, gap: nat)
    requires k < |options|
    ensures Candidates(lengths, options[..k + 1], gap)
         == Candidates(lengths, options[..k], gap) + [Evaluate(lengths, options[k], gap)]
  {
    var cs := Candidates(lengths, options[..k + 1], gap);
    assert cs[..k] == Candidates(lengths, options[..k], gap);
  }

  /** One scan step: the new candidate replaces the kept one exactly when it improves on it. */
  lemma SelectSnoc(cands: seq<Candidate>, c: Candidate, obj: Objective)
    ensures Chosen(cands + [c], Select(cands + [c], obj))
         == if Improves(obj, c, Chosen(cands, Select(cands, obj))) then Some(c) else Chosen(cands, Select(cands, obj))
  {
    assert (cands + [c])[..|cands|] == cands;
  }

  /**
   * Highest efficiency: the scan keeps a candidate exactly when some candidate
   * scores above 0, and then keeps the earliest one with the greatest score.
   */
  lemma {:induction false} MaxEfficiencySelects(cands: seq<Candidate>)
    ensures Select(cands, MaxEfficiency).None? <==> forall i :: 0 <= i < |cands| ==> cands[i].efficiency <= 0.0
    ensures Select(cands, MaxEfficiency).Some? ==>
      var k := Select(cands, MaxEfficiency).value;
      cands[k].efficiency > 0.0
      && (forall i :: 0 <= i < |cands| ==> cands[i].efficiency <= cands[k].efficiency)
      && (forall i :: 0 <= i < k ==> cands[i].efficiency < cands[k].efficiency)
  {
    if |cands| > 0 {
      var n := |cands| - 1;
      MaxEfficiencySelects(cands[..n]);
      assert forall i :: 0 <= i < n ==> cands[..n][i] == cands[i];
    }
  }

  /** Offering more stock lengths never lowers the efficiency of the kept candidate. */
  lemma MaxEfficiencyMonotone(cands: seq<Candidate>, more: seq<Candidate>)
    ensures BestEfficiency(Chosen(cands + more, Select(cands + more, MaxEfficiency)))
         >= BestEfficiency(Chosen(cands, Select(cands, MaxEfficiency)))
  {
    MaxEfficiencySelects(cands);
    MaxEfficiencySelects(cands + more);
    var r := Select(cands, MaxEfficiency);
    if r.Some? {
      assert (cands + more)[r.value] == cands[r.value];
    }
  }

  /**
   * Fewest bars: with at least one candidate the scan always keeps one (the first
   * is accepted against an infinite count); the kept one has the fewest bars, the
   * greatest efficiency among those, and is the earliest of exact ties.
   */
  lemma {:induction false} MinBarCountSelects(cands: seq<Candidate>)
    ensures Select(cands, MinBarCount).Some? <==> |cands| > 0
    ensures Select(cands, MinBarCount).Some? ==>
      var k := Select(cands, MinBarCount).value;
      (forall i :: 0 <= i < |cands| ==> |cands[k].bars| <= |cands[i].bars|)
      && (forall i :: 0 <= i < |cands| && |cands[i].bars| == |cands[k].bars| ==> cands[i].efficiency <= cands[k].efficiency)
      && (forall i :: 0 <= i < k && |cands[i].bars| == |cands[k].bars| ==> cands[i].efficiency < cands[k].efficiency)
  {
    if |cands| > 0 {
      var n := |cands| - 1;
      MinBarCountSelects(cands[..n]);
      assert forall i :: 0 <= i < n ==> cands[..n][i] == cands[i];
    }
  }

  /**
   * The objective changes the outcome: for two 2900 mm pieces, gap 10 and stock
   * options 3000 and 7000, highest efficiency keeps the 3000 mm run (two bars)
   * while fewest bars keeps the 7000 mm run (one bar).
   */
  lemma ObjectivesDiffer()
    ensures Select(Candidates([2900, 2900], [3000, 7000], 10), MaxEfficiency) == Some(0)
    ensures Select(Candidates([2900, 2900], [3000, 7000], 10), MinBarCount) == Some(1)
  {
    var cs := Candidates([2900, 2900], [3000, 7000], 10);
    ShortStockRun();
    LongStockRun();
    assert cs[0] == Evaluate([2900, 2900], 3000, 10);
    assert cs[1] == Evaluate([2900, 2900], 7000, 10);
    assert cs[..1] == [cs[0]];
    assert [cs[0]][..0] == [];
  }

  lemma ShortStockRun()
    ensures |Evaluate([2900, 2900], 3000, 10).bars| == 2
    ensures Evaluate([2900, 2900], 3000, 10).efficiency == 5800.0 / 6000.0
  {
    var ls: seq<nat> := [2900, 2900];
    assert ls[..1] == [2900];
    assert [2900][..0] == [];
    var one := Packing([[2900]], [3000 - 2900 - 10]);
    assert Pack([2900], 3000, 10) == one;
    assert FirstFit(one.remaining, 2900) == None;
    var p := Pack(ls, 3000, 10);
    assert p == Place(one, 2900, 3000, 10);
    assert |p.bars| == 2;
    PackConserves(ls, 3000, 10);
    SumPermutation(Flatten(p.bars), ls);
    assert Sum(ls) == 5800;
  }

  lemma LongStockRun()
    ensures |Evaluate([2900, 2900], 7000, 10).bars| == 1
    ensures Evaluate([2900, 2900], 7000, 10).efficiency == 5800.0 / 7000.0
  {
    var ls: seq<nat> := [2900, 2900];
    assert ls[..1] == [2900];
    assert [2900][..0] == [];
    var one := Packing([[2900]], [7000 - 2900 - 10]);
    assert Pack([2900], 7000, 10) == one;
    assert FirstFit(one.remaining, 2900) == Some(0);
    var p := Pack(ls, 7000, 10);
    assert p == Place(one, 2900, 7000, 10);
    var twice: seq<nat> := [2900] + [2900];
    assert p.bars == [twice];
    assert Flatten(p.bars) == twice by {
      assert p.bars[..0] == [];
    }
    assert Sum(twice) == 5800 by {
      assert twice[..1] == [2900];
      assert [2900][..0] == [];
    }
  }
}
