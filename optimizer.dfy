/**
 * `optimize_cutting` (cutting_optimizer.py lines 7-190): expand the demand, then
 * for every profile code in order of first appearance sort its lengths largest
 * first, keep the best heuristic run over the stock-length options, and record
 * its pattern rows, its piece assignments and its summary row.
 */
module Optimizer {
  import opened Wrappers
  import opened Seqs
  import opened Demand
  import opened Packing
  import opened Selection
  import opened Assignment
  import opened Metrics

  /** What the caller must supply: at least one stock length, and all of them positive. */
  predicate ValidOptions(options: seq<nat>)
  {
    |options| > 0 && forall i :: 0 <= i < |options| ==> options[i] > 0
  }

  /** Every item has a positive length, as the input validator guarantees. */
  predicate PositiveItems(items: seq<Item>)
  {
    forall i :: 0 <= i < |items| ==> items[i].length > 0
  }

  /** Lines 107-110: the kept run, or the initial values (default stock, no bars) when none was kept. */
  function WinningRun(best: Option<Candidate>, stockLength: nat): Candidate
  {
    if best.None? then Candidate(stockLength, [], [], 0.0) else best.value
  }

  /** The sorted lengths of one profile (lines 45-51). */
  function ProfileLengths(items: seq<Item>, code: string): seq<nat>
  {
    SortDescending(Lengths(ProfileItems(items, code)))
  }

  /** The winning run of one profile. */
  function ProfileWinner(items: seq<Item>, code: string, stockLength: nat, gap: nat, obj: Objective, options: seq<nat>)
    : Candidate
  {
    var cands := Candidates(ProfileLengths(items, code), options, gap);
    WinningRun(Chosen(cands, Select(cands, obj)), stockLength)
  }

  /**
   * With positive lengths, a non-empty profile and valid options a run is always
   * kept: it is the run for one of the options, with a positive stock length and
   * at least one bar.
   */
  lemma WinnerIsCandidate(items: seq<Item>, code: string, stockLength: nat, gap: nat, obj: Objective, options: seq<nat>)
    requires ValidOptions(options) && PositiveItems(items) && code in ProfileCodes(items)
    ensures var lengths := ProfileLengths(items, code);
      var cands := Candidates(lengths, options, gap);
      var w := ProfileWinner(items, code, stockLength, gap, obj, options);
      Select(cands, obj).Some? && w == cands[Select(cands, obj).value]
      && w == Evaluate(lengths, w.stock, gap) && w.stock in options && w.stock > 0 && |w.bars| > 0
      && |w.bars| == |w.remaining|
  {
    var lengths := ProfileLengths(items, code);
    var cands := Candidates(lengths, options, gap);
    ProfileNonEmpty(items, code);
    SortedLengthsPositive(items, code);
    SelectKeepsOne(lengths, options, gap, obj);
    var k := Select(cands, obj).value;
    assert cands[k] == Evaluate(lengths, options[k], gap);
    EvaluateScore(lengths, options[k], gap);
  }

  lemma SelectKeepsOne(lengths: seq<nat>, options: seq<nat>, gap: nat, obj: Objective)
    requires ValidOptions(options) && |lengths| > 0 && forall k :: 0 <= k < |lengths| ==> lengths[k] > 0
    ensures Select(Candidates(lengths, options, gap), obj).Some?
  {
    var cands := Candidates(lengths, options, gap);
    if obj == MaxEfficiency {
      EvaluatePositive(lengths, options[0], gap);
      assert cands[0].efficiency > 0.0;
      MaxEfficiencySelects(cands);
    } else {
      MinBarCountSelects(cands);
    }
  }

  /** The profile's sorted lengths are as many as its items, and positive. */
  lemma SortedLengthsPositive(items: seq<Item>, code: string)
    requires PositiveItems(items)
    ensures |ProfileLengths(items, code)| == |ProfileItems(items, code)|
    ensures forall k :: 0 <= k < |ProfileLengths(items, code)| ==> ProfileLengths(items, code)[k] > 0
  {
    var profile := ProfileItems(items, code);
    var ls := Lengths(profile);
    var sorted := ProfileLengths(items, code);
    ProfileItemsExact(items, code);
    forall k | 0 <= k < |sorted|
      ensures sorted[k] > 0
    {
      assert sorted[k] in multiset(ls);
      var j :| 0 <= j < |ls| && ls[j] == sorted[k];
      assert profile[j] in items;
    }
  }

  /** The three outputs of one profile. */
  datatype ProfileOutput = ProfileOutput(patterns: seq<PatternRow>, results: seq<Assignment>, summary: Summary)

  /** Lines 107-168 for one profile; `prior` is every result recorded for earlier profiles. */
  function ProfileRun(items: seq<Item>, code: string, stockLength: nat, gap: nat, obj: Objective, options: seq<nat>,
                      prior: seq<Assignment>): ProfileOutput
    requires ValidOptions(options) && PositiveItems(items) && code in ProfileCodes(items)
  {
    var w := ProfileWinner(items, code, stockLength, gap, obj, options);
    WinnerIsCandidate(items, code, stockLength, gap, obj, options);
    var lengths := ProfileLengths(items, code);
    SummaryOfPack(code, lengths, w.stock, gap);
    var rows := PatternRows(code, w.bars, w.remaining, w.stock);
    ProfileOutput(rows, AssignBars(ProfileItems(items, code), code, w.bars, prior),
                  Summarize(code, lengths, w.bars, rows, gap))
  }

  /** Lines 113-149: one pass over the winning bars, numbering them and binding their pieces. */
  method RecordBars(profile: seq<Item>, code: string, bars: seq<seq<nat>>, remaining: seq<int>, stock: nat,
                    prior: seq<Assignment>)
    returns (rows: seq<PatternRow>, results: seq<Assignment>)
    requires |bars| == |remaining| && stock > 0
    ensures rows == PatternRows(code, bars, remaining, stock)
    ensures results == AssignBars(profile, code, bars, prior)
  {
    rows, results := [], prior;
    var barNumber := 1;
    for b := 0 to |bars|
      invariant barNumber == b + 1
      invariant rows == PatternRows(code, bars[..b], remaining[..b], stock)
      invariant results == AssignBars(profile, code, bars[..b], prior)
    {
      var pattern := bars[b];
      var left := remaining[b];
      var used := stock - left;
      var efficiency := Sum(pattern) as real / stock as real;
      rows := rows + [PatternRow(code, barNumber, stock, used, left, efficiency, |pattern|)];
      results := AssignBar(profile, code, pattern, barNumber, results);
      assert bars[..b + 1][..b] == bars[..b];
      assert remaining[..b + 1][..b] == remaining[..b];
      barNumber := barNumber + 1;
    }
    assert bars[..|bars|] == bars;
    assert remaining[..|remaining|] == remaining;
  }

  /** The body of the per-profile loop (lines 44-168). */
  method OptimizeProfile(items: seq<Item>, code: string, stockLength: nat, gap: nat, obj: Objective,
                         options: seq<nat>, prior: seq<Assignment>)
    returns (out: ProfileOutput)
    requires ValidOptions(options) && PositiveItems(items) && code in ProfileCodes(items)
    ensures out == ProfileRun(items, code, stockLength, gap, obj, options, prior)
  {
    var profile := ProfileItems(items, code);
    var lengths := SortDescending(Lengths(profile));
    var best := ChooseStockLength(lengths, options, gap, obj);
    var winner := WinningRun(best, stockLength);
    WinnerIsCandidate(items, code, stockLength, gap, obj, options);
    SummaryOfPack(code, lengths, winner.stock, gap);
    var rows, results := RecordBars(profile, code, winner.bars, winner.remaining, winner.stock, prior);
    var summary := Summarize(code, lengths, winner.bars, rows, gap);
    out := ProfileOutput(rows, results, summary);
  }

  /**
   * What one profile's outputs state: its summary counts its items and their
   * total length, its waste is the room left plus one gap per bar, its
   * average bar efficiency is its overall efficiency, which is the winning run's
   * score; the rows number the bars 1, 2, ... on the winning stock length; and
   * the results extend `prior` by
   * at most one justified result per piece, with distinct identifiers if
   * `prior`'s were distinct.
   */
  lemma ProfileRunFacts(items: seq<Item>, code: string, stockLength: nat, gap: nat, obj: Objective,
                        options: seq<nat>, prior: seq<Assignment>)
    requires ValidOptions(options) && PositiveItems(items) && code in ProfileCodes(items)
    ensures var out := ProfileRun(items, code, stockLength, gap, obj, options, prior);
      var w := ProfileWinner(items, code, stockLength, gap, obj, options);
      var profile := ProfileItems(items, code);
      out.summary.code == code
      && out.summary.totalPieces == |profile| && out.summary.totalBars == |w.bars| == |out.patterns| > 0
      && out.summary.totalNeeded == Sum(Lengths(profile))
      && out.summary.totalStock == w.stock * |w.bars|
      && out.summary.waste == RemainingTotal(w.remaining) + gap * |w.bars|
      && out.summary.overallEfficiency == w.efficiency
      && out.summary.averageBarEfficiency == out.summary.overallEfficiency
      && (forall i :: 0 <= i < |out.patterns| ==> out.patterns[i].barNumber == i + 1 && out.patterns[i].stock == w.stock)
      && |prior| <= |out.results| <= |prior| + |profile| && out.results[..|prior|] == prior
      && (forall k :: |prior| <= k < |out.results| ==> Justified(out.results[k], profile, code, w.bars))
      && (DistinctIds(prior) ==> DistinctIds(out.results))
  {
    ProfileRunSummary(items, code, stockLength, gap, obj, options, prior);
    ProfileRunRecords(items, code, stockLength, gap, obj, options, prior);
  }

  /** The summary half of `ProfileRunFacts`. */
  lemma ProfileRunSummary(items: seq<Item>, code: string, stockLength: nat, gap: nat, obj: Objective,
                          options: seq<nat>, prior: seq<Assignment>)
    requires ValidOptions(options) && PositiveItems(items) && code in ProfileCodes(items)
    ensures var out := ProfileRun(items, code, stockLength, gap, obj, options, prior);
      var w := ProfileWinner(items, code, stockLength, gap, obj, options);
      var profile := ProfileItems(items, code);
      out.summary.code == code
      && out.summary.totalPieces == |profile| && out.summary.totalBars == |w.bars| == |out.patterns| > 0
      && out.summary.totalNeeded == Sum(Lengths(profile))
      && out.summary.totalStock == w.stock * |w.bars|
      && out.summary.waste == RemainingTotal(w.remaining) + gap * |w.bars|
      && out.summary.overallEfficiency == w.efficiency
      && out.summary.averageBarEfficiency == out.summary.overallEfficiency
  {
    var w := ProfileWinner(items, code, stockLength, gap, obj, options);
    var profile := ProfileItems(items, code);
    var lengths := ProfileLengths(items, code);
    WinnerIsCandidate(items, code, stockLength, gap, obj, options);
    SortedLengthsPositive(items, code);
    SummaryOfPack(code, lengths, w.stock, gap);
    EvaluateScore(lengths, w.stock, gap);
    SumPermutation(lengths, Lengths(profile));
    PackConserves(lengths, w.stock, gap);
  }

  /** The pattern-row and result half of `ProfileRunFacts`. */
  lemma ProfileRunRecords(items: seq<Item>, code: string, stockLength: nat, gap: nat, obj: Objective,
                          options: seq<nat>, prior: seq<Assignment>)
    requires ValidOptions(options) && PositiveItems(items) && code in ProfileCodes(items)
    ensures var out := ProfileRun(items, code, stockLength, gap, obj, options, prior);
      var w := ProfileWinner(items, code, stockLength, gap, obj, options);
      var profile := ProfileItems(items, code);
      (forall i :: 0 <= i < |out.patterns| ==> out.patterns[i].barNumber == i + 1 && out.patterns[i].stock == w.stock)
      && |prior| <= |out.results| <= |prior| + |profile| && out.results[..|prior|] == prior
      && (forall k :: |prior| <= k < |out.results| ==> Justified(out.results[k], profile, code, w.bars))
      && (DistinctIds(prior) ==> DistinctIds(out.results))
  {
    var out := ProfileRun(items, code, stockLength, gap, obj, options, prior);
    var w := ProfileWinner(items, code, stockLength, gap, obj, options);
    var profile := ProfileItems(items, code);
    WinnerIsCandidate(items, code, stockLength, gap, obj, options);
    assert out.patterns == PatternRows(code, w.bars, w.remaining, w.stock);
    assert out.results == AssignBars(profile, code, w.bars, prior);
    WinnerPieceCount(items, code, stockLength, gap, obj, options);
    ResultsOfBars(profile, code, w.bars, prior);
  }

  /** The winning bars hold one piece per item of the profile. */
  lemma WinnerPieceCount(items: seq<Item>, code: string, stockLength: nat, gap: nat, obj: Objective,
                         options: seq<nat>)
    requires ValidOptions(options) && PositiveItems(items) && code in ProfileCodes(items)
    ensures PieceCount(ProfileWinner(items, code, stockLength, gap, obj, options).bars) == |ProfileItems(items, code)|
  {
    var w := ProfileWinner(items, code, stockLength, gap, obj, options);
    var lengths := ProfileLengths(items, code);
    WinnerIsCandidate(items, code, stockLength, gap, obj, options);
    SortedLengthsPositive(items, code);
    PackConserves(lengths, w.stock, gap);
  }

  /** What recording the bars of a profile adds to the results. */
  lemma ResultsOfBars(profile: seq<Item>, code: string, bars: seq<seq<nat>>, prior: seq<Assignment>)
    ensures var r := AssignBars(profile, code, bars, prior);
      |prior| <= |r| <= |prior| + PieceCount(bars) && r[..|prior|] == prior
      && (forall k :: |prior| <= k < |r| ==> Justified(r[k], profile, code, bars))
      && (DistinctIds(prior) ==> DistinctIds(r))
  {
    AssignBarsAppends(profile, code, bars, prior);
    if DistinctIds(prior) {
      AssignBarsDistinct(profile, code, bars, prior);
    }
  }

  lemma ProfileRunBasics(items: seq<Item>, code: string, stockLength: nat, gap: nat, obj: Objective,
                         options: seq<nat>, prior: seq<Assignment>)
    requires ValidOptions(options) && PositiveItems(items) && code in ProfileCodes(items)
    ensures var out := ProfileRun(items, code, stockLength, gap, obj, options, prior);
      out.summary.code == code && out.summary.totalPieces == |ProfileItems(items, code)|
      && (DistinctIds(prior) ==> DistinctIds(out.results))
  {
    ProfileRunFacts(items, code, stockLength, gap, obj, options, prior);
  }

  /**
   * When the profile's item identifiers are distinct (its demand came from one
   * row) and none of them was recorded for an earlier profile, every piece gets
   * its own result: one result per item.
   */
  lemma ProfileRunComplete(items: seq<Item>, code: string, stockLength: nat, gap: nat, obj: Objective,
                           options: seq<nat>, prior: seq<Assignment>)
    requires ValidOptions(options) && PositiveItems(items) && code in ProfileCodes(items)
    requires DistinctItemIds(ProfileItems(items, code))
    requires forall it :: it in ProfileItems(items, code) ==> it.id !in Ids(prior)
    ensures |ProfileRun(items, code, stockLength, gap, obj, options, prior).results|
         == |prior| + |ProfileItems(items, code)|
  {
    var w := ProfileWinner(items, code, stockLength, gap, obj, options);
    var profile := ProfileItems(items, code);
    var lengths := ProfileLengths(items, code);
    WinnerIsCandidate(items, code, stockLength, gap, obj, options);
    PackConserves(lengths, w.stock, gap);
    NothingRecorded(profile, prior);
    AssignBarsComplete(profile, code, w.bars, prior);
  }

  /** With no identifier of the profile recorded, every item's length is unassigned. */
  lemma {:induction false} NothingRecorded(profile: seq<Item>, prior: seq<Assignment>)
    requires forall it :: it in profile ==> it.id !in Ids(prior)
    ensures Unassigned(profile, prior) == multiset(Lengths(profile))
  {
    if |profile| > 0 {
      var n := |profile| - 1;
      assert Lengths(profile) == Lengths(profile[..n]) + [profile[n].length];
      NothingRecorded(profile[..n], prior);
    }
  }

  /** The three output tables. */
  datatype Output = Output(results: seq<Assignment>, patterns: seq<PatternRow>, summaries: seq<Summary>)

  /** The loop over the profile codes (lines 43-168), outputs concatenated in code order. */
  function RunProfiles(items: seq<Item>, codes: seq<string>, stockLength: nat, gap: nat, obj: Objective,
                       options: seq<nat>): Output
    requires ValidOptions(options) && PositiveItems(items)
    requires forall k :: 0 <= k < |codes| ==> codes[k] in ProfileCodes(items)
  {
    if |codes| == 0 then Output([], [], [])
    else
      var before := RunProfiles(items, codes[..|codes| - 1], stockLength, gap, obj, options);
      var out := ProfileRun(items, codes[|codes| - 1], stockLength, gap, obj, options, before.results);
      Output(out.results, before.patterns + out.patterns, before.summaries + [out.summary])
  }

  /** What the caller must supply to `optimize_cutting`. */
  predicate ValidRequest(lines: seq<DemandLine>, stockLength: nat, options: Option<seq<nat>>)
  {
    (forall i :: 0 <= i < |lines| ==> lines[i].length > 0)
    && (options.None? ==> stockLength > 0)
    && (options.Some? ==> ValidOptions(options.value))
  }

  /** Line 24: without options, the single stock length is the only option. */
  function OptionsOf(stockLength: nat, options: Option<seq<nat>>): seq<nat>
  {
    if options.None? then [stockLength] else options.value
  }

  /**
   * The whole optimisation. With no item at all the expanded table has no
   * `Profile Code` column and line 38 raises `KeyError`: that failure is `None`.
   */
  function Optimize(lines: seq<DemandLine>, stockLength: nat, gap: nat, methodName: string,
                    options: Option<seq<nat>>): Option<Output>
    requires ValidRequest(lines, stockLength, options)
  {
    var items := Expand(lines);
    ExpandPositive(lines);
    if |items| == 0 then None
    else Some(RunProfiles(items, ProfileCodes(items), stockLength, gap, ObjectiveOf(methodName), OptionsOf(stockLength, options)))
  }

  /** The optimisation fails exactly when no row has a quantity of at least 1. */
  lemma OptimizeFails(lines: seq<DemandLine>, stockLength: nat, gap: nat, methodName: string,
                      options: Option<seq<nat>>)
    requires ValidRequest(lines, stockLength, options)
    ensures Optimize(lines, stockLength, gap, methodName, options).None?
        <==> forall i :: 0 <= i < |lines| ==> Copies(lines[i].quantity) == 0
  {
    ExpandSize(lines);
    NoCopiesIff(lines);
  }

  /**
   * A successful optimisation reports one summary per profile code, in order of
   * first appearance, each counting that profile's items, and records every
   * item identifier at most once.
   */
  lemma OptimizeSucceeds(lines: seq<DemandLine>, stockLength: nat, gap: nat, methodName: string,
                         options: Option<seq<nat>>)
    requires ValidRequest(lines, stockLength, options)
    requires Optimize(lines, stockLength, gap, methodName, options).Some?
    ensures var out := Optimize(lines, stockLength, gap, methodName, options).value;
      |out.summaries| > 0
      && SummariesMatch(Expand(lines), ProfileCodes(Expand(lines)), out.summaries)
      && DistinctIds(out.results)
  {
    var items := Expand(lines);
    var codes := ProfileCodes(items);
    var obj := ObjectiveOf(methodName);
    var opts := OptionsOf(stockLength, options);
    ExpandPositive(lines);
    assert Optimize(lines, stockLength, gap, methodName, options).value == RunProfiles(items, codes, stockLength, gap, obj, opts);
    RunProfilesFacts(items, codes, stockLength, gap, obj, opts);
    ProfileCodesNonEmpty(items);
  }

  /** The expansion has no copies exactly when no row has a quantity of at least 1. */
  lemma {:induction false} NoCopiesIff(lines: seq<DemandLine>)
    ensures TotalCopies(lines) == 0 <==> forall i :: 0 <= i < |lines| ==> Copies(lines[i].quantity) == 0
  {
    if |lines| > 0 {
      var n := |lines| - 1;
      NoCopiesIff(lines[..n]);
      assert forall i :: 0 <= i < n ==> lines[..n][i] == lines[i];
    }
  }

  /** Every expanded item has the length of some row, so positive row lengths give positive items. */
  lemma {:induction false} ExpandPositive(lines: seq<DemandLine>)
    requires forall i :: 0 <= i < |lines| ==> lines[i].length > 0
    ensures PositiveItems(Expand(lines))
  {
    if |lines| > 0 {
      var n := |lines| - 1;
      ExpandPositive(lines[..n]);
    }
  }

  /** `optimize_cutting`: returns the results, patterns and summary tables, or fails on an empty expansion. */
  method OptimizeCutting(lines: seq<DemandLine>, stockLength: nat, gap: nat, methodName: string,
                         options: Option<seq<nat>>)
    returns (out: Option<Output>)
    requires ValidRequest(lines, stockLength, options)
    ensures out == Optimize(lines, stockLength, gap, methodName, options)
  {
    var opts := OptionsOf(stockLength, options);
    var items := ExpandDemand(lines);
    ExpandPositive(lines);
    if |items| == 0 {
      return None;
    }
    var codes := ProfileCodes(items);
    var obj := ObjectiveOf(methodName);
    var tables := Output([], [], []);
    for k := 0 to |codes|
      invariant tables == RunProfiles(items, codes[..k], stockLength, gap, obj, opts)
    {
      var profileOut := OptimizeProfile(items, codes[k], stockLength, gap, obj, opts, tables.results);
      assert codes[..k + 1][..k] == codes[..k];
      tables := Output(profileOut.results, tables.patterns + profileOut.patterns, tables.summaries + [profileOut.summary]);
    }
    assert codes[..|codes|] == codes;
    out := Some(tables);
  }

  /** One summary per profile code, in order, each counting that profile's items. */
  predicate SummariesMatch(items: seq<Item>, codes: seq<string>, summaries: seq<Summary>)
  {
    |summaries| == |codes|
    && forall k :: 0 <= k < |codes| ==>
         summaries[k].code == codes[k] && summaries[k].totalPieces == |ProfileItems(items, codes[k])|
  }

  lemma SummariesMatchSnoc(items: seq<Item>, codes: seq<string>, code: string, summaries: seq<Summary>,
                           summary: Summary)
    requires SummariesMatch(items, codes, summaries)
    requires summary.code == code && summary.totalPieces == |ProfileItems(items, code)|
    ensures SummariesMatch(items, codes + [code], summaries + [summary])
  {
  }

  /**
   * The outputs hold one summary per profile code, in order of first
   * appearance, and every recorded item identifier is distinct.
   */
  lemma {:induction false} RunProfilesFacts(items: seq<Item>, codes: seq<string>, stockLength: nat, gap: nat,
                                            obj: Objective, options: seq<nat>)
    requires ValidOptions(options) && PositiveItems(items)
    requires forall k :: 0 <= k < |codes| ==> codes[k] in ProfileCodes(items)
    ensures var out := RunProfiles(items, codes, stockLength, gap, obj, options);
      SummariesMatch(items, codes, out.summaries) && DistinctIds(out.results)
  {
    if |codes| > 0 {
      var n := |codes| - 1;
      var prefix := codes[..n];
      RunProfilesFacts(items, prefix, stockLength, gap, obj, options);
      var before := RunProfiles(items, prefix, stockLength, gap, obj, options);
      ProfileRunBasics(items, codes[n], stockLength, gap, obj, options, before.results);
      var last := ProfileRun(items, codes[n], stockLength, gap, obj, options, before.results);
      SummariesMatchSnoc(items, prefix, codes[n], before.summaries, last.summary);
      assert prefix + [codes[n]] == codes;
    }
  }
}
