# Aluminium bar cutting optimiser — a verified Dafny model

This project models two pieces of an aluminium cutting tool:

- The optimiser `optimize_cutting`. It turns a demand table into cut plans. The table lists a profile code, a length in mm and a quantity per row.
- The input validator `validate_input_excel`.

The optimiser works in five steps:

1. Every demand row is expanded into `int(Quantity)` unit items. Each item gets the identifier `<code>_<n>`.
2. The items are grouped by profile code.
3. For each profile, the lengths are sorted largest first. They are then packed by first-fit decreasing into bars of every offered stock length. A cutting gap (10 mm by default) is charged per piece.
4. Every run is scored by its efficiency: the demanded length over the stock consumed. One run is kept under one of two objectives:
   - "Tối Ưu Hiệu Suất Cao Nhất": highest efficiency.
   - Any other label: fewest bars, with ties broken by efficiency.
5. The kept run produces three tables:
   - one pattern row per bar;
   - one result row per piece that can be matched to an unassigned item;
   - one summary row per profile.

The validator translates the Vietnamese headers. It then applies an ordered chain of checks:

1. required columns;
2. numeric data;
3. positive lengths;
4. positive quantities;
5. non-empty profile codes;
6. a non-empty table.

The first check that fails decides the message.

Modules:

- `Wrappers` holds `Option`.
- `Seqs` holds sums, flattening, the descending sort and `unique`.
- `Demand` covers expansion and grouping.
- `Packing` covers first-fit decreasing.
- `Selection` covers scoring and choosing a stock length.
- `Assignment` records pieces against item identifiers.
- `Metrics` builds the pattern rows and the summary.
- `Optimizer` holds the per-profile run and the whole optimisation.
- `Validation` holds the validator.

Each loop of the source is a method proved equal to a recursive specification function. The lemmas then state what the specification functions promise.

Where the code departs from what a user of the tool would expect, the model follows the code:

- **Assignments per piece.** One result row per demanded item would be expected. The code does not deliver this:
  - Item identifiers restart at `_1` for every input row.
  - A piece is recorded only when an item with its length has an identifier not yet recorded.
  - So two rows of one profile lose results: `Demand.DuplicateIdsAcrossRows`, `Assignment.FewerAssignmentsThanPieces`.
  - One result per item holds only when identifiers are distinct: `Optimizer.ProfileRunComplete`.
- **Remaining length.** A remaining length that is never negative, or an error for an oversize piece, would be expected. In the code:
  - the last piece in a bar may leave `-gap` mm;
  - a piece longer than the stock opens a bar with a negative remainder.
  
  See `Packing.RemainingCanBeNegative` and `Packing.PackRemainingBound`.
- **Bar efficiency.** A bar's efficiency lies in (0, 1] when every length fits the stock (`Metrics.BarRowBounds`); a piece longer than the stock gives a bar efficiency above 1.
- **No demand.** When no row has a quantity of at least 1, the expanded table has no `Profile Code` column and `optimize_cutting` raises `KeyError` at cutting_optimizer.py:38, although the validator accepts such a table. The model returns `None` then: `Optimizer.OptimizeFails`.
- **Blank numeric cells.** The validator accepts a blank Length or Quantity cell, since NaN is not `<= 0`: `Validation.BlankCellsPass`.

## Model

| member | source | states |
|---|---|---|
| Demand.Truncate | cutting_optimizer.py:28 | `int()` truncates toward zero: for q ≥ 0 the result is the floor, for q < 0 the ceiling |
| Demand.ExpandDemand | cutting_optimizer.py:26-33 | the nested expansion loop produces exactly the specification sequence `Expand(lines)` |
| Demand.ExpandRow | cutting_optimizer.py:26-33 | the i-th copy of row r sits after all earlier rows' copies and is the item (code, length, identifier code_(i+1)) |
| Demand.ExpandSize | cutting_optimizer.py:26-33 | the expanded table has one item per truncated unit of quantity, rows with a quantity below 1 giving none |
| Demand.DuplicateIdsAcrossRows | cutting_optimizer.py:32 | two rows of profile A give two items with the same identifier A_1 and different lengths |
| Seqs.Distinct | cutting_optimizer.py:38 | `unique()` lists every profile code of the table and none twice |
| Demand.ProfileItemsExact | cutting_optimizer.py:45 | an item belongs to a profile's data exactly when it is in the table with that code, and it occurs there as many times as in the table |
| Demand.ProfileItemsAppend | cutting_optimizer.py:45 | the filter keeps table order: filtering two consecutive parts of the table and joining the results is filtering the whole |
| Demand.ProfileItemsSingle | cutting_optimizer.py:45 | a single row is kept exactly when it has the profile code (with `ProfileItemsAppend` this determines the filter) |
| Demand.ProfileCodesNonEmpty | cutting_optimizer.py:38 | a non-empty expanded table has at least one profile code |
| Demand.ProfileNonEmpty | cutting_optimizer.py:43-45 | every listed profile code has at least one item |
| Seqs.Insert | cutting_optimizer.py:51 | inserting into a descending list keeps it descending and adds exactly the one element |
| Seqs.SortDescending | cutting_optimizer.py:50-51 | the sorted lengths are a permutation of the lengths, in non-increasing order |
| Seqs.SumPermutation | cutting_optimizer.py:155 | lists with the same elements have the same sum, so the needed length does not depend on order |
| Optimizer.SortedLengthsPositive | cutting_optimizer.py:48-51 | a profile's sorted lengths are one per item and all positive |
| Packing.FirstFit | cutting_optimizer.py:70-71 | the bar chosen is the lowest-numbered one whose remaining length admits the piece; none when no bar does |
| Packing.PlaceIntoFirstFit | cutting_optimizer.py:70-77 | a piece that fits bar i (and no earlier one) is appended to bar i, whose remainder drops by length plus gap, other bars unchanged |
| Packing.PlaceOpensBar | cutting_optimizer.py:79-82 | a new bar is opened exactly when no bar admits the piece; it holds only the piece and has stock − length − gap left |
| Packing.PlaceLength | cutting_optimizer.py:67-82 | the scan over the open bars places one piece as the first-fit step does |
| Packing.FirstFitDecreasing | cutting_optimizer.py:66-82 | the packing loop computes `Pack`; its bars hold exactly the given lengths, there is one remainder per bar, no more bars than pieces, no empty bar, and each remainder is stock minus contents minus one gap per piece |
| Packing.PackShape | cutting_optimizer.py:66-82 | no more bars than pieces, and no bar is empty |
| Packing.PackConserves | cutting_optimizer.py:66-82 | the bars hold exactly the lengths (as a multiset), one piece per length |
| Packing.PackRemaining | cutting_optimizer.py:66-82 | each bar's remaining length equals stock − sum of its pieces − gap × number of pieces |
| Packing.PackRemainingBound | cutting_optimizer.py:71-82 | when every length fits the stock, no remainder falls below −gap |
| Packing.RemainingCanBeNegative | cutting_optimizer.py:71-82 | 45 + 45 on 100 mm stock with a 10 mm gap leaves −10 mm; a 150 mm piece on 100 mm stock leaves −60 mm |
| Packing.PackSnoc | cutting_optimizer.py:66-82 | packing one more length is one more first-fit step on the packing so far |
| Packing.WorkedExample | cutting_optimizer.py:66-82 | 2 × 1500, 5 × 1200 and 3 × 800 mm on 6000 mm stock with a 10 mm gap give bars [1500, 1500, 1200, 1200], [1200, 1200, 1200, 800, 800], [800] with 560, 750 and 5190 mm left |
| Selection.ObjectiveOf | cutting_optimizer.py:90-98 | the highest-efficiency objective applies exactly for its label; every other label selects the bar-count objective |
| Selection.Candidates | cutting_optimizer.py:61 | one scored run per stock-length option |
| Selection.CandidatesSnoc | cutting_optimizer.py:61-87 | one more option appends its own scored run to the candidates |
| Selection.EvaluateScore | cutting_optimizer.py:84-87 | with at least one piece and positive stock a run uses at least one bar, and its efficiency is total demanded length over stock × bars |
| Selection.EvaluatePositive | cutting_optimizer.py:84-87 | with positive lengths every run scores above 0 |
| Selection.Select | cutting_optimizer.py:89-105 | the kept index, if any, is one of the candidates |
| Selection.SelectSnoc | cutting_optimizer.py:89-105 | each new run replaces the kept one exactly when it improves on it under the objective |
| Selection.ChooseStockLength | cutting_optimizer.py:53-105 | the loop over stock lengths keeps exactly the run the selection function chooses |
| Selection.MaxEfficiencySelects | cutting_optimizer.py:90-97 | highest efficiency keeps nothing exactly when no run scores above 0; otherwise it keeps a run scoring above 0, with the greatest score, and earlier than every other run with that score |
| Selection.MaxEfficiencyMonotone | cutting_optimizer.py:90-97 | offering more stock lengths never lowers the kept efficiency |
| Selection.MinBarCountSelects | cutting_optimizer.py:98-105 | fewest bars keeps a run exactly when there is one; it has the fewest bars, the greatest efficiency among those, and comes first among exact ties |
| Selection.ShortStockRun | cutting_optimizer.py:84-87 | two 2900 mm pieces on 3000 mm stock need two bars at efficiency 5800/6000 |
| Selection.LongStockRun | cutting_optimizer.py:84-87 | two 2900 mm pieces on 7000 mm stock fit one bar at efficiency 5800/7000 |
| Selection.ObjectivesDiffer | cutting_optimizer.py:89-105 | on those two options the objectives disagree: highest efficiency keeps 3000 mm, fewest bars keeps 7000 mm |
| Optimizer.SelectKeepsOne | cutting_optimizer.py:89-105 | with options offered and positive lengths some run is always kept |
| Optimizer.WinnerIsCandidate | cutting_optimizer.py:107-110 | the run used is the selected candidate: a packing of the profile's lengths on one of the offered (positive) stock lengths, with at least one bar |
| Metrics.PatternRows | cutting_optimizer.py:113-131 | one pattern row per bar |
| Metrics.BarRowBounds | cutting_optimizer.py:116-130 | with positive lengths, a bar's used length is its pieces plus one gap per piece, it has at least one piece and a positive efficiency; when every length also fits the stock its efficiency is at most 1 |
| Metrics.StockTotalUniform | cutting_optimizer.py:156 | the stock total is stock × bars when every bar has the same stock length |
| Metrics.EfficiencyTotalOfRows | cutting_optimizer.py:157 | the bar efficiencies add up to the bars' total content over the stock length |
| Metrics.RemainingTotalAccounted | cutting_optimizer.py:165 | the remainders add up to stock × bars − total content − gap × pieces |
| Metrics.SummaryWaste | cutting_optimizer.py:165 | the reported waste equals the sum of the remainders plus one gap per bar |
| Metrics.SummaryEfficiencies | cutting_optimizer.py:157-166 | for bars of one stock length the average bar efficiency equals the overall efficiency |
| Metrics.SummaryMean | cutting_optimizer.py:157-166 | the overall efficiency is the packed content over the stock consumed, and the average equals it |
| Metrics.SummaryOfPack | cutting_optimizer.py:153-168 | a profile summary counts the pieces and bars of the packing; it reports the stock total as stock × bars and the waste as remainders plus one gap per bar; the overall efficiency is the run's score and the average bar efficiency equals it |
| Assignment.FirstUnassigned | cutting_optimizer.py:135-140 | the item found is the first with the piece's length whose identifier is not yet recorded; none when there is no such item |
| Assignment.AssignBar | cutting_optimizer.py:134-147 | the loop over a bar's pieces records exactly what the specification function records |
| Assignment.AssignPiecesAppends | cutting_optimizer.py:134-147 | one bar adds at most one result per piece after the earlier ones; each result is for that bar, has a length cut in it, and names an item of the profile with that length |
| Assignment.AssignBarsAppends | cutting_optimizer.py:113-149 | the bars add at most one result per piece after the earlier ones; each is justified by a bar and an item; bar numbers never decrease |
| Assignment.AssignPiecesDistinct | cutting_optimizer.py:136-147 | recording never repeats an item identifier |
| Assignment.AssignBarsDistinct | cutting_optimizer.py:116-149 | over all bars, recorded identifiers stay distinct |
| Assignment.UnassignedFound | cutting_optimizer.py:136-140 | if an unassigned item of the piece's length exists, the lookup finds one |
| Assignment.UnassignedAfterRecord | cutting_optimizer.py:136-147 | recording an item removes exactly its length from the unassigned lengths when identifiers are distinct |
| Assignment.AssignPiecesComplete | cutting_optimizer.py:134-147 | with distinct identifiers and enough unassigned items, every piece of a bar gets a result and consumes one unassigned length, and the new results' lengths are exactly the bar's pieces |
| Assignment.AssignPiecesGiveBack | cutting_optimizer.py:134-147 | one bar's new results follow the earlier ones, and their lengths are some of the bar's pieces, all of them when every piece was recorded |
| Assignment.AssignBarsComplete | cutting_optimizer.py:116-149 | under the same conditions every piece of every bar gets a result |
| Assignment.FewerAssignmentsThanPieces | cutting_optimizer.py:26-33 | rows (A, 1000 mm, 2) and (A, 1000 mm, 1) expand to items A_1, A_2, A_1, and one bar of their three pieces gives only two results (lines 136-140) |
| Optimizer.RecordBars | cutting_optimizer.py:112-149 | the loop over bars produces the pattern rows and the results the specification functions define |
| Optimizer.OptimizeProfile | cutting_optimizer.py:43-168 | one profile's run computes the specification `ProfileRun` |
| Optimizer.ProfileRunFacts | cutting_optimizer.py:107-168 | for one profile, the summary names the profile and counts its items. It also gives the bars of the kept run, the demanded length, stock × bars, waste as remainders plus one gap per bar, and the run's efficiency as both overall and average efficiency. Pattern rows are numbered 1.. on the kept stock length. Results extend the earlier ones by at most one per item, each justified. Distinct identifiers stay distinct |
| Optimizer.ProfileRunComplete | cutting_optimizer.py:133-149 | when a profile's identifiers are distinct and none was recorded earlier, it gets exactly one result per item |
| Optimizer.NothingRecorded | cutting_optimizer.py:136-137 | with none of the profile's identifiers recorded, all its lengths are unassigned |
| Optimizer.ExpandPositive | cutting_optimizer.py:26-33 | positive row lengths give positive item lengths |
| Optimizer.OptimizeCutting | cutting_optimizer.py:7-168 | the whole optimisation computes the specification `Optimize`: expansion, failure on an empty expansion, then the per-profile runs in order of first appearance |
| Optimizer.OptimizeFails | cutting_optimizer.py:26-38 | the optimisation fails (line 38's `KeyError`) exactly when no row has a quantity of at least 1 |
| Optimizer.NoCopiesIff | cutting_optimizer.py:26-33 | the expansion is empty exactly when every row's truncated quantity is below 1 |
| Optimizer.OptimizeSucceeds | cutting_optimizer.py:38-168 | a successful optimisation has at least one summary, one per profile code in order of first appearance, each counting that profile's items, and no item identifier recorded twice |
| Optimizer.RunProfilesFacts | cutting_optimizer.py:43-168 | there is one summary per profile code, in order, each counting that profile's items, and all recorded identifiers are distinct |
| Validation.RenameHeaders | utils.py:16-25 | after the three renames every header is its English name if it was a Vietnamese one and unchanged otherwise |
| Validation.TranslateAll | utils.py:16-25 | applying the three renames in order is the single translation of a header |
| Validation.MissingColumns | utils.py:15-28 | a column is reported missing exactly when it is required and absent, in the required order |
| Validation.Outcome | utils.py:27-54 | the validator answers true exactly for an accepted table, with the message of the first failing check |
| Validation.CheckValidIff | utils.py:27-54 | a table is accepted exactly when all columns are present, data is numeric, every length and quantity is positive or blank (NaN), codes are non-empty and there is a row |
| Validation.CheckOrder | utils.py:27-48 | each rejection is reported exactly when every earlier check passed and its own check fails; missing columns are listed as computed |
| Validation.EmptyTableRejectedLast | utils.py:50-52 | a well-formed table with no rows is rejected by the last check only |
| Validation.VietnameseHeadersAccepted | utils.py:16-30 | a table with Vietnamese headers is judged as the same table with English headers |
| Validation.FractionalQuantityPasses | utils.py:43-44 | a quantity of 2.5 passes validation, and expansion turns it into 2 items |
| Validation.BlankCellsPass | utils.py:39-44 | a row with blank Length and Quantity cells passes the value checks and the table is accepted |

## Left out

- `create_output_excel` and the web front end (`app.py`) are not part of this model. Both only write files and draw charts.
- The final `sort_values` and `round(4)` of the three output tables are left out (cutting_optimizer.py:175-188). They only reorder and round what the model computes.
- The cut-pattern text (`'+'.join(...)`, line 129) is left out. It is a display string.
- Lengths are natural numbers of millimetres rather than floats. Quantities are real numbers, so the truncation of `int()` is modelled.
- Item identifiers are the pair (code, number), not the formatted string. The two correspond one to one.
- The `pulp`/`itertools` imports and the `optimize_stock_length` flag are unused by the code and are not modelled.
- `pd.to_numeric` coercion is left out. Whether it raises is the `numeric` flag of a table.
- Validation.ValidateInput: a table holding both a Vietnamese header and its English name (say both "Mã Thanh" and "Profile Code") is not modelled. After the rename pandas keeps two columns under one name, and the source raises instead of giving a verdict: `TypeError` from `pd.to_numeric` at utils.py:34-35 for a doubled Length or Quantity column (not caught by `except ValueError`), `ValueError` from the truth test at utils.py:47 for a doubled Profile Code column once the value checks of lines 40-44 have passed. The model gives such a table a verdict as if each column occurred once.
- A non-positive length is excluded by a precondition of `Optimizer.Optimize` (`ValidRequest`). The validator rejects lengths at or below 0 before the optimiser runs.
- Blank (NaN) Length or Quantity cells pass the validator but cannot be given to the optimiser model, whose lengths are natural numbers and quantities real numbers. In the source, `int(NaN)` at cutting_optimizer.py:28 raises `ValueError`, and a NaN length never fits a bar (line 71) and yields NaN metrics.
- A stock-length option of 0 is excluded by a precondition. The web front end only offers stock lengths of at least 1000 mm (app.py:38, 62, 71-78).
- An empty list of stock-length options is excluded by a precondition. The front end's multiselect can be cleared, and the code then reports each profile with no bars, no results and an infinite or NaN efficiency from float division by 0 (line 166), which real numbers cannot represent.
- Efficiencies and their mean are exact rational numbers, not floats (lines 87, 120, 157, 166). `Metrics.SummaryMean`'s "average equals overall" holds exactly in the model, while the source's float arithmetic may differ in the last bits.
- Seqs.Distinct: its contract states that no code repeats and that no code is lost or added. It does not state the first-appearance order of `unique()`, although the definition keeps that order.
- Selection.Candidates and Selection.Select: their own contracts state only the count and the index bound. What the selection means is stated by `Selection.MaxEfficiencySelects` and `Selection.MinBarCountSelects`.
- Metrics.PatternRows: its contract states only one row per bar. The row contents are stated by `Metrics.BarRowBounds` and `Optimizer.ProfileRunFacts`.
