# Derived atmospheric fields and duration distribution — a Dafny model

This project models the discrete bookkeeping of two analysis scripts of the
visualization-atmospheric repository and proves properties of it.

- `calc_WRF_ThetaE_Analysis.py`, function `process_multiple_levels_iterative`.
  - The requested pressure levels are checked against the levels the input
    holds: the missing ones are reported, and the list is rebound to the kept
    ones (`level_filter.dfy`).
  - An empty time coordinate makes the print of its first and last entry at line 70 raise
    outside any try block, so the run ends before the arrays are allocated.
  - Six output arrays (theta-e, its two gradient components, the gradient
    magnitude, divergence and vorticity) are pre-allocated with a
    not-a-number sentinel.
  - A member × time × level loop fills one slot per position. A position whose
    computation raises is reported and skipped.
  - The number of valid cells of each variable is printed.
  - The class `ThetaEAnalysis.OutputArrays` holds the six arrays
    (`theta_e_analysis.dfy`). The visiting order is the index space of
    `iteration_space.dfy`.
  - The numerical kernel (MetPy gradient, divergence and vorticity, lines
    116-126) is an opaque function parameter `Kernel`: for a member index, a
    time index and a level it returns the six planes, or `None` for an
    exception.
  - The sentinel is `None` at the granularity of one (member, time, level)
    plane.
  - A plane carries its shape. The six assignments at lines 129-134 raise at
    the first plane whose shape is not the slot's (ny, nx).
- `ana_duration_hours.py` (`duration_table.dfy`).
  - The `value_counts().sort_index()` frequency table of the case durations,
    with the percentage printed for each row.
  - The colour each distinct duration receives from
    `np.linspace(0, 1, k)` positions of the colormap.
  - The per-case colour list.
  - Durations are integers (whole hours). A colour is its position in [0, 1]
    on the colormap.

Only an exception raised before any assignment succeeds (in the kernel, or
at line 129 itself) leaves all six slots of a position at the sentinel. One
raised at a later assignment among lines 130-134 leaves the variables before
it written and the rest at the sentinel, and the position is still reported
(`ThetaEAnalysis.TornSlot`).

## Model

| member | source | states |
|---|---|---|
| LevelFilter.RequestedLevels | calc_WRF_ThetaE_Analysis.py:221 | without `-L` the request is [875, 850, 825]; the request is never empty (argparse `nargs='+'`) |
| LevelFilter.Missing | calc_WRF_ThetaE_Analysis.py:63 | a level is in the missing list iff it was requested and is not available; never longer than the request |
| LevelFilter.Kept | calc_WRF_ThetaE_Analysis.py:66 | a level is in the kept list iff it was requested and is available; never longer than the request |
| LevelFilter.EffectiveLevels | calc_WRF_ThetaE_Analysis.py:64-67 | `LEVELS` after the check (no contract of its own): `EffectiveIsKept` states it is always the kept list |
| LevelFilter.MissingMultiplicity | calc_WRF_ThetaE_Analysis.py:63 | duplicates kept: each absent level occurs in the missing list exactly as often as in the request, an available one never |
| LevelFilter.KeptMultiplicity | calc_WRF_ThetaE_Analysis.py:66 | each available level occurs in the kept list exactly as often as in the request, an absent one never |
| LevelFilter.Partition | calc_WRF_ThetaE_Analysis.py:63-66 | the missing and kept lists together are a permutation of the request, and their lengths add up to its length |
| LevelFilter.KeptAppend | calc_WRF_ThetaE_Analysis.py:66 | the kept list of a concatenation is the concatenation of the kept lists: order is preserved |
| LevelFilter.MissingAppend | calc_WRF_ThetaE_Analysis.py:63 | the missing list of a concatenation is the concatenation of the missing lists: request order is preserved |
| LevelFilter.NothingMissingIff | calc_WRF_ThetaE_Analysis.py:63-67 | nothing is missing iff the kept list is the whole request |
| LevelFilter.KeptIsRequestWhenNothingMissing | calc_WRF_ThetaE_Analysis.py:64-67 | when nothing is missing, filtering changes nothing |
| LevelFilter.EffectiveIsKept | calc_WRF_ThetaE_Analysis.py:64-67 | whether or not `LEVELS` is rebound, the levels processed are the kept ones |
| LevelFilter.DefaultRequestExample | calc_WRF_ThetaE_Analysis.py:63-67 | the default request against input levels 875 and 850 reports 825 missing and processes [875, 850] |
| IterationSpace.LevelRow | calc_WRF_ThetaE_Analysis.py:110 | the level loop for (m, t) makes one visit per level |
| IterationSpace.LevelRowContents | calc_WRF_ThetaE_Analysis.py:110 | the level loop for (m, t) visits level positions 0, 1, ... in order |
| IterationSpace.Triples | calc_WRF_ThetaE_Analysis.py:104-110 | the visiting order of the three nested loops (no contract of its own): `TriplesLength`, `TriplesCover`, `TriplesAscending` and `ExactlyOnce` state its properties |
| IterationSpace.TimeBlock | calc_WRF_ThetaE_Analysis.py:107-110 | the visiting order of the time loop of one member (no contract of its own): `TimeBlockLength`, `TimeBlockCover` and `TimeBlockAscending` state its properties |
| IterationSpace.TimeBlockLength | calc_WRF_ThetaE_Analysis.py:107-110 | the time loop of one member visits times × levels positions |
| IterationSpace.TriplesLength | calc_WRF_ThetaE_Analysis.py:97-111 | the loop runs `total_iterations = n_members * n_times * n_levels` times |
| IterationSpace.TimeBlockCover | calc_WRF_ThetaE_Analysis.py:107-110 | the time loop of member m visits exactly the positions of member m |
| IterationSpace.TriplesCover | calc_WRF_ThetaE_Analysis.py:104-110 | the positions visited are exactly those of the index space |
| IterationSpace.TimeBlockAscending | calc_WRF_ThetaE_Analysis.py:107-110 | the time loop of one member visits its positions in increasing (time, level) order |
| IterationSpace.TriplesAscending | calc_WRF_ThetaE_Analysis.py:104-110 | positions are visited in strictly increasing lexicographic order: member, then time, then level |
| IterationSpace.ExactlyOnce | calc_WRF_ThetaE_Analysis.py:104-110 | every position of the index space is visited exactly once, and no other position |
| IterationSpace.RunFilterIsFilter | calc_WRF_ThetaE_Analysis.py:104-137 | the errors accumulated loop by loop are the failing positions of the whole visiting order, in that order |
| IterationSpace.RowFilter | calc_WRF_ThetaE_Analysis.py:135-137 | the errors the level loop has reported after n levels (no contract of its own): `OutputArrays.FillLevels` and `RunFilterIsFilter` state it |
| IterationSpace.BlockFilter | calc_WRF_ThetaE_Analysis.py:135-137 | the errors the time loop of one member has reported (no contract of its own): `OutputArrays.FillTimes` and `RunFilterIsFilter` state it |
| IterationSpace.RunFilter | calc_WRF_ThetaE_Analysis.py:135-137 | the errors the member loop has reported (no contract of its own): `OutputArrays.Fill` and `RunFilterIsFilter` state it |
| ThetaEAnalysis.Rank | calc_WRF_ThetaE_Analysis.py:129-134 | each variable has its place in the order of the six assignments |
| ThetaEAnalysis.Written | calc_WRF_ThetaE_Analysis.py:129-134 | how many assignments run before one raises (no contract of its own): `WrittenIsFirstMisfit` states it |
| ThetaEAnalysis.Expected | calc_WRF_ThetaE_Analysis.py:114-138 | a slot's content after its position is processed (no contract of its own): `ExpectedFits`, `RaisedKeepsSentinel`, `FailedIffIncomplete` and `TornSlot` state it |
| ThetaEAnalysis.Failed | calc_WRF_ThetaE_Analysis.py:135-137 | whether the except branch runs for a position (no contract of its own): `RaisedKeepsSentinel` and `FailedIffIncomplete` state it |
| ThetaEAnalysis.FailedAt | calc_WRF_ThetaE_Analysis.py:135-137 | the except branch runs at a position whose level index selects a processed level (no contract of its own): `ReportedExactly` states it |
| ThetaEAnalysis.Reported | calc_WRF_ThetaE_Analysis.py:135-137 | `FailedAt` as the test applied to each visited position (no contract of its own): `ReportedExactly` and `ReportedOnce` state it |
| ThetaEAnalysis.WrittenIsFirstMisfit | calc_WRF_ThetaE_Analysis.py:129-134 | the store writes exactly the variables before the first plane that does not fit the slot |
| ThetaEAnalysis.ExpectedFits | calc_WRF_ThetaE_Analysis.py:129-134 | a slot only ever receives a plane of the slot's shape |
| ThetaEAnalysis.RaisedKeepsSentinel | calc_WRF_ThetaE_Analysis.py:114-137 | an exception before the store is reported and leaves all six slots at the sentinel |
| ThetaEAnalysis.FailedIffIncomplete | calc_WRF_ThetaE_Analysis.py:114-137 | a position is reported iff its vorticity slot kept the sentinel; an unreported position holds all six kernel planes |
| ThetaEAnalysis.TornSlot | calc_WRF_ThetaE_Analysis.py:129-134 | a store that raises at the gradient magnitude leaves theta-e and the gradients written, the rest at the sentinel, and is reported |
| ThetaEAnalysis.ReportedExactly | calc_WRF_ThetaE_Analysis.py:114-137 | the run's error list names exactly the failing positions of the index space |
| ThetaEAnalysis.ReportedOnce | calc_WRF_ThetaE_Analysis.py:104-137 | the run's error list names each failing position once, in visiting order |
| ThetaEAnalysis.OutputArrays.constructor | calc_WRF_ThetaE_Analysis.py:79-95 | six fresh, distinct arrays of shape (members, times, levels), every cell the sentinel |
| ThetaEAnalysis.OutputArrays.Put | calc_WRF_ThetaE_Analysis.py:129 | one assignment writes its own slot of its own variable and nothing else |
| ThetaEAnalysis.OutputArrays.Store | calc_WRF_ThetaE_Analysis.py:129-134 | the slot's variables before the first misfit receive the kernel's planes, the others keep their value; no other slot changes; success iff all six fit |
| ThetaEAnalysis.OutputArrays.Attempt | calc_WRF_ThetaE_Analysis.py:114-138 | from a sentinel slot, the slot ends as `Expected` and the error flag is `Failed`; no other slot changes |
| ThetaEAnalysis.OutputArrays.FillLevels | calc_WRF_ThetaE_Analysis.py:110-138 | the level loop counts one iteration per level, fills each level slot of (m, t) as `Expected`, reports its failures in order, and changes no other slot |
| ThetaEAnalysis.OutputArrays.FillTimes | calc_WRF_ThetaE_Analysis.py:107-138 | the time loop counts times × levels iterations, fills member m's slots as `Expected`, and changes no other member's slots |
| ThetaEAnalysis.OutputArrays.Fill | calc_WRF_ThetaE_Analysis.py:97-138 | from an all-sentinel state, the loop counts members × times × levels iterations, every slot ends as `Expected`, and the errors are the failing positions in visiting order |
| ThetaEAnalysis.SomeCount | calc_WRF_ThetaE_Analysis.py:148 | the number of computed slots among some positions is at most their number |
| ThetaEAnalysis.Computed | calc_WRF_ThetaE_Analysis.py:148 | the `~np.isnan` test for one slot: in range and holding a plane (no contract of its own): `SomeCountZero` and `ValidSlotsCount` state it |
| ThetaEAnalysis.SomeSet | calc_WRF_ThetaE_Analysis.py:148 | the set of valid slots among some positions (no contract of its own): `SomeCountIsCardinality` and `ValidSlotsCount` state it |
| ThetaEAnalysis.SomeCountZero | calc_WRF_ThetaE_Analysis.py:148-149 | the count of computed slots is 0 iff every listed slot holds the sentinel |
| ThetaEAnalysis.SomeCountFull | calc_WRF_ThetaE_Analysis.py:148 | when every listed slot is computed, all of them are counted |
| ThetaEAnalysis.SomeSetCons | calc_WRF_ThetaE_Analysis.py:148 | the computed slots named by a list are those of its head, if computed, and those of its tail |
| ThetaEAnalysis.SomeCountIsCardinality | calc_WRF_ThetaE_Analysis.py:148 | over positions without repeats, the count is the size of the set of computed slots they name |
| ThetaEAnalysis.ValidSlotsCount | calc_WRF_ThetaE_Analysis.py:148-150 | the count over the whole index space is the number of slots that are not the sentinel |
| ThetaEAnalysis.Report | calc_WRF_ThetaE_Analysis.py:147-152 | the summary printed for one variable (no contract of its own): `ReportBounds`, `NoValidDataIff` and `ValidSlotsCount` state it |
| ThetaEAnalysis.ReportBounds | calc_WRF_ThetaE_Analysis.py:147-150 | a printed valid count is positive and at most `data.size`, which is members × times × levels × ny × nx; a fully computed array prints size/size |
| ThetaEAnalysis.NoValidDataIff | calc_WRF_ThetaE_Analysis.py:147-152 | on a non-empty grid, "No valid data!" is printed iff every slot holds the sentinel |
| ThetaEAnalysis.ProcessMultipleLevels | calc_WRF_ThetaE_Analysis.py:63-160 | the missing list is returned; with no times the run ends before allocation (line 70) with no output; otherwise the level coordinate is the filtered list and the rest is as `Run` states |
| ThetaEAnalysis.Run | calc_WRF_ThetaE_Analysis.py:79-152 | fresh arrays shaped by the levels; iterations are the product; every slot is `Expected`; errors are the failing positions in visiting order; one summary per variable, in order |
| ThetaEAnalysis.Summaries | calc_WRF_ThetaE_Analysis.py:147-152 | one summary per output variable, in the order of the dictionary, each the `Report` of that variable's array |
| ThetaEAnalysis.RunNoValidData | calc_WRF_ThetaE_Analysis.py:147-152 | after a run on a non-empty grid, a variable prints "No valid data!" iff no position stored that variable |
| DurationTable.InsertFacts | ana_duration_hours.py:50 | inserting a duration into the ascending index keeps it strictly ascending and adds exactly that duration |
| DurationTable.Distinct | ana_duration_hours.py:50 | the `sort_index()` index of `value_counts()` (no contract of its own): `DistinctFacts` states it |
| DurationTable.DistinctFacts | ana_duration_hours.py:50 | the table index is strictly ascending and holds exactly the durations that occur |
| DurationTable.CountIsMultiplicity | ana_duration_hours.py:50 | a count is the number of cases whose duration equals the key exactly |
| DurationTable.CountOf | ana_duration_hours.py:50 | the count `value_counts()` gives a duration (no contract of its own): `CountIsMultiplicity` and `CountPositiveIff` state it |
| DurationTable.CountPositiveIff | ana_duration_hours.py:50 | a count is positive iff the duration occurs |
| DurationTable.Distribution | ana_duration_hours.py:50-53 | the table has one row per distinct duration |
| DurationTable.Percentage | ana_duration_hours.py:52 | `(count / len(df)) * 100` over the reals (no contract of its own): `PercentagesSumToHundred` and `DistributionExample` state it |
| DurationTable.DistributionKeys | ana_duration_hours.py:50 | the rows' durations strictly ascend, and a duration occurs among the cases iff it keys a row |
| DurationTable.DistributionCounts | ana_duration_hours.py:50 | each row's count is its duration's multiplicity among the cases, hence at least 1 |
| DurationTable.CountsSumToTotal | ana_duration_hours.py:50-52 | the counts sum to `len(df)` |
| DurationTable.PercentagesSumToHundred | ana_duration_hours.py:51-53 | for a non-empty frame the exact percentages `count / len(df) * 100` sum to 100 over the reals |
| DurationTable.DistributionExample | ana_duration_hours.py:50-53 | durations 10, 10, 20, 40 give rows (10, 2, 50%), (20, 1, 25%), (40, 1, 25%) |
| DurationTable.Linspace | ana_duration_hours.py:99 | as many colours are generated as asked for |
| DurationTable.LinspaceShape | ana_duration_hours.py:99 | the colormap positions lie in [0, 1], strictly increase, and run from 0 to 1 |
| DurationTable.ZipMap | ana_duration_hours.py:100 | the zipped map has exactly the zipped keys |
| DurationTable.ZipMapAt | ana_duration_hours.py:100 | with distinct keys, each key maps to the value at its own position |
| DurationTable.ColorMap | ana_duration_hours.py:100 | `duration_color_map` has an entry exactly for each duration that occurs |
| DurationTable.ColorMapPositions | ana_duration_hours.py:99-100 | one colour per distinct duration; the i-th smallest duration gets the i-th position |
| DurationTable.ColorMapMonotone | ana_duration_hours.py:99-100 | every colour position is in [0, 1], and a longer duration gets a strictly later position |
| DurationTable.PointColors | ana_duration_hours.py:101 | `point_colors` has one entry per case |
| DurationTable.PointColorsMatch | ana_duration_hours.py:101 | each case gets its own duration's colour; two cases share a colour iff their durations are equal |

## Left out

- The numerics of lines 116-126 are an opaque `Kernel` parameter. That covers `geospatial_gradient`, `divergence`, `vorticity`, the gradient magnitude, reading the slices and unit handling. They are floating point inside foreign libraries.
- ThetaEAnalysis.ProcessMultipleLevels: an exception raised outside the try block before the loop ends the run, and only the empty time coordinate (line 70) is modelled. Failures while opening the datasets or computing the grid spacing with `lat_lon_grid_deltas` (line 75) are assumed not to happen.
- A NaN computed by the kernel is not modelled. The code would count such a cell as invalid. A computed plane counts as `ny * nx` valid cells.
- NumPy broadcasting on assignment is not modelled. A plane fits its slot only when its shape is exactly (ny, nx). A broadcastable shape would not raise in the code.
- Values are `real`, not `float32`. Plane values are never inspected.
- Members and times are identified by their indices `m_idx` and `t_idx`. Their labels only feed `.sel` inside the kernel.
- Printing and the progress percentage are not modelled. The error list stands for the messages printed at line 137.
- The range `[min, max]` printed at line 150 is float statistics and is left out. `ThetaEAnalysis.Summary` keeps the valid count and the size.
- NetCDF assembly, attributes, encoding and the write are I/O (lines 154-213). So are opening and closing the datasets, `makedirs`, and the parsing of `-L` by argparse. Only the output's level coordinate (line 160) is modelled, as `OutputArrays.levels`.
- `frontogenesis_tendency_comparison.py` is not part of this model. It is MetPy numerics and plotting.
- In `ana_duration_hours.py`, the following are left out:
  - CSV loading;
  - the float statistics (`describe`, skewness, kurtosis, the t-test);
  - the seeded jitter;
  - all plotting.
- Durations are integers. Non-integer durations are not modelled.
- DurationTable.CountsSumToTotal: `value_counts()` drops missing (NaN) durations by default. The model has none; a missing duration would make the counts sum to less than `len(df)`.
- DurationTable.PercentagesSumToHundred: percentages are exact reals. The float division at line 52 and the one-decimal rounding printed at line 53 are not modelled, so the printed values need not add up to 100 (durations 1, 2, 3 print 33.3 three times).
- DurationTable.PointColorsMatch: colours are positions in [0, 1] on the colormap, not the RGBA values of viridis's 256-entry table. Two durations whose positions fall in the same table entry would share an RGBA colour.
