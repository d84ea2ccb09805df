# bottom: layout, scrolling and sampling state, in Dafny

This project models two parts of the `bottom` terminal system monitor and proves properties of the model.

- **Table layout and scrolling** (`src/canvas.rs`):
  - the column thresholds derived from the table headers;
  - the adaptive column-width allocation `get_variable_intrinsic_widths`;
  - the sticky scroll offset `get_start_position`;
  - the row-highlight counter that every table drawer uses to style the selected row.
- **The sampling state** (`src/app/data_collection.rs`):
  - `DataState` with its defaults and setters;
  - the two merge helpers `set_if_valid` and `push_if_valid`;
  - `update_data`. It merges each provider read into the collected `Data`, throws everything away on the first run, and sweeps stale history entries and stale per-process counters once the retention window has passed since the last sweep.

Files:

- `canvas_widths.dfy` (module `CanvasWidths`) holds the thresholds and the width allocation.
  - The functions `FitColumn`, `MainPass` and `Redistribute` specify the allocation.
  - The methods `AllocateColumns`, `SpreadRemainingWidth` and `GetVariableIntrinsicWidths` are the source's loops, each proved equal to those functions.
  - Lemmas state what the allocation guarantees.
- `canvas_scroll.dfy` (module `CanvasScroll`) holds the scroll offset and the highlight counter.
  - `NextStartPosition` is the scroll decision on values.
  - `ScrollState.GetStartPosition` updates the remembered offset in place, as the source's `&mut i64` does.
  - `HighlightRows` is the counter loop.
- `data_collection.dfy` (module `DataCollection`) holds the data model and the state.
  - `Merge`, `KeepFresh`, `EvictStale` and `NextData` specify one `update_data` call on values.
  - The class `DataState` keeps the source's fields. Its methods are proved to leave exactly those values.

Modelling choices:

- **Instants** are natural numbers of milliseconds.
- **Whole seconds.** `duration_since(..).as_secs()` is `SecondsSince`, which truncates to whole seconds and saturates at 0. The source's clock is monotonic, so the saturating case does not arise there.
- **Provider reads** are inputs:
  - each read is an `Ok` value or an `Err` (`Readings`);
  - each sample carries the instant it was taken at;
  - each rate computation leaves its counters as the `NetworkCounters` and `ProcessCounters` given with the reads.
- **Clean instant.** The second clock reading of `update_data` is the parameter `cleanInstant`.
- **Desired widths.** `GetVariableIntrinsicWidths` takes the desired widths as integers. Those are the values the source computes from the ratios with `(ratio * total_width as f64) as i32`.
- **Panics and truncating casts become requires.** `WidthsRequest` states the conditions under which the source's arithmetic neither panics nor truncates:
  - `total_width - (num_widths - 1)` must not underflow `u16` (canvas.rs line 968);
  - `num_widths as u16` must be exact, so there are at most 65535 columns. With exactly 65536 the cast gives 0 and line 968 underflows; with more it wraps silently and the separator count is wrong;
  - the first column must be given a width, because otherwise line 1009 divides by `last_index == 0`;
  - thresholds must be below 2^31, so the `width_thresholds[itx] as i32` casts (lines 975, 977, 980, 987) are exact instead of wrapping silently.

  The widths never exceed the usable width (`IntrinsicWidthsShape`), so the `u16` additions of the redistribution cannot overflow.

Three behaviours of the code worth knowing:

- **Scroll bound.** Right after the window moves down, it starts at `selected - num_rows`, so the selection sits exactly `num_rows` rows below the start. The model proves `start <= selected <= start + numRows` (`StepKeepsSelectionVisible`, `DownRunKeepsSelectionVisible`), and `AdvanceLandsOnLastRow` shows that the upper bound is reached.
- **First run.** The reset happens on the first call to `update_data`, after that call's reads have been merged. So every history is empty afterwards, including that first call's samples (`FirstRunResets`).
- **Redistribution.** The leftover share `remaining / last_index` is added to every entry of the vector, the dropped columns included (`IntrinsicWidthsRedistribute`). The one-cell remainder goes only to drawn columns, and the drawn widths then add up to the usable width exactly (`IntrinsicWidthsFill`).

## Model

| member | source | states |
|---|---|---|
| CanvasWidths.HeaderLens | src/canvas.rs:54-73 | one threshold per header: never below FORCE_MIN_THRESHOLD, never below the header's length, and equal to one of the two |
| CanvasWidths.HeaderLensOfTables | src/canvas.rs:23-28 | the thresholds of the CPU legend, disk, temperature and both network tables are [5,5], [5,5,5,5,5,5,5], [6,5], [5,5,8,8] and [5,5] |
| CanvasWidths.FitColumn | src/canvas.rs:975-998 | one column: the width is 0 or at least the threshold; width plus what is left equals what was free; both are non-negative; with a positive threshold the width is 0 exactly when less than the threshold is free |
| CanvasWidths.MainPassShape | src/canvas.rs:974-1005 | the first pass gives one non-negative width per column, each 0 or at least its threshold, with a count of at most N and a non-negative remainder |
| CanvasWidths.MainPassStops | src/canvas.rs:1000-1004 | the pass stops at the first 0: the counted widths are non-zero, all later ones are 0, and the column it stopped at had a threshold larger than the width left |
| CanvasWidths.MainPassConserves | src/canvas.rs:975-1004 | the assigned widths plus the width left add up to the width the pass started with |
| CanvasWidths.NoColumnFits | src/canvas.rs:1008-1009 | no column is allocated exactly when the usable width is below the first threshold, which is the case where the redistribution divides by zero |
| CanvasWidths.MainPassDone | src/canvas.rs:968-1005 | under the source's preconditions the pass allocates at least one column, leaves zeros after the counted ones, and conserves the usable width |
| CanvasWidths.RedistributeFills | src/canvas.rs:1008-1018 | when a column was dropped, the drawn widths after the redistribution add up to the usable width exactly |
| CanvasWidths.RedistributeBounded | src/canvas.rs:1008-1018 | after the redistribution no width, drawn or dropped, is negative or exceeds the usable width |
| CanvasWidths.IntrinsicWidthsShape | src/canvas.rs:961-1022 | N widths, 0 < count <= N, every drawn width at least its threshold, every width within the usable width (so no u16 overflow) |
| CanvasWidths.IntrinsicWidthsFill | src/canvas.rs:1008-1021 | when a column was dropped the drawn widths fill the usable width exactly; otherwise the widths are the first pass's and their sum is at most the usable width |
| CanvasWidths.IntrinsicWidthsRedistribute | src/canvas.rs:1008-1018 | the redistribution adds remaining / count to every entry and one more to each of the first remaining % count; without a dropped column nothing changes |
| CanvasWidths.HalfAndHalfExample | src/canvas.rs:961-1022 | width 20, desired [10, 10], thresholds [5, 5] gives ([10, 9], 2) |
| CanvasWidths.NarrowDiskTableExample | src/canvas.rs:961-1022 | the disk table at width 20 draws two columns of 7 and gives 2 to each of the five dropped ones |
| CanvasWidths.GetVariableIntrinsicWidths | src/canvas.rs:961-1022 | the whole allocation returns the widths and count of the functional specification |
| CanvasWidths.AllocateColumns | src/canvas.rs:965-1005 | the first loop, with its break at the first 0, returns exactly the widths, count and remainder of MainPass |
| CanvasWidths.SpreadRemainingWidth | src/canvas.rs:1008-1019 | the redistribution loop computes exactly Redistribute |
| CanvasScroll.NextStartPosition | src/canvas.rs:1024-1055 | the remembered offset either stays or becomes the returned start; it never decreases when scrolling down and never increases when scrolling up |
| CanvasScroll.StepKeepsSelectionVisible | src/canvas.rs:1024-1055 | a selection that moved in the given direction from inside the window is visible after the call: 0 <= start <= selected <= start + num_rows, and the start is what is remembered |
| CanvasScroll.AdvanceLandsOnLastRow | src/canvas.rs:1034-1038 | 5 rows, offset 0, row 7 selected moving down gives start 2 (row 7 is num_rows below the start) |
| CanvasScroll.ScrollRun | src/canvas.rs:1024-1055 | successive calls give one start per selection |
| CanvasScroll.DownRunKeepsSelectionVisible | src/canvas.rs:1029-1043 | for non-decreasing selections moving down, the starts never decrease, never drop below the initial offset and always keep the selection visible |
| CanvasScroll.UpRunKeepsSelectionVisible | src/canvas.rs:1044-1053 | for non-increasing selections moving up, the starts never increase, never exceed the initial offset and always keep the selection visible |
| CanvasScroll.ScrollState.constructor | src/canvas.rs:1025 | the remembered offset starts at the given value |
| CanvasScroll.ScrollState.GetStartPosition | src/canvas.rs:1024-1055 | returns the start and leaves the remembered offset exactly as NextStartPosition says |
| CanvasScroll.HighlightRows | src/canvas.rs:455-480 | one style per row; a row is highlighted exactly when the table has the focus and the row is selected - start |
| DataCollection.SetIfValid | src/app/data_collection.rs:14-18 | an Ok result replaces the value; an Err leaves it unchanged |
| DataCollection.PushIfValid | src/app/data_collection.rs:20-24 | an Ok result is appended after the existing entries, which are kept; an Err appends nothing |
| DataCollection.MergeIsolatesReads | src/app/data_collection.rs:100-148 | a failed read leaves its category as it was; a successful disk, process or temperature read replaces its list; a successful network, CPU, memory, swap or I/O read is appended to its history; physical I/O and the grouped list are untouched |
| DataCollection.KeepFresh | src/app/data_collection.rs:170-178 | the sweep's history filter keeps an order-preserving subsequence whose elements are exactly the entries no more than stale_max_seconds whole seconds old |
| DataCollection.KeepFreshCounts | src/app/data_collection.rs:170-218 | each fresh entry is kept as many times as it occurs, and each stale one is dropped |
| DataCollection.KeepFreshIdempotent | src/app/data_collection.rs:170-218 | filtering an already filtered history changes nothing |
| DataCollection.KeepFreshAppend | src/app/data_collection.rs:112-115 | filtering a history with one more sample at its end gives the filtered history, followed by that sample when it is fresh |
| DataCollection.FreshPidStats | src/app/data_collection.rs:158-168 | the per-process counters a sweep keeps are exactly those read no more than stale_max_seconds whole seconds before, with their values |
| DataCollection.RemoveKeys | src/app/data_collection.rs:166-168 | the removal loop leaves exactly the keys not in the stale list, with their values |
| DataCollection.FirstRunResets | src/app/data_collection.rs:150-153 | the first call leaves every history and snapshot empty, whatever was read |
| DataCollection.NoSweepOnlyMerges | src/app/data_collection.rs:100-157 | after the first run and without a sweep, one call is exactly the merge of its reads |
| DataCollection.SweepKeepsExactlyFresh | src/app/data_collection.rs:157-220 | after a sweep every history entry is fresh, and each of the five histories is exactly KeepFresh of the merged one (the fresh entries, each as often as before, in their order) |
| DataCollection.SweepLeavesSnapshots | src/app/data_collection.rs:137-220 | disks, processes, temperatures, the grouped list and physical I/O are never changed by the sweep |
| DataCollection.FailedDiskReadKeepsSnapshot | src/app/data_collection.rs:137-140 | a failed disk read after the first run keeps the previous disk list exactly |
| DataCollection.CpuReadAppends | src/app/data_collection.rs:112-115 | after the first run and without a sweep, a successful CPU read is appended and a failed one changes nothing |
| DataCollection.SweepIsIdempotent | src/app/data_collection.rs:156-220 | a second sweep at the same instant removes nothing more |
| DataCollection.FreshCpuReadSurvivesSweep | src/app/data_collection.rs:112-178 | a CPU read fresh at the clean instant is the newest entry after a sweep, behind the fresh part of the earlier history |
| DataCollection.DataState.constructor | src/app/data_collection.rs:56-73 | the defaults: nothing collected, first run pending, stale window in whole seconds, zero counters, Celsius, last clean now, cpu-total flag off |
| DataCollection.DataState.SetTemperatureType | src/app/data_collection.rs:77-79 | sets the temperature unit and nothing else |
| DataCollection.DataState.SetUseCurrentCpuTotal | src/app/data_collection.rs:81-83 | sets the cpu-total flag and nothing else |
| DataCollection.DataState.UpdateData | src/app/data_collection.rs:89-222 | the new dataset is NextData of the old state; the first-run flag is cleared; the counters are those the reads left, with stale per-process entries removed and last_clean moved only when a sweep ran |
| DataCollection.DataState.MergeReadings | src/app/data_collection.rs:100-148 | the merge step leaves the dataset as Merge and the counters as the reads left them |
| DataCollection.DataState.CleanStale | src/app/data_collection.rs:157-220 | the sweep leaves EvictStale of the dataset, FreshPidStats of the counters and last_clean at the clean instant |

## Left out

- Ratio multiplication: the `f64` product `ratio * total_width` and its truncating cast to `i32` (canvas.rs line 971) are floating point. The model takes the resulting integer desired widths as input.
- GetVariableIntrinsicWidths: the inputs on which the source panics or a cast truncates are excluded by `WidthsRequest` rather than modelled:
  - `total_width` smaller than the number of gaps (u16 underflow, a panic);
  - no column fitting at all (division by zero, a panic);
  - 65536 columns or more (`num_widths as u16` truncates; at exactly 65536 line 968 then underflows, above it the separator count silently wraps);
  - a threshold of 2^31 or more (`as i32` at lines 975, 977, 980 and 987 silently wraps).
- CanvasScroll.NextStartPosition: the `i64` overflow of `previous + num_rows` and `selected - num_rows` is not modelled, because the arguments are unbounded integers.
- HighlightRows: the colours of the non-selected rows (`COLOUR_LIST[itx % len]`) are not modelled; the model keeps only whether a row is highlighted. The counter is modelled once, from the CPU table (canvas.rs lines 455-480); the temperature, disk and process tables repeat the same counter (lines 714-736, 780-800, 860-893).
- The drawing itself is not modelled: layout rectangles, widgets, styles and the help text.
- Provider reads: sysinfo, heim and the network, CPU, memory, process, disk and temperature readers are modelled only through their outcome (`Readings`):
  - the rate formulas that compute CPU usage and network or process rates are not modelled;
  - the way those formulas update `prev_idle`, `prev_non_idle`, `prev_pid_stats` and `prev_net_*` is not modelled; the updated counters arrive as inputs.
- The `sys.refresh_*` calls of `update_data` (data_collection.rs lines 90-96), their platform gating, and `init` (which only calls `sys.refresh_all`) act on the system handle only, so they are not modelled.
- The system handle `sys` is not a field of `DataState` in the model.
- The two clock readings of `update_data` are inputs: the reads carry their instants, and the clean instant is a parameter.
- `STALE_MAX_MILLISECONDS` is defined in `src/constants.rs`, which is not part of this model, so the constructor takes it as a parameter.
- `async` execution: the awaits of `update_data` are modelled as running in sequence.
- Stale-pid removal: the source collects the stale pids into a vector in the map's iteration order. The model uses a set, since removing keys from a map does not depend on the order.
- Physical I/O: `list_of_physical_io` is part of `Data`, but `update_data` never writes it; the model keeps it and proves it unchanged.
