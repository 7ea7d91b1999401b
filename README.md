# MLD preprocessing: a Dafny model of its array bookkeeping

The repository preprocesses ocean mixed-layer-depth (MLD) fields. It reads them from NetCDF files,
interpolates them onto coarser grids or onto the grid of a land-mask file, blanks land points,
clamps values to [0,500] and writes the results back.

Most of the work is done by xarray, numpy and the NCO shell tools. This project models the part
the program does itself around those calls and proves properties of it. The model covers:

- **Coordinate-name resolution** (`CoordNames`). The longitude and latitude variable names are
  resolved by joining whichever of the aliases `lon`/`longitude` and `lat`/`latitude` the file
  declares. `getll_nc` and `getdata_nc` are modelled on a dataset value.
- **The time-axis merge and per-time overwrite of `write_nc`/`write_var`** (`TimeAxis`, `Writer`).
  - The merged axis keeps each old timestamp that is not being rewritten, exactly once.
  - It adds the new timestamps and is sorted.
  - Every variable is reindexed onto the merged axis, and rows at times the file lacked become
    missing values.
  - The rows at the new times are then overwritten in place, item by item.
- **The longitude handling of `interp2d_nc`** (`Longitude`, with `Sorting`).
  - The mask longitudes are shifted from 0..360 to -180..180 in place and sorted in place.
  - They are restored in place inside the per-variable loop.
  - Each result is relabelled, sorted by longitude, and its land cells are set to NaN.
- **The orientation guard of `interp2d_array`** (`Regrid`). The array is transposed exactly when
  its row count differs from the number of latitudes.
- **The script-level array steps of `mld_preprocessing.py`** (`Driver`):
  - the `lon > 120` filter;
  - marking land as 0;
  - every tenth grid point;
  - blanking land on the coarse grid;
  - the [0,500] clamp;
  - the `== 0` mask and its tiling over three days;
  - the final regrid-and-clamp pass.

A NaN or a number is a `Cells.Cell` (`NaN | Val(real)`). Coordinates and values are `real`.

Library numerics are function parameters that the model never interprets: linear interpolation
with extrapolation, gap filling, and nearest-neighbour and time selection. So shapes and
bookkeeping are proved for every possible numerical routine.

In-place operations are methods on `array`/`array2`:
- `SortInPlace`, `ShiftWest`, `RestoreEast`;
- `OverwriteRows`, `MaskLandInPlace`, `SetWhere`, `MapInPlace`;
- `ZeroLand`, `QualityControl`, `ProcessDay`, the `interp2d_nc` loops.

Each of them is proved against a specification function of the old contents. The properties are
proved about those functions.

`interp2d_nc` grids are indexed [longitude][latitude], so `sortby(lon)` moves whole columns. The
script's own arrays are indexed [latitude][longitude], as they are stored.

Two facts about the longitude shift are worth knowing:
- The shift of line 88 brings a longitude to at most 180 only when it was at most 540
  (`ShiftedSortedProps`; `ShiftLeavesLarge` shows that 600 becomes 240).
- After `interp2d_nc`, the mask longitude array is left in the restored-but-unsorted order
  (`MaskLeftReordered`).

The mask derived at mld_preprocessing.py:78 never marks a land point of a day file
(`DerivedMaskSkipsLand`). Land was set to NaN at line 43, and NaN is not equal to 0. So the mask
marks exactly the sea points whose value ended up as 0. The model states this as proved and does
not guess at a different intent.

## Model

| member | source | states |
|---|---|---|
| `CoordNames.Present` | tools/pre_function.py:78-79 | definition: the aliases the dataset declares, in candidate order (properties in `PresentAppend`, `PresentNone`, `PresentAll`) |
| `CoordNames.Concat` | tools/pre_function.py:78-79 | definition: `''.join` (property in `ConcatAppend`) |
| `CoordNames.Resolve` | tools/pre_function.py:78-79 | definition: the join of the declared aliases (its cases in `ResolveNone`, `ResolveOne`, `ResolveAll`, `LonNameCases`) |
| `CoordNames.PresentAppend` | tools/pre_function.py:78-79 | filtering a split candidate list is the concatenation of the two filtered halves, in candidate order |
| `CoordNames.ConcatAppend` | tools/pre_function.py:78-79 | `''.join` of a split list is the join of the two halves |
| `CoordNames.PresentNone` | tools/pre_function.py:78-79 | no candidate declared: the filtered list is empty |
| `CoordNames.PresentAll` | tools/pre_function.py:78-79 | every candidate declared: the filtered list is the candidate list itself |
| `CoordNames.ResolveAppend` | tools/pre_function.py:151-152 | the resolved name of a split candidate list is the join of the two resolved names |
| `CoordNames.ResolveNone` | tools/pre_function.py:174-175 | no candidate declared: the resolved name is the empty string |
| `CoordNames.ResolveOne` | tools/pre_function.py:174-175 | exactly one candidate declared: the resolved name is that candidate |
| `CoordNames.ResolveAll` | tools/pre_function.py:174-175 | every candidate declared: the resolved name is their concatenation in candidate order |
| `CoordNames.LonNameCases` | tools/pre_function.py:78 | the longitude name is "lon", "longitude", "lonlongitude" or "", according to which aliases are declared |
| `CoordNames.Source.Keys` | tools/pre_function.py:151-152 | definition: `ds.keys()`, every declared name, coordinates and data variables alike (used by `LonName`, `LatName` and the alias lemmas) |
| `CoordNames.GetLL` | tools/pre_function.py:171-178 | succeeds iff both resolved names are declared coordinates, and returns their values; otherwise the key error names the longitude name first, then the latitude name |
| `CoordNames.GetLLLongNames` | tools/pre_function.py:174-176 | a file with only `longitude`/`latitude` yields exactly those coordinates |
| `CoordNames.GetLLBothAliases` | tools/pre_function.py:174-176 | a file with both `lon` and `longitude` fails on the key "lonlongitude" |
| `CoordNames.GetLLNoAlias` | tools/pre_function.py:174-176 | a file with neither alias fails on the empty key |
| `CoordNames.SelectOne` | tools/pre_function.py:159-164 | definition: `ds[var]` (a key error for an undeclared variable), then the time slice, then the nearest-neighbour selections, each failing on an undeclared resolved name (used by `SelectAll`, `GetData`) |
| `CoordNames.SelectAll` | tools/pre_function.py:158-165 | succeeds iff every variable's selection succeeds; the result has one entry per variable, in order, each the selection of that variable |
| `CoordNames.GetData` | tools/pre_function.py:147-166 | succeeds iff the time exists, every variable exists, and each requested lon/lat selection has a declared resolved name (when any variable is read); a missing time fails first; on success entry k is the selection of the k-th variable |
| `CoordNames.GetDataIgnoresNamesWithoutSelection` | tools/pre_function.py:159-163 | without lon/lat selections, reading succeeds whatever names the file declares |
| `TimeAxis.Without` | tools/pre_function.py:46 | definition: the old timestamps that are not new, in order (counted in `WithoutCount`) |
| `TimeAxis.Dedup` | tools/pre_function.py:46 | definition: one copy of each element (counted in `DedupCount`) |
| `TimeAxis.Unique` | tools/pre_function.py:46 | definition: `np.unique`, the sorted distinct elements |
| `TimeAxis.MergedAxis` | tools/pre_function.py:46-48 | definition: the sorted concatenation of the kept old timestamps and the new ones (properties in `MergedCount`, `MergedSorted`, `MergedStrictlyAscending`, `MergedMembers`) |
| `TimeAxis.WithoutCount` | tools/pre_function.py:46 | an old timestamp survives the filter as often as it occurred, unless it is a new timestamp, in which case never |
| `TimeAxis.DedupCount` | tools/pre_function.py:46 | `np.unique` keeps every present timestamp exactly once |
| `TimeAxis.MergedCount` | tools/pre_function.py:46-48 | on the merged axis a new timestamp occurs as often as given; an old timestamp that is not rewritten occurs exactly once; any other timestamp never occurs |
| `TimeAxis.MergedSorted` | tools/pre_function.py:48 | the merged axis is ascending |
| `TimeAxis.DistinctCounts` | tools/pre_function.py:46 | a sequence is duplicate-free iff no element occurs twice in its multiset |
| `TimeAxis.MergedStrictlyAscending` | tools/pre_function.py:45-48 | with distinct new timestamps the merged axis is duplicate-free and strictly ascending |
| `TimeAxis.MergedMembers` | tools/pre_function.py:45-48 | a timestamp is on the merged axis iff it was old or is new |
| `Writer.IndexOf` | tools/pre_function.py:27 | the first position holding `tm`, with none before it holding it; the mask `da_back.time == tm` selects every such position, and the two agree because the merged axis has no duplicates (`MergedStrictlyAscending`) |
| `Writer.IndexOfDistinct` | tools/pre_function.py:27 | on a duplicate-free axis, the position found for the k-th timestamp is k |
| `Writer.NaNRow` | tools/pre_function.py:48 | the row `reindex` inserts for a new time holds only missing values |
| `Writer.Reindex` | tools/pre_function.py:48 | one row per axis entry, all of the variable's width: the stored row at a time the file had, a row of missing values otherwise (rows stated in `WriteNcUnnamedVar`) |
| `Writer.MergeTime` | tools/pre_function.py:41-48 | fails iff the file's time axis repeats a timestamp; otherwise the new axis is the merged axis, and the coordinates and the variable names are kept |
| `Writer.Overwritten` | tools/pre_function.py:26-27 | rows of the old length: the slice of a new time at its row, the old row elsewhere (used by `OverwriteRows`; stated per row in `WriteItemFrame`, `WriteNcWritesSlice`) |
| `Writer.OverwriteRows` | tools/pre_function.py:26-27 | the row array after the loop equals the specification: the slice of each new time at its row, and the old row everywhere else |
| `Writer.IsCoordWrite` | tools/pre_function.py:21 | definition: `var_name == dims`, true only when the dimensions are a single name equal to the item's name, never for a tuple (used in the `WriteItem` iff) |
| `Writer.WriteItem` | tools/pre_function.py:18-30 | keeps the time axis, the sets of names and every coordinate's length; a coordinate write succeeds iff the name is a declared coordinate given as values of its length; a data write to an undeclared variable fails |
| `Writer.ApplyItems` | tools/pre_function.py:51-53 | writing items in order keeps the file consistent, its time axis, its sets of names and every coordinate's length |
| `Writer.WriteNcSpec` | tools/pre_function.py:41-57 | definition: the time merge, then the items in order, the first failure aborting (properties in `WriteNcPreserves`, `WriteNcUnnamedVar`, `WriteNcWritesSlice`, `WriteNcDuplicateTime`) |
| `Writer.WriteNc` | tools/pre_function.py:39-57 | the file the loop of `write_var` calls produces equals the specification `WriteNcSpec` |
| `Writer.WriteItemFrame` | tools/pre_function.py:21-29 | one item leaves every row it does not rewrite unchanged |
| `Writer.ApplyItemsKeepsOtherTimes` | tools/pre_function.py:26-27 | rows at times that are not new are unchanged by any sequence of items |
| `Writer.ApplyItemsKeepsUnnamed` | tools/pre_function.py:51-53 | a variable no item names is left exactly as reindexing made it |
| `Writer.WriteNcPreserves` | tools/pre_function.py:41-53 | after `write_nc` the axis is the merged axis, no name is gained or lost, and each old row at a time not rewritten is unchanged |
| `Writer.WriteNcUnnamedVar` | tools/pre_function.py:48 | a variable no item names holds its old row at each time the file had and a row of missing values at each time the file lacked |
| `Writer.ApplyItemsWritesSlice` | tools/pre_function.py:26-27 | after the last item writing a variable, its row at each new time is that item's slice for the time |
| `Writer.WriteNcWritesSlice` | tools/pre_function.py:24-27 | after `write_nc`, the row of a written variable at a new time is the supplied slice for that time |
| `Writer.WriteNcDuplicateTime` | tools/pre_function.py:48 | a file whose time axis repeats a timestamp is not written |
| `Sorting.Insert` | tools/pre_function.py:89 | definition: an element placed before the first one not smaller (properties in `InsertProps`) |
| `Sorting.SortSeq` | tools/pre_function.py:89 | definition: the ascending rearrangement, by insertion (properties in `SortSeqProps`, `SortedPermIsSortSeq`) |
| `Sorting.SortSeqProps` | tools/pre_function.py:89 | the sorted sequence is ascending and a permutation of the input |
| `Sorting.InsertProps` | tools/pre_function.py:89 | inserting into an ascending sequence keeps it ascending and adds exactly the one element |
| `Sorting.SortedUnique` | tools/pre_function.py:89 | two ascending sequences with the same elements are equal, so the sorted order is unique |
| `Sorting.SortSeqByMultiset` | tools/pre_function.py:89 | permutations of each other sort to the same sequence |
| `Sorting.SortedPermIsSortSeq` | tools/pre_function.py:89 | any ascending permutation of a sequence is its sort |
| `Sorting.SortInPlace` | tools/pre_function.py:89 | `ndarray.sort()` in place leaves the array ascending and a permutation of its old contents; the result is the sort of the old contents |
| `Sorting.InsertByKey` | tools/pre_function.py:97 | definition: a pair placed before the first pair whose longitude is not smaller, so equal keys keep their order (properties in `InsertByKeyProps`) |
| `Sorting.SortByKey` | tools/pre_function.py:97 | definition: pairs ordered by their longitude, ties kept in input order (properties in `SortByKeyProps`) |
| `Sorting.SortByKeyProps` | tools/pre_function.py:97 | sorting (longitude, column) pairs sorts their longitudes as the plain sort does and permutes the pairs |
| `Sorting.InsertByKeyProps` | tools/pre_function.py:97 | inserting a pair by its longitude inserts its longitude into the key sequence and adds exactly that pair |
| `Cells.ToArray` | tools/pre_function.py:99 | the array made from a field holds that field |
| `Cells.FromArray` | tools/pre_function.py:102 | the field read back from an array is its contents |
| `Longitude.ShiftLon` | tools/pre_function.py:88 | definition: one longitude above 180 lowered by 360, any other kept |
| `Longitude.RestoreLon` | tools/pre_function.py:95 | definition: one negative longitude raised by 360, any other kept (inverse of `ShiftLon` on [0,360), `RestoreShift`) |
| `Longitude.RestoreN` | tools/pre_function.py:90-95 | what the mask array holds after k passes of the loop: the restore applied k times, same length (stability in `RestoreNStable`) |
| `Longitude.ShiftedSorted` | tools/pre_function.py:88-89 | the shifted, sorted mask longitudes, one per mask longitude (properties in `ShiftedSortedProps`) |
| `Longitude.MapSeq` | tools/pre_function.py:88 | an elementwise update gives, at each position, the function of the old element |
| `Longitude.ShiftWest` | tools/pre_function.py:88 | in place: each longitude above 180 is lowered by exactly 360 and every other one is unchanged |
| `Longitude.RestoreEast` | tools/pre_function.py:95 | in place: each negative longitude is raised by exactly 360 and every other one is unchanged |
| `Longitude.MapSeqPerm` | tools/pre_function.py:95 | updating two permutations of each other elementwise gives two permutations of each other |
| `Longitude.ShiftedSortedProps` | tools/pre_function.py:88-89 | after shift and sort: ascending, the shifted multiset, same length; at most 180 when no input exceeded 540; in (-180,180] for inputs in [0,360) |
| `Longitude.ShiftLeavesLarge` | tools/pre_function.py:88 | a mask longitude of 600 becomes 240, still above 180 |
| `Longitude.RestoreShift` | tools/pre_function.py:88-95 | on [0,360) the restore undoes the shift |
| `Longitude.ShiftRestoreRoundTrip` | tools/pre_function.py:88-97 | for mask longitudes in [0,360), shift, sort and restore give a permutation of the original whose sort is the original sorted |
| `Longitude.RestoreNStable` | tools/pre_function.py:90-95 | from the first loop pass on, further restores leave the array unchanged and in [0,360) |
| `Longitude.Sample` | tools/pre_function.py:92-94 | the interpolation of one variable at a longitude list gives, per longitude, the column of values at every latitude |
| `Longitude.SortByLon` | tools/pre_function.py:96-97 | one label and one column per input column (their contents in `SortByLonProps`) |
| `Longitude.SortByLonProps` | tools/pre_function.py:96-97 | the output longitudes are the labels in ascending order, and each output column is an input column together with its own label |
| `Longitude.MaskLand` | tools/pre_function.py:101 | the field with the same shape, each cell under landmask 1 missing and every other cell kept (cells stated in `MaskLandInPlace`) |
| `Longitude.MaskLandInPlace` | tools/pre_function.py:100-101 | in place: exactly the cells with landmask 1 become missing, and every other cell is unchanged |
| `Longitude.MaskRegridded` | tools/pre_function.py:99-102 | copy out, mask and read back equals the masked field under the same longitudes |
| `Longitude.ShiftedOutput` | tools/pre_function.py:92-102 | one longitude and one full column per mask longitude (cells in `ShiftedOutputCell`, `FirstVariableColumns`, `LaterVariableColumns`) |
| `Longitude.HasNegative` | tools/pre_function.py:86 | definition: the branch test `min() < 0` as "some source longitude is negative"; an empty coordinate is an error before this test (in `Interp2dNc`) |
| `Longitude.CallError` | tools/pre_function.py:92-94 | definition: the error the eval-built interpolation raises for a variable: an empty latitude name, an undeclared variable, an undeclared latitude name (used by `Interp2dNc`) |
| `Longitude.PlainOutput` | tools/pre_function.py:109-115 | the longitudes are the mask longitudes; each cell is missing iff landmask is 1, and is otherwise the interpolated value at that mask point |
| `Longitude.ShiftedStep` | tools/pre_function.py:92-102 | one loop pass interpolates at the current array, restores the array in place, and yields the output labelled with the restored values |
| `Longitude.LabelSortMask` | tools/pre_function.py:96-102 | relabel, sort and mask, computed on arrays, equals `ShiftedOutput` |
| `Longitude.ShiftedLoop` | tools/pre_function.py:90-105 | the loop succeeds iff every variable can be read; variable k is interpolated at the array restored k times and labelled with it restored k+1 times; the array ends restored once per pass |
| `Longitude.InterpShifted` | tools/pre_function.py:86-105 | the shifting branch: the same as `ShiftedLoop`, starting from the shifted, sorted mask longitudes |
| `Longitude.InterpPlain` | tools/pre_function.py:106-119 | the other branch: succeeds iff every variable can be read; each output is the masked interpolation at the untouched mask longitudes |
| `Longitude.Interp2dNc` | tools/pre_function.py:77-119 | `interp2d_nc` as written: fails on an undeclared longitude name, and on a longitude coordinate with no values (whose `.min()` raises), without touching the mask array; succeeds iff neither happens and no variable's call fails; picks the branch by the sign of the source longitudes; in the shifting branch the mask array is left restored once per pass |
| `Longitude.ShiftedOutputCell` | tools/pre_function.py:92-101 | each output cell is the masked interpolation at some query longitude whose restored value is that output longitude |
| `Longitude.ShiftedOutputInverse` | tools/pre_function.py:95-97 | if a function undoes the restore on the query longitudes, the column at output longitude x holds the values interpolated at that function of x |
| `Longitude.ShiftedOutputLon` | tools/pre_function.py:96-97 | in [0,360), every variable's output longitudes are the mask longitudes in ascending order |
| `Longitude.FirstVariableColumns` | tools/pre_function.py:87-101 | in [0,360), the first variable holds at output longitude x the source values at ShiftLon(x), as the conversion intends |
| `Longitude.LaterVariableColumns` | tools/pre_function.py:90-101 | in [0,360), every later variable holds at output longitude x the source values at x itself, not at ShiftLon(x) |
| `Longitude.LaterVariablesQueryRestored` | tools/pre_function.py:87-95 | for mask longitude 190, the first variable is queried at -170 and the second at 190 |
| `Longitude.MaskLeftReordered` | tools/pre_function.py:87-95 | mask longitudes [10, 190] are left as [190, 10] after the loop |
| `Longitude.RestoreNIdle` | tools/pre_function.py:95 | on non-negative longitudes the restore changes nothing, however often it runs |
| `Longitude.EastMaskAgrees` | tools/pre_function.py:87-97 | for mask longitudes in [0,180] the array stays at their ascending order on every pass, and every variable's output equals the first variable's: the as-written loop and the corrected one agree |
| `Longitude.InterpShiftedFixed` | tools/pre_function.py:86-105 | the corrected branch: every variable is queried at the shifted, sorted longitudes and labelled with them restored once; the mask array is untouched |
| `Longitude.Interp2dNcFixed` | tools/pre_function.py:77-119 | corrected `interp2d_nc`: fails in the same cases as `Interp2dNc`; for mask longitudes in [0,360) every variable comes out on the ascending mask longitudes, holding at x the source values at ShiftLon(x), with land missing |
| `Regrid.Transpose` | tools/pre_function.py:135 | `data.T` has the swapped shape, and entry (i, j) is entry (j, i) of the input |
| `Regrid.TransposeTwice` | tools/pre_function.py:135 | transposing twice gives the array back |
| `Regrid.Orient` | tools/pre_function.py:134-135 | with ny rows the array is kept as it is; otherwise the result has the swapped shape and entry (i, j) is entry (j, i) of the input |
| `Regrid.OrientSwapsXY` | tools/pre_function.py:134-135 | an (x, y) array with nx different from ny comes out in (y, x) order |
| `Regrid.OrientKeepsYX` | tools/pre_function.py:134-135 | a (y, x) array is left unchanged |
| `Regrid.OrientIdempotent` | tools/pre_function.py:134-135 | orienting an array that already has ny rows changes nothing |
| `Regrid.SquareNeverTransposed` | tools/pre_function.py:134-135 | a square array is never transposed, whichever order it was given in |
| `Regrid.Interp2dArray` | tools/pre_function.py:133-141 | succeeds iff the oriented array has shape (len(yy), len(xx)); the result has shape (len(yy_new), len(xx_new)) and holds at (i, j) the regridded value at (yy_new[i], xx_new[j]) |
| `Regrid.Interp2dArrayAccepts` | tools/pre_function.py:134-136 | an array matching the grid in (y, x) order, or in (x, y) order when non-square, is accepted |
| `Regrid.Interp2dArrayRejects` | tools/pre_function.py:134-136 | an array matching the grid in neither order is rejected |
| `Driver.EastIndices` | mld_preprocessing.py:15 | ascending positions, exactly those whose longitude exceeds 120 |
| `Driver.SelectEast` | mld_preprocessing.py:15 | the k-th selected longitude is the longitude at the k-th such position |
| `Driver.SelectEastProps` | mld_preprocessing.py:15 | every selected longitude exceeds 120; every longitude above 120 is selected; nothing is invented; order is kept, so a sorted record stays sorted |
| `Driver.SelectEastAllEast` | mld_preprocessing.py:15 | a record entirely east of 120 is selected whole |
| `Driver.Every10` | mld_preprocessing.py:34 | `s[::10]` has length (n+9)/10, and entry i is s[10i] |
| `Driver.Every10Keeps` | mld_preprocessing.py:34 | position p is kept iff p is a multiple of 10, and then it appears at p/10 |
| `Driver.Every10x10` | mld_preprocessing.py:43 | `m[::10, ::10]` has the strided shape, and entry (i, j) is m[10i][10j] |
| `Driver.NaNMask` | mld_preprocessing.py:26 | the mask is true exactly at the missing cells |
| `Driver.SetWhere` | mld_preprocessing.py:27-28 | in place: exactly the marked cells become the value, and every other cell is unchanged |
| `Driver.SetAt` | mld_preprocessing.py:27-28 | the same shape, each marked cell replaced by the value and every other cell kept (cells stated in `SetWhere`, `ZeroLandProps`) |
| `Driver.ZeroLandProps` | mld_preprocessing.py:26-28 | land cells become 0, other cells are unchanged, and no missing value is left |
| `Driver.ZeroLand` | mld_preprocessing.py:26-28 | the returned mask marks the missing cells of `var1`; both fields hold 0 there and are unchanged elsewhere |
| `Driver.Cap` | mld_preprocessing.py:46 | definition: a value above 500 becomes 500, any other cell is kept |
| `Driver.Floor` | mld_preprocessing.py:48 | definition: a value below 0 becomes 0, any other cell is kept |
| `Driver.ClampCell` | mld_preprocessing.py:46-49 | definition: the clamp to [0,500] on its own terms, missing kept (equal to `Floor` after `Cap`, `ClampProps`) |
| `Driver.ClampProps` | mld_preprocessing.py:46-49 | capping then flooring is the clamp; missing stays missing; every value lands in [0,500]; values already in range are unchanged; the clamp is idempotent |
| `Driver.MapCells` | mld_preprocessing.py:46 | an elementwise update gives, at each cell, the function of the old cell |
| `Driver.MapCellsCompose` | mld_preprocessing.py:46-48 | two elementwise passes give the composition in one pass |
| `Driver.ClampFieldProps` | mld_preprocessing.py:107-110 | after the clamp a cell is missing iff it was missing, every other cell lies in [0,500], and clamping again changes nothing |
| `Driver.MapInPlace` | mld_preprocessing.py:46 | one boolean-indexed assignment in place: each cell becomes the function of its old value |
| `Driver.QualityControl` | mld_preprocessing.py:46-49 | both fields end up clamped to [0,500] cell by cell, here and at lines 107-110 |
| `Driver.DaySpec` | mld_preprocessing.py:26-49 | the two coarse fields of one day, on the strided grid's shape (cells in `DaySpecCells`) |
| `Driver.DaySpecCells` | mld_preprocessing.py:26-49 | coarse cell (i, j) is missing where the fine point (10i, 10j) was missing; otherwise it is the clamp of the regridded land-zeroed field, and so missing only where the regridding is, and in [0,500] otherwise |
| `Driver.ProcessDay` | mld_preprocessing.py:25-49 | both input fields are left with land set to 0; the returned coarse fields equal `DaySpec` |
| `Driver.DeriveMask` | mld_preprocessing.py:78 | the mask is 1 exactly where the field equals 0 and 0 elsewhere, missing cells included |
| `Driver.DerivedMaskSkipsLand` | mld_preprocessing.py:78 | on a day produced by the first block, the derived mask is 0 at every land point |
| `Driver.Tile` | mld_preprocessing.py:82 | the tiled mask has n slices, each the mask |
| `Driver.TileThree` | mld_preprocessing.py:82 | the mask file holds three identical slices |
| `Driver.FinalPass` | mld_preprocessing.py:92-110 | succeeds iff the longitude name is declared with at least one value and both variables can be read; the two fields are the clamped outputs of `interp2d_nc` as written, for the branch taken: in the shifting branch the first variable from pass 0, the second from pass 1 |
| `Driver.ShiftedFinal` | mld_preprocessing.py:92-97 | the field pass k of the shifting branch gives a variable, one column per mask longitude (cells in `FinalShiftedCells`, `FinalShiftedLaterCells`) |
| `Driver.FinalShiftedCells` | mld_preprocessing.py:92-110 | the first variable's field, for mask longitudes in [0,360): row j holds the clamped source value at ShiftLon of the j-th ascending mask longitude, or a missing value on land |
| `Driver.FinalShiftedLaterCells` | mld_preprocessing.py:92-110 | the second variable's field (any pass after the first), for mask longitudes in [0,360): row j holds the clamped source value at the j-th ascending mask longitude itself, or a missing value on land |
| `Driver.FinalEastAgrees` | mld_preprocessing.py:92-97 | for mask longitudes in [0,180] every pass gives the first pass's field, so both variables are regridded alike |
| `Driver.DayGridEast` | mld_preprocessing.py:15 | for source longitudes at most 180, the day grid `lon_sel[::10]`, which becomes the mask grid, lies in (120,180] |
| `Driver.FinalPlainCells` | mld_preprocessing.py:92-110 | without negative source longitudes, row j holds the clamped source value at the j-th mask longitude, or a missing value on land |

## Left out

- File access is left out: opening, saving and closing NetCDF files, `_FillValue`/encoding and
  attributes. A file is the dataset value it holds once opened.
- The shell calls `ncgen`, `ncrcat` and `rm -rf` (tools/pre_function.py:35, 60;
  mld_preprocessing.py:65) are left out. These are external processes.
- Interpolation, `interpolate_na`, the averaging of tools/pre_function.py:137-138, and
  nearest-neighbour and time selection are function parameters. Their numerics are not modelled.
- The `astype(np.float32)` casts are not modelled. Values stay `real`.
- Printing is left out.
- The `eval`-built calls are modelled as selection by the resolved name. An empty latitude name
  makes the built text unparsable, and that is modelled as an error for that name.
- `np.reshape` of the land mask is not modelled. The mask is given in the shape of the field.
- `interp2d_nc` folds away the time dimension. The model treats one time slice with a
  [longitude][latitude] field.
- The loop over the date set `{'01','02','03'}` in mld_preprocessing.py:17 is not modelled.
  `ProcessDay` is one pass. Each pass is independent of the others, and Python's set order is
  unspecified.
- The script's own `write_nc` calls (mld_preprocessing.py:54-61, 80-87, 114-120) are not modelled
  as calls. `Writer.WriteNc` is the operation they invoke.
- The misspelled dimension name `lontitude` is not modelled, because dimension names of data
  items are not modelled at all. Line 20 builds each item's `DataArray` with the given names, and
  xarray refuses dimension names that do not fit the data or the stored variable. The script's
  final write at mld_preprocessing.py:114-120 gives ('time','latitude','lontitude') for variables
  that `interp2d_nc` stored under the source's own names, and that failure is not captured.
- Reading the final pass back from its file (mld_preprocessing.py:101-104) is not modelled.
  `FinalPass` clamps the regridded values directly.
- `write_nc` runs `ncgen` whenever a CDL file is given (tools/pre_function.py:34-35), although its
  comment at line 14 says this happens only when the file does not exist. The script passes one in
  each of its calls at mld_preprocessing.py:54-61 and 80-87, so for those calls the file that
  `Writer.WriteNc` starts from is the empty file of the CDL template, not an earlier result.
- The alias lookups of lines 78-79, 151-152 and 174-175 test `ds.keys()`, which holds coordinates
  and data variables alike (`Source.Keys`). `getll_nc` and the longitude test of `interp2d_nc`
  read the resolved name as a coordinate. `getdata_nc` and `interp2d_nc` read each requested
  variable as a data variable.
- CoordNames.GetData: a requested name that is a coordinate is an error in the model
  (`KeyNotFound`), although `ds[var]` accepts it. A data variable is also taken to lie on the
  file's lon/lat grid, so the `.sel` of lines 161-163 cannot fail for a variable that lacks the
  resolved dimension.
- CoordNames.SelectOne: the same two limits as `GetData`, for one variable.
- Longitude.Interp2dNc: each variable is taken to lie on the source's lon/lat grid, so `.interp`
  at lines 92-94 and 109-111 cannot fail for a variable that lacks either dimension. A requested
  coordinate name fails as `KeyNotFound` (`CallError`), although `ds_orgn[varn]` accepts it.
- Longitude.CallError: the same two limits as `Interp2dNc`, for one variable.
- Driver.FinalPass: inherits the two limits of `Interp2dNc` for the variables it reads.
- `xr.merge` at tools/pre_function.py:122 is modelled as the list of regridded variables. Its outer
  join of the coordinates and its `MergeError` for a name given twice with different values are
  not modelled.
- Writer.WriteItem: line 19 calls `check_numpy`, which tools/pre_function.py neither defines nor
  imports. As the text stands, every `write_var` call raises NameError, so `write_nc` fails on its
  first item. The model reads the call as the conversion to an array its name suggests, which is
  the identity on a value; the helper itself is not part of this model.
- Writer.WriteItem: a coordinate write of values whose length differs from the coordinate's is an
  error, as `assign_coords` reports for a dimension that other variables use. The model treats
  every coordinate as used, so it does not capture the rare replacement of an unused one.
- Writer.WriteNc: requires distinct new timestamps. The source's behaviour when the same new
  timestamp is given twice is not modelled.
- Writer.WriteNc: a one-element list of times (which `np.squeeze` turns into a 0-d array) is not
  modelled. A time list is a sequence.
- Writer.WriteNc: `reindex(...).sortby('time')` is modelled as reindexing directly onto the
  sorted merged axis.
- Driver.ZeroLand: requires the two fields to be distinct arrays of one shape. The script reads
  them as two separate variables of one grid.
- Driver.FinalPass: calls `interp2d_nc` as written, on a copy of the mask longitudes, because the
  script's mask array is loaded inside that function. In the shifting branch the second variable
  comes from pass 1 of the loop. `FinalShiftedLaterCells` shows that it holds the values at the
  mask longitudes themselves. The mask grid of this script is the day grid, which lies in
  (120,180] for a source on -180..180 (`DayGridEast`). On such a grid `FinalEastAgrees` shows that
  both variables come out as the corrected `interp2d_nc` gives them. The model does not connect
  the mask file's longitudes to `DayGridEast` through the file round trip.
- Driver.ProcessDay: requires both fields in (latitude, longitude) order on the selected grid.
  This is the layout `getdata_nc` returns for the source file; other layouts are not modelled.

## Findings

| source | as written | input that shows it | evidently intended | confidence | as-written member | corrected member |
|---|---|---|---|---|---|---|
| tools/pre_function.py:87-95 | the restore `lon_tmp[lon_tmp<0] += 360` runs inside the per-variable loop, on the very array the next interpolation reads, so only the first variable is interpolated at -180..180 longitudes | mask longitude 190 and two variables: the first is queried at -170, the second at 190, outside the source's range | every variable is queried at the shifted longitudes and labelled with them restored, which a copy restored once gives | not executed | `Longitude.LaterVariablesQueryRestored` (on `Longitude.Interp2dNc`; see also `Longitude.LaterVariableColumns`) | `Longitude.Interp2dNcFixed` (with `Longitude.FirstVariableColumns`) |

`Driver.FinalPass` models the script's own call, so it uses `Longitude.Interp2dNc` as written. On the
script's own data the discrepancy does not show. Its mask longitudes are the day grid, which lies
in (120,180] (`Driver.DayGridEast`). For any mask in [0,180] the as-written loop and the corrected
one agree (`Longitude.EastMaskAgrees`, `Driver.FinalEastAgrees`).
