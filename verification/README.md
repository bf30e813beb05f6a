# compact_3dtable in Dafny

This project models the 3D lookup tables of compact_3dtable, a benchmark of the
Speeduino engine-management tables. A table holds a grid of cells over an
X axis (RPM, increasing) and a Y axis (load, decreasing from the top row).
`get3DTableValue(Y, X)` does five things:

- it clamps the inputs to the axes;
- it finds the bracketing bin on each axis through three locality tiers (same
  bin, next bin, previous bin) and falls back to a full scan from the top
  index;
- it interpolates the four corner cells with 8-bit fixed-point bilinear weights;
- it returns the corner itself when all four corners are equal;
- it caches the inputs and output, and returns the cached output when called
  again with the same inputs.

Two implementations are modelled:

- the templated `table3D<_Ty, _xDim, _yDim>` of `src/new/table3d.h`, with its
  three setters;
- the legacy runtime-sized `struct table3D` of `src/original/table.h` and
  `table.hpp`, whose storage `table3D_setSize` carves out of a static bump
  arena through `heap_alloc`.

Both lookups share one miss path, because their code is the same.

Modules:

- `FixedPoint`: the scale 256 and the right shift.
- `AxisLocator`: clamping, the two full scans (as recursive functions and as
  loop methods), and the tiered locators.
- `Bilinear`: the fractions `p` and `q`, the weights `m n o r` and the blend.
- `TableLookup`: the shared miss path `Compute` and the cold reference
  `ColdCompute`. The cold reference always runs both full scans. The key
  theorem `ComputeMatchesCold` states that the locality cache never changes
  the result.
- `CompactTable`: the templated table.
- `HeapArena`: the static arena.
- `LegacyTable`: the legacy table.
- `Scenarios`: tables built with the setters, with their values worked out.

Integers are unbounded. Where the source's widths matter, the model states them
as preconditions: axis entries are 16-bit, cells are non-negative (bytes for the
legacy table), sizes stay under the `int8_t` loop bound, and allocation requests
are 16-bit. `lastOutput` in the legacy struct is a `byte`. The model narrows it
explicitly (`% 256`) and proves that the narrowing loses nothing for byte
cells.

Three behaviours of the code are easy to get wrong, and the model keeps them
as written:

- **Setters keep the cache.** The comment on `cacheIsValid`
  (`src/new/table3d.h:256`) says the flag is cleared whenever a new value
  arrives for the table, but `setXAxis`, `setYAxis` and `setValues`
  (`src/new/table3d.h:16-27`) never clear it. A lookup right after a content
  change, with the same inputs, returns the stale output, while one with new
  inputs already sees the new contents (`Scenarios.StaleCacheAfterSetValues`).
  Only the legacy `table3D_setSize` clears the flag.
- **Weights lose nothing or exactly 2/256.** The four weights are truncated
  one by one, so they add up to 256 when 256 divides `p * q` and to 254
  otherwise, rather than always to 256
  (`Bilinear.BilinearWeights`). For example, fractions 1 and 1 give
  (254, 0, 0, 0).
- **The result is not monotone.** Because of that truncation, a cell grid that
  never decreases to the right can still give a smaller result further right:
  10 at X = 255 and 9 at X = 257 (`Scenarios.RampIsNotMonotone`).

## Model

| member | source | states |
|---|---|---|
| FixedPoint.Shr | src/new/table3d.h:229-233 | `>> TABLE_SHIFT_FACTOR` on a non-negative value is the floor of the value divided by 256 |
| FixedPoint.ShiftPowerIsPow2 | src/original/table.h:10-11 | `TABLE_SHIFT_POWER` is `1 << TABLE_SHIFT_FACTOR` with a factor of 8, so the scale is 256 |
| FixedPoint.ShrExact | src/new/table3d.h:246-247 | shifting an exact multiple of `TABLE_SHIFT_POWER` right by 8 gives back the multiplier |
| AxisLocator.ClampX | src/new/table3d.h:46-47 | the clamped X lies within the axis ends, equals the input when the input is inside, and saturates to the nearer end otherwise |
| AxisLocator.ClampY | src/new/table3d.h:122-123 | the clamped Y lies between `axisY[last]` and `axisY[0]`, equals the input when the input is inside, and saturates otherwise |
| AxisLocator.ScanX | src/new/table3d.h:88-112 | the downward X scan returns a valid bin; a degenerate bin means an exact hit or index 0; otherwise the input lies strictly inside the bin; an input within the axis is always bracketed |
| AxisLocator.ScanY | src/new/table3d.h:157-181 | the same for the descending Y axis, with the bin taken when `axisY[i] <= Y < axisY[i-1]` |
| AxisLocator.ScanXExact | src/new/table3d.h:91-99 | on an increasing axis an input equal to entry `j` is found as the degenerate bin (j, j) |
| AxisLocator.ScanXInside | src/new/table3d.h:102-110 | an input strictly between entries j-1 and j is found as the bin (j-1, j) |
| AxisLocator.ScanYExact | src/new/table3d.h:160-168 | on a decreasing axis an input equal to entry `j` is found as (j, j) |
| AxisLocator.ScanYInside | src/new/table3d.h:171-179 | an input strictly between entries j and j-1 is found as (j-1, j) |
| AxisLocator.FullScanX | src/new/table3d.h:88-112 | the `for` loop from `_xDim-1` down, with its two `break`s, returns the scan's bin after between 1 and `_xDim` iterations |
| AxisLocator.FullScanY | src/new/table3d.h:157-181 | the same for the Y loop |
| AxisLocator.LocateX | src/new/table3d.h:57-113 | the three X tiers then the scan: the result is a valid bin, has its lower end strictly below the input unless it is degenerate, and brackets an input within the axis, sitting exactly on it when degenerate |
| AxisLocator.LocateY | src/new/table3d.h:125-182 | the three Y tiers then the scan: the result is a valid bin that brackets an input within the axis, sitting exactly on it when degenerate |
| AxisLocator.DegenerateCacheScansX | src/new/table3d.h:58-85 | a degenerate cached X bin (the cold state (0, 0) included) passes no tier, so the X locator runs the full scan |
| AxisLocator.DegenerateCacheScansY | src/new/table3d.h:126-155 | a degenerate cached Y bin passes no tier, so the Y locator runs the full scan |
| AxisLocator.LocateXVersusScan | src/new/table3d.h:57-113 | the tiered X locator returns the scan's bin, or a bin (k, k+1) with the input at `axisX[k+1]` where the scan returns (k+1, k+1) |
| AxisLocator.BracketXVersusScan | src/new/table3d.h:88-112 | a bin that brackets X as a tier accepts it is the scan's bin when X is strictly inside or the bin is degenerate, and the scan's degenerate bin (hi, hi) when X sits on the upper end |
| AxisLocator.BracketYVersusScan | src/new/table3d.h:157-181 | the same for Y: the scan agrees with a bin holding Y strictly inside, and returns the degenerate bin at the end Y sits on otherwise |
| AxisLocator.LocateYVersusScan | src/new/table3d.h:125-182 | the tiered Y locator returns the scan's bin, or a non-degenerate bin with the input on one end where the scan returns the degenerate bin at that end |
| Bilinear.FractionX | src/new/table3d.h:212-214 | `p` lies in 0..256; it is 0 on a degenerate bin or at the lower end and 256 at the upper end; otherwise it is the floor of 256 times the input's relative position in the bin |
| Bilinear.FractionY | src/new/table3d.h:216-227 | `q` lies in 0..256; it is 0 on a degenerate bin or at the upper value, 256 at the lower value, and 256 minus the floor of the relative height otherwise |
| Bilinear.DivBelowScale | src/new/table3d.h:214 | integer division of a value between 0 and 256 bin widths by the bin width gives a fraction between 0 and 256, bracketed by the floor |
| Bilinear.BilinearWeights | src/new/table3d.h:229-232 | the truncated weights `m n o r` add up to 256 exactly when 256 divides `p * q` and to 254 otherwise, so to 256 whenever `p` or `q` is 0 or 256; the four extreme fraction pairs select a single corner |
| Bilinear.WeightsLoseZeroOrTwo | src/new/table3d.h:229-232 | with `s = p * q % 256` the products leave remainders s, 256 - s, 256 - s and s, so the truncated weights total 256 when s is 0 and 254 otherwise |
| Bilinear.EdgeWeightsExact | src/new/table3d.h:229-232 | with `p` or `q` at 0 or 256 every product is a multiple of 256, so each weight is the untruncated factor (for example `m = 256 - q` when `p = 0`) |
| Bilinear.ProductsPartitionUnity | src/new/table3d.h:229-232 | the untruncated weight products always add up to 256 * 256 |
| Bilinear.Blend | src/new/table3d.h:197-234 | the result never exceeds the largest corner; four equal corners give that corner (the fast path); at the extreme fractions it is the corresponding corner |
| Bilinear.BlendVersusExact | src/new/table3d.h:202-233 | 65536 times the blended value is at most the exact interpolation `A(256-p)(256-q) + Bp(256-q) + C(256-p)q + Dpq`, and falls short of it by less than 65536 + 256(A+B+C+D) |
| Bilinear.BlendRightEdge | src/new/table3d.h:212-233 | interpolating at `p = 256` is interpolating the right column alone at `p = 0` |
| Bilinear.BlendLowerEdge | src/new/table3d.h:216-233 | interpolating at `q = 256` is interpolating the lower row alone at `q = 0` |
| Bilinear.BlendUpperEdge | src/new/table3d.h:216-233 | at `q = 0` the lower row carries no weight |
| TableLookup.Evaluate | src/new/table3d.h:197-233 | the interpolated value of the chosen bins never exceeds the largest corner, and two degenerate bins select a single cell |
| TableLookup.Compute | src/new/table3d.h:45-234 | the miss path returns valid new cached bins that bracket the clamped inputs (degenerate only on exact hits) and a value never above the largest corner (it can fall below the smallest, see `Scenarios.RampIsNotMonotone`) |
| TableLookup.ColdComputeIsFirstLookup | src/new/table3d.h:57-112 | the cold reference (both full scans) is exactly what the miss path computes from the cold cached bins (0, 0) |
| TableLookup.ColdComputeAtGridPoint | src/new/table3d.h:88-112 | the cold lookup of the grid point (`axisX[i]`, `axisY[j]`) is the cell `values[j][i]` |
| TableLookup.EntriesAreInside | src/new/table3d.h:46-47 | axis entries pass both clamps unchanged |
| TableLookup.EvaluateReadsCorners | src/new/table3d.h:197-233 | the interpolation reads only the four corner cells: two grids that agree on them give the same value |
| TableLookup.ComputeMatchesCold | src/new/table3d.h:57-233 | whatever bins the previous lookup cached, the miss path returns exactly what the cold full-scan lookup returns |
| CompactTable.Initial | src/new/table3d.h:249-256 | a statically allocated table starts with zero axes and cells, cached bins (0, 0), zero cached inputs and output, and `cacheIsValid` false |
| CompactTable.SetXAxis | src/new/table3d.h:20-23 | copies the first min(`_xDim`, len) entries and changes nothing else, cache fields included |
| CompactTable.SetYAxis | src/new/table3d.h:16-19 | copies the first min(`_yDim`, len) entries and changes nothing else |
| CompactTable.SetValues | src/new/table3d.h:24-27 | lays the source out row by row (`values[y][x]` is element `y * _xDim + x`) and changes nothing else |
| CompactTable.RowsLayout | src/new/table3d.h:24-27 | cutting the buffer into rows of `_xDim` cells puts element `y * _xDim + x` at cell [y][x] |
| CompactTable.SetXAxisWhole | src/new/table3d.h:20-23 | a source as long as the X axis replaces the axis as a whole and nothing else |
| CompactTable.SetYAxisWhole | src/new/table3d.h:16-19 | a source as long as the Y axis replaces the axis as a whole and nothing else |
| CompactTable.SetValuesZeros | src/new/table3d.h:24-27 | a buffer of zeros clears every cell |
| CompactTable.Lookup | src/new/table3d.h:31-243 | a hit returns `lastOutput` and changes nothing; a miss records the raw inputs, the output and `cacheIsValid`; contents never change; afterwards the same inputs hit |
| CompactTable.ColdLookupIsResetLookup | src/new/table3d.h:31-243 | the cold value is what a lookup returns on the same table with its cached bins and `cacheIsValid` reset |
| CompactTable.LookupIsCold | src/new/table3d.h:49-243 | from a coherent table (valid cache implies that the cached output is the cold value) a lookup returns the cold value and leaves the table coherent |
| CompactTable.MissIsCold | src/new/table3d.h:49-243 | a lookup that misses returns the cold value of the current contents, whatever the cache holds, stale outputs included |
| CompactTable.RepeatedLookupIsCached | src/new/table3d.h:49-53 | the second of two identical lookups is a cache hit returning the first's value and changing nothing |
| CompactTable.SettersKeepCache | src/new/table3d.h:16-27 | none of the setters touches the cache fields, so after `setValues` the cached inputs still return the old output |
| CompactTable.ColdLookupClamps | src/new/table3d.h:46-47 | an input beyond an axis end gives the value at that end, on either axis |
| CompactTable.GridPointIsCell | src/original/table.h:69-80 | from a coherent table, a lookup exactly on grid point (i, j) returns cell `values[j][i]`, whichever tier found the bins |
| CompactTable.ExactXReadsOneColumn | src/new/table3d.h:91-99 | an X input equal to an axis entry reads only that column |
| CompactTable.FlatRegionIsExact | src/new/table3d.h:202-203 | four equal surrounding cells give exactly their value |
| HeapArena.SizeMacrosAreFootprints | src/original/table.h:15-19 | each `TABLE3D_SIZE_n` is n*n + 6n bytes, and `TABLE_HEAP_SIZE` is 2497 |
| HeapArena.HeapAlloc | src/original/table.hpp:13-22 | a block is granted iff the size is strictly below the free space; it starts at the old pointer and advances it by the size; a refusal returns null and changes nothing |
| HeapArena.ExactFillRefused | src/original/table.hpp:16 | a request for exactly the remaining space is refused |
| HeapArena.AllocAll | src/original/table.hpp:31-39 | every block granted by a run of requests lies between the starting and final pointer |
| HeapArena.AllocationsDisjoint | src/original/table.hpp:13-22 | granted blocks never overlap: an earlier block ends at or before a later one starts |
| HeapArena.AllocationsContiguous | src/original/table.hpp:16-20 | request `j` is served at the pointer the earlier requests left |
| HeapArena.AllGranted | src/original/table.hpp:13-22 | requests whose total is strictly below the free space are all granted, and the pointer advances by exactly that total |
| HeapArena.AllocAllAppend | src/original/table.hpp:13-22 | running two batches of requests in turn is running their concatenation |
| LegacyTable.Requests | src/original/table.hpp:31-39 | `table3D_setSize(n)` makes n+3 requests totalling n * pointer size + n*n + 4n bytes |
| LegacyTable.RequestsMatchFootprint | src/original/table.h:15-19 | with two-byte pointers the requests of a table of side n total `TABLE3D_SIZE_n` |
| LegacyTable.SetSize | src/original/table.hpp:25-43 | sets both sizes, allocates through the arena, clears `cacheIsValid`, and leaves the cached bins, inputs and output as they were |
| LegacyTable.SetSizeKeepsBins | src/original/table.hpp:25-43 | the cached bins survive `table3D_setSize` unchanged, so they lie inside the new sizes exactly when they lay inside `newSize` before |
| LegacyTable.ShrinkStrandsCachedBin | src/original/table.hpp:25-43 | shrinking a 16x16 table whose cached X bin is (14, 15) to 6x6 leaves that bin outside the new axis, so the table is no longer ready for a lookup |
| LegacyTable.SetSizeForcesMiss | src/original/table.hpp:42 | after `table3D_setSize` the next lookup is never a cache hit |
| LegacyTable.SetupTotalFillsArena | src/original/table.h:40 | the five 16x16, four 8x8 and four 6x6 tables ask for 2496 bytes, one less than `TABLE_HEAP_SIZE` |
| LegacyTable.SetupRequests | src/main.cpp:161-173 | a run of `table3D_setSize` calls with byte sizes asks for 16-bit requests totalling the sum of the per-table footprints |
| LegacyTable.SetupGranted | src/original/table.hpp:13-22 | a run of resizes whose total stays strictly below `TABLE_HEAP_SIZE` is granted in full from the empty arena `InitialArena` (`_heap_pointer` starts at 0, `src/original/table.h:43`), and the pointer ends at that total |
| LegacyTable.SetupFitsExactly | src/main.cpp:161-173 | the thirteen `table3D_setSize` calls of the benchmark, from an empty arena, are all granted and leave exactly one byte free |
| LegacyTable.SetupArena | src/main.cpp:161-173 | the arena after one `table3D_setSize` per size, each on a fresh zero-initialised `InitialTable`, stays valid and never moves the pointer back |
| LegacyTable.SetupArenaIsAllocAll | src/main.cpp:161-173 | calling `table3D_setSize` on a fresh table for each size in turn leaves the arena where one run of all their concatenated requests leaves it |
| LegacyTable.SetupCallsFillArena | src/main.cpp:161-173 | the thirteen `setupTable` calls of the benchmark, made one by one, leave exactly one byte of the arena free |
| LegacyTable.SetSizeThenSetSize | src/original/table.hpp:25-43 | two resizes in a row allocate exactly the concatenation of their requests |
| LegacyTable.Lookup | src/original/table.hpp:47-259 | a hit returns the byte `lastOutput`; a miss records the inputs and the output cut to a byte; with byte cells the returned value is below 256 and equals the stored byte |
| LegacyTable.ToByte | src/original/table.hpp:255 | storing into the `byte` field keeps the value modulo 256, and a value below 256 unchanged |
| LegacyTable.MissFitsByte | src/original/table.hpp:245-249 | with byte cells the miss path's value fits a byte, so storing it in `lastOutput` loses nothing |
| LegacyTable.MissIsCold | src/original/table.hpp:47-259 | a legacy lookup that misses returns the cold value of the current contents, whatever the cache holds |
| LegacyTable.RepeatedLookupAgrees | src/original/table.hpp:66-69 | the second of two identical lookups returns the same value, though it comes from the byte field |
| LegacyTable.LookupIsCold | src/original/table.hpp:47-259 | from a coherent table a lookup returns the cold full-scan value and leaves the table coherent |
| Scenarios.SampleBySetters | src/new/table3d.h:16-27 | `setXAxis`, `setYAxis` and `setValues` on a fresh 2x2 table build the sample table |
| Scenarios.MidpointOfSample | src/new/table3d.h:212-233 | on a 2x2 table the middle point has fractions 128 and 128 and weights 64 each, giving (50 + 60 + 10 + 20) / 4 = 35 |
| Scenarios.SampleClampsX | src/new/table3d.h:46-47 | an X beyond the axis gives the value at the axis end |
| Scenarios.SampleCorner | src/new/table3d.h:91-99 | the top-left grid point gives the top-left cell |
| Scenarios.ZeroCellsGiveZero | src/new/table3d.h:197-233 | a table with all-zero cells interpolates to 0 everywhere |
| Scenarios.Zeroed | src/new/table3d.h:24-27 | `setValues` with a zero buffer keeps the table ready, changes only the cells, and makes every cell 0 |
| Scenarios.ZeroingKeepsAnswer | src/new/table3d.h:24-27 | zeroing the cells after a lookup leaves that lookup answering from the cache, while the cold value is 0 |
| Scenarios.ZeroingThenNewInputs | src/new/table3d.h:24-27 | after zeroing the cells, a lookup with inputs other than the cached ones gives 0 |
| Scenarios.StaleCacheAfterSetValues | src/new/table3d.h:49-53 | concrete stale result: 35 from the cache where the contents now give 0, while X = 3001 already gives 0 |
| Scenarios.WeightsLoseUnits | src/new/table3d.h:229-232 | fractions 1 and 1 give weights (254, 0, 0, 0), which add up to 254 |
| Scenarios.RampBySetters | src/new/table3d.h:16-27 | the setters on a fresh 3x2 table build the ramp table |
| Scenarios.RampIsNotMonotone | src/new/table3d.h:203-233 | over cells that never decrease to the right, moving X from 255 to 257 lowers the result from 10 to 9 |

## Left out

- `src/main.cpp` is the benchmark harness: timing, serial output, free-memory
  probing and test data. It is not modelled. The sizes of its setup calls are
  used in `LegacyTable.SetupFitsExactly`.
- `src/new/table3d.hpp` is not part of this model.
- CompactTable.Lookup: the result is an unbounded non-negative integer. The
  narrowing to `_Ty` in the return and in `lastOutput` is not modelled. With
  non-negative cells that fit `_Ty` the result never exceeds a corner, so the
  narrowing is lossless there.
- Negative cells are left out. `Calibrated` requires non-negative cells, so
  the conversion of a negative `int` corner to unsigned in the products
  `A * m`, `B * n`, `C * o` and `D * r` is not modelled. The fractions `p`
  and `q` come from the axes and are not affected.
- 16-bit overflow is left out. The model requires axis entries and neighbour
  gaps within the `int16_t`/`int` range (`FitsInt16`) and strictly monotone
  axes, which the source assumes of its callers but never checks.
- Sizes above `int8_t` are left out. Templated dimensions are at most 127.
  Legacy sizes are at most 128, because the scan counter is an `int8_t` and
  would wrap for larger tables.
- Uninitialised tables are left out. Tables are assumed to have static
  storage: every field starts at zero, so the first cached bins are (0, 0).
- LegacyTable.SetSize: a refused allocation returns null, and the stores
  through it that follow in the source are undefined behaviour. The model
  still gives the table zero contents of the requested size; only the arena
  side of a refusal is modelled.
- LegacyTable.Ready: requires the cached bins to lie inside the current sizes.
  `table3D_setSize` keeps the cached bins, so shrinking a table after a lookup
  can leave them past the new axes (`LegacyTable.ShrinkStrandsCachedBin`);
  the next miss would then read `axisX`/`axisY` and `values` out of bounds
  (`src/original/table.hpp:74`), which the model does not give a meaning.
  `LegacyTable.SetSizeKeepsBins` states when the bins stay valid. The
  benchmark only sizes fresh tables, whose cached bins are (0, 0).
- Concurrency and interrupts are left out: a lookup is modelled as atomic.
- `TABLE_RPM_MULTIPLIER`, `TABLE_LOAD_MULTIPLIER` and the `TABLE_*_SIZE`
  macros with trailing semicolons are left out, because no code path uses
  them.
- The cache is never invalidated when contents change, because the source
  has no invalidation call; see `CompactTable.SettersKeepCache`.
