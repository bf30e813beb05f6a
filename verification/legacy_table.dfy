/** The legacy runtime-sized `struct table3D`: square storage carved out of
    the static arena by `table3D_setSize`, and the free function
    `get3DTableValue` whose miss path is the same code as the templated
    table's.  Cells are bytes and so is the cached output. */
module LegacyTable {
  import opened AxisLocator
  import opened Bilinear
  import opened TableLookup
  import opened HeapArena

  /** Where the table's storage lives: the row-pointer array, one block per
      row, and the two axes. */
  datatype Layout = Layout(values: Ptr, rows: seq<Ptr>, axisX: Ptr, axisY: Ptr)

  /** The struct fields; `values`, `axisX` and `axisY` hold what the
      pointers of `layout` point at. */
  datatype Table = Table(
    xSize: nat,
    ySize: nat,
    layout: Layout,
    values: seq<seq<int>>,
    axisX: seq<int>,
    axisY: seq<int>,
    lastX: Bin,
    lastY: Bin,
    lastXInput: int,
    lastYInput: int,
    lastOutput: nat,
    cacheIsValid: bool)

  /** A struct with static storage duration: every field zero, every
      pointer null. */
  const InitialTable: Table :=
    Table(0, 0, Layout(Null, [], Null, Null), [], [], [], Bin(0, 0), Bin(0, 0), 0, 0, 0, false)

  /** The byte sizes `table3D_setSize` asks `heap_alloc` for, in order: the
      row-pointer array, each row, the X axis and the Y axis. */
  function Requests(n: nat, pointerSize: nat): (s: seq<nat>)
    ensures |s| == n + 3
    ensures Sum(s) == n * pointerSize + n * n + 2 * n + 2 * n
    ensures n < 0x100 && n * pointerSize < 0x1_0000 ==> Uint16s(s)
  {
    RowRequestsTotal(n);
    SumAppend([n * pointerSize], seq(n, _ => n));
    SumAppend([n * pointerSize] + seq(n, _ => n), [2 * n, 2 * n]);
    [n * pointerSize] + seq(n, _ => n) + [2 * n, 2 * n]
  }

  /** `n` requests of `n` bytes each ask for n * n bytes. */
  lemma RowRequestsTotal(n: nat)
    ensures Sum(seq(n, _ => n)) == n * n
  {
    RowRequestsPartial(n, n);
  }

  lemma {:induction false} RowRequestsPartial(n: nat, k: nat)
    ensures Sum(seq(k, _ => n)) == k * n
    decreases k
  {
    if k > 0 {
      RowRequestsPartial(n, k - 1);
      assert seq(k, _ => n) == [n] + seq(k - 1, _ => n);
    }
  }

  /** With two-byte pointers a table of side `n` requests exactly its
      `TABLE3D_SIZE_n` footprint. */
  lemma RequestsMatchFootprint(n: nat)
    ensures Sum(Requests(n, 2)) == Footprint(n)
  {
  }

  datatype Resized = Resized(arena: Arena, table: Table)

  /** `table3D_setSize(targetTable, newSize)`: requests the storage, records
      where it was granted, makes the table newSize x newSize and clears
      `cacheIsValid`.  The locator fields and the cached inputs and output
      are left as they were.  The new storage is fresh arena bytes, which
      are zero. */
  function SetSize(h: Arena, t: Table, newSize: nat, pointerSize: nat): (r: Resized)
    requires Valid(h) && newSize < 0x100 && newSize * pointerSize < 0x1_0000
    ensures Valid(r.arena) && h.pointer <= r.arena.pointer
    ensures r.arena == AllocAll(h, Requests(newSize, pointerSize)).arena
    ensures r.table.xSize == newSize && r.table.ySize == newSize && !r.table.cacheIsValid
    ensures |r.table.layout.rows| == newSize
    ensures r.table.lastX == t.lastX && r.table.lastY == t.lastY
    ensures r.table.lastXInput == t.lastXInput && r.table.lastYInput == t.lastYInput
    ensures r.table.lastOutput == t.lastOutput
    ensures GridShaped(r.table.values, newSize, newSize) && |r.table.axisX| == newSize && |r.table.axisY| == newSize
  {
    var requests := Requests(newSize, pointerSize);
    var a := AllocAll(h, requests);
    var layout := Layout(a.blocks[0], a.blocks[1..newSize + 1], a.blocks[newSize + 1], a.blocks[newSize + 2]);
    Resized(a.arena,
            t.(xSize := newSize, ySize := newSize, layout := layout,
               values := seq(newSize, _ => seq(newSize, _ => 0)),
               axisX := seq(newSize, _ => 0), axisY := seq(newSize, _ => 0),
               cacheIsValid := false))
  }

  /** Sizes up to 128 keep the `int8_t` scan counter from wrapping. */
  const MaxSize: nat := 128

  predicate ByteCells(cells: seq<seq<int>>) {
    forall y, x :: 0 <= y < |cells| && 0 <= x < |cells[y]| ==> 0 <= cells[y][x] < 0x100
  }

  /** A table the lookup can work on: sizes matching the contents, bytes in
      the cells and in the cached output, cached bins inside the sizes. */
  predicate Ready(t: Table) {
    && 1 <= t.xSize <= MaxSize && 1 <= t.ySize <= MaxSize
    && |t.axisX| == t.xSize && |t.axisY| == t.ySize
    && Calibrated(t.values, t.axisX, t.axisY) && ByteCells(t.values)
    && ValidBin(t.lastX, t.xSize) && ValidBin(t.lastY, t.ySize)
    && t.lastOutput < 0x100
  }

  datatype Answer = Answer(table: Table, value: int)

  /** The implicit conversion of the `int` result to the `byte` field
      `lastOutput`: the value modulo 256, which a byte keeps unchanged. */
  function ToByte(v: nat): (b: nat)
    ensures b < 0x100 && (b - v) % 0x100 == 0
    ensures v < 0x100 ==> b == v
  {
    v % 0x100
  }

  predicate CacheHit(t: Table, yIn: int, xIn: int) {
    xIn == t.lastXInput && yIn == t.lastYInput && t.cacheIsValid
  }

  /** `get3DTableValue(fromTable, Y_in, X_in)`.  A hit returns the byte
      `lastOutput`; a miss returns the `int` result and stores it, cut to a
      byte by `ToByte`, as `lastOutput`.  Byte cells keep the result below
      256, so the stored byte is the returned value and the cached bins stay
      inside the runtime sizes. */
  function Lookup(t: Table, yIn: int, xIn: int): (r: Answer)
    requires Ready(t)
    ensures Ready(r.table)
    ensures r.table.xSize == t.xSize && r.table.ySize == t.ySize && r.table.layout == t.layout
    ensures r.table.values == t.values && r.table.axisX == t.axisX && r.table.axisY == t.axisY
    ensures CacheHit(t, yIn, xIn) ==> r == Answer(t, t.lastOutput)
    ensures !CacheHit(t, yIn, xIn) ==> r.table.lastXInput == xIn && r.table.lastYInput == yIn && r.table.cacheIsValid
    ensures 0 <= r.value < 0x100 && r.table.lastOutput == r.value
  {
    if CacheHit(t, yIn, xIn) then Answer(t, t.lastOutput)
    else
      var c := Compute(t.values, t.axisX, t.axisY, xIn, yIn, t.lastX, t.lastY);
      MissFitsByte(t, yIn, xIn);
      Answer(t.(lastX := c.xBin, lastY := c.yBin, lastXInput := xIn, lastYInput := yIn,
                lastOutput := ToByte(c.value), cacheIsValid := true),
             c.value)
  }

  /** With byte cells the interpolated value is a byte too, since it never
      exceeds the largest corner. */
  lemma MissFitsByte(t: Table, yIn: int, xIn: int)
    requires Ready(t)
    ensures Compute(t.values, t.axisX, t.axisY, xIn, yIn, t.lastX, t.lastY).value < 0x100
  {
    var c := Compute(t.values, t.axisX, t.axisY, xIn, yIn, t.lastX, t.lastY);
    assert t.values[c.yBin.lo][c.xBin.lo] < 0x100 && t.values[c.yBin.lo][c.xBin.hi] < 0x100;
    assert t.values[c.yBin.hi][c.xBin.lo] < 0x100 && t.values[c.yBin.hi][c.xBin.hi] < 0x100;
  }

  /** Two consecutive identical lookups return the same value even though
      the second returns the narrowed byte. */
  lemma RepeatedLookupAgrees(t: Table, yIn: int, xIn: int)
    requires Ready(t)
    ensures var first := Lookup(t, yIn, xIn);
            Lookup(first.table, yIn, xIn) == Answer(first.table, first.value)
  {
  }

  /** The cached output, when valid, is what the cold lookup of the cached
      inputs would return. */
  predicate Coherent(t: Table)
    requires Ready(t)
  {
    t.cacheIsValid ==> t.lastOutput == ColdCompute(t.values, t.axisX, t.axisY, t.lastXInput, t.lastYInput)
  }

  /** As for the templated table, the caches are only an optimisation. */
  lemma LookupIsCold(t: Table, yIn: int, xIn: int)
    requires Ready(t) && Coherent(t)
    ensures Lookup(t, yIn, xIn).value == ColdCompute(t.values, t.axisX, t.axisY, xIn, yIn)
    ensures Coherent(Lookup(t, yIn, xIn).table)
  {
    if !CacheHit(t, yIn, xIn) {
      ComputeMatchesCold(t.values, t.axisX, t.axisY, xIn, yIn, t.lastX, t.lastY);
    }
  }

  /** A miss interpolates the current contents, whatever the cache holds. */
  lemma MissIsCold(t: Table, yIn: int, xIn: int)
    requires Ready(t) && !CacheHit(t, yIn, xIn)
    ensures Lookup(t, yIn, xIn).value == ColdCompute(t.values, t.axisX, t.axisY, xIn, yIn)
  {
    ComputeMatchesCold(t.values, t.axisX, t.axisY, xIn, yIn, t.lastX, t.lastY);
  }

  /** `table3D_setSize` keeps the cached bins, so they stay inside the new
      sizes exactly when they were inside `newSize` before the call. */
  lemma SetSizeKeepsBins(h: Arena, t: Table, newSize: nat, pointerSize: nat)
    requires Valid(h) && newSize < 0x100 && newSize * pointerSize < 0x1_0000
    ensures var u := SetSize(h, t, newSize, pointerSize).table;
            && (ValidBin(u.lastX, u.xSize) <==> ValidBin(t.lastX, newSize))
            && (ValidBin(u.lastY, u.ySize) <==> ValidBin(t.lastY, newSize))
  {
  }

  /** Shrinking a 16x16 table whose last lookup cached the X bin (14, 15)
      to 6x6 leaves that bin pointing past the 6-entry axis, where the next
      miss's first tier reads `axisX[15]`. */
  lemma ShrinkStrandsCachedBin()
    ensures var t := InitialTable.(xSize := 16, ySize := 16, lastX := Bin(14, 15));
            var u := SetSize(InitialArena, t, 6, 2).table;
            ValidBin(t.lastX, t.xSize) && !ValidBin(u.lastX, u.xSize) && !Ready(u)
  {
  }

  /** After `table3D_setSize` the next lookup cannot be served from the
      result cache, whatever the inputs. */
  lemma SetSizeForcesMiss(h: Arena, t: Table, newSize: nat, pointerSize: nat, yIn: int, xIn: int)
    requires Valid(h) && newSize < 0x100 && newSize * pointerSize < 0x1_0000
    ensures !CacheHit(SetSize(h, t, newSize, pointerSize).table, yIn, xIn)
  {
  }

  /** The table sizes the benchmark sets up, in order: five 16x16, four 8x8
      and four 6x6 tables. */
  const SetupSizes: seq<nat> := seq(13, i => if i < 5 then 16 else if i < 9 then 8 else 6)

  /** The requests of a run of `table3D_setSize` calls, one per size. */
  function SetupRequests(sizes: seq<nat>, pointerSize: nat): (s: seq<nat>)
    requires forall i :: 0 <= i < |sizes| ==> sizes[i] < 0x100
    requires pointerSize <= 0x100
    ensures Sum(s) == SetupTotal(sizes, pointerSize)
    ensures Uint16s(s)
    decreases |sizes|
  {
    if |sizes| == 0 then []
    else
      MulMono(sizes[0], 0xff, pointerSize);
      MulMono(pointerSize, 0x100, 0xff);
      SumAppend(Requests(sizes[0], pointerSize), SetupRequests(sizes[1..], pointerSize));
      Requests(sizes[0], pointerSize) + SetupRequests(sizes[1..], pointerSize)
  }

  function SetupTotal(sizes: seq<nat>, pointerSize: nat): nat
    decreases |sizes|
  {
    if |sizes| == 0 then 0
    else sizes[0] * pointerSize + sizes[0] * sizes[0] + 4 * sizes[0] + SetupTotal(sizes[1..], pointerSize)
  }

  /** The setup asks for every byte of the arena but the spare one. */
  lemma SetupTotalFillsArena()
    ensures SetupTotal(SetupSizes, 2) == TableHeapSize - 1
  {
    var s := SetupSizes;
    assert SetupTotal(s[12..], 2) == 72;
    assert SetupTotal(s[11..], 2) == 144;
    assert SetupTotal(s[10..], 2) == 216;
    assert SetupTotal(s[9..], 2) == 288;
    assert SetupTotal(s[8..], 2) == 400;
    assert SetupTotal(s[7..], 2) == 512;
    assert SetupTotal(s[6..], 2) == 624;
    assert SetupTotal(s[5..], 2) == 736;
    assert SetupTotal(s[4..], 2) == 1088;
    assert SetupTotal(s[3..], 2) == 1440;
    assert SetupTotal(s[2..], 2) == 1792;
    assert SetupTotal(s[1..], 2) == 2144;
  }

  /** With two-byte pointers the benchmark's thirteen `table3D_setSize`
      calls, starting from the empty arena, never get a null pointer and
      leave exactly one byte free. */
  lemma SetupFitsExactly()
    ensures forall i :: 0 <= i < |SetupSizes| ==> SetupSizes[i] < 0x100
    ensures var r := AllocAll(InitialArena, SetupRequests(SetupSizes, 2));
            && (forall i :: 0 <= i < |r.blocks| ==> r.blocks[i].At?)
            && r.arena.pointer == TableHeapSize - 1
  {
    SetupTotalFillsArena();
    SetupGranted(SetupSizes, 2);
  }

  /** A run of resizes whose total stays strictly below the arena is granted
      in full, and the pointer ends at that total. */
  lemma SetupGranted(sizes: seq<nat>, pointerSize: nat)
    requires forall i :: 0 <= i < |sizes| ==> sizes[i] < 0x100
    requires pointerSize <= 0x100 && SetupTotal(sizes, pointerSize) < TableHeapSize
    ensures var r := AllocAll(InitialArena, SetupRequests(sizes, pointerSize));
            && (forall i :: 0 <= i < |r.blocks| ==> r.blocks[i].At?)
            && r.arena.pointer == SetupTotal(sizes, pointerSize)
  {
    AllGranted(InitialArena, SetupRequests(sizes, pointerSize));
  }

  /** The arena after `table3D_setSize` on a fresh table for each size in
      turn, as the benchmark's `setupTable` calls do. */
  function SetupArena(h: Arena, sizes: seq<nat>, pointerSize: nat): (r: Arena)
    requires Valid(h) && pointerSize <= 0x100
    requires forall i :: 0 <= i < |sizes| ==> sizes[i] < 0x100
    ensures Valid(r) && h.pointer <= r.pointer
    decreases |sizes|
  {
    if |sizes| == 0 then h
    else
      MulMono(sizes[0], 0xff, pointerSize);
      MulMono(pointerSize, 0x100, 0xff);
      SetupArena(SetSize(h, InitialTable, sizes[0], pointerSize).arena, sizes[1..], pointerSize)
  }

  /** Running the resizes one call at a time allocates exactly the
      concatenated requests of all of them. */
  lemma {:induction false} SetupArenaIsAllocAll(h: Arena, sizes: seq<nat>, pointerSize: nat)
    requires Valid(h) && pointerSize <= 0x100
    requires forall i :: 0 <= i < |sizes| ==> sizes[i] < 0x100
    ensures SetupArena(h, sizes, pointerSize) == AllocAll(h, SetupRequests(sizes, pointerSize)).arena
    decreases |sizes|
  {
    if |sizes| > 0 {
      MulMono(sizes[0], 0xff, pointerSize);
      MulMono(pointerSize, 0x100, 0xff);
      var first := Requests(sizes[0], pointerSize);
      var rest := SetupRequests(sizes[1..], pointerSize);
      AllocAllAppend(h, first, rest);
      SetupArenaIsAllocAll(AllocAll(h, first).arena, sizes[1..], pointerSize);
    }
  }

  /** The thirteen `setupTable` calls of the benchmark, made one by one,
      leave exactly one byte of the arena free. */
  lemma SetupCallsFillArena()
    ensures forall i :: 0 <= i < |SetupSizes| ==> SetupSizes[i] < 0x100
    ensures SetupArena(InitialArena, SetupSizes, 2).pointer == TableHeapSize - 1
  {
    SetupFitsExactly();
    SetupArenaIsAllocAll(InitialArena, SetupSizes, 2);
  }

  /** Two resizes in a row allocate exactly the concatenation of their
      requests. */
  lemma SetSizeThenSetSize(h: Arena, t: Table, u: Table, n1: nat, n2: nat)
    requires Valid(h) && n1 < 0x100 && n2 < 0x100
    ensures var first := SetSize(h, t, n1, 2);
            var second := SetSize(first.arena, u, n2, 2);
            Uint16s(Requests(n1, 2) + Requests(n2, 2))
            && second.arena == AllocAll(h, Requests(n1, 2) + Requests(n2, 2)).arena
  {
    assert Uint16s(Requests(n1, 2)) && Uint16s(Requests(n2, 2));
    AllocAllAppend(h, Requests(n1, 2), Requests(n2, 2));
  }
}
