/** The templated `table3D<_Ty, _xDim, _yDim>`: fixed-size storage, the three
    setters, and `get3DTableValue` with its result cache.  The dimensions are
    the lengths of the axes; `_xDim` and `_yDim` are `int8_t`, so at most 127. */
module CompactTable {
  import opened AxisLocator
  import opened Bilinear
  import opened TableLookup

  const MaxDim: nat := 127

  /** One table: its storage and its cache fields.  `lastX`/`lastY` hold the
      cached bins (`lastXMin`, `lastXMax`, `lastYMin`, `lastYMax`). */
  datatype Table = Table(
    values: seq<seq<int>>,
    axisX: seq<int>,
    axisY: seq<int>,
    lastX: Bin,
    lastY: Bin,
    lastXInput: int,
    lastYInput: int,
    lastOutput: int,
    cacheIsValid: bool)

  /** The shape fixed by the template arguments, and cached bins inside it. */
  predicate Shaped(t: Table) {
    && 1 <= |t.axisX| <= MaxDim && 1 <= |t.axisY| <= MaxDim
    && GridShaped(t.values, |t.axisY|, |t.axisX|)
    && ValidBin(t.lastX, |t.axisX|) && ValidBin(t.lastY, |t.axisY|)
  }

  /** A table whose contents the lookup can work on. */
  predicate Ready(t: Table) {
    Shaped(t) && Calibrated(t.values, t.axisX, t.axisY)
  }

  /** A table with static storage duration before any setter runs: every
      field is zero, and `cacheIsValid` starts false. */
  function Initial(xDim: nat, yDim: nat): (t: Table)
    requires 1 <= xDim <= MaxDim && 1 <= yDim <= MaxDim
    ensures Shaped(t) && |t.axisX| == xDim && |t.axisY| == yDim
    ensures t.lastX == Bin(0, 0) && t.lastY == Bin(0, 0) && !t.cacheIsValid
    ensures t.lastXInput == 0 && t.lastYInput == 0 && t.lastOutput == 0
    ensures forall i :: 0 <= i < xDim ==> t.axisX[i] == 0
    ensures forall j :: 0 <= j < yDim ==> t.axisY[j] == 0
    ensures forall y, x :: 0 <= y < yDim && 0 <= x < xDim ==> t.values[y][x] == 0
  {
    Table(seq(yDim, _ => seq(xDim, _ => 0)), seq(xDim, _ => 0), seq(yDim, _ => 0),
          Bin(0, 0), Bin(0, 0), 0, 0, 0, false)
  }

  /** The first min(dim, |src|) entries of `axis` replaced by those of `src`. */
  function CopyPrefix(axis: seq<int>, src: seq<int>): (r: seq<int>)
    ensures |r| == |axis|
    ensures forall i :: 0 <= i < |axis| ==> r[i] == if i < |src| then src[i] else axis[i]
  {
    var k := if |axis| < |src| then |axis| else |src|;
    src[..k] + axis[k..]
  }

  /** `setXAxis(pValues, len)`: copies min(_xDim, len) entries and nothing
      else; the result cache is not invalidated. */
  function SetXAxis(t: Table, src: seq<int>): (t': Table)
    requires Shaped(t)
    ensures Shaped(t') && |t'.axisX| == |t.axisX|
    ensures forall i :: 0 <= i < |t.axisX| ==> t'.axisX[i] == if i < |src| then src[i] else t.axisX[i]
    ensures t' == t.(axisX := t'.axisX)
  {
    t.(axisX := CopyPrefix(t.axisX, src))
  }

  /** `setYAxis(pValues, len)`: copies min(_yDim, len) entries and nothing
      else; the result cache is not invalidated. */
  function SetYAxis(t: Table, src: seq<int>): (t': Table)
    requires Shaped(t)
    ensures Shaped(t') && |t'.axisY| == |t.axisY|
    ensures forall i :: 0 <= i < |t.axisY| ==> t'.axisY[i] == if i < |src| then src[i] else t.axisY[i]
    ensures t' == t.(axisY := t'.axisY)
  {
    t.(axisY := CopyPrefix(t.axisY, src))
  }

  /** `setValues(pValues)`: copies all _xDim * _yDim cells from a row-major
      buffer, so cell [y][x] comes from position y * _xDim + x.  The source
      reads that many cells, so the buffer must hold them. */
  function SetValues(t: Table, src: seq<int>): (t': Table)
    requires Shaped(t) && |src| >= |t.axisX| * |t.axisY|
    ensures Shaped(t') && t' == t.(values := t'.values)
    ensures RowMajorOf(t'.values, src, |t.axisY|, |t.axisX|)
  {
    t.(values := RowMajor(src, |t.axisY|, |t.axisX|))
  }

  /** Cell [y][x] of `g` is element y * cols + x of the buffer `src`. */
  predicate RowMajorOf(g: seq<seq<int>>, src: seq<int>, rows: nat, cols: nat) {
    && GridShaped(g, rows, cols)
    && forall y, x :: 0 <= y < rows && 0 <= x < cols ==> y * cols + x < |src| && g[y][x] == src[y * cols + x]
  }

  /** A row-major buffer cut into `rows` rows of `cols` cells. */
  function RowMajor(src: seq<int>, rows: nat, cols: nat): (g: seq<seq<int>>)
    requires |src| >= cols * rows
    ensures RowMajorOf(g, src, rows, cols)
  {
    RowsLayout(src, rows, cols);
    Rows(src, rows, cols)
  }

  function Rows(src: seq<int>, rows: nat, cols: nat): seq<seq<int>>
    requires |src| >= cols * rows
  {
    RowsFit(rows, cols, |src|);
    seq(rows, y requires 0 <= y < rows => src[y * cols .. y * cols + cols])
  }

  lemma RowsLayout(src: seq<int>, rows: nat, cols: nat)
    requires |src| >= cols * rows
    ensures RowMajorOf(Rows(src, rows, cols), src, rows, cols)
  {
    var g := Rows(src, rows, cols);
    RowsFit(rows, cols, |src|);
    forall y | 0 <= y < rows
      ensures |g[y]| == cols
    {
      assert g[y] == src[y * cols .. y * cols + cols];
    }
    assert GridShaped(g, rows, cols);
    forall y, x | 0 <= y < rows && 0 <= x < cols
      ensures y * cols + x < |src| && g[y][x] == src[y * cols + x]
    {
      assert y * cols + cols <= |src|;
      assert g[y] == src[y * cols .. y * cols + cols];
    }
  }

  lemma RowsFit(rows: nat, cols: nat, n: nat)
    requires n >= cols * rows
    ensures forall y :: 0 <= y < rows ==> y * cols + cols <= n
  {
    forall y | 0 <= y < rows
      ensures y * cols + cols <= n
    {
      MulMono(y + 1, rows, cols);
    }
  }

  /** A source as long as the axis replaces the axis as a whole. */
  lemma SetXAxisWhole(t: Table, src: seq<int>)
    requires Shaped(t) && |src| == |t.axisX|
    ensures SetXAxis(t, src) == t.(axisX := src)
  {
    assert SetXAxis(t, src).axisX == src;
  }

  lemma SetYAxisWhole(t: Table, src: seq<int>)
    requires Shaped(t) && |src| == |t.axisY|
    ensures SetYAxis(t, src) == t.(axisY := src)
  {
    assert SetYAxis(t, src).axisY == src;
  }

  /** A buffer of zeros clears every cell. */
  lemma SetValuesZeros(t: Table, src: seq<int>)
    requires Shaped(t) && |src| >= |t.axisX| * |t.axisY|
    requires forall k :: 0 <= k < |src| ==> src[k] == 0
    ensures forall y, x :: 0 <= y < |t.axisY| && 0 <= x < |t.axisX| ==> SetValues(t, src).values[y][x] == 0
  {
    var g := SetValues(t, src).values;
    forall y, x | 0 <= y < |t.axisY| && 0 <= x < |t.axisX|
      ensures g[y][x] == 0
    {
      var cell := g[y][x];
      assert y * |t.axisX| + x < |src| && cell == src[y * |t.axisX| + x];
    }
  }

  /** The lookup result together with the table it leaves behind. */
  datatype Answer = Answer(table: Table, value: int)

  predicate CacheHit(t: Table, yIn: int, xIn: int) {
    xIn == t.lastXInput && yIn == t.lastYInput && t.cacheIsValid
  }

  /** `get3DTableValue(Y_in, X_in)`.  On a cache hit the last output is
      returned and nothing changes.  Otherwise the bins are located and
      cached, the value is interpolated, and the raw inputs, the value and
      `cacheIsValid` are recorded.  Contents never change. */
  function Lookup(t: Table, yIn: int, xIn: int): (r: Answer)
    requires Ready(t)
    ensures Ready(r.table)
    ensures r.table.values == t.values && r.table.axisX == t.axisX && r.table.axisY == t.axisY
    ensures CacheHit(t, yIn, xIn) ==> r == Answer(t, t.lastOutput)
    ensures !CacheHit(t, yIn, xIn) ==>
              && r.table.lastXInput == xIn && r.table.lastYInput == yIn
              && r.table.lastOutput == r.value && r.table.cacheIsValid
              && 0 <= r.value
    ensures CacheHit(r.table, yIn, xIn) && r.table.lastOutput == r.value
  {
    if CacheHit(t, yIn, xIn) then Answer(t, t.lastOutput)
    else
      var c := Compute(t.values, t.axisX, t.axisY, xIn, yIn, t.lastX, t.lastY);
      Answer(t.(lastX := c.xBin, lastY := c.yBin,
                lastXInput := xIn, lastYInput := yIn, lastOutput := c.value, cacheIsValid := true),
             c.value)
  }

  /** What a lookup on a table with no cached state returns. */
  function ColdLookup(t: Table, yIn: int, xIn: int): nat
    requires Ready(t)
  {
    ColdCompute(t.values, t.axisX, t.axisY, xIn, yIn)
  }

  /** The cold value is what a lookup returns on the same table with its
      cache state reset to the initial one. */
  lemma ColdLookupIsResetLookup(t: Table, yIn: int, xIn: int)
    requires Ready(t)
    ensures ColdLookup(t, yIn, xIn) == Lookup(t.(lastX := Bin(0, 0), lastY := Bin(0, 0), cacheIsValid := false), yIn, xIn).value
  {
    ColdComputeIsFirstLookup(t.values, t.axisX, t.axisY, xIn, yIn);
  }

  /** The cached output, when valid, is what the cold lookup of the cached
      inputs would return on the current contents. */
  predicate Coherent(t: Table)
    requires Ready(t)
  {
    t.cacheIsValid ==> t.lastOutput == ColdLookup(t, t.lastYInput, t.lastXInput)
  }

  /** Both caches are only an optimisation: from a coherent table a lookup
      returns the cold full-scan value and leaves a coherent table. */
  lemma LookupIsCold(t: Table, yIn: int, xIn: int)
    requires Ready(t) && Coherent(t)
    ensures Lookup(t, yIn, xIn).value == ColdLookup(t, yIn, xIn)
    ensures Coherent(Lookup(t, yIn, xIn).table)
  {
    if !CacheHit(t, yIn, xIn) {
      ComputeMatchesCold(t.values, t.axisX, t.axisY, xIn, yIn, t.lastX, t.lastY);
    }
  }

  /** A lookup that misses never reads the cached output: whatever the
      cache holds, even a stale output left by `setValues`, new inputs are
      interpolated from the current contents. */
  lemma MissIsCold(t: Table, yIn: int, xIn: int)
    requires Ready(t) && !CacheHit(t, yIn, xIn)
    ensures Lookup(t, yIn, xIn).value == ColdLookup(t, yIn, xIn)
  {
    ComputeMatchesCold(t.values, t.axisX, t.axisY, xIn, yIn, t.lastX, t.lastY);
  }

  /** Two consecutive identical lookups return the same value, the second
      from the cache, and the second leaves the table as the first left it. */
  lemma RepeatedLookupIsCached(t: Table, yIn: int, xIn: int)
    requires Ready(t)
    ensures var first := Lookup(t, yIn, xIn);
            var second := Lookup(first.table, yIn, xIn);
            CacheHit(first.table, yIn, xIn) && second == Answer(first.table, first.value)
  {
  }

  /** The setters change neither the cache flag nor the cached bins or
      inputs: after a content change the next lookup with the same inputs
      still returns the old output. */
  lemma SettersKeepCache(t: Table, src: seq<int>)
    requires Shaped(t) && |src| >= |t.axisX| * |t.axisY|
    ensures var tv := SetValues(t, src);
            var tx := SetXAxis(t, src);
            var ty := SetYAxis(t, src);
            && tv.cacheIsValid == tx.cacheIsValid == ty.cacheIsValid == t.cacheIsValid
            && tv.lastX == tx.lastX == ty.lastX == t.lastX
            && tv.lastY == tx.lastY == ty.lastY == t.lastY
            && tv.lastOutput == tx.lastOutput == ty.lastOutput == t.lastOutput
    ensures Ready(SetValues(t, src)) && CacheHit(t, t.lastYInput, t.lastXInput) ==>
              Lookup(SetValues(t, src), t.lastYInput, t.lastXInput).value == t.lastOutput
  {
  }

  /** An input beyond an axis end gives the same value as the end itself. */
  lemma ColdLookupClamps(t: Table, yIn: int, xIn: int)
    requires Ready(t)
    ensures xIn > t.axisX[|t.axisX| - 1] ==> ColdLookup(t, yIn, xIn) == ColdLookup(t, yIn, t.axisX[|t.axisX| - 1])
    ensures xIn < t.axisX[0] ==> ColdLookup(t, yIn, xIn) == ColdLookup(t, yIn, t.axisX[0])
    ensures yIn > t.axisY[0] ==> ColdLookup(t, yIn, xIn) == ColdLookup(t, t.axisY[0], xIn)
    ensures yIn < t.axisY[|t.axisY| - 1] ==> ColdLookup(t, yIn, xIn) == ColdLookup(t, t.axisY[|t.axisY| - 1], xIn)
  {
    AxisEndsOrdered(t.axisX, t.axisY);
  }

  /** When both inputs are axis values the result is exactly that cell,
      whichever tier picked the bins, as long as the cache is coherent. */
  lemma GridPointIsCell(t: Table, i: nat, j: nat)
    requires Ready(t) && Coherent(t) && i < |t.axisX| && j < |t.axisY|
    ensures Lookup(t, t.axisY[j], t.axisX[i]).value == t.values[j][i]
  {
    LookupIsCold(t, t.axisY[j], t.axisX[i]);
    ColdComputeAtGridPoint(t.values, t.axisX, t.axisY, i, j);
  }

  /** An input equal to an X axis value reads only that column: tables that
      agree on column `i` give the same value there. */
  lemma ExactXReadsOneColumn(t: Table, u: Table, i: nat, yIn: int)
    requires Ready(t) && Ready(u) && t.axisX == u.axisX && t.axisY == u.axisY && i < |t.axisX|
    requires forall y :: 0 <= y < |t.axisY| ==> t.values[y][i] == u.values[y][i]
    ensures ColdLookup(t, yIn, t.axisX[i]) == ColdLookup(u, yIn, t.axisX[i])
  {
    var x := t.axisX[i];
    AxisEndsOrdered(t.axisX, t.axisY);
    EntriesAreInside(t.axisX, t.axisY, i, 0);
    ScanXExact(t.axisX, x, |t.axisX| - 1, i);
    var y := ClampY(t.axisY, yIn);
    var yb := ScanY(t.axisY, y, |t.axisY| - 1);
    EvaluateReadsCorners(t.values, u.values, t.axisX, t.axisY, x, y, Bin(i, i), yb);
  }

  /** Four equal surrounding cells give exactly their value. */
  lemma FlatRegionIsExact(t: Table, yIn: int, xIn: int)
    requires Ready(t)
    ensures var c := Compute(t.values, t.axisX, t.axisY, xIn, yIn, t.lastX, t.lastY);
            var v := t.values[c.yBin.lo][c.xBin.lo];
            v == t.values[c.yBin.lo][c.xBin.hi] == t.values[c.yBin.hi][c.xBin.lo] == t.values[c.yBin.hi][c.xBin.hi]
            ==> c.value == v
  {
  }
}
