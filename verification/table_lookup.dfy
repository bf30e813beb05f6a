/** The miss path of `get3DTableValue`, common to the templated table and
    the legacy struct (their code is the same): clamp both inputs, locate
    the X bin, locate the Y bin, read the four corners, interpolate.  Beside
    it stands the cold reference, which ignores the cached bins and always
    runs both full scans; the two are proved to agree. */
module TableLookup {
  import opened FixedPoint
  import opened AxisLocator
  import opened Bilinear

  /** `rows` rows of `cols` cells each, indexed `[y][x]`: the vertical (Y)
      index comes first and row 0 is the top, highest-Y row. */
  predicate GridShaped(cells: seq<seq<int>>, rows: nat, cols: nat) {
    |cells| == rows && forall y :: 0 <= y < rows ==> |cells[y]| == cols
  }

  predicate NonNegativeCells(cells: seq<seq<int>>) {
    forall y, x :: 0 <= y < |cells| && 0 <= x < |cells[y]| ==> cells[y][x] >= 0
  }

  /** What the lookup relies on: non-empty strictly monotone axes that fit
      16-bit arithmetic, a grid of matching shape, and non-negative cells. */
  predicate Calibrated(cells: seq<seq<int>>, axisX: seq<int>, axisY: seq<int>) {
    && 1 <= |axisX| && 1 <= |axisY|
    && GridShaped(cells, |axisY|, |axisX|)
    && NonNegativeCells(cells)
    && Increasing(axisX) && Decreasing(axisY)
    && FitsInt16(axisX) && FitsInt16(axisY)
  }

  lemma AxisEndsOrdered(axisX: seq<int>, axisY: seq<int>)
    requires 1 <= |axisX| && 1 <= |axisY| && Increasing(axisX) && Decreasing(axisY)
    ensures axisX[0] <= axisX[|axisX| - 1]
    ensures axisY[|axisY| - 1] <= axisY[0]
  {
  }

  /** The four corners A = (yMin, xMin), B = (yMin, xMax), C = (yMax, xMin),
      D = (yMax, xMax) of the chosen bins, interpolated at the clamped
      inputs.  Two degenerate bins select a single cell. */
  function Evaluate(cells: seq<seq<int>>, axisX: seq<int>, axisY: seq<int>,
                    x: int, y: int, xb: Bin, yb: Bin): (v: nat)
    requires Calibrated(cells, axisX, axisY)
    requires ValidBin(xb, |axisX|) && ValidBin(yb, |axisY|)
    requires axisX[xb.lo] <= x <= axisX[xb.hi] && axisY[yb.hi] <= y <= axisY[yb.lo]
    ensures v <= Max4(cells[yb.lo][xb.lo], cells[yb.lo][xb.hi], cells[yb.hi][xb.lo], cells[yb.hi][xb.hi])
    ensures Degenerate(xb) && Degenerate(yb) ==> v == cells[yb.lo][xb.lo]
  {
    Blend(cells[yb.lo][xb.lo], cells[yb.lo][xb.hi], cells[yb.hi][xb.lo], cells[yb.hi][xb.hi],
          FractionX(axisX, x, xb), FractionY(axisY, y, yb))
  }

  /** The outcome of a miss: the new cached bins and the interpolated value. */
  datatype Located = Located(xBin: Bin, yBin: Bin, value: nat)

  /** The miss path, given the cached bins of the previous lookup.  The new
      bins are valid, bracket the clamped inputs, and are degenerate only
      on an exact axis hit. */
  function Compute(cells: seq<seq<int>>, axisX: seq<int>, axisY: seq<int>,
                   xIn: int, yIn: int, lastX: Bin, lastY: Bin): (r: Located)
    requires Calibrated(cells, axisX, axisY)
    requires ValidBin(lastX, |axisX|) && ValidBin(lastY, |axisY|)
    ensures ValidBin(r.xBin, |axisX|) && ValidBin(r.yBin, |axisY|)
    ensures axisX[r.xBin.lo] <= ClampX(axisX, xIn) <= axisX[r.xBin.hi]
    ensures axisY[r.yBin.hi] <= ClampY(axisY, yIn) <= axisY[r.yBin.lo]
    ensures Degenerate(r.xBin) ==> ClampX(axisX, xIn) == axisX[r.xBin.lo]
    ensures Degenerate(r.yBin) ==> ClampY(axisY, yIn) == axisY[r.yBin.lo]
    ensures r.value <= Max4(cells[r.yBin.lo][r.xBin.lo], cells[r.yBin.lo][r.xBin.hi],
                            cells[r.yBin.hi][r.xBin.lo], cells[r.yBin.hi][r.xBin.hi])
  {
    AxisEndsOrdered(axisX, axisY);
    var x := ClampX(axisX, xIn);
    var y := ClampY(axisY, yIn);
    var xb := LocateX(axisX, x, lastX);
    var yb := LocateY(axisY, y, lastY);
    Located(xb, yb, Evaluate(cells, axisX, axisY, x, y, xb, yb))
  }

  /** The cold reference: the same interpolation with both bins found by a
      full scan from the top index, as on the very first lookup. */
  function ColdCompute(cells: seq<seq<int>>, axisX: seq<int>, axisY: seq<int>,
                       xIn: int, yIn: int): nat
    requires Calibrated(cells, axisX, axisY)
  {
    AxisEndsOrdered(axisX, axisY);
    var x := ClampX(axisX, xIn);
    var y := ClampY(axisY, yIn);
    Evaluate(cells, axisX, axisY, x, y, ScanX(axisX, x, |axisX| - 1), ScanY(axisY, y, |axisY| - 1))
  }

  /** The cold reference is what the miss path computes from the cold
      cached bins (0, 0) of a table nobody has looked up yet. */
  lemma ColdComputeIsFirstLookup(cells: seq<seq<int>>, axisX: seq<int>, axisY: seq<int>, xIn: int, yIn: int)
    requires Calibrated(cells, axisX, axisY)
    ensures ColdCompute(cells, axisX, axisY, xIn, yIn) == Compute(cells, axisX, axisY, xIn, yIn, Bin(0, 0), Bin(0, 0)).value
  {
    DegenerateCacheScansX(axisX, ClampX(axisX, xIn), Bin(0, 0));
    DegenerateCacheScansY(axisY, ClampY(axisY, yIn), Bin(0, 0));
  }

  /** The cached bins are only an optimisation: whatever bins the previous
      lookup left behind, the miss path returns what the cold full-scan
      lookup returns.  Where a tier picks a bin with the input on one of its
      ends, the fraction there is 0 or 256, which selects the same cells as
      the degenerate bin the scan picks. */
  lemma ComputeMatchesCold(cells: seq<seq<int>>, axisX: seq<int>, axisY: seq<int>,
                           xIn: int, yIn: int, lastX: Bin, lastY: Bin)
    requires Calibrated(cells, axisX, axisY)
    requires ValidBin(lastX, |axisX|) && ValidBin(lastY, |axisY|)
    ensures Compute(cells, axisX, axisY, xIn, yIn, lastX, lastY).value == ColdCompute(cells, axisX, axisY, xIn, yIn)
  {
    AxisEndsOrdered(axisX, axisY);
    var x := ClampX(axisX, xIn);
    var y := ClampY(axisY, yIn);
    var xb := LocateX(axisX, x, lastX);
    var yb := LocateY(axisY, y, lastY);
    var sx := ScanX(axisX, x, |axisX| - 1);
    var sy := ScanY(axisY, y, |axisY| - 1);
    LocateXVersusScan(axisX, x, lastX);
    LocateYVersusScan(axisY, y, lastY);
    // First replace the tier's X bin by the scan's, keeping the tier's Y bin.
    if xb != sx {
      var q := FractionY(axisY, y, yb);
      assert FractionX(axisX, x, xb) == ShiftPower;
      assert FractionX(axisX, x, sx) == 0;
      BlendRightEdge(cells[yb.lo][xb.lo], cells[yb.lo][xb.hi], cells[yb.hi][xb.lo], cells[yb.hi][xb.hi], q);
    }
    assert Evaluate(cells, axisX, axisY, x, y, xb, yb) == Evaluate(cells, axisX, axisY, x, y, sx, yb);
    // Then replace the Y bin.
    if yb != sy {
      var p := FractionX(axisX, x, sx);
      var a, b, c, d := cells[yb.lo][sx.lo], cells[yb.lo][sx.hi], cells[yb.hi][sx.lo], cells[yb.hi][sx.hi];
      if y == axisY[yb.hi] {
        assert FractionY(axisY, y, yb) == ShiftPower;
        BlendLowerEdge(a, b, c, d, p);
      } else {
        assert FractionY(axisY, y, yb) == 0;
        BlendUpperEdge(a, b, c, d, p);
      }
      assert FractionY(axisY, y, sy) == 0;
    }
  }

  /** Inputs on axis entries pass the clamp unchanged. */
  lemma EntriesAreInside(axisX: seq<int>, axisY: seq<int>, i: nat, j: nat)
    requires Increasing(axisX) && Decreasing(axisY) && i < |axisX| && j < |axisY|
    ensures ClampX(axisX, axisX[i]) == axisX[i]
    ensures ClampY(axisY, axisY[j]) == axisY[j]
  {
    assert axisX[0] <= axisX[i] <= axisX[|axisX| - 1] by {
      if 0 < i { assert axisX[0] < axisX[i]; }
      if i < |axisX| - 1 { assert axisX[i] < axisX[|axisX| - 1]; }
    }
    assert axisY[|axisY| - 1] <= axisY[j] <= axisY[0] by {
      if 0 < j { assert axisY[0] > axisY[j]; }
      if j < |axisY| - 1 { assert axisY[j] > axisY[|axisY| - 1]; }
    }
  }

  /** On the grid point (axisX[i], axisY[j]) the cold lookup is the cell
      `cells[j][i]`: both scans find degenerate bins. */
  lemma {:induction false} ColdComputeAtGridPoint(cells: seq<seq<int>>, axisX: seq<int>, axisY: seq<int>, i: nat, j: nat)
    requires Calibrated(cells, axisX, axisY) && i < |axisX| && j < |axisY|
    ensures ColdCompute(cells, axisX, axisY, axisX[i], axisY[j]) == cells[j][i]
  {
    var x, y := axisX[i], axisY[j];
    EntriesAreInside(axisX, axisY, i, j);
    ScanXExact(axisX, x, |axisX| - 1, i);
    ScanYExact(axisY, y, |axisY| - 1, j);
    assert ScanX(axisX, ClampX(axisX, x), |axisX| - 1) == Bin(i, i);
    assert ScanY(axisY, ClampY(axisY, y), |axisY| - 1) == Bin(j, j);
  }

  /** The interpolation reads the four corners and nothing else of the grid. */
  lemma EvaluateReadsCorners(cells: seq<seq<int>>, other: seq<seq<int>>, axisX: seq<int>, axisY: seq<int>,
                             x: int, y: int, xb: Bin, yb: Bin)
    requires Calibrated(cells, axisX, axisY) && Calibrated(other, axisX, axisY)
    requires ValidBin(xb, |axisX|) && ValidBin(yb, |axisY|)
    requires axisX[xb.lo] <= x <= axisX[xb.hi] && axisY[yb.hi] <= y <= axisY[yb.lo]
    requires cells[yb.lo][xb.lo] == other[yb.lo][xb.lo] && cells[yb.lo][xb.hi] == other[yb.lo][xb.hi]
    requires cells[yb.hi][xb.lo] == other[yb.hi][xb.lo] && cells[yb.hi][xb.hi] == other[yb.hi][xb.hi]
    ensures Evaluate(cells, axisX, axisY, x, y, xb, yb) == Evaluate(other, axisX, axisY, x, y, xb, yb)
  {
  }
}
