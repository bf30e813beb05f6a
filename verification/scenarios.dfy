/** Concrete tables and what the lookup returns on them.  Each lemma pins
    down one behaviour of the model on actual numbers; the intermediate
    bins, fractions and weights are spelled out. */
module Scenarios {
  import opened AxisLocator
  import opened Bilinear
  import opened TableLookup
  import opened CompactTable

  /** A 2x2 table: X axis 1000..5000, Y axis 100 (top row) down to 0, upper
      row 50 and 60, lower row 10 and 20, nothing looked up yet. */
  const Sample: Table :=
    Table([[50, 60], [10, 20]], [1000, 5000], [100, 0], Bin(0, 0), Bin(0, 0), 0, 0, 0, false)

  /** `Sample` satisfies everything the lookup relies on. */
  lemma SampleIsReady()
    ensures Ready(Sample)
  {
  }

  /** The three setters, applied to a fresh 2x2 table, build `Sample`. */
  lemma SampleBySetters()
    ensures SetValues(SetYAxis(SetXAxis(Initial(2, 2), [1000, 5000]), [100, 0]), [50, 60, 10, 20]) == Sample
  {
    var t0 := Initial(2, 2);
    SetXAxisWhole(t0, [1000, 5000]);
    var t1 := t0.(axisX := [1000, 5000]);
    SetYAxisWhole(t1, [100, 0]);
    var t2 := t1.(axisY := [100, 0]);
    var src := [50, 60, 10, 20];
    var g := SetValues(t2, src).values;
    assert g[0] == [50, 60] by { assert g[0][0] == src[0] && g[0][1] == src[1]; }
    assert g[1] == [10, 20] by { assert g[1][0] == src[2] && g[1][1] == src[3]; }
    assert g == [[50, 60], [10, 20]];
  }

  /** The middle of the table is the mean of the four corners: both
      fractions are 128, every weight 64, and (50 + 60 + 10 + 20) * 64 >> 8
      is 35. */
  lemma MidpointOfSample()
    ensures Ready(Sample)
    ensures FractionX(Sample.axisX, 3000, Bin(0, 1)) == 128
    ensures FractionY(Sample.axisY, 50, Bin(0, 1)) == 128
    ensures BilinearWeights(128, 128) == Weights(64, 64, 64, 64)
    ensures Lookup(Sample, 50, 3000).value == 35
  {
    SampleIsReady();
    assert LocateX(Sample.axisX, 3000, Bin(0, 0)) == Bin(0, 1);
    assert LocateY(Sample.axisY, 50, Bin(0, 0)) == Bin(0, 1);
    assert Blend(50, 60, 10, 20, 128, 128) == 35;
  }

  /** An input beyond the X axis reads as the axis end, where only the
      right column counts: (60 + 20) / 2 = 40. */
  lemma SampleClampsX()
    ensures Ready(Sample)
    ensures Lookup(Sample, 50, 9999).value == Lookup(Sample, 50, 5000).value == 40
  {
    SampleIsReady();
    assert ClampX(Sample.axisX, 9999) == 5000;
    assert LocateX(Sample.axisX, 5000, Bin(0, 0)) == Bin(1, 1);
    assert LocateY(Sample.axisY, 50, Bin(0, 0)) == Bin(0, 1);
    assert FractionX(Sample.axisX, 5000, Bin(1, 1)) == 0;
    assert FractionY(Sample.axisY, 50, Bin(0, 1)) == 128;
    assert Blend(60, 60, 20, 20, 0, 128) == 40;
  }

  /** The top-left grid point is the top-left cell. */
  lemma SampleCorner()
    ensures Ready(Sample)
    ensures Lookup(Sample, 100, 1000).value == 50
  {
    SampleIsReady();
    assert LocateX(Sample.axisX, 1000, Bin(0, 0)) == Bin(0, 0);
    assert LocateY(Sample.axisY, 100, Bin(0, 0)) == Bin(0, 0);
  }

  /** Cells that are all zero interpolate to zero everywhere. */
  lemma ZeroCellsGiveZero(t: Table, yIn: int, xIn: int)
    requires Ready(t)
    requires forall y, x :: 0 <= y < |t.axisY| && 0 <= x < |t.axisX| ==> t.values[y][x] == 0
    ensures ColdLookup(t, yIn, xIn) == 0
  {
    AxisEndsOrdered(t.axisX, t.axisY);
    var x := ClampX(t.axisX, xIn);
    var y := ClampY(t.axisY, yIn);
    var xb := ScanX(t.axisX, x, |t.axisX| - 1);
    var yb := ScanY(t.axisY, y, |t.axisY| - 1);
    assert t.values[yb.lo][xb.lo] == 0 && t.values[yb.lo][xb.hi] == 0;
    assert t.values[yb.hi][xb.lo] == 0 && t.values[yb.hi][xb.hi] == 0;
  }

  /** Zeroing every cell of a table with `setValues`. */
  function Zeroed(t: Table): (z: Table)
    requires Ready(t)
    ensures Ready(z) && z == t.(values := z.values)
    ensures forall y, x :: 0 <= y < |t.axisY| && 0 <= x < |t.axisX| ==> z.values[y][x] == 0
  {
    var zeros := seq(|t.axisX| * |t.axisY|, _ => 0);
    SetValuesZeros(t, zeros);
    SetValues(t, zeros)
  }

  /** Zeroing the cells of a table that has just answered a lookup: the
      same lookup answers from the cache, while the cold lookup gives 0. */
  lemma ZeroingKeepsAnswer(t: Table, yIn: int, xIn: int)
    requires Ready(t) && CacheHit(t, yIn, xIn)
    ensures Lookup(Zeroed(t), yIn, xIn).value == t.lastOutput
    ensures ColdLookup(Zeroed(t), yIn, xIn) == 0
  {
    ZeroCellsGiveZero(Zeroed(t), yIn, xIn);
  }

  /** After zeroing the cells, a lookup with inputs other than the cached
      ones interpolates the new contents and gives 0. */
  lemma ZeroingThenNewInputs(t: Table, yIn: int, xIn: int)
    requires Ready(t) && !CacheHit(t, yIn, xIn)
    ensures Lookup(Zeroed(t), yIn, xIn).value == 0
  {
    MissIsCold(Zeroed(t), yIn, xIn);
    ZeroCellsGiveZero(Zeroed(t), yIn, xIn);
  }

  /** Overwriting the cells leaves the result cache in place: the repeated
      lookup still answers 35 although the cold lookup now gives 0, while a
      lookup with a different X already sees the new contents. */
  lemma StaleCacheAfterSetValues()
    ensures Ready(Sample)
    ensures var first := Lookup(Sample, 50, 3000);
            && Lookup(Zeroed(first.table), 50, 3000).value == 35
            && ColdLookup(Zeroed(first.table), 50, 3000) == 0
            && Lookup(Zeroed(first.table), 50, 3001).value == 0
  {
    MidpointOfSample();
    ZeroingKeepsAnswer(Lookup(Sample, 50, 3000).table, 50, 3000);
    ZeroingThenNewInputs(Lookup(Sample, 50, 3000).table, 50, 3001);
  }

  /** The weights need not add up to 256: at fractions 1 and 1 they add up
      to 254. */
  lemma WeightsLoseUnits()
    ensures BilinearWeights(1, 1) == Weights(254, 0, 0, 0)
    ensures Total(BilinearWeights(1, 1)) == 254
  {
  }

  /** Three X points 0, 256, 512, two Y points 256 and 0, and columns 10, 10,
      11 in both rows: the cells never decrease to the right. */
  const Ramp: Table :=
    Table([[10, 10, 11], [10, 10, 11]], [0, 256, 512], [256, 0], Bin(0, 0), Bin(0, 0), 0, 0, 0, false)

  lemma RampIsReady()
    ensures Ready(Ramp)
  {
  }

  /** The setters, applied to a fresh 3x2 table, build `Ramp`. */
  lemma RampBySetters()
    ensures SetValues(SetYAxis(SetXAxis(Initial(3, 2), [0, 256, 512]), [256, 0]), [10, 10, 11, 10, 10, 11]) == Ramp
  {
    var t0 := Initial(3, 2);
    SetXAxisWhole(t0, [0, 256, 512]);
    var t1 := t0.(axisX := [0, 256, 512]);
    SetYAxisWhole(t1, [256, 0]);
    var t2 := t1.(axisY := [256, 0]);
    var src := [10, 10, 11, 10, 10, 11];
    var g := SetValues(t2, src).values;
    assert g[0] == [10, 10, 11] by { assert g[0][0] == src[0] && g[0][1] == src[1] && g[0][2] == src[2]; }
    assert g[1] == [10, 10, 11] by { assert g[1][0] == src[3] && g[1][1] == src[4] && g[1][2] == src[5]; }
    assert g == [[10, 10, 11], [10, 10, 11]];
  }

  /** Truncation breaks monotonicity: moving right from X = 255 to X = 257
      over cells that never decrease takes the result from 10 down to 9,
      because the weights at fractions 1 and 1 add up to 254 only. */
  lemma RampIsNotMonotone()
    ensures Ready(Ramp)
    ensures ColdLookup(Ramp, 255, 255) == 10
    ensures ColdLookup(Ramp, 255, 257) == 9
  {
    RampIsReady();
    assert ScanX(Ramp.axisX, 255, 2) == Bin(0, 1);
    assert ScanX(Ramp.axisX, 257, 2) == Bin(1, 2);
    assert ScanY(Ramp.axisY, 255, 1) == Bin(0, 1);
    assert FractionX(Ramp.axisX, 257, Bin(1, 2)) == 1;
    assert FractionY(Ramp.axisY, 255, Bin(0, 1)) == 1;
    WeightsLoseUnits();
    assert Blend(10, 11, 10, 11, 1, 1) == 9;
  }
}
