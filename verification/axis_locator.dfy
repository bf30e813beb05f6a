/** The per-axis bin locator of `get3DTableValue`: input clamping, the three
    O(1) locality tiers that reuse the cached bin, and the full scan that
    runs from the top index down.  The X axis is strictly increasing; the Y
    axis is strictly decreasing, so row 0 holds the highest Y. */
module AxisLocator {

  /** A bracketing pair of axis indices: `lo` is `lastXMin`/`lastYMin` (or
      `xMin`/`yMin`), `hi` is `lastXMax`/`lastYMax`. */
  datatype Bin = Bin(lo: int, hi: int)

  /** Both indices inside an axis of `dim` entries and at most one bin apart. */
  predicate ValidBin(b: Bin, dim: nat) {
    0 <= b.lo <= b.hi < dim && b.hi - b.lo <= 1
  }

  predicate Degenerate(b: Bin) {
    b.lo == b.hi
  }

  predicate Increasing(a: seq<int>) {
    forall i, j :: 0 <= i < j < |a| ==> a[i] < a[j]
  }

  predicate Decreasing(a: seq<int>) {
    forall i, j :: 0 <= i < j < |a| ==> a[i] > a[j]
  }

  /** Every entry is an `int16_t` and every gap between neighbours fits an
      `int16_t` too, so the bracket width `xMaxValue - xMinValue` (a 16-bit
      `int` on AVR) cannot overflow. */
  predicate FitsInt16(a: seq<int>) {
    && (forall i :: 0 <= i < |a| ==> -0x8000 <= a[i] < 0x8000)
    && (forall i :: 0 < i < |a| ==> -0x8000 <= a[i] - a[i - 1] < 0x8000)
  }

  // ---------------------------------------------------------------- clamping

  /** Saturate an X input to the axis ends: first against the last entry,
      then against the first. */
  function ClampX(a: seq<int>, x: int): (r: int)
    requires |a| > 0
    ensures a[0] <= a[|a| - 1] ==> a[0] <= r <= a[|a| - 1]
    ensures a[0] <= x <= a[|a| - 1] ==> r == x
    ensures a[0] <= a[|a| - 1] && x > a[|a| - 1] ==> r == a[|a| - 1]
    ensures x < a[0] ==> r == a[0]
  {
    var x1 := if x > a[|a| - 1] then a[|a| - 1] else x;
    if x1 < a[0] then a[0] else x1
  }

  /** Saturate a Y input: the first entry is the highest, the last the lowest. */
  function ClampY(a: seq<int>, y: int): (r: int)
    requires |a| > 0
    ensures a[|a| - 1] <= a[0] ==> a[|a| - 1] <= r <= a[0]
    ensures a[|a| - 1] <= y <= a[0] ==> r == y
    ensures a[|a| - 1] <= a[0] && y > a[0] ==> r == a[0]
    ensures y < a[|a| - 1] ==> r == a[|a| - 1]
  {
    var y1 := if y > a[0] then a[0] else y;
    if y1 < a[|a| - 1] then a[|a| - 1] else y1
  }

  // --------------------------------------------------------------- full scan

  /** The X full scan, resumed at index `i` and moving down: an exact match
      or index 0 gives a degenerate bin, otherwise the first bin (i-1, i)
      with `a[i-1] < x <= a[i]`.  Once `x` lies between `a[0]` and `a[i]`
      the result brackets `x`, and a degenerate result is an exact hit. */
  function ScanX(a: seq<int>, x: int, i: nat): (b: Bin)
    requires i < |a|
    ensures ValidBin(b, |a|) && b.hi <= i
    ensures Degenerate(b) ==> x == a[b.lo] || b.lo == 0
    ensures !Degenerate(b) ==> a[b.lo] < x < a[b.hi]
    ensures a[0] <= x <= a[i] ==> a[b.lo] <= x <= a[b.hi] && (Degenerate(b) ==> x == a[b.lo])
    decreases i
  {
    if x == a[i] || i == 0 then Bin(i, i)
    else if x <= a[i] && x > a[i - 1] then Bin(i - 1, i)
    else ScanX(a, x, i - 1)
  }

  /** The Y full scan, resumed at index `i` (the lowest Y) and moving up in
      value: the Y axis is descending, so the bin (i-1, i) is taken when
      `a[i] <= y < a[i-1]`. */
  function ScanY(a: seq<int>, y: int, i: nat): (b: Bin)
    requires i < |a|
    ensures ValidBin(b, |a|) && b.hi <= i
    ensures Degenerate(b) ==> y == a[b.lo] || b.lo == 0
    ensures !Degenerate(b) ==> a[b.hi] < y < a[b.lo]
    ensures a[i] <= y <= a[0] ==> a[b.hi] <= y <= a[b.lo] && (Degenerate(b) ==> y == a[b.lo])
    decreases i
  {
    if y == a[i] || i == 0 then Bin(i, i)
    else if y >= a[i] && y < a[i - 1] then Bin(i - 1, i)
    else ScanY(a, y, i - 1)
  }

  /** On an increasing axis an exact hit on entry `j` always yields the
      degenerate bin (j, j), whichever index the scan starts from. */
  lemma {:induction false} ScanXExact(a: seq<int>, x: int, i: nat, j: nat)
    requires Increasing(a) && j <= i < |a| && x == a[j]
    ensures ScanX(a, x, i) == Bin(j, j)
    decreases i
  {
    if i != j {
      assert a[j] < a[i];
      assert j <= i - 1 ==> a[j] <= a[i - 1];
      ScanXExact(a, x, i - 1, j);
    }
  }

  /** On an increasing axis an input strictly inside (a[j-1], a[j]) yields
      the bin (j-1, j). */
  lemma {:induction false} ScanXInside(a: seq<int>, x: int, i: nat, j: nat)
    requires Increasing(a) && 0 < j <= i < |a| && a[j - 1] < x < a[j]
    ensures ScanX(a, x, i) == Bin(j - 1, j)
    decreases i
  {
    if i != j {
      assert a[j] < a[i];
      assert a[j] <= a[i - 1];
      ScanXInside(a, x, i - 1, j);
    }
  }

  /** On a decreasing axis an exact hit on entry `j` yields (j, j). */
  lemma {:induction false} ScanYExact(a: seq<int>, y: int, i: nat, j: nat)
    requires Decreasing(a) && j <= i < |a| && y == a[j]
    ensures ScanY(a, y, i) == Bin(j, j)
    decreases i
  {
    if i != j {
      assert a[j] > a[i];
      assert j <= i - 1 ==> a[j] >= a[i - 1];
      ScanYExact(a, y, i - 1, j);
    }
  }

  /** On a decreasing axis an input strictly inside (a[j], a[j-1]) yields
      the bin (j-1, j). */
  lemma {:induction false} ScanYInside(a: seq<int>, y: int, i: nat, j: nat)
    requires Decreasing(a) && 0 < j <= i < |a| && a[j] < y < a[j - 1]
    ensures ScanY(a, y, i) == Bin(j - 1, j)
    decreases i
  {
    if i != j {
      assert a[j] > a[i];
      assert a[j] >= a[i - 1];
      ScanYInside(a, y, i - 1, j);
    }
  }

  /** The X full scan as the source writes it: a loop from the top index
      down that stops at the first match.  It computes `ScanX` and runs at
      most one iteration per axis entry. */
  method FullScanX(a: seq<int>, x: int) returns (b: Bin, steps: nat)
    requires |a| > 0
    ensures b == ScanX(a, x, |a| - 1)
    ensures 1 <= steps <= |a|
  {
    var i := |a| - 1;
    var found := false;
    b := Bin(0, 0);
    steps := 0;
    while !found
      invariant 0 <= i < |a|
      invariant !found ==> ScanX(a, x, i) == ScanX(a, x, |a| - 1)
      invariant found ==> b == ScanX(a, x, |a| - 1)
      invariant steps == |a| - 1 - i + (if found then 1 else 0)
      decreases if found then 0 else i + 1
    {
      steps := steps + 1;
      if x == a[i] || i == 0 {
        b := Bin(i, i);
        found := true;
      } else if x <= a[i] && x > a[i - 1] {
        b := Bin(i - 1, i);
        found := true;
      } else {
        i := i - 1;
      }
    }
  }

  /** The Y full scan loop; it computes `ScanY` within one iteration per entry. */
  method FullScanY(a: seq<int>, y: int) returns (b: Bin, steps: nat)
    requires |a| > 0
    ensures b == ScanY(a, y, |a| - 1)
    ensures 1 <= steps <= |a|
  {
    var i := |a| - 1;
    var found := false;
    b := Bin(0, 0);
    steps := 0;
    while !found
      invariant 0 <= i < |a|
      invariant !found ==> ScanY(a, y, i) == ScanY(a, y, |a| - 1)
      invariant found ==> b == ScanY(a, y, |a| - 1)
      invariant steps == |a| - 1 - i + (if found then 1 else 0)
      decreases if found then 0 else i + 1
    {
      steps := steps + 1;
      if y == a[i] || i == 0 {
        b := Bin(i, i);
        found := true;
      } else if y >= a[i] && y < a[i - 1] {
        b := Bin(i - 1, i);
        found := true;
      } else {
        i := i - 1;
      }
    }
  }

  // ------------------------------------------------------------- the tiers

  /** The X locator: same bin, next bin, previous bin, then the full scan.
      Every tier tests the half-open range (a[lo], a[hi]], so a tier never
      yields a degenerate bin but may yield one whose upper end equals `x`.
      The result is the new cached bin. */
  function LocateX(a: seq<int>, x: int, last: Bin): (b: Bin)
    requires ValidBin(last, |a|)
    ensures ValidBin(b, |a|)
    ensures !Degenerate(b) ==> a[b.lo] < x
    ensures a[0] <= x <= a[|a| - 1] ==> a[b.lo] <= x <= a[b.hi] && (Degenerate(b) ==> x == a[b.lo])
  {
    if x <= a[last.hi] && x > a[last.lo] then last
    else if last.hi + 1 < |a| && x <= a[last.hi + 1] && x > a[last.lo + 1] then Bin(last.lo + 1, last.hi + 1)
    else if last.lo > 0 && x <= a[last.hi - 1] && x > a[last.lo - 1] then Bin(last.lo - 1, last.hi - 1)
    else ScanX(a, x, |a| - 1)
  }

  /** The Y locator.  Its tiers do not agree on which end is closed: the
      same-bin tier tests [a[hi], a[lo]) while the neighbour tiers test
      (a[hi], a[lo]], so a tier result may have `y` at either end. */
  function LocateY(a: seq<int>, y: int, last: Bin): (b: Bin)
    requires ValidBin(last, |a|)
    ensures ValidBin(b, |a|)
    ensures a[|a| - 1] <= y <= a[0] ==> a[b.hi] <= y <= a[b.lo] && (Degenerate(b) ==> y == a[b.lo])
  {
    if y >= a[last.hi] && y < a[last.lo] then last
    else if last.lo > 0 && y <= a[last.lo - 1] && y > a[last.hi - 1] then Bin(last.lo - 1, last.hi - 1)
    else if last.hi + 1 < |a| && y <= a[last.lo + 1] && y > a[last.hi + 1] then Bin(last.lo + 1, last.hi + 1)
    else ScanY(a, y, |a| - 1)
  }

  /** A degenerate cached X bin (the cold state (0, 0) included) never
      passes a tier, so the locator falls through to the full scan. */
  lemma DegenerateCacheScansX(a: seq<int>, x: int, last: Bin)
    requires ValidBin(last, |a|) && Degenerate(last)
    ensures LocateX(a, x, last) == ScanX(a, x, |a| - 1)
  {
  }

  /** The same for a degenerate cached Y bin. */
  lemma DegenerateCacheScansY(a: seq<int>, y: int, last: Bin)
    requires ValidBin(last, |a|) && Degenerate(last)
    ensures LocateY(a, y, last) == ScanY(a, y, |a| - 1)
  {
  }

  /** The X locator agrees with the cold full scan, except that a tier may
      return (k, k+1) for an input equal to `a[k+1]` where the scan returns
      the degenerate (k+1, k+1). */
  lemma LocateXVersusScan(a: seq<int>, x: int, last: Bin)
    requires Increasing(a) && ValidBin(last, |a|) && a[0] <= x <= a[|a| - 1]
    ensures var b := LocateX(a, x, last);
            var s := ScanX(a, x, |a| - 1);
            b == s || (!Degenerate(b) && x == a[b.hi] && s == Bin(b.hi, b.hi))
  {
    BracketXVersusScan(a, x, LocateX(a, x, last));
  }

  /** Which bin the scan finds, given any X bin that brackets `x` the way
      the locator's bins do: the same bin, unless it ends exactly at `x`,
      when the scan finds the degenerate bin there. */
  lemma {:induction false} BracketXVersusScan(a: seq<int>, x: int, b: Bin)
    requires Increasing(a) && ValidBin(b, |a|) && a[b.lo] <= x <= a[b.hi]
    requires Degenerate(b) ==> x == a[b.lo]
    requires !Degenerate(b) ==> a[b.lo] < x
    ensures Degenerate(b) ==> ScanX(a, x, |a| - 1) == b
    ensures !Degenerate(b) && x < a[b.hi] ==> ScanX(a, x, |a| - 1) == b
    ensures !Degenerate(b) && x == a[b.hi] ==> ScanX(a, x, |a| - 1) == Bin(b.hi, b.hi)
  {
    if Degenerate(b) {
      ScanXExact(a, x, |a| - 1, b.lo);
      assert ScanX(a, x, |a| - 1) == b;
    } else if x == a[b.hi] {
      ScanXExact(a, x, |a| - 1, b.hi);
    } else {
      assert b.lo == b.hi - 1;
      ScanXInside(a, x, |a| - 1, b.hi);
      assert ScanX(a, x, |a| - 1) == b;
    }
  }

  /** The Y locator agrees with the cold full scan, except that a tier may
      return a non-degenerate bin with `y` on one of its ends where the scan
      returns the degenerate bin at that end. */
  lemma LocateYVersusScan(a: seq<int>, y: int, last: Bin)
    requires Decreasing(a) && ValidBin(last, |a|) && a[|a| - 1] <= y <= a[0]
    ensures var b := LocateY(a, y, last);
            var s := ScanY(a, y, |a| - 1);
            || b == s
            || (!Degenerate(b) && y == a[b.hi] && s == Bin(b.hi, b.hi))
            || (!Degenerate(b) && y == a[b.lo] && s == Bin(b.lo, b.lo))
  {
    BracketYVersusScan(a, y, LocateY(a, y, last));
  }

  /** Which bin the scan finds, given any Y bin that brackets `y`: the
      same bin when `y` is strictly inside or the bin is degenerate, and
      otherwise the degenerate bin at the end `y` sits on. */
  lemma {:induction false} BracketYVersusScan(a: seq<int>, y: int, b: Bin)
    requires Decreasing(a) && ValidBin(b, |a|) && a[b.hi] <= y <= a[b.lo]
    requires Degenerate(b) ==> y == a[b.lo]
    ensures Degenerate(b) ==> ScanY(a, y, |a| - 1) == b
    ensures !Degenerate(b) && a[b.hi] < y < a[b.lo] ==> ScanY(a, y, |a| - 1) == b
    ensures !Degenerate(b) && y == a[b.hi] ==> ScanY(a, y, |a| - 1) == Bin(b.hi, b.hi)
    ensures !Degenerate(b) && y == a[b.lo] ==> ScanY(a, y, |a| - 1) == Bin(b.lo, b.lo)
  {
    if Degenerate(b) {
      ScanYExact(a, y, |a| - 1, b.lo);
      assert ScanY(a, y, |a| - 1) == b;
    } else if y == a[b.hi] {
      ScanYExact(a, y, |a| - 1, b.hi);
    } else if y == a[b.lo] {
      ScanYExact(a, y, |a| - 1, b.lo);
    } else {
      assert b.lo == b.hi - 1;
      ScanYInside(a, y, |a| - 1, b.hi);
      assert ScanY(a, y, |a| - 1) == b;
    }
  }
}
