/** The fixed-point bilinear interpolator of `get3DTableValue`: the two
    per-axis fractions, the four truncated weights and the blend of the
    four corner cells, with the flat-region fast path. */
module Bilinear {
  import opened FixedPoint
  import opened AxisLocator

  /** The position of `x` in the X bin, in 1/256 units: the floor of
      256 * (x - a[lo]) / (a[hi] - a[lo]).  A degenerate bin is not divided:
      its offset (zero once the input is bracketed) is shifted instead. */
  function FractionX(a: seq<int>, x: int, b: Bin): (p: int)
    requires ValidBin(b, |a|) && a[b.lo] <= x <= a[b.hi]
    ensures 0 <= p <= ShiftPower
    ensures a[b.lo] == a[b.hi] ==> p == 0
    ensures a[b.lo] < a[b.hi] ==>
              p * (a[b.hi] - a[b.lo]) <= (x - a[b.lo]) * ShiftPower < (p + 1) * (a[b.hi] - a[b.lo])
    ensures x == a[b.lo] ==> p == 0
    ensures a[b.lo] < x == a[b.hi] ==> p == ShiftPower
  {
    var offset := x - a[b.lo];
    if a[b.hi] == a[b.lo] then offset * ShiftPower
    else
      var w := a[b.hi] - a[b.lo];
      DivBelowScale(offset * ShiftPower, w);
      (offset * ShiftPower) / w
  }

  /** The weight of the `yMax` row (the lower Y value), in 1/256 units.  The
      Y axis descends, so the offset is measured from `a[hi]` and the
      fraction is inverted: 256 minus the floor of
      256 * (y - a[hi]) / (a[lo] - a[hi]). */
  function FractionY(a: seq<int>, y: int, b: Bin): (q: int)
    requires ValidBin(b, |a|) && a[b.hi] <= y <= a[b.lo]
    ensures 0 <= q <= ShiftPower
    ensures a[b.lo] == a[b.hi] ==> q == 0
    ensures a[b.hi] < a[b.lo] ==>
              (ShiftPower - q) * (a[b.lo] - a[b.hi]) <= (y - a[b.hi]) * ShiftPower
                                                        < (ShiftPower - q + 1) * (a[b.lo] - a[b.hi])
    ensures a[b.hi] < y == a[b.lo] ==> q == 0
    ensures a[b.hi] == y < a[b.lo] ==> q == ShiftPower
  {
    if a[b.hi] == a[b.lo] then (y - a[b.lo]) * ShiftPower
    else
      var w := a[b.lo] - a[b.hi];
      DivBelowScale((y - a[b.hi]) * ShiftPower, w);
      ShiftPower - ((y - a[b.hi]) * ShiftPower) / w
  }

  /** An offset within a bin of width `w`, scaled by 256 and divided by `w`,
      lands in 0..256 and is the floor of the quotient. */
  lemma DivBelowScale(n: int, w: int)
    requires w > 0 && 0 <= n <= w * ShiftPower
    ensures 0 <= n / w <= ShiftPower
    ensures (n / w) * w <= n < (n / w + 1) * w
    ensures n == w * ShiftPower ==> n / w == ShiftPower
    ensures n == 0 ==> n / w == 0
  {
    DivFloor(n, w);
    var d := n / w;
    if d > ShiftPower {
      MulMono(ShiftPower + 1, d, w);
    }
    if n == w * ShiftPower {
      DivUnique(n, w, ShiftPower);
    }
    if n == 0 {
      DivUnique(n, w, 0);
    }
  }

  /** Division by a positive width is the floor of the quotient. */
  lemma DivFloor(n: int, w: int)
    requires w > 0
    ensures (n / w) * w <= n < (n / w + 1) * w
  {
    var d := n / w;
    assert n == d * w + n % w;
    assert (d + 1) * w == d * w + w;
  }

  /** The floor of a quotient is the only `d` with d*w <= n < (d+1)*w. */
  lemma DivUnique(n: int, w: int, d: int)
    requires w > 0 && d * w <= n < (d + 1) * w
    ensures n / w == d
  {
    DivFloor(n, w);
    var e := n / w;
    if e < d {
      MulMono(e + 1, d, w);
    } else if e > d {
      MulMono(d + 1, e, w);
    }
  }

  /** The four weights: `m` for corner A = (yMin, xMin), `n` for B =
      (yMin, xMax), `o` for C = (yMax, xMin) and `r` for D = (yMax, xMax). */
  datatype Weights = Weights(m: nat, n: nat, o: nat, r: nat)

  function Total(w: Weights): nat {
    w.m + w.n + w.o + w.r
  }

  /** The exact products always add up to 256 * 256. */
  lemma ProductsPartitionUnity(p: int, q: int)
    ensures (ShiftPower - p) * (ShiftPower - q) + p * (ShiftPower - q) + (ShiftPower - p) * q + p * q
            == ShiftPower * ShiftPower
  {
    assert (ShiftPower - p) * (ShiftPower - q) + p * (ShiftPower - q) == ShiftPower * (ShiftPower - q);
    assert (ShiftPower - p) * q + p * q == ShiftPower * q;
  }

  /** Each weight is the product of two fractions shifted right by 8 and so
      truncated on its own: together they lose nothing when 256 divides
      `p * q` (in particular when either fraction sits at 0 or 256) and
      exactly two units otherwise. */
  function BilinearWeights(p: int, q: int): (w: Weights)
    requires 0 <= p <= ShiftPower && 0 <= q <= ShiftPower
    ensures Total(w) == ShiftPower || Total(w) == ShiftPower - 2
    ensures Total(w) == ShiftPower <==> (p * q) % ShiftPower == 0
    ensures p == 0 || p == ShiftPower || q == 0 || q == ShiftPower ==> Total(w) == ShiftPower
    ensures p == 0 && q == 0 ==> w == Weights(ShiftPower, 0, 0, 0)
    ensures p == ShiftPower && q == 0 ==> w == Weights(0, ShiftPower, 0, 0)
    ensures p == 0 && q == ShiftPower ==> w == Weights(0, 0, ShiftPower, 0)
    ensures p == ShiftPower && q == ShiftPower ==> w == Weights(0, 0, 0, ShiftPower)
  {
    var ws := Weights(Weight(ShiftPower - p, ShiftPower - q), Weight(p, ShiftPower - q),
                      Weight(ShiftPower - p, q), Weight(p, q));
    TruncatedWeights(p, q, ws);
    ws
  }

  /** One weight: the product of two fractions, shifted right by 8. */
  function Weight(f: nat, g: nat): nat {
    Shr(f * g)
  }

  /** The facts behind `BilinearWeights`, about the weights it builds. */
  lemma TruncatedWeights(p: int, q: int, w: Weights)
    requires 0 <= p <= ShiftPower && 0 <= q <= ShiftPower
    requires w == Weights(Weight(ShiftPower - p, ShiftPower - q), Weight(p, ShiftPower - q),
                          Weight(ShiftPower - p, q), Weight(p, q))
    ensures Total(w) == ShiftPower || Total(w) == ShiftPower - 2
    ensures Total(w) == ShiftPower <==> (p * q) % ShiftPower == 0
    ensures p == 0 || p == ShiftPower || q == 0 || q == ShiftPower ==> Total(w) == ShiftPower
    ensures p == 0 && q == 0 ==> w == Weights(ShiftPower, 0, 0, 0)
    ensures p == ShiftPower && q == 0 ==> w == Weights(0, ShiftPower, 0, 0)
    ensures p == 0 && q == ShiftPower ==> w == Weights(0, 0, ShiftPower, 0)
    ensures p == ShiftPower && q == ShiftPower ==> w == Weights(0, 0, 0, ShiftPower)
  {
    WeightsLoseZeroOrTwo(p, q);
    EdgeWeightsExact(p, q);
  }

  /** With `s = p * q % 256` the four products leave remainders s, 256 - s,
      256 - s and s, so the truncated weights add up to 256 when s is 0
      and to 254 otherwise. */
  lemma WeightsLoseZeroOrTwo(p: int, q: int)
    requires 0 <= p <= ShiftPower && 0 <= q <= ShiftPower
    ensures var t := Weight(ShiftPower - p, ShiftPower - q) + Weight(p, ShiftPower - q)
                     + Weight(ShiftPower - p, q) + Weight(p, q);
            && ((p * q) % ShiftPower == 0 ==> t == ShiftPower)
            && ((p * q) % ShiftPower != 0 ==> t == ShiftPower - 2)
  {
    var k, s := (p * q) / ShiftPower, (p * q) % ShiftPower;
    assert p * q == ShiftPower * k + s;
    assert (ShiftPower - p) * (ShiftPower - q) == ShiftPower * (ShiftPower - p - q + k) + s;
    assert p * (ShiftPower - q) == ShiftPower * (p - k) - s;
    assert (ShiftPower - p) * q == ShiftPower * (q - k) - s;
    if s == 0 {
      assert Weight(ShiftPower - p, ShiftPower - q) == ShiftPower - p - q + k;
      assert Weight(p, ShiftPower - q) == p - k;
      assert Weight(ShiftPower - p, q) == q - k;
    } else {
      assert Weight(ShiftPower - p, ShiftPower - q) == ShiftPower - p - q + k;
      assert Weight(p, ShiftPower - q) == p - k - 1;
      assert Weight(ShiftPower - p, q) == q - k - 1;
    }
    assert Weight(p, q) == k;
  }

  /** When either fraction is 0 or 256 every product is a multiple of 256,
      so no weight is truncated. */
  lemma EdgeWeightsExact(p: int, q: int)
    requires 0 <= p <= ShiftPower && 0 <= q <= ShiftPower
    ensures p == 0 ==> Shr((ShiftPower - p) * (ShiftPower - q)) == ShiftPower - q && Shr(p * (ShiftPower - q)) == 0
                       && Shr((ShiftPower - p) * q) == q && Shr(p * q) == 0
    ensures p == ShiftPower ==> Shr((ShiftPower - p) * (ShiftPower - q)) == 0 && Shr(p * (ShiftPower - q)) == ShiftPower - q
                                && Shr((ShiftPower - p) * q) == 0 && Shr(p * q) == q
    ensures q == 0 ==> Shr((ShiftPower - p) * (ShiftPower - q)) == ShiftPower - p && Shr(p * (ShiftPower - q)) == p
                       && Shr((ShiftPower - p) * q) == 0 && Shr(p * q) == 0
    ensures q == ShiftPower ==> Shr((ShiftPower - p) * (ShiftPower - q)) == 0 && Shr(p * (ShiftPower - q)) == 0
                                && Shr((ShiftPower - p) * q) == ShiftPower - p && Shr(p * q) == p
  {
    ShrExact(ShiftPower - q);
    ShrExact(q);
    ShrExact(ShiftPower - p);
    ShrExact(p);
    ShrExact(0);
  }

  function Max4(a: int, b: int, c: int, d: int): int {
    var ab := if a < b then b else a;
    var cd := if c < d then d else c;
    if ab < cd then cd else ab
  }

  /** A weighted sum whose weights total at most 256 stays within 256 times
      the largest corner. */
  lemma WeightedSumBound(a: nat, b: nat, c: nat, d: nat, w: Weights)
    requires Total(w) <= ShiftPower
    ensures WeightedSum(a, b, c, d, w) <= Max4(a, b, c, d) * ShiftPower
  {
    var mx := Max4(a, b, c, d);
    MulMono(a, mx, w.m);
    MulMono(b, mx, w.n);
    MulMono(c, mx, w.o);
    MulMono(d, mx, w.r);
    assert mx * w.m + mx * w.n + mx * w.o + mx * w.r == mx * Total(w);
    MulMono(Total(w), ShiftPower, mx);
  }

  lemma MulMono(x: int, y: int, k: nat)
    requires x <= y
    ensures x * k <= y * k
  {
  }

  /** The weighted sum of the four corners before the final shift. */
  function WeightedSum(a: nat, b: nat, c: nat, d: nat, w: Weights): nat {
    a * w.m + b * w.n + c * w.o + d * w.r
  }

  /** The interpolated value of the corners A, B (upper row) and C, D (lower
      row) at fractions p (towards B, D) and q (towards C, D).  Four equal
      corners are returned as they are; otherwise the weighted sum is
      shifted right by 8, truncating.  The result never exceeds the largest
      corner, and at the four extreme fractions it is that corner. */
  function Blend(a: nat, b: nat, c: nat, d: nat, p: int, q: int): (v: nat)
    requires 0 <= p <= ShiftPower && 0 <= q <= ShiftPower
    ensures v <= Max4(a, b, c, d)
    ensures a == b == c == d ==> v == a
    ensures p == 0 && q == 0 ==> v == a
    ensures p == ShiftPower && q == 0 ==> v == b
    ensures p == 0 && q == ShiftPower ==> v == c
    ensures p == ShiftPower && q == ShiftPower ==> v == d
  {
    if a == b && a == c && a == d then a
    else
      var w := BilinearWeights(p, q);
      ShiftedSumBound(a, b, c, d, w);
      SingleCornerWeights(a, b, c, d);
      Shr(WeightedSum(a, b, c, d, w))
  }

  /** The exact bilinear interpolation, scaled by 256 * 256: each corner
      times the untruncated product of its two fractions. */
  function ExactBlend(a: nat, b: nat, c: nat, d: nat, p: int, q: int): int
    requires 0 <= p <= ShiftPower && 0 <= q <= ShiftPower
  {
    a * ((ShiftPower - p) * (ShiftPower - q)) + b * (p * (ShiftPower - q))
    + c * ((ShiftPower - p) * q) + d * (p * q)
  }

  /** Truncation only ever rounds down, and by less than one unit plus the
      corners' share of the four weights' remainders: 256 * 256 times the
      blended value lies at or below the exact interpolation, and within
      256 * 256 + 256 * (a + b + c + d) of it. */
  lemma BlendVersusExact(a: nat, b: nat, c: nat, d: nat, p: int, q: int)
    requires 0 <= p <= ShiftPower && 0 <= q <= ShiftPower
    ensures ShiftPower * ShiftPower * Blend(a, b, c, d, p, q) <= ExactBlend(a, b, c, d, p, q)
    ensures ExactBlend(a, b, c, d, p, q)
            < ShiftPower * ShiftPower * (Blend(a, b, c, d, p, q) + 1) + ShiftPower * (a + b + c + d)
  {
    var v := Blend(a, b, c, d, p, q);
    var mm, nn, oo, rr := (ShiftPower - p) * (ShiftPower - q), p * (ShiftPower - q), (ShiftPower - p) * q, p * q;
    ProductsPartitionUnity(p, q);
    if a == b && a == c && a == d {
      assert ExactBlend(a, b, c, d, p, q) == a * (mm + nn + oo + rr);
    } else {
      var w := BilinearWeights(p, q);
      assert w == Weights(Shr(mm), Shr(nn), Shr(oo), Shr(rr));
      ScaledFloor(a, mm);
      ScaledFloor(b, nn);
      ScaledFloor(c, oo);
      ScaledFloor(d, rr);
      var ws := WeightedSum(a, b, c, d, w);
      assert ShiftPower * ws <= ExactBlend(a, b, c, d, p, q) <= ShiftPower * ws + 255 * (a + b + c + d);
      assert v == Shr(ws);
    }
  }

  /** A corner times a product, against the corner times its shifted
      product. */
  lemma ScaledFloor(a: nat, x: nat)
    ensures ShiftPower * (a * Shr(x)) <= a * x <= ShiftPower * (a * Shr(x)) + 255 * a
  {
    var r := Shr(x);
    MulMono(ShiftPower * r, x, a);
    MulMono(x, ShiftPower * r + 255, a);
  }

  /** The shifted weighted sum never exceeds the largest corner. */
  lemma ShiftedSumBound(a: nat, b: nat, c: nat, d: nat, w: Weights)
    requires Total(w) <= ShiftPower
    ensures Shr(WeightedSum(a, b, c, d, w)) <= Max4(a, b, c, d)
  {
    WeightedSumBound(a, b, c, d, w);
  }

  /** A full weight on one corner selects that corner exactly. */
  lemma SingleCornerWeights(a: nat, b: nat, c: nat, d: nat)
    ensures Shr(WeightedSum(a, b, c, d, Weights(ShiftPower, 0, 0, 0))) == a
    ensures Shr(WeightedSum(a, b, c, d, Weights(0, ShiftPower, 0, 0))) == b
    ensures Shr(WeightedSum(a, b, c, d, Weights(0, 0, ShiftPower, 0))) == c
    ensures Shr(WeightedSum(a, b, c, d, Weights(0, 0, 0, ShiftPower))) == d
  {
    ShrExact(a);
    ShrExact(b);
    ShrExact(c);
    ShrExact(d);
  }

  /** With p = 256 the left column carries no weight, so the blend equals
      the blend of the right column alone at p = 0. */
  lemma BlendRightEdge(a: nat, b: nat, c: nat, d: nat, q: int)
    requires 0 <= q <= ShiftPower
    ensures Blend(a, b, c, d, ShiftPower, q) == Blend(b, b, d, d, 0, q)
  {
    ProductsPartitionUnity(ShiftPower, q);
    ShrExact(ShiftPower - q);
    ShrExact(q);
    ShrExact(b);
    assert BilinearWeights(ShiftPower, q) == Weights(0, ShiftPower - q, 0, q);
    assert BilinearWeights(0, q) == Weights(ShiftPower - q, 0, q, 0);
    if b == d {
      assert b * (ShiftPower - q) + d * q == b * ShiftPower;
    }
  }

  /** With q = 256 the upper row carries no weight, so the blend equals the
      blend of the lower row alone at q = 0. */
  lemma BlendLowerEdge(a: nat, b: nat, c: nat, d: nat, p: int)
    requires 0 <= p <= ShiftPower
    ensures Blend(a, b, c, d, p, ShiftPower) == Blend(c, d, c, d, p, 0)
  {
    ProductsPartitionUnity(p, ShiftPower);
    ShrExact(ShiftPower - p);
    ShrExact(p);
    ShrExact(c);
    assert BilinearWeights(p, ShiftPower) == Weights(0, 0, ShiftPower - p, p);
    assert BilinearWeights(p, 0) == Weights(ShiftPower - p, p, 0, 0);
    if c == d {
      assert c * (ShiftPower - p) + d * p == c * ShiftPower;
    }
  }

  /** With q = 0 the lower row carries no weight, so the blend equals the
      blend of the upper row alone. */
  lemma BlendUpperEdge(a: nat, b: nat, c: nat, d: nat, p: int)
    requires 0 <= p <= ShiftPower
    ensures Blend(a, b, c, d, p, 0) == Blend(a, b, a, b, p, 0)
  {
    ProductsPartitionUnity(p, 0);
    ShrExact(ShiftPower - p);
    ShrExact(p);
    ShrExact(a);
    assert BilinearWeights(p, 0) == Weights(ShiftPower - p, p, 0, 0);
    if a == b {
      assert a * (ShiftPower - p) + b * p == a * ShiftPower;
    }
  }
}
