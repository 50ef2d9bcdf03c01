/** World coordinates and the planar distance model (types/poi.ts, utils/game.ts).

    Dafny has no square root, so the distance is never computed here: a
    distance function is passed in, and `IsBlockMetric` pins it down to the
    one function the source computes, the non-negative square root of
    dx*dx + dz*dz. */
module Geometry {

  /** A point in the game's native coordinate space; y is the vertical axis. */
  datatype Point = Point(x: int, y: int, z: int)

  /** The sign flip of z used to place game points on the map. */
  function ToLeaflet(p: Point): (r: Point)
    ensures r.x == p.x && r.y == p.y && r.z == -p.z
    ensures r == p <==> p.z == 0
  {
    Point(p.x, p.y, -p.z)
  }

  /** The squared planar distance: the radicand of calculateBlockDistance. */
  function BlockDistanceSq(a: Point, b: Point): nat
  {
    var dx := a.x - b.x;
    var dz := a.z - b.z;
    dx * dx + dz * dz
  }

  /** `d` is the value calculateBlockDistance returns for `a` and `b`. */
  ghost predicate IsBlockDistance(d: real, a: Point, b: Point)
  {
    d >= 0.0 && d * d == BlockDistanceSq(a, b) as real
  }

  /** `f` is calculateBlockDistance (and so calculateDistance on locations). */
  ghost predicate IsBlockMetric(f: (Point, Point) -> real)
  {
    forall a: Point, b: Point :: IsBlockDistance(f(a, b), a, b)
  }

  /** The weaker fact the search needs: no distance is negative. */
  ghost predicate NonNegativeMetric(f: (Point, Point) -> real)
  {
    forall a: Point, b: Point :: f(a, b) >= 0.0
  }

  /** Converting twice gives back the original point. */
  lemma ToLeafletInvolution(p: Point)
    ensures ToLeaflet(ToLeaflet(p)) == p
  {
  }

  /** Two non-negative square roots of the same number are equal, so
      IsBlockDistance determines a single value. */
  lemma BlockDistanceUnique(d1: real, d2: real, a: Point, b: Point)
    requires IsBlockDistance(d1, a, b) && IsBlockDistance(d2, a, b)
    ensures d1 == d2
  {
    if d1 < d2 {
      SquareGrows(d1, d2);
    } else if d2 < d1 {
      SquareGrows(d2, d1);
    }
  }

  lemma NonNegativeProduct(p: real, q: real)
    requires p >= 0.0 && q >= 0.0
    ensures p * q >= 0.0
  {
  }

  /** Squaring is strictly increasing on the non-negative reals. */
  lemma SquareGrows(lo: real, hi: real)
    requires 0.0 <= lo < hi
    ensures lo * lo < hi * hi
  {
    PositiveProduct(hi - lo, hi + lo);
    assert (hi - lo) * (hi + lo) == hi * hi - lo * lo;
  }

  lemma MetricIsNonNegative(f: (Point, Point) -> real)
    requires IsBlockMetric(f)
    ensures NonNegativeMetric(f)
  {
    forall a: Point, b: Point
      ensures f(a, b) >= 0.0
    {
      assert IsBlockDistance(f(a, b), a, b);
    }
  }

  /** calculateBlockDistance(a, b) == calculateBlockDistance(b, a). */
  lemma BlockDistanceSymmetric(f: (Point, Point) -> real, a: Point, b: Point)
    requires IsBlockMetric(f)
    ensures f(a, b) == f(b, a)
  {
    assert IsBlockDistance(f(a, b), a, b);
    assert IsBlockDistance(f(b, a), b, a);
    assert BlockDistanceSq(a, b) == BlockDistanceSq(b, a);
    BlockDistanceUnique(f(a, b), f(b, a), a, b);
  }

  /** The vertical coordinate of either point does not affect the distance. */
  lemma BlockDistanceIgnoresY(f: (Point, Point) -> real, a: Point, b: Point, ya: int, yb: int)
    requires IsBlockMetric(f)
    ensures f(a.(y := ya), b.(y := yb)) == f(a, b)
  {
    var a', b' := a.(y := ya), b.(y := yb);
    assert IsBlockDistance(f(a', b'), a', b');
    assert IsBlockDistance(f(a, b), a, b);
    assert BlockDistanceSq(a', b') == BlockDistanceSq(a, b);
    BlockDistanceUnique(f(a', b'), f(a, b), a, b);
  }

  /** The distance is never negative, and it is zero exactly when the two
      points share x and z. */
  lemma BlockDistanceZeroIff(f: (Point, Point) -> real, a: Point, b: Point)
    requires IsBlockMetric(f)
    ensures f(a, b) >= 0.0
    ensures f(a, b) == 0.0 <==> a.x == b.x && a.z == b.z
  {
    assert IsBlockDistance(f(a, b), a, b);
    var dx, dz := a.x - b.x, a.z - b.z;
    if a.x == b.x && a.z == b.z {
      assert BlockDistanceSq(a, b) == 0;
      assert IsBlockDistance(0.0, a, b);
      BlockDistanceUnique(f(a, b), 0.0, a, b);
    } else {
      assert dx * dx > 0 || dz * dz > 0;
      assert BlockDistanceSq(a, b) > 0;
    }
  }

  /** Flipping z on both points keeps the distance. */
  lemma BlockDistanceLeafletInvariant(f: (Point, Point) -> real, a: Point, b: Point)
    requires IsBlockMetric(f)
    ensures f(ToLeaflet(a), ToLeaflet(b)) == f(a, b)
  {
    var a', b' := ToLeaflet(a), ToLeaflet(b);
    assert IsBlockDistance(f(a', b'), a', b');
    assert IsBlockDistance(f(a, b), a, b);
    assert (-a.z) - (-b.z) == -(a.z - b.z);
    assert BlockDistanceSq(a', b') == BlockDistanceSq(a, b);
    BlockDistanceUnique(f(a', b'), f(a, b), a, b);
  }

  lemma PositiveProduct(p: real, q: real)
    requires p > 0.0 && q > 0.0
    ensures p * q > 0.0
  {
  }

  /** The range test `distance <= max` decided without a square root: it
      holds exactly when max is non-negative and dx*dx + dz*dz <= max*max. */
  lemma WithinRangeIff(f: (Point, Point) -> real, a: Point, b: Point, max: real)
    requires IsBlockMetric(f)
    ensures f(a, b) <= max <==> max >= 0.0 && BlockDistanceSq(a, b) as real <= max * max
  {
    var d := f(a, b);
    assert IsBlockDistance(d, a, b);
    if d <= max {
      assert (max - d) * (max + d) == max * max - d * d;
      assert (max - d) * (max + d) >= 0.0;
    }
    if max >= 0.0 && BlockDistanceSq(a, b) as real <= max * max && d > max {
      assert (d - max) * (d + max) == d * d - max * max;
      PositiveProduct(d - max, d + max);
    }
  }
}
