/** The voxel segment index of the page script: a `res x res x res` grid of
    buckets over a box, each bucket listing the segments whose Bresenham line
    passes through the voxel, and the nearest points on the segments of the
    voxel that contains a query point. */
module SegmentIndex {
  import opened Wrappers
  import opened Geometry
  import opened Raster

  /** A coordinate mapped into grid units: `((v - lo) / (hi - lo)) * res`. */
  function GridCoord(v: real, lo: real, hi: real, res: nat): real
    requires lo != hi
  {
    ((v - lo) / (hi - lo)) * res as real
  }

  /** The grid point `g` lies in the unit cell of voxel `v`. */
  predicate CellHolds(v: Voxel, g: Vec3) {
    && v.x as real <= g.x < v.x as real + 1.0
    && v.y as real <= g.y < v.y as real + 1.0
    && v.z as real <= g.z < v.z as real + 1.0
  }

  function FloorVoxel(g: Vec3): Voxel {
    Voxel(g.x.Floor, g.y.Floor, g.z.Floor)
  }

  /** Cell `i`'s centre along one axis: `(i + 0.5) * (hi - lo) / res + lo`. */
  function AxisCenter(i: int, lo: real, hi: real, res: nat): real
    requires res > 0
  {
    (i as real + 0.5) * (hi - lo) / res as real + lo
  }

  // ---------------------------------------------------------------------------
  // Nearest point on a segment

  /** `a + t*(b - a)`, coordinate by coordinate. */
  function PointAt(s: Segment, t: real): Vec3 {
    Vec3(s.a.x + t * (s.b.x - s.a.x), s.a.y + t * (s.b.y - s.a.y), s.a.z + t * (s.b.z - s.a.z))
  }

  /** `Math.max(0, Math.min(1, x))`. */
  function Clamp01(x: real): (r: real)
    ensures 0.0 <= r <= 1.0
    ensures 0.0 <= x <= 1.0 ==> r == x
  {
    var m := if 1.0 < x then 1.0 else x;
    if 0.0 > m then 0.0 else m
  }

  function Dist2(p: Vec3, q: Vec3): real {
    Dot(Sub(p, q), Sub(p, q))
  }

  /** `t = clamp(paba / baba)`. */
  function ClosestParameter(s: Segment, p: Vec3): real
    requires Dot(Sub(s.b, s.a), Sub(s.b, s.a)) != 0.0
  {
    Clamp01(Dot(Sub(p, s.a), Sub(s.b, s.a)) / Dot(Sub(s.b, s.a), Sub(s.b, s.a)))
  }

  /** `closestPointOnSegmentToPoint`. A segment whose end points coincide
      gives `baba = 0` (see `Degenerate`), so `paba / baba` and the returned
      point are NaN; that is `None` here. */
  function ClosestPoint(s: Segment, p: Vec3): (r: Option<Vec3>)
    ensures r.None? <==> s.a == s.b
    ensures r.Some? ==> exists c :: 0.0 <= c <= 1.0 && r.value == PointAt(s, c)
  {
    if s.a == s.b then None
    else
      Degenerate(s);
      var c := ClosestParameter(s, p);
      assert 0.0 <= c <= 1.0;
      Some(PointAt(s, c))
  }

  // Real arithmetic used below

  /** `a * b` with `a` and `b` equal is a square. The equality is given as two
      bounds and the factors keep two names, so that the solver keeps the
      product as a term instead of turning its sign into a sign of `a`. */
  lemma {:induction false} SquareAbove(a: real, b: real)
    requires a <= b <= a
    ensures 0.0 <= a * b
    ensures a != 0.0 ==> 0.0 < a * b
  {
    if a < 0.0 {
      ProductNegative(a, b);
    } else if a > 0.0 {
      ProductPositive(a, b);
    }
  }

  /** A vector's squared length is never negative, and it is positive unless
      the vector is zero. */
  lemma {:induction false} DotSelfPositive(v: Vec3)
    ensures v != Vec3(0.0, 0.0, 0.0) ==> Dot(v, v) > 0.0
    ensures Dot(v, v) >= 0.0
  {
    DotAbove(v, v);
    assert v == Vec3(v.x, v.y, v.z);
  }

  /** `DotSelfPositive` with the two copies of the vector kept apart, for the
      reason given at `SquareAbove`. */
  lemma {:induction false} DotAbove(v: Vec3, w: Vec3)
    requires v.x <= w.x <= v.x && v.y <= w.y <= v.y && v.z <= w.z <= v.z
    ensures v.x != 0.0 || v.y != 0.0 || v.z != 0.0 ==> Dot(v, w) > 0.0
    ensures Dot(v, w) >= 0.0
  {
    var xx, yy, zz := v.x * w.x, v.y * w.y, v.z * w.z;
    SquareAbove(v.x, w.x);
    SquareAbove(v.y, w.y);
    SquareAbove(v.z, w.z);
    assert Dot(v, w) == xx + yy + zz;
  }

  /** A vector has zero squared length only when it is the zero vector. */
  lemma {:induction false} DotSelfZero(v: Vec3)
    ensures Dot(v, v) == 0.0 <==> v == Vec3(0.0, 0.0, 0.0)
  {
    DotSelfPositive(v);
  }

  /** `baba` is zero exactly for a segment whose end points coincide. */
  lemma {:induction false} Degenerate(s: Segment)
    ensures Dot(Sub(s.b, s.a), Sub(s.b, s.a)) == 0.0 <==> s.a == s.b
  {
    DotSelfZero(Sub(s.b, s.a));
    SubZero(s.b, s.a);
  }

  lemma {:induction false} SubZero(p: Vec3, q: Vec3)
    ensures Sub(p, q) == Vec3(0.0, 0.0, 0.0) <==> p == q
  {
  }

  lemma {:induction false} ProductNonNegative(a: real, b: real)
    requires a >= 0.0 && b >= 0.0
    ensures a * b >= 0.0
  {
  }

  /** One coordinate of `DistanceAlong`. */
  lemma {:induction false} SquareAlong(pa: real, ba: real, t: real)
    ensures (pa - t * ba) * (pa - t * ba) == pa * pa - 2.0 * t * (pa * ba) + t * t * (ba * ba)
  {
  }

  /** The squared distance to the point at parameter t, as a polynomial in t. */
  lemma {:induction false} DistanceAlong(s: Segment, p: Vec3, t: real)
    ensures var pa, ba := Sub(p, s.a), Sub(s.b, s.a);
      Dist2(p, PointAt(s, t)) == Dot(pa, pa) - 2.0 * t * Dot(pa, ba) + t * t * Dot(ba, ba)
  {
    var pa, ba := Sub(p, s.a), Sub(s.b, s.a);
    var d := Sub(p, PointAt(s, t));
    assert d == Vec3(pa.x - t * ba.x, pa.y - t * ba.y, pa.z - t * ba.z);
    SquareAlong(pa.x, ba.x, t);
    SquareAlong(pa.y, ba.y, t);
    SquareAlong(pa.z, ba.z, t);
    assert 2.0 * t * Dot(pa, ba) == 2.0 * t * (pa.x * ba.x) + 2.0 * t * (pa.y * ba.y) + 2.0 * t * (pa.z * ba.z);
    assert t * t * Dot(ba, ba) == t * t * (ba.x * ba.x) + t * t * (ba.y * ba.y) + t * t * (ba.z * ba.z);
  }

  /** The quadratic `pp - 2*t*pb + t*t*bb` with `bb > 0` is smallest over
      [0, 1] at the clamped `pb / bb`. */
  lemma {:induction false} ClampedMinimum(pp: real, pb: real, bb: real, t: real, c: real)
    requires bb > 0.0 && 0.0 <= t <= 1.0 && c == Clamp01(pb / bb)
    ensures pp - 2.0 * c * pb + c * c * bb <= pp - 2.0 * t * pb + t * t * bb
  {
    var x := pb / bb;
    assert x * bb == pb;
    if 0.0 <= x <= 1.0 {
      InteriorMinimum(pb, bb, t, x);
    } else if x < 0.0 {
      assert pb < 0.0 by {
        if pb >= 0.0 {
          ProductNonNegative(x, bb);
          assert false;
        }
      }
      ProductNonNegative(t, bb);
      ProductNonNegative(t, t * bb);
      assert t * t * bb == t * (t * bb);
    } else {
      assert pb > bb by {
        assert (x - 1.0) * bb > 0.0;
      }
      ProductNonNegative(1.0 - t, 2.0 * pb - (1.0 + t) * bb) by {
        ProductNonNegative(1.0 - t, bb);
      }
      assert (t * t - 1.0) * bb - 2.0 * (t - 1.0) * pb == (1.0 - t) * (2.0 * pb - (1.0 + t) * bb);
    }
  }

  lemma {:induction false} InteriorMinimum(pb: real, bb: real, t: real, x: real)
    requires bb > 0.0 && x * bb == pb
    ensures - 2.0 * x * pb + x * x * bb <= - 2.0 * t * pb + t * t * bb
  {
    SquareAbove(t - x, t - x);
    ProductNonNegative((t - x) * (t - x), bb);
    assert - 2.0 * t * pb + t * t * bb - (- 2.0 * x * pb + x * x * bb) == (t - x) * (t - x) * bb;
  }

  /** The returned point lies on the segment and no point of the segment is
      nearer to `p`. */
  lemma {:induction false} ClosestIsNearest(s: Segment, p: Vec3, t: real)
    requires s.a != s.b && 0.0 <= t <= 1.0
    ensures ClosestPoint(s, p).Some?
    ensures exists c :: 0.0 <= c <= 1.0 && ClosestPoint(s, p).value == PointAt(s, c)
    ensures Dist2(p, ClosestPoint(s, p).value) <= Dist2(p, PointAt(s, t))
  {
    var ba := Sub(s.b, s.a);
    Degenerate(s);
    DotSelfPositive(ba);
    NearestAlong(s, p, t);
  }

  /** The clamped parameter is the best one on [0, 1]. */
  lemma {:induction false} NearestAlong(s: Segment, p: Vec3, t: real)
    requires Dot(Sub(s.b, s.a), Sub(s.b, s.a)) > 0.0 && 0.0 <= t <= 1.0
    ensures Dist2(p, PointAt(s, ClosestParameter(s, p))) <= Dist2(p, PointAt(s, t))
  {
    var pa, ba := Sub(p, s.a), Sub(s.b, s.a);
    var pp, pb, bb := Dot(pa, pa), Dot(pa, ba), Dot(ba, ba);
    var c := ClosestParameter(s, p);
    DistanceAlong(s, p, t);
    DistanceAlong(s, p, c);
    ClampedMinimum(pp, pb, bb, t, c);
  }

  // ---------------------------------------------------------------------------
  // The grid

  class SegmentAccelerator {
    const voxelResolution: nat
    const boxMin: Vec3
    const boxMax: Vec3
    const voxels: array3<seq<Segment>>

    /** One bucket per voxel of the `res^3` grid. */
    predicate Valid() {
      voxels.Length0 == voxelResolution && voxels.Length1 == voxelResolution && voxels.Length2 == voxelResolution
    }

    /** The box has extent along every axis, so points can be mapped into
        grid units. */
    predicate Proper() {
      boxMin.x != boxMax.x && boxMin.y != boxMax.y && boxMin.z != boxMax.z
    }

    predicate InGrid(v: Voxel) {
      0 <= v.x < voxelResolution && 0 <= v.y < voxelResolution && 0 <= v.z < voxelResolution
    }

    function ToGrid(p: Vec3): Vec3
      requires Proper()
    {
      Vec3(GridCoord(p.x, boxMin.x, boxMax.x, voxelResolution),
           GridCoord(p.y, boxMin.y, boxMax.y, voxelResolution),
           GridCoord(p.z, boxMin.z, boxMax.z, voxelResolution))
    }

    /** The voxel whose cell holds `p`. */
    function VoxelIndexOf(p: Vec3): Voxel
      requires Proper()
    {
      FloorVoxel(ToGrid(p))
    }

    /** The voxels `addSegment` rasterises a segment to, in or out of the grid. */
    function Rasterised(s: Segment): seq<Voxel>
      requires Proper()
    {
      Line(VoxelIndexOf(s.a), VoxelIndexOf(s.b))
    }

    /** An empty bucket for every voxel. */
    constructor(voxelResolution: nat, boxMin: Vec3, boxMax: Vec3)
      ensures Valid()
      ensures this.voxelResolution == voxelResolution && this.boxMin == boxMin && this.boxMax == boxMax
      ensures fresh(voxels)
      ensures forall i, j, k :: 0 <= i < voxelResolution && 0 <= j < voxelResolution && 0 <= k < voxelResolution ==>
        voxels[i, j, k] == []
    {
      this.voxelResolution := voxelResolution;
      this.boxMin := boxMin;
      this.boxMax := boxMax;
      voxels := new seq<Segment>[voxelResolution, voxelResolution, voxelResolution]((i, j, k) => []);
    }

    /** `addSegment`: the segment is appended once to the bucket of every
        rasterised voxel inside the grid; voxels outside are skipped and every
        other bucket is left as it was. */
    method AddSegment(segment: Segment)
      requires Valid() && Proper()
      modifies voxels
      ensures forall i, j, k :: 0 <= i < voxelResolution && 0 <= j < voxelResolution && 0 <= k < voxelResolution ==>
        voxels[i, j, k] == old(voxels[i, j, k]) + (if Voxel(i, j, k) in Rasterised(segment) then [segment] else [])
    {
      var x1 := GridCoord(segment.a.x, boxMin.x, boxMax.x, voxelResolution);
      var y1 := GridCoord(segment.a.y, boxMin.y, boxMax.y, voxelResolution);
      var z1 := GridCoord(segment.a.z, boxMin.z, boxMax.z, voxelResolution);
      var x2 := GridCoord(segment.b.x, boxMin.x, boxMax.x, voxelResolution);
      var y2 := GridCoord(segment.b.y, boxMin.y, boxMax.y, voxelResolution);
      var z2 := GridCoord(segment.b.z, boxMin.z, boxMax.z, voxelResolution);
      var points := Bresenham3D(x1, y1, z1, x2, y2, z2);
      assert points == Rasterised(segment);
      forall i, j | 0 <= i < j < |points|
        ensures points[i] != points[j]
      {
        LineDistinct(VoxelIndexOf(segment.a), VoxelIndexOf(segment.b), i, j);
      }
      PushAll(points, segment);
    }

    /** The loop of `addSegment`: each voxel of `points` that lies in the grid
        gets the segment appended to its bucket; the voxels are distinct, so
        no bucket receives it twice. */
    method PushAll(points: seq<Voxel>, segment: Segment)
      requires Valid()
      requires forall i, j :: 0 <= i < j < |points| ==> points[i] != points[j]
      modifies voxels
      ensures forall i, j, k :: 0 <= i < voxelResolution && 0 <= j < voxelResolution && 0 <= k < voxelResolution ==>
        voxels[i, j, k] == old(voxels[i, j, k]) + (if Voxel(i, j, k) in points then [segment] else [])
    {
      for n := 0 to |points|
        invariant forall a, b, c :: 0 <= a < voxelResolution && 0 <= b < voxelResolution && 0 <= c < voxelResolution ==>
          voxels[a, b, c] == old(voxels[a, b, c]) + (if Voxel(a, b, c) in points[..n] then [segment] else [])
      {
        var p := points[n];
        assert points[..n + 1] == points[..n] + [p];
        if p.x < 0 || p.x >= voxelResolution { continue; }
        if p.y < 0 || p.y >= voxelResolution { continue; }
        if p.z < 0 || p.z >= voxelResolution { continue; }
        assert p !in points[..n];
        Push(p, segment);
      }
      assert points[..|points|] == points;
    }

    /** `this.voxels[x][y][z].push(segment)` for one voxel of the grid. */
    method Push(v: Voxel, segment: Segment)
      requires Valid() && InGrid(v)
      modifies voxels
      ensures forall i, j, k :: 0 <= i < voxelResolution && 0 <= j < voxelResolution && 0 <= k < voxelResolution ==>
        voxels[i, j, k] == old(voxels[i, j, k]) + (if Voxel(i, j, k) == v then [segment] else [])
    {
      voxels[v.x, v.y, v.z] := voxels[v.x, v.y, v.z] + [segment];
    }

    /** `getVoxelAtPoint`: the bucket of the voxel whose cell holds the point.
        There is no bounds check, so the point must lie in the grid. */
    function VoxelAtPoint(x: real, y: real, z: real): (r: seq<Segment>)
      requires Valid() && Proper() && InGrid(VoxelIndexOf(Vec3(x, y, z)))
      reads voxels
      ensures forall w :: CellHolds(w, ToGrid(Vec3(x, y, z))) ==> InGrid(w) && r == voxels[w.x, w.y, w.z]
    {
      var v := VoxelIndexOf(Vec3(x, y, z));
      voxels[v.x, v.y, v.z]
    }

    /** `getVoxelCenter`: the centre of the voxel's cell, per axis. Mapped
        back into grid units it lies in the voxel's own cell, and the centre
        of a grid voxel lies strictly inside the box. */
    function VoxelCenter(v: Voxel): (c: Vec3)
      requires voxelResolution > 0
      ensures Proper() ==> VoxelIndexOf(c) == v
      ensures InGrid(v) && boxMin.x < boxMax.x && boxMin.y < boxMax.y && boxMin.z < boxMax.z ==>
        && boxMin.x < c.x < boxMax.x && boxMin.y < c.y < boxMax.y && boxMin.z < c.z < boxMax.z
    {
      var c := Vec3(AxisCenter(v.x, boxMin.x, boxMax.x, voxelResolution),
                    AxisCenter(v.y, boxMin.y, boxMax.y, voxelResolution),
                    AxisCenter(v.z, boxMin.z, boxMax.z, voxelResolution));
      assert Proper() ==> VoxelIndexOf(c) == v by {
        if Proper() {
          CenterAxisBack(v.x, boxMin.x, boxMax.x, voxelResolution);
          CenterAxisBack(v.y, boxMin.y, boxMax.y, voxelResolution);
          CenterAxisBack(v.z, boxMin.z, boxMax.z, voxelResolution);
        }
      }
      assert InGrid(v) && boxMin.x < boxMax.x && boxMin.y < boxMax.y && boxMin.z < boxMax.z ==>
        && boxMin.x < c.x < boxMax.x && boxMin.y < c.y < boxMax.y && boxMin.z < c.z < boxMax.z
      by {
        if InGrid(v) && boxMin.x < boxMax.x && boxMin.y < boxMax.y && boxMin.z < boxMax.z {
          CenterAxisInside(v.x, boxMin.x, boxMax.x, voxelResolution);
          CenterAxisInside(v.y, boxMin.y, boxMax.y, voxelResolution);
          CenterAxisInside(v.z, boxMin.z, boxMax.z, voxelResolution);
        }
      }
      c
    }

    /** `getClosestPointsOnSegmentsToPoint`: one nearest point per segment of
        the bucket holding the point, in bucket order; neighbouring voxels
        are not searched. */
    method GetClosestPointsOnSegmentsToPoint(point: Vec3) returns (points: seq<Option<Vec3>>)
      requires Valid() && Proper() && InGrid(VoxelIndexOf(point))
      ensures var bucket := VoxelAtPoint(point.x, point.y, point.z);
        |points| == |bucket| && forall i :: 0 <= i < |points| ==> points[i] == ClosestPoint(bucket[i], point)
    {
      points := [];
      var segments := VoxelAtPoint(point.x, point.y, point.z);
      if |segments| > 0 {
        points := ClosestPoints(segments, point);
      }
    }
  }

  /** The nearest point on each segment, in order. */
  function ClosestAll(segments: seq<Segment>, point: Vec3): (r: seq<Option<Vec3>>)
    ensures |r| == |segments|
    ensures forall i :: 0 <= i < |r| ==> r[i] == ClosestPoint(segments[i], point)
  {
    if segments == [] then []
    else ClosestAll(segments[..|segments| - 1], point) + [ClosestPoint(segments[|segments| - 1], point)]
  }

  /** The loop of `getClosestPointsOnSegmentsToPoint`. */
  method ClosestPoints(segments: seq<Segment>, point: Vec3) returns (points: seq<Option<Vec3>>)
    ensures points == ClosestAll(segments, point)
  {
    points := [];
    for i := 0 to |segments|
      invariant points == ClosestAll(segments[..i], point)
    {
      assert segments[..i + 1][..i] == segments[..i];
      points := points + [ClosestPoint(segments[i], point)];
    }
    assert segments[..|segments|] == segments;
  }

  /** One axis of the centre of a grid voxel lying inside the box. */
  lemma {:induction false} CenterAxisInside(i: int, lo: real, hi: real, res: nat)
    requires 0 <= i < res && lo < hi
    ensures lo < AxisCenter(i, lo, hi, res) < hi
  {
    var k, d, n := i as real + 0.5, hi - lo, res as real;
    var q := k * d / n;
    DivMul(k * d, n);
    assert q * n == k * d;
    ProductPositive(k, d);
    ProductPositive(n - k, d);
    assert n * d - k * d == (n - k) * d;
    assert 0.0 < q < d;
  }

  /** One axis of the centre of a voxel mapping back to the voxel. */
  lemma {:induction false} CenterAxisBack(i: int, lo: real, hi: real, res: nat)
    requires lo != hi && res > 0
    ensures GridCoord(AxisCenter(i, lo, hi, res), lo, hi, res).Floor == i
  {
    var k, d, n := i as real + 0.5, hi - lo, res as real;
    var q := k * d / n;
    DivMul(k * d, n);
    var c := AxisCenter(i, lo, hi, res);
    assert c - lo == q;
    var r := q / d;
    DivMul(q, d);
    assert (r * n) * d == k * d by {
      assert (r * n) * d == (r * d) * n;
    }
    Cancel(r * n, k, d);
    assert GridCoord(c, lo, hi, res) == r * n;
  }

  lemma {:induction false} DivMul(x: real, y: real)
    requires y != 0.0
    ensures (x / y) * y == x
  {
  }

  lemma {:induction false} Cancel(a: real, b: real, d: real)
    requires d != 0.0 && a * d == b * d
    ensures a == b
  {
    assert (a - b) * d == 0.0;
  }

  lemma {:induction false} ProductPositive(a: real, b: real)
    requires a > 0.0 && b > 0.0
    ensures a * b > 0.0
  {
  }

  lemma {:induction false} ProductNegative(a: real, b: real)
    requires a < 0.0 && b < 0.0
    ensures a * b > 0.0
  {
  }
}
