/** Points, segments and the flat float buffers the lattice code fills.
    Coordinates are reals: float rounding is not modelled. */
module Geometry {

  datatype Vec3 = Vec3(x: real, y: real, z: real)

  /** A lattice strut (a "connection"): six floats, first endpoint then second. */
  datatype Segment = Segment(a: Vec3, b: Vec3)

  function Sub(p: Vec3, q: Vec3): Vec3 {
    Vec3(p.x - q.x, p.y - q.y, p.z - q.z)
  }

  function Dot(p: Vec3, q: Vec3): real {
    p.x * q.x + p.y * q.y + p.z * q.z
  }

  function Cross(p: Vec3, q: Vec3): Vec3 {
    Vec3(p.y * q.z - p.z * q.y, p.z * q.x - p.x * q.z, p.x * q.y - p.y * q.x)
  }

  /** `x + y + z`, the per-endpoint quantity the connection key is built from. */
  function CoordSum(p: Vec3): real {
    p.x + p.y + p.z
  }

  /** The three coordinates of every point, in order, as one flat buffer. */
  function Flatten(ps: seq<Vec3>): (r: seq<real>)
    ensures |r| == 3 * |ps|
  {
    if ps == [] then [] else
      var last := ps[|ps| - 1];
      Flatten(ps[..|ps| - 1]) + [last.x, last.y, last.z]
  }

  lemma {:induction false} FlattenAt(ps: seq<Vec3>, i: int)
    requires 0 <= i < |ps|
    ensures Flatten(ps)[3 * i] == ps[i].x
    ensures Flatten(ps)[3 * i + 1] == ps[i].y
    ensures Flatten(ps)[3 * i + 2] == ps[i].z
  {
    if i < |ps| - 1 {
      FlattenAt(ps[..|ps| - 1], i);
    }
  }

  lemma {:induction false} FlattenAppend(ps: seq<Vec3>, qs: seq<Vec3>)
    ensures Flatten(ps + qs) == Flatten(ps) + Flatten(qs)
    decreases |qs|
  {
    if qs == [] {
      assert ps + qs == ps;
    } else {
      var n := |qs| - 1;
      assert (ps + qs)[..|ps + qs| - 1] == ps + qs[..n];
      FlattenAppend(ps, qs[..n]);
    }
  }

  /** `n` copies of one vector's coordinates, as pushed for a flat-shaded face. */
  function Repeat(v: Vec3, n: nat): (r: seq<real>)
    ensures |r| == 3 * n
  {
    if n == 0 then [] else Repeat(v, n - 1) + [v.x, v.y, v.z]
  }

  function SegmentFloats(s: Segment): seq<real> {
    [s.a.x, s.a.y, s.a.z, s.b.x, s.b.y, s.b.z]
  }
}
