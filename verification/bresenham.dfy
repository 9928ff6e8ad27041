/** The integer 3-D Bresenham line of the segment accelerator: the voxels
    from one floored end point to the other, one step of the driving axis at
    a time, the two other axes following by error terms. */
module Raster {

  datatype Voxel = Voxel(x: int, y: int, z: int)

  function Abs(a: int): nat {
    if a < 0 then -a else a
  }

  /** `xs`, `ys`, `zs`: +1 towards a larger end, otherwise -1. */
  function Step(from: int, to: int): int {
    if to > from then 1 else -1
  }

  /** `n` units from `from` in the direction of `Step(from, to)`. */
  function Toward(from: int, to: int, n: int): int {
    if to > from then from + n else from - n
  }

  /** The axis with the largest extent; ties go to x, then y. */
  datatype Axis = AlongX | AlongY | AlongZ

  function DrivingAxis(dx: nat, dy: nat, dz: nat): Axis {
    if dx >= dy && dx >= dz then AlongX
    else if dy >= dx && dy >= dz then AlongY
    else AlongZ
  }

  /** A voxel in the frame of an axis: the driving coordinate first, then the
      coordinate steered by `p1`, then the one steered by `p2`. Each frame is
      a swap of two coordinates, so it is its own inverse. */
  function Reframe(a: Axis, v: Voxel): Voxel {
    match a
    case AlongX => v
    case AlongY => Voxel(v.y, v.x, v.z)
    case AlongZ => Voxel(v.z, v.y, v.x)
  }

  function AxisOf(s: Voxel, e: Voxel): Axis {
    DrivingAxis(Abs(e.x - s.x), Abs(e.y - s.y), Abs(e.z - s.z))
  }

  /** How far a minor coordinate has moved after `i` driving steps: `i*dv/du`
      rounded to the nearest integer, halves rounding up. */
  function Minor(dv: int, du: int, i: int): int {
    if du == 0 then 0 else (2 * dv * i + du) / (2 * du)
  }

  /** Point `i` of the line in the frame where `s` and `e` are given. */
  function FramePoint(s: Voxel, e: Voxel, i: int): Voxel {
    var du: int, dv: int, dw: int := Abs(e.x - s.x), Abs(e.y - s.y), Abs(e.z - s.z);
    Voxel(Toward(s.x, e.x, i), Toward(s.y, e.y, Minor(dv, du, i)), Toward(s.z, e.z, Minor(dw, du, i)))
  }

  /** The voxels of the line from `s` to `e`: `max(dx, dy, dz) + 1` of them,
      from the start voxel to the end voxel. */
  function Line(s: Voxel, e: Voxel): (r: seq<Voxel>)
    ensures |r| == Max3(Abs(e.x - s.x), Abs(e.y - s.y), Abs(e.z - s.z)) + 1
    ensures r[0] == s && r[|r| - 1] == e
  {
    var a := AxisOf(s, e);
    var fs, fe := Reframe(a, s), Reframe(a, e);
    FrameExtents(s, e);
    FrameEnds(fs, fe);
    assert Reframe(a, fs) == s && Reframe(a, fe) == e;
    seq(Abs(fe.x - fs.x) + 1, i => Reframe(a, FramePoint(fs, fe, i)))
  }

  function Max3(a: nat, b: nat, c: nat): nat {
    if a >= b && a >= c then a else if b >= c then b else c
  }

  /** Two voxels one step apart: no coordinate differs by more than one. */
  predicate Adjacent(p: Voxel, q: Voxel) {
    Abs(q.x - p.x) <= 1 && Abs(q.y - p.y) <= 1 && Abs(q.z - p.z) <= 1
  }

  // ---------------------------------------------------------------------------
  // Arithmetic of the error terms

  lemma {:induction false} MulLe(d: int, a: int, b: int)
    requires 0 <= d && a <= b
    ensures d * a <= d * b
  {
    var k := b - a;
    assert d * b == d * a + d * k;
    assert 0 <= d * k;
  }

  lemma {:induction false} DivUnique(n: int, d: int, q: int)
    requires d > 0 && d * q <= n < d * (q + 1)
    ensures n / d == q
  {
    var q', r' := n / d, n % d;
    assert n == d * q' + r' && 0 <= r' < d;
    assert d * (q' + 1) == d * q' + d;
    if q' > q {
      MulLe(d, q + 1, q');
    } else if q' < q {
      MulLe(d, q' + 1, q);
    }
  }

  /** No minor step before the first driving step, and all of them by the
      last. */
  lemma {:induction false} MinorEnds(dv: int, du: int)
    requires 0 <= dv && 0 <= du
    ensures Minor(dv, du, 0) == 0
    ensures du > 0 ==> Minor(dv, du, du) == dv
  {
    if du > 0 {
      assert 2 * dv * 0 + du == du;
      DivUnique(du, 2 * du, 0);
      assert 2 * dv * du + du == 2 * du * dv + du;
      assert 2 * du * (dv + 1) == 2 * du * dv + 2 * du;
      DivUnique(2 * dv * du + du, 2 * du, dv);
    }
  }

  /** The error term of a minor axis after `i` driving steps. */
  function Err(dv: int, du: int, i: int): int {
    2 * dv * (i + 1) - du - 2 * du * Minor(dv, du, i)
  }

  lemma {:induction false} Distrib(a: int, b: int)
    ensures a * (b + 1) == a * b + a
  {
  }

  /** Adding `c <= d` to `n` raises `n / d` by one exactly when it carries
      the remainder past `d`. */
  lemma {:induction false} DivStep(n: int, d: int, c: int)
    requires d > 0 && 0 <= c <= d
    ensures (n + c) / d == n / d + (if n % d + c >= d then 1 else 0)
  {
    var q, r := n / d, n % d;
    assert n == d * q + r && 0 <= r < d;
    Distrib(d, q);
    Distrib(d, q + 1);
    if r + c >= d {
      DivUnique(n + c, d, q + 1);
    } else {
      DivUnique(n + c, d, q);
    }
  }

  /** One driving step moves a minor coordinate exactly when its error term
      is non-negative; the error term then drops by `2*du`, and it always
      grows by `2*dv`. */
  lemma {:induction false} MinorNext(dv: int, du: int, i: int)
    requires 0 <= dv <= du && 0 < du
    ensures Minor(dv, du, i + 1) == Minor(dv, du, i) + (if Err(dv, du, i) >= 0 then 1 else 0)
    ensures Err(dv, du, i + 1) == (if Err(dv, du, i) >= 0 then Err(dv, du, i) - 2 * du else Err(dv, du, i)) + 2 * dv
  {
    var n := 2 * dv * i + du;
    var q, r := n / (2 * du), n % (2 * du);
    assert n == 2 * du * q + r;
    Distrib(2 * dv, i);
    Distrib(2 * dv, i + 1);
    DivStep(n, 2 * du, 2 * dv);
    assert Minor(dv, du, i) == q;
    assert Err(dv, du, i) == r + 2 * dv - 2 * du;
    Distrib(2 * du, q);
  }

  /** A minor coordinate moves by nought or one unit per driving step. */
  lemma {:induction false} MinorSteps(dv: int, du: int, i: int)
    requires 0 <= dv <= du && 0 < du
    ensures 0 <= Minor(dv, du, i + 1) - Minor(dv, du, i) <= 1
  {
    MinorNext(dv, du, i);
  }

  // ---------------------------------------------------------------------------
  // Properties of the line

  /** In the frame of the driving axis the other two extents are no larger. */
  lemma {:induction false} FrameExtents(s: Voxel, e: Voxel)
    ensures var a := AxisOf(s, e);
      var fs, fe := Reframe(a, s), Reframe(a, e);
      && Abs(fe.x - fs.x) == Max3(Abs(e.x - s.x), Abs(e.y - s.y), Abs(e.z - s.z))
      && Abs(fe.y - fs.y) <= Abs(fe.x - fs.x) && Abs(fe.z - fs.z) <= Abs(fe.x - fs.x)
  {
    match AxisOf(s, e)
    case AlongX =>
    case AlongY =>
    case AlongZ =>
  }

  /** In a frame whose first extent is the largest, the walk starts at `fs`
      and ends at `fe`. */
  lemma {:induction false} FrameEnds(fs: Voxel, fe: Voxel)
    requires Abs(fe.y - fs.y) <= Abs(fe.x - fs.x) && Abs(fe.z - fs.z) <= Abs(fe.x - fs.x)
    ensures FramePoint(fs, fe, 0) == fs
    ensures FramePoint(fs, fe, Abs(fe.x - fs.x)) == fe
  {
    var du: int, dv: int, dw: int := Abs(fe.x - fs.x), Abs(fe.y - fs.y), Abs(fe.z - fs.z);
    MinorEnds(dv, du);
    MinorEnds(dw, du);
    if du == 0 {
      assert fe == fs;
    }
  }

  /** One step in a frame whose first extent is the largest: the first
      coordinate moves one unit towards the end and the other two follow their
      error terms. */
  lemma {:induction false} FrameStep(fs: Voxel, fe: Voxel, i: int)
    requires Abs(fe.y - fs.y) <= Abs(fe.x - fs.x) && Abs(fe.z - fs.z) <= Abs(fe.x - fs.x)
    requires 0 <= i < Abs(fe.x - fs.x)
    ensures var du: int, dv: int, dw: int := Abs(fe.x - fs.x), Abs(fe.y - fs.y), Abs(fe.z - fs.z);
      var p := FramePoint(fs, fe, i);
      && FramePoint(fs, fe, i + 1)
           == Voxel(p.x + Step(fs.x, fe.x),
                    p.y + (if Err(dv, du, i) >= 0 then Step(fs.y, fe.y) else 0),
                    p.z + (if Err(dw, du, i) >= 0 then Step(fs.z, fe.z) else 0))
      && Err(dv, du, i + 1) == (if Err(dv, du, i) >= 0 then Err(dv, du, i) - 2 * du else Err(dv, du, i)) + 2 * dv
      && Err(dw, du, i + 1) == (if Err(dw, du, i) >= 0 then Err(dw, du, i) - 2 * du else Err(dw, du, i)) + 2 * dw
  {
    var du: int, dv: int, dw: int := Abs(fe.x - fs.x), Abs(fe.y - fs.y), Abs(fe.z - fs.z);
    MinorNext(dv, du, i);
    MinorNext(dw, du, i);
  }

  /** The walk reaches the end of the driving axis after exactly `du` steps. */
  lemma {:induction false} FrameArrives(fs: Voxel, fe: Voxel, i: int)
    requires 0 <= i <= Abs(fe.x - fs.x)
    ensures FramePoint(fs, fe, i).x == fe.x <==> i == Abs(fe.x - fs.x)
  {
  }

  /** Each step moves the driving coordinate by exactly one unit towards the
      end, and the other two by at most one unit. */
  lemma {:induction false} LineSteps(s: Voxel, e: Voxel, i: int)
    requires 0 <= i < |Line(s, e)| - 1
    ensures Adjacent(Line(s, e)[i], Line(s, e)[i + 1])
    ensures var a := AxisOf(s, e);
      Reframe(a, Line(s, e)[i + 1]).x - Reframe(a, Line(s, e)[i]).x
        == Step(Reframe(a, s).x, Reframe(a, e).x)
  {
    var a := AxisOf(s, e);
    var fs, fe := Reframe(a, s), Reframe(a, e);
    FrameExtents(s, e);
    var p, q := FramePoint(fs, fe, i), FramePoint(fs, fe, i + 1);
    FrameAdjacent(fs, fe, i);
    ReframeBack(a, p);
    ReframeBack(a, q);
    assert Line(s, e)[i] == Reframe(a, p) && Line(s, e)[i + 1] == Reframe(a, q);
  }

  /** Successive points of a frame walk are adjacent, one driving unit apart. */
  lemma {:induction false} FrameAdjacent(fs: Voxel, fe: Voxel, i: int)
    requires Abs(fe.y - fs.y) <= Abs(fe.x - fs.x) && Abs(fe.z - fs.z) <= Abs(fe.x - fs.x)
    requires 0 <= i < Abs(fe.x - fs.x)
    ensures Adjacent(FramePoint(fs, fe, i), FramePoint(fs, fe, i + 1))
    ensures FramePoint(fs, fe, i + 1).x - FramePoint(fs, fe, i).x == Step(fs.x, fe.x)
  {
    FrameStep(fs, fe, i);
  }

  /** Mapping back out of a frame keeps adjacency and undoes the frame. */
  lemma {:induction false} ReframeBack(a: Axis, p: Voxel)
    ensures Reframe(a, Reframe(a, p)) == p
    ensures forall q :: Adjacent(Reframe(a, p), Reframe(a, q)) <==> Adjacent(p, q)
  {
  }

  /** No voxel is listed twice: the driving coordinate changes at every step. */
  lemma {:induction false} LineDistinct(s: Voxel, e: Voxel, i: int, j: int)
    requires 0 <= i < j < |Line(s, e)|
    ensures Line(s, e)[i] != Line(s, e)[j]
  {
    var a := AxisOf(s, e);
    var fs, fe := Reframe(a, s), Reframe(a, e);
    var p, q := FramePoint(fs, fe, i), FramePoint(fs, fe, j);
    assert p.x != q.x;
    assert Reframe(a, Reframe(a, p)) == p && Reframe(a, Reframe(a, q)) == q;
  }

  // ---------------------------------------------------------------------------
  // The loops

  /** `Bresenham3D`: floor both end points, then walk along the driving axis. */
  method Bresenham3D(x1: real, y1: real, z1: real, x2: real, y2: real, z2: real)
    returns (listOfPoints: seq<Voxel>)
    ensures listOfPoints == Line(Voxel(x1.Floor, y1.Floor, z1.Floor), Voxel(x2.Floor, y2.Floor, z2.Floor))
  {
    var s := Voxel(x1.Floor, y1.Floor, z1.Floor);
    var e := Voxel(x2.Floor, y2.Floor, z2.Floor);
    var dx, dy, dz := Abs(e.x - s.x), Abs(e.y - s.y), Abs(e.z - s.z);
    if dx >= dy && dx >= dz {
      listOfPoints := Walk(AlongX, s, e);
    } else if dy >= dx && dy >= dz {
      listOfPoints := Walk(AlongY, s, e);
    } else {
      listOfPoints := Walk(AlongZ, s, e);
    }
  }

  /** One driving axis: the walk in the frame of the axis, mapped back. */
  method Walk(a: Axis, s: Voxel, e: Voxel) returns (points: seq<Voxel>)
    requires a == AxisOf(s, e)
    ensures points == Line(s, e)
  {
    FrameExtents(s, e);
    points := WalkFrame(a, Reframe(a, s), Reframe(a, e));
    WalkedIsLine(s, e);
  }

  /** The loop state after `i` driving steps: the current voxel and both
      error terms. */
  predicate WalkState(fs: Voxel, fe: Voxel, i: int, u: int, v: int, w: int, p1: int, p2: int) {
    var du: int, dv: int, dw: int := Abs(fe.x - fs.x), Abs(fe.y - fs.y), Abs(fe.z - fs.z);
    Voxel(u, v, w) == FramePoint(fs, fe, i) && p1 == Err(dv, du, i) && p2 == Err(dw, du, i)
  }

  /** The loop state before the first step. */
  lemma {:induction false} WalkStart(fs: Voxel, fe: Voxel)
    requires Abs(fe.y - fs.y) <= Abs(fe.x - fs.x) && Abs(fe.z - fs.z) <= Abs(fe.x - fs.x)
    ensures var du: int, dv: int, dw: int := Abs(fe.x - fs.x), Abs(fe.y - fs.y), Abs(fe.z - fs.z);
      WalkState(fs, fe, 0, fs.x, fs.y, fs.z, 2 * dv - du, 2 * dw - du)
  {
    var du: int, dv: int, dw: int := Abs(fe.x - fs.x), Abs(fe.y - fs.y), Abs(fe.z - fs.z);
    FrameEnds(fs, fe);
    MinorEnds(dv, du);
    MinorEnds(dw, du);
    assert Err(dv, du, 0) == 2 * dv - du;
    assert Err(dw, du, 0) == 2 * dw - du;
  }

  /** One iteration of the loop body keeps the loop state. */
  lemma {:induction false} WalkStep(fs: Voxel, fe: Voxel, i: int, u: int, v: int, w: int, p1: int, p2: int,
                                    u': int, v': int, w': int, p1': int, p2': int)
    requires Abs(fe.y - fs.y) <= Abs(fe.x - fs.x) && Abs(fe.z - fs.z) <= Abs(fe.x - fs.x)
    requires 0 <= i < Abs(fe.x - fs.x)
    requires WalkState(fs, fe, i, u, v, w, p1, p2)
    requires var du: int, dv: int, dw: int := Abs(fe.x - fs.x), Abs(fe.y - fs.y), Abs(fe.z - fs.z);
      && u' == u + Step(fs.x, fe.x)
      && v' == (if p1 >= 0 then v + Step(fs.y, fe.y) else v)
      && w' == (if p2 >= 0 then w + Step(fs.z, fe.z) else w)
      && p1' == (if p1 >= 0 then p1 - 2 * du else p1) + 2 * dv
      && p2' == (if p2 >= 0 then p2 - 2 * du else p2) + 2 * dw
    ensures WalkState(fs, fe, i + 1, u', v', w', p1', p2')
  {
    FrameStep(fs, fe, i);
  }

  /** The loop of one driving axis, with the error terms `p1` and `p2`. The
      coordinates are kept in the frame of the axis and every point pushed is
      mapped back, so `[x1, y1, z1]` is pushed in every branch. */
  method WalkFrame(a: Axis, fs: Voxel, fe: Voxel) returns (points: seq<Voxel>)
    requires Abs(fe.y - fs.y) <= Abs(fe.x - fs.x) && Abs(fe.z - fs.z) <= Abs(fe.x - fs.x)
    ensures points == Walked(a, fs, fe, Abs(fe.x - fs.x) + 1)
  {
    var u, v, w := fs.x, fs.y, fs.z;
    var du: int, dv: int, dw: int := Abs(fe.x - u), Abs(fe.y - v), Abs(fe.z - w);
    var us, vs, ws := Step(u, fe.x), Step(v, fe.y), Step(w, fe.z);
    WalkStart(fs, fe);
    points := [Reframe(a, Voxel(u, v, w))];
    var p1: int := 2 * dv - du;
    var p2: int := 2 * dw - du;
    ghost var i := 0;
    while u != fe.x
      invariant 0 <= i <= du
      invariant WalkState(fs, fe, i, u, v, w, p1, p2)
      invariant points == Walked(a, fs, fe, i + 1)
      decreases du - i
    {
      FrameArrives(fs, fe, i);
      ghost var u0, v0, w0, p10, p20 := u, v, w, p1, p2;
      u := u + us;
      if p1 >= 0 {
        v := v + vs;
        p1 := p1 - 2 * du;
      }
      if p2 >= 0 {
        w := w + ws;
        p2 := p2 - 2 * du;
      }
      p1 := p1 + 2 * dv;
      p2 := p2 + 2 * dw;
      WalkStep(fs, fe, i, u0, v0, w0, p10, p20, u, v, w, p1, p2);
      i := i + 1;
      points := points + [Reframe(a, Voxel(u, v, w))];
    }
    FrameArrives(fs, fe, i);
  }

  /** The first `n` points of the frame walk, mapped back. */
  function Walked(a: Axis, fs: Voxel, fe: Voxel, n: nat): seq<Voxel> {
    if n == 0 then [] else Walked(a, fs, fe, n - 1) + [Reframe(a, FramePoint(fs, fe, n - 1))]
  }

  lemma {:induction false} WalkedAt(a: Axis, fs: Voxel, fe: Voxel, n: nat)
    ensures |Walked(a, fs, fe, n)| == n
    ensures forall k :: 0 <= k < n ==> Walked(a, fs, fe, n)[k] == Reframe(a, FramePoint(fs, fe, k))
  {
    if n > 0 {
      WalkedAt(a, fs, fe, n - 1);
    }
  }

  /** The whole frame walk, mapped back, is the line. */
  lemma {:induction false} WalkedIsLine(s: Voxel, e: Voxel)
    ensures var a := AxisOf(s, e);
      var fs, fe := Reframe(a, s), Reframe(a, e);
      Walked(a, fs, fe, Abs(fe.x - fs.x) + 1) == Line(s, e)
  {
    var a := AxisOf(s, e);
    var fs, fe := Reframe(a, s), Reframe(a, e);
    WalkedAt(a, fs, fe, Abs(fe.x - fs.x) + 1);
  }
}
