/** The TypeScript wrapper around the wasm Voronoi container (voro3d.ts):
    the defaulting of the container bounds, the marshalling of the input
    points, the element-by-element copy of every exported cell and the final
    sort by particle id. The container's own cell computation is a parameter. */
module Voro3D {
  import opened Wrappers

  /** A cell as the wrapper hands it out. */
  datatype Cell = Cell(
    particleID: int,
    x: real, y: real, z: real,
    nFaces: int,
    vertices: seq<real>,   // three floats per vertex
    faces: seq<seq<int>>,  // polygons as indices of vertices
    neighbors: seq<int>)   // one particle id per face

  /** A cell as the wasm container exports it (vectors read with size()/get()). */
  datatype CellExport = CellExport(
    particleID: int,
    x: real, y: real, z: real,
    nFaces: int,
    vertices: seq<real>,
    faces: seq<seq<int>>,
    neighbors: seq<int>)

  /** The container's box and block counts. */
  datatype Container = Container(
    xMin: real, xMax: real, yMin: real, yMax: real, zMin: real, zMax: real,
    nX: real, nY: real, nZ: real)

  // ---------------------------------------------------------------------------
  // Constructor defaulting

  /** JavaScript's `v || d` on a number: a missing argument and an explicit 0
      are both falsy and give the default (NaN, also falsy, is not a real). */
  function OrDefault(v: Option<real>, d: real): (r: real)
    ensures r == d <==> v.None? || v.value == 0.0 || v.value == d
    ensures r != d ==> v == Some(r)
  {
    if v.Some? && v.value != 0.0 then v.value else d
  }

  /** The constructor's container: -10 for a minimum, 10 for a maximum and 1
      for a block count whenever the argument is missing or zero. */
  function NewContainer(xMin: Option<real>, xMax: Option<real>, yMin: Option<real>,
                        yMax: Option<real>, zMin: Option<real>, zMax: Option<real>,
                        nX: Option<real>, nY: Option<real>, nZ: Option<real>): (c: Container)
    ensures c.xMin != 0.0 && c.xMax != 0.0 && c.yMin != 0.0 && c.yMax != 0.0
    ensures c.zMin != 0.0 && c.zMax != 0.0 && c.nX != 0.0 && c.nY != 0.0 && c.nZ != 0.0
    ensures c.xMin == (if xMin.Some? && xMin.value != 0.0 then xMin.value else -10.0)
    ensures c.xMax == (if xMax.Some? && xMax.value != 0.0 then xMax.value else 10.0)
    ensures c.yMin == (if yMin.Some? && yMin.value != 0.0 then yMin.value else -10.0)
    ensures c.yMax == (if yMax.Some? && yMax.value != 0.0 then yMax.value else 10.0)
    ensures c.zMin == (if zMin.Some? && zMin.value != 0.0 then zMin.value else -10.0)
    ensures c.zMax == (if zMax.Some? && zMax.value != 0.0 then zMax.value else 10.0)
    ensures c.nX == (if nX.Some? && nX.value != 0.0 then nX.value else 1.0)
    ensures c.nY == (if nY.Some? && nY.value != 0.0 then nY.value else 1.0)
    ensures c.nZ == (if nZ.Some? && nZ.value != 0.0 then nZ.value else 1.0)
  {
    Container(OrDefault(xMin, -10.0), OrDefault(xMax, 10.0),
              OrDefault(yMin, -10.0), OrDefault(yMax, 10.0),
              OrDefault(zMin, -10.0), OrDefault(zMax, 10.0),
              OrDefault(nX, 1.0), OrDefault(nY, 1.0), OrDefault(nZ, 1.0))
  }

  /** An explicit zero bound is not kept: asking for the box [0,1]^3 yields a
      container whose minimum corner is (-10,-10,-10). */
  lemma {:induction false} ZeroMinimumIsReplaced()
    ensures var c := NewContainer(Some(0.0), Some(1.0), Some(0.0), Some(1.0), Some(0.0), Some(1.0),
                                  Some(1.0), Some(1.0), Some(1.0));
            c.xMin == -10.0 && c.yMin == -10.0 && c.zMin == -10.0 && c.xMax == 1.0
  {
  }

  /** What the defaulting evidently means to do: replace only a missing
      argument (`v ?? d`), keeping an explicit zero. */
  function NullishDefault(v: Option<real>, d: real): (r: real)
    ensures v.Some? ==> r == v.value
    ensures v.None? ==> r == d
  {
    match v
    case Some(x) => x
    case None => d
  }

  /** The constructor's container with `??` in place of `||`. */
  function NewContainerNullish(xMin: Option<real>, xMax: Option<real>, yMin: Option<real>,
                               yMax: Option<real>, zMin: Option<real>, zMax: Option<real>,
                               nX: Option<real>, nY: Option<real>, nZ: Option<real>): (c: Container)
    ensures c.xMin == (if xMin.Some? then xMin.value else -10.0)
    ensures c.xMax == (if xMax.Some? then xMax.value else 10.0)
    ensures c.yMin == (if yMin.Some? then yMin.value else -10.0)
    ensures c.yMax == (if yMax.Some? then yMax.value else 10.0)
    ensures c.zMin == (if zMin.Some? then zMin.value else -10.0)
    ensures c.zMax == (if zMax.Some? then zMax.value else 10.0)
    ensures c.nX == (if nX.Some? then nX.value else 1.0)
    ensures c.nY == (if nY.Some? then nY.value else 1.0)
    ensures c.nZ == (if nZ.Some? then nZ.value else 1.0)
  {
    Container(NullishDefault(xMin, -10.0), NullishDefault(xMax, 10.0),
              NullishDefault(yMin, -10.0), NullishDefault(yMax, 10.0),
              NullishDefault(zMin, -10.0), NullishDefault(zMax, 10.0),
              NullishDefault(nX, 1.0), NullishDefault(nY, 1.0), NullishDefault(nZ, 1.0))
  }

  /** With `??` the requested box [0,1]^3 is the container's box. */
  lemma {:induction false} NullishKeepsZeroMinimum()
    ensures var c := NewContainerNullish(Some(0.0), Some(1.0), Some(0.0), Some(1.0), Some(0.0), Some(1.0),
                                         None, None, None);
            c == Container(0.0, 1.0, 0.0, 1.0, 0.0, 1.0, 1.0, 1.0, 1.0)
  {
  }

  // ---------------------------------------------------------------------------
  // Point marshalling

  /** The two accepted input shapes: a flat list of numbers, or a list of
      points each holding (at least) x, y and z. */
  datatype PointInput = Flat(coords: seq<real>) | Nested(points: seq<seq<real>>)

  predicate IsEmpty(p: PointInput) {
    match p
    case Flat(cs) => |cs| == 0
    case Nested(ps) => |ps| == 0
  }

  /** Every nested point has an x, a y and a z to read. */
  predicate WellShaped(p: PointInput) {
    p.Nested? ==> forall i :: 0 <= i < |p.points| ==> |p.points[i]| >= 3
  }

  function NestedStorage(ps: seq<seq<real>>): seq<real>
    requires forall i :: 0 <= i < |ps| ==> |ps[i]| >= 3
  {
    if ps == [] then [] else
      var last := ps[|ps| - 1];
      NestedStorage(ps[..|ps| - 1]) + [last[0], last[1], last[2]]
  }

  /** The float vector handed to the container. */
  function PointStorage(p: PointInput): seq<real>
    requires WellShaped(p)
  {
    match p
    case Flat(cs) => cs
    case Nested(ps) => NestedStorage(ps)
  }

  /** Nested input is pushed as x, y, z of every point, in order; any further
      coordinates of a point are ignored. */
  lemma {:induction false} NestedStorageAt(ps: seq<seq<real>>, i: int, m: int)
    requires forall k :: 0 <= k < |ps| ==> |ps[k]| >= 3
    requires 0 <= i < |ps| && 0 <= m < 3
    ensures |NestedStorage(ps)| == 3 * |ps|
    ensures NestedStorage(ps)[3 * i + m] == ps[i][m]
  {
    var n := |ps| - 1;
    if i < n {
      NestedStorageAt(ps[..n], i, m);
    } else {
      NestedStorageLength(ps[..n]);
    }
  }

  lemma {:induction false} NestedStorageLength(ps: seq<seq<real>>)
    requires forall k :: 0 <= k < |ps| ==> |ps[k]| >= 3
    ensures |NestedStorage(ps)| == 3 * |ps|
  {
    if ps != [] {
      NestedStorageLength(ps[..|ps| - 1]);
    }
  }

  /** The push_back loops that fill the container's point vector. */
  method FillPointStorage(points: PointInput) returns (storage: seq<real>)
    requires WellShaped(points)
    ensures storage == PointStorage(points)
  {
    storage := [];
    match points
    case Flat(cs) =>
      for i := 0 to |cs|
        invariant storage == cs[..i]
      {
        storage := storage + [cs[i]];
      }
      assert cs[..|cs|] == cs;
    case Nested(ps) =>
      for i := 0 to |ps|
        invariant storage == NestedStorage(ps[..i])
      {
        assert ps[..i + 1][..i] == ps[..i];
        storage := storage + [ps[i][0]];
        storage := storage + [ps[i][1]];
        storage := storage + [ps[i][2]];
      }
      assert ps[..|ps|] == ps;
  }

  // ---------------------------------------------------------------------------
  // Cell conversion

  /** The wrapper's view of one exported cell: every field carried over. */
  function ToCell(ce: CellExport): Cell {
    Cell(ce.particleID, ce.x, ce.y, ce.z, ce.nFaces, ce.vertices, ce.faces, ce.neighbors)
  }

  /** Copies one exported cell into fresh arrays, element by element. */
  method CopyCell(ce: CellExport) returns (c: Cell)
    ensures c == ToCell(ce)
  {
    var vertices := new real[|ce.vertices|];
    for vi := 0 to |ce.vertices|
      invariant vertices[..vi] == ce.vertices[..vi]
    {
      vertices[vi] := ce.vertices[vi];
    }
    assert vertices[..] == ce.vertices;
    var vertexList := vertices[..];

    var faces := new seq<int>[|ce.faces|];
    for fi := 0 to |ce.faces|
      invariant faces[..fi] == ce.faces[..fi]
    {
      ghost var before := faces[..];
      var source := ce.faces[fi];
      var newFace := new int[|source|];
      for ci := 0 to |source|
        invariant newFace[..ci] == source[..ci]
        invariant faces[..] == before
      {
        newFace[ci] := source[ci];
      }
      assert newFace[..] == source;
      faces[fi] := newFace[..];
    }
    assert faces[..] == ce.faces;
    var faceList := faces[..];

    var neighbors := new int[|ce.neighbors|];
    for ni := 0 to |ce.neighbors|
      invariant neighbors[..ni] == ce.neighbors[..ni]
    {
      neighbors[ni] := ce.neighbors[ni];
    }

    assert neighbors[..] == ce.neighbors;
    c := Cell(ce.particleID, ce.x, ce.y, ce.z, ce.nFaces, vertexList, faceList, neighbors[..]);
  }

  // ---------------------------------------------------------------------------
  // Sorting by particle id

  predicate SortedById(cs: seq<Cell>) {
    forall i, j :: 0 <= i < j < |cs| ==> cs[i].particleID <= cs[j].particleID
  }

  function Insert(c: Cell, cs: seq<Cell>): (r: seq<Cell>)
    requires SortedById(cs)
    ensures SortedById(r)
    ensures multiset(r) == multiset(cs) + multiset{c}
    ensures |r| == |cs| + 1
    ensures r[0] == c || (cs != [] && r[0] == cs[0])
  {
    if cs == [] || c.particleID <= cs[0].particleID then
      [c] + cs
    else
      var rest := Insert(c, cs[1..]);
      assert cs == [cs[0]] + cs[1..];
      [cs[0]] + rest
  }

  /** The array sort with comparator `a.particleID < b.particleID ? -1 : 1`:
      ascending particle ids, a permutation of the input. */
  function SortById(cs: seq<Cell>): (r: seq<Cell>)
    ensures SortedById(r)
    ensures multiset(r) == multiset(cs)
  {
    if cs == [] then [] else
      assert cs == [cs[0]] + cs[1..];
      Insert(cs[0], SortById(cs[1..]))
  }

  /** The exported cells, converted one by one, in export order. */
  function ToCells(exports: seq<CellExport>): (r: seq<Cell>)
    ensures |r| == |exports|
    ensures forall i :: 0 <= i < |exports| ==> r[i] == ToCell(exports[i])
  {
    seq(|exports|, i requires 0 <= i < |exports| => ToCell(exports[i]))
  }

  /** computeCells: an empty input gives no cells and never reaches the
      container; otherwise one cell per exported cell, sorted by particle id. */
  method ComputeCells(points: PointInput, convertToWorld: bool,
                      container: (seq<real>, bool) -> seq<CellExport>)
    returns (cells: seq<Cell>)
    requires WellShaped(points)
    ensures IsEmpty(points) ==> cells == []
    ensures !IsEmpty(points) ==>
      var exported := container(PointStorage(points), convertToWorld);
      |cells| == |exported| && SortedById(cells) &&
      multiset(cells) == multiset(ToCells(exported))
  {
    if IsEmpty(points) {
      return [];
    }
    var storage := FillPointStorage(points);
    var exports := container(storage, convertToWorld);

    var converted: seq<Cell> := [];
    for ci := 0 to |exports|
      invariant converted == ToCells(exports[..ci])
    {
      var c := CopyCell(exports[ci]);
      converted := converted + [c];
    }
    assert exports[..|exports|] == exports;
    cells := SortById(converted);
    assert |multiset(cells)| == |multiset(converted)|;
  }
}
