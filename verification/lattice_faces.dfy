/** The face pass of the lattice worker (createVoronoiLattice, modes -1 and 0):
    every Voronoi face is keyed by the pair of particles it separates, and a
    face whose key was already seen is skipped, so a face shared by two cells
    is triangulated once. New faces are appended to flat vertex and normal
    buffers and emitted as a triangle fan. */
module LatticeFaces {
  import opened Geometry
  import opened Voro3D

  // ---------------------------------------------------------------------------
  // Cells as the decomposition engine delivers them

  predicate ValidVertexIndex(c: Cell, v: int) {
    0 <= v && 3 * v + 2 < |c.vertices|
  }

  /** A polygon of at least three corners, each naming a vertex of the cell. */
  predicate ValidFace(c: Cell, f: seq<int>) {
    |f| >= 3 && forall k :: 0 <= k < |f| ==> ValidVertexIndex(c, f[k])
  }

  /** One neighbour per face, `nFaces` faces, every face a valid polygon. */
  predicate WellFormedCell(c: Cell) {
    && c.nFaces == |c.faces| == |c.neighbors|
    && forall j :: 0 <= j < |c.faces| ==> ValidFace(c, c.faces[j])
  }

  predicate WellFormedCells(cells: seq<Cell>) {
    forall i :: 0 <= i < |cells| ==> WellFormedCell(cells[i])
  }

  function Corner(c: Cell, v: int): Vec3
    requires ValidVertexIndex(c, v)
  {
    Vec3(c.vertices[3 * v], c.vertices[3 * v + 1], c.vertices[3 * v + 2])
  }

  function Corners(c: Cell, f: seq<int>): (r: seq<Vec3>)
    requires forall k :: 0 <= k < |f| ==> ValidVertexIndex(c, f[k])
    ensures |r| == |f|
  {
    seq(|f|, k requires 0 <= k < |f| => Corner(c, f[k]))
  }

  // ---------------------------------------------------------------------------
  // Face keys

  /** The string `max + "-" + min` of the two particle ids, as a pair. */
  datatype FaceKey = FaceKey(hi: int, lo: int)

  function FaceKeyOf(particle: int, neighbor: int): (k: FaceKey)
    ensures k.lo <= k.hi
    ensures (k.hi == particle && k.lo == neighbor) || (k.hi == neighbor && k.lo == particle)
  {
    FaceKey(if particle >= neighbor then particle else neighbor,
            if particle >= neighbor then neighbor else particle)
  }

  /** Both cells of a shared face compute the same key, and two faces share a
      key exactly when they separate the same pair of particles. */
  lemma {:induction false} FaceKeySymmetric(a: int, b: int, c: int, d: int)
    ensures FaceKeyOf(a, b) == FaceKeyOf(b, a)
    ensures FaceKeyOf(a, b) == FaceKeyOf(c, d) <==> (a == c && b == d) || (a == d && b == c)
  {
  }

  // ---------------------------------------------------------------------------
  // Resolved polygons, in the order the loops visit them

  datatype Polygon = Polygon(key: FaceKey, corners: seq<Vec3>)

  predicate IsPolygon(p: Polygon) {
    |p.corners| >= 3
  }

  predicate AllPolygons(ps: seq<Polygon>) {
    forall i :: 0 <= i < |ps| ==> IsPolygon(ps[i])
  }

  function CellPolygons(c: Cell): (r: seq<Polygon>)
    requires WellFormedCell(c)
    ensures |r| == |c.faces|
    ensures AllPolygons(r)
  {
    seq(|c.faces|, j requires 0 <= j < |c.faces| =>
      Polygon(FaceKeyOf(c.particleID, c.neighbors[j]), Corners(c, c.faces[j])))
  }

  /** Every face of every cell, cell by cell, face by face. */
  function Polygons(cells: seq<Cell>): (r: seq<Polygon>)
    requires WellFormedCells(cells)
    ensures AllPolygons(r)
  {
    if cells == [] then [] else
      Polygons(cells[..|cells| - 1]) + CellPolygons(cells[|cells| - 1])
  }

  /** The flat-shading normal: the cross product of the edges from the first
      corner to the second and to the third (normalisation is left out). */
  function Normal(p: Polygon): Vec3
    requires IsPolygon(p)
  {
    Cross(Sub(p.corners[1], p.corners[0]), Sub(p.corners[2], p.corners[0]))
  }

  // ---------------------------------------------------------------------------
  // The accumulated skin mesh

  /** `facesDict` is `starts`, `curIdx` is `count`. */
  datatype SkinMesh = SkinMesh(
    vertices: seq<real>,
    normals: seq<real>,
    indices: seq<int>,
    starts: map<FaceKey, int>,
    count: int)

  const EmptySkin := SkinMesh([], [], [], map[], 0)

  /** The fan `(base, base+k, base+k+1)` for k = 1 .. t. */
  function FanUpTo(base: int, t: nat): (r: seq<int>)
    ensures |r| == 3 * t
  {
    if t == 0 then [] else FanUpTo(base, t - 1) + [base, base + t, base + t + 1]
  }

  /** Every fan index of a t-triangle fan lies in [base, base + t + 2). */
  lemma {:induction false} FanBounds(base: int, t: nat)
    ensures forall i :: 0 <= i < |FanUpTo(base, t)| ==> base <= FanUpTo(base, t)[i] < base + t + 2
  {
    if t > 0 {
      FanBounds(base, t - 1);
    }
  }

  function AddPolygon(m: SkinMesh, p: Polygon): SkinMesh
    requires IsPolygon(p)
  {
    if p.key in m.starts then m else
      var n := |p.corners|;
      SkinMesh(m.vertices + Flatten(p.corners),
               m.normals + Repeat(Normal(p), n),
               m.indices + FanUpTo(m.count, n - 2),
               m.starts[p.key := m.count],
               m.count + n)
  }

  /** The face pass over a sequence of polygons. */
  function Skin(ps: seq<Polygon>): SkinMesh
    requires AllPolygons(ps)
  {
    if ps == [] then EmptySkin else
      AddPolygon(Skin(ps[..|ps| - 1]), ps[|ps| - 1])
  }

  lemma {:induction false} SkinSnoc(ps: seq<Polygon>, p: Polygon)
    requires AllPolygons(ps) && IsPolygon(p)
    ensures AllPolygons(ps + [p])
    ensures Skin(ps + [p]) == AddPolygon(Skin(ps), p)
  {
    assert (ps + [p])[..|ps|] == ps;
  }

  function KeySet(ps: seq<Polygon>): set<FaceKey> {
    set i | 0 <= i < |ps| :: ps[i].key
  }

  /** Buffers of matching length, a whole number of triangles, every index
      naming an emitted vertex, every recorded start inside the buffers. */
  predicate WellFormedSkin(m: SkinMesh) {
    && |m.vertices| == 3 * m.count
    && |m.normals| == 3 * m.count
    && |m.indices| % 3 == 0
    && (forall i :: 0 <= i < |m.indices| ==> 0 <= m.indices[i] < m.count)
    && (forall k :: k in m.starts ==> 0 <= m.starts[k] < m.count)
  }

  /** One face keeps the mesh well formed. */
  lemma {:induction false} AddPolygonWellFormed(m: SkinMesh, p: Polygon)
    requires WellFormedSkin(m) && IsPolygon(p)
    ensures WellFormedSkin(AddPolygon(m, p))
  {
    if p.key !in m.starts {
      var r := AddPolygon(m, p);
      AddNewPolygon(m, p);
      forall i | 0 <= i < |m.indices|
        ensures r.indices[i] == m.indices[i]
      {
        assert r.indices[..|m.indices|][i] == r.indices[i];
      }
    }
  }

  /** One face records its key, whether or not it was new. */
  lemma {:induction false} AddPolygonKeys(m: SkinMesh, p: Polygon)
    requires IsPolygon(p)
    ensures AddPolygon(m, p).starts.Keys == m.starts.Keys + {p.key}
  {
    if p.key !in m.starts {
      assert AddPolygon(m, p).starts == m.starts[p.key := m.count];
    }
  }

  /** The face pass keeps `|vertices| = |normals| = 3*curIdx`, emits only
      indices below `curIdx`, and records exactly the keys it has seen. */
  lemma {:induction false} SkinWellFormed(ps: seq<Polygon>)
    requires AllPolygons(ps)
    ensures WellFormedSkin(Skin(ps))
    ensures Skin(ps).starts.Keys == KeySet(ps)
  {
    if ps != [] {
      var init, p := ps[..|ps| - 1], ps[|ps| - 1];
      assert ps == init + [p];
      assert KeySet(ps) == KeySet(init) + {p.key};
      SkinWellFormed(init);
      AddPolygonWellFormed(Skin(init), p);
      AddPolygonKeys(Skin(init), p);
    }
  }

  /** A face whose key was already seen adds nothing. */
  lemma {:induction false} DuplicateFaceAddsNothing(ps: seq<Polygon>, p: Polygon)
    requires AllPolygons(ps) && IsPolygon(p)
    requires p.key in KeySet(ps)
    ensures AllPolygons(ps + [p])
    ensures Skin(ps + [p]) == Skin(ps)
  {
    SkinWellFormed(ps);
    SkinSnoc(ps, p);
  }

  /** The face between particles a and b, met again from b's side, is not
      triangulated a second time. */
  lemma {:induction false} SharedFaceTriangulatedOnce(ps: seq<Polygon>, a: int, b: int, p: Polygon, q: Polygon)
    requires AllPolygons(ps) && IsPolygon(p) && IsPolygon(q)
    requires p.key == FaceKeyOf(a, b) && q.key == FaceKeyOf(b, a)
    ensures AllPolygons(ps + [p]) && AllPolygons(ps + [p] + [q])
    ensures Skin(ps + [p] + [q]) == Skin(ps + [p])
  {
    assert (ps + [p])[|ps|].key == q.key;
    DuplicateFaceAddsNothing(ps + [p], q);
  }

  /** A new face appends 3n vertex floats, 3n copies of its normal, n-2 fan
      triangles whose indices lie in [curIdx, curIdx+n), records curIdx under
      its key and advances curIdx by n. */
  lemma {:induction false} NewFaceAppends(ps: seq<Polygon>, p: Polygon)
    requires AllPolygons(ps) && IsPolygon(p)
    requires p.key !in KeySet(ps)
    ensures AllPolygons(ps + [p])
    ensures var m, r, n := Skin(ps), Skin(ps + [p]), |p.corners|;
      && r.vertices == m.vertices + Flatten(p.corners)
      && r.normals == m.normals + Repeat(Normal(p), n)
      && |r.indices| == |m.indices| + 3 * (n - 2)
      && r.indices[..|m.indices|] == m.indices
      && (forall i :: |m.indices| <= i < |r.indices| ==> m.count <= r.indices[i] < m.count + n)
      && r.starts == m.starts[p.key := m.count]
      && r.count == m.count + n
  {
    SkinWellFormed(ps);
    SkinSnoc(ps, p);
    AddNewPolygon(Skin(ps), p);
  }

  lemma {:induction false} AddNewPolygon(m: SkinMesh, p: Polygon)
    requires IsPolygon(p) && p.key !in m.starts
    ensures var r, n := AddPolygon(m, p), |p.corners|;
      && r.vertices == m.vertices + Flatten(p.corners)
      && r.normals == m.normals + Repeat(Normal(p), n)
      && |r.indices| == |m.indices| + 3 * (n - 2)
      && r.indices[..|m.indices|] == m.indices
      && (forall i :: |m.indices| <= i < |r.indices| ==> m.count <= r.indices[i] < m.count + n)
      && r.starts == m.starts[p.key := m.count]
      && r.count == m.count + n
  {
    var n := |p.corners|;
    var fan := FanUpTo(m.count, n - 2);
    var r := AddPolygon(m, p);
    assert r.indices == m.indices + fan;
    assert r.indices[..|m.indices|] == m.indices;
    FanBounds(m.count, n - 2);
    forall i | |m.indices| <= i < |r.indices|
      ensures m.count <= r.indices[i] < m.count + n
    {
      assert r.indices[i] == fan[i - |m.indices|];
    }
  }

  /** `r` only appends to the buffers of `m` and keeps every recorded start. */
  predicate SkinExtends(m: SkinMesh, r: SkinMesh) {
    && m.vertices <= r.vertices && m.normals <= r.normals && m.indices <= r.indices
    && m.count <= r.count
    && forall k :: k in m.starts ==> k in r.starts && r.starts[k] == m.starts[k]
  }

  lemma {:induction false} SkinExtendsTransitive(a: SkinMesh, b: SkinMesh, c: SkinMesh)
    requires SkinExtends(a, b) && SkinExtends(b, c)
    ensures SkinExtends(a, c)
  {
    assert a.vertices == b.vertices[..|a.vertices|] == c.vertices[..|a.vertices|];
    assert a.normals == b.normals[..|a.normals|] == c.normals[..|a.normals|];
    assert a.indices == b.indices[..|a.indices|] == c.indices[..|a.indices|];
  }

  /** One face only appends, whether or not it is new. */
  lemma {:induction false} AddPolygonExtends(m: SkinMesh, p: Polygon)
    requires IsPolygon(p)
    ensures SkinExtends(m, AddPolygon(m, p))
  {
    if p.key !in m.starts {
      var r := AddPolygon(m, p);
      assert r.vertices == m.vertices + Flatten(p.corners);
      assert r.normals == m.normals + Repeat(Normal(p), |p.corners|);
      assert r.indices == m.indices + FanUpTo(m.count, |p.corners| - 2);
    }
  }

  /** Later faces only append: the buffers of a prefix are prefixes of the
      final buffers and no recorded start is ever overwritten. */
  lemma {:induction false} SkinGrows(ps: seq<Polygon>, qs: seq<Polygon>)
    requires AllPolygons(ps) && AllPolygons(qs)
    ensures AllPolygons(ps + qs)
    ensures SkinExtends(Skin(ps), Skin(ps + qs))
    decreases |qs|
  {
    assert AllPolygons(ps + qs);
    if qs == [] {
      assert ps + qs == ps;
    } else {
      var init, q := qs[..|qs| - 1], qs[|qs| - 1];
      SkinGrows(ps, init);
      assert ps + qs == (ps + init) + [q];
      SkinSnoc(ps + init, q);
      AddPolygonExtends(Skin(ps + init), q);
      SkinExtendsTransitive(Skin(ps), Skin(ps + init), Skin(ps + qs));
    }
  }

  /** Face `p` is recorded at vertex `s` of `r`, and the buffers hold its
      corners and its normal from there on. */
  predicate FaceInPlace(r: SkinMesh, p: Polygon, s: int)
    requires IsPolygon(p)
  {
    var n := |p.corners|;
    && p.key in r.starts && r.starts[p.key] == s
    && 0 <= 3 * s && 3 * (s + n) <= |r.vertices| && 3 * (s + n) <= |r.normals|
    && r.vertices[3 * s .. 3 * (s + n)] == Flatten(p.corners)
    && r.normals[3 * s .. 3 * (s + n)] == Repeat(Normal(p), n)
  }

  /** `facesDict[key]` is where the vertices of the FIRST face with that key
      start: the buffers hold that face's corners and normal from there on. */
  lemma {:induction false} FirstFaceRecorded(ps: seq<Polygon>, i: int)
    requires AllPolygons(ps)
    requires 0 <= i < |ps|
    requires ps[i].key !in KeySet(ps[..i])
    ensures FaceInPlace(Skin(ps), ps[i], Skin(ps[..i]).count)
  {
    var p := ps[i];
    var pre := ps[..i];
    var rest := ps[i + 1..];
    assert ps == (pre + [p]) + rest;
    SkinWellFormed(pre);
    SkinSnoc(pre, p);
    SkinGrows(pre + [p], rest);
    NewFaceKept(Skin(pre), p, Skin(ps));
  }

  /** A new face added to `m` is still in place in any later mesh `r`. */
  lemma {:induction false} NewFaceKept(m: SkinMesh, p: Polygon, r: SkinMesh)
    requires WellFormedSkin(m) && IsPolygon(p) && p.key !in m.starts
    requires SkinExtends(AddPolygon(m, p), r)
    ensures FaceInPlace(r, p, m.count)
  {
    var mid := AddPolygon(m, p);
    var n := |p.corners|;
    assert mid.vertices == m.vertices + Flatten(p.corners);
    assert mid.normals == m.normals + Repeat(Normal(p), n);
    assert mid.starts[p.key] == m.count;
    SlicePrefix(mid.vertices, r.vertices, m.vertices, Flatten(p.corners));
    SlicePrefix(mid.normals, r.normals, m.normals, Repeat(Normal(p), n));
  }

  /** If `mid == head + tail` is a prefix of `whole`, `tail` sits in `whole`
      right after `head`. */
  lemma {:induction false} SlicePrefix(mid: seq<real>, whole: seq<real>, head: seq<real>, tail: seq<real>)
    requires mid == head + tail && mid <= whole
    ensures |head| + |tail| <= |whole|
    ensures whole[|head| .. |head| + |tail|] == tail
  {
    assert whole[..|mid|] == mid;
    assert whole[|head| .. |head| + |tail|] == mid[|head|..];
  }

  // ---------------------------------------------------------------------------
  // The loops

  /** One iteration of the face loop: compute the key and the normal of face
      j of the cell, and append the face unless its key was seen before. */
  method PushFace(cell: Cell, j: int,
                  vertices0: seq<real>, normals0: seq<real>, indices0: seq<int>,
                  facesDict0: map<FaceKey, int>, curIdx0: int)
    returns (vertices: seq<real>, normals: seq<real>, indices: seq<int>,
             facesDict: map<FaceKey, int>, curIdx: int)
    requires WellFormedCell(cell) && 0 <= j < |cell.faces|
    ensures SkinMesh(vertices, normals, indices, facesDict, curIdx)
         == AddPolygon(SkinMesh(vertices0, normals0, indices0, facesDict0, curIdx0),
                       CellPolygons(cell)[j])
  {
    vertices, normals, indices, facesDict, curIdx := vertices0, normals0, indices0, facesDict0, curIdx0;
    ghost var p := CellPolygons(cell)[j];
    var face := cell.faces[j];
    assert ValidFace(cell, face);
    var faceKey := FaceKeyOf(cell.particleID, cell.neighbors[j]);
    var dir1 := Vec3(cell.vertices[face[1] * 3] - cell.vertices[face[0] * 3],
                     cell.vertices[face[1] * 3 + 1] - cell.vertices[face[0] * 3 + 1],
                     cell.vertices[face[1] * 3 + 2] - cell.vertices[face[0] * 3 + 2]);
    var dir2 := Vec3(cell.vertices[face[2] * 3] - cell.vertices[face[0] * 3],
                     cell.vertices[face[2] * 3 + 1] - cell.vertices[face[0] * 3 + 1],
                     cell.vertices[face[2] * 3 + 2] - cell.vertices[face[0] * 3 + 2]);
    var normal := Cross(dir1, dir2);
    assert normal == Normal(p);

    if faceKey !in facesDict {
      facesDict := facesDict[faceKey := curIdx];
      vertices, normals := PushCorners(cell, face, normal, vertices, normals);
      indices := PushFan(indices, curIdx, |face|);
      curIdx := curIdx + |face|;
    }
  }

  /** The corner loop of a new face: its corners' coordinates onto the vertex
      buffer and one copy of the normal per corner onto the normal buffer. */
  method PushCorners(cell: Cell, face: seq<int>, normal: Vec3, vertices0: seq<real>, normals0: seq<real>)
    returns (vertices: seq<real>, normals: seq<real>)
    requires forall k :: 0 <= k < |face| ==> ValidVertexIndex(cell, face[k])
    ensures vertices == vertices0 + Flatten(Corners(cell, face))
    ensures normals == normals0 + Repeat(normal, |face|)
  {
    ghost var corners := Corners(cell, face);
    vertices, normals := vertices0, normals0;
    for k := 0 to |face|
      invariant vertices == vertices0 + Flatten(corners[..k])
      invariant normals == normals0 + Repeat(normal, k)
    {
      assert corners[..k + 1][..k] == corners[..k];
      vertices := vertices + [cell.vertices[face[k] * 3],
                              cell.vertices[face[k] * 3 + 1],
                              cell.vertices[face[k] * 3 + 2]];
      normals := normals + [normal.x, normal.y, normal.z];
    }
    assert corners[..|face|] == corners;
  }

  /** The index loop of a new face of n corners: n - 2 fan triangles from
      its first vertex. */
  method PushFan(indices0: seq<int>, curIdx: int, n: int) returns (indices: seq<int>)
    requires n >= 2
    ensures indices == indices0 + FanUpTo(curIdx, n - 2)
  {
    indices := indices0;
    for k := 1 to n - 1
      invariant indices == indices0 + FanUpTo(curIdx, k - 1)
    {
      indices := indices + [curIdx, curIdx + k, curIdx + k + 1];
    }
  }

  /** The nested loops of the face pass: every face of every cell, in order. */
  method AccumulateFaces(cells: seq<Cell>)
    returns (vertices: seq<real>, normals: seq<real>, indices: seq<int>,
             facesDict: map<FaceKey, int>, curIdx: int)
    requires WellFormedCells(cells)
    ensures SkinMesh(vertices, normals, indices, facesDict, curIdx) == Skin(Polygons(cells))
  {
    vertices, normals, indices, facesDict, curIdx := [], [], [], map[], 0;
    for i := 0 to |cells|
      invariant SkinMesh(vertices, normals, indices, facesDict, curIdx) == Skin(Polygons(cells[..i]))
    {
      var cell := cells[i];
      assert WellFormedCell(cell);
      ghost var done := Polygons(cells[..i]);
      ghost var mine := CellPolygons(cell);
      assert done + mine[..0] == done;
      for j := 0 to cell.nFaces
        invariant SkinMesh(vertices, normals, indices, facesDict, curIdx) == Skin(done + mine[..j])
      {
        PrefixSnoc(done, mine, j);
        vertices, normals, indices, facesDict, curIdx :=
          PushFace(cell, j, vertices, normals, indices, facesDict, curIdx);
      }
      assert mine[..cell.nFaces] == mine;
      PolygonsSnoc(cells, i);
    }
    assert cells[..|cells|] == cells;
  }

  lemma {:induction false} PrefixSnoc(done: seq<Polygon>, mine: seq<Polygon>, j: int)
    requires AllPolygons(done) && AllPolygons(mine) && 0 <= j < |mine|
    ensures AllPolygons(done + mine[..j]) && AllPolygons(done + mine[..j + 1])
    ensures Skin(done + mine[..j + 1]) == AddPolygon(Skin(done + mine[..j]), mine[j])
  {
    assert done + mine[..j + 1] == (done + mine[..j]) + [mine[j]];
    SkinSnoc(done + mine[..j], mine[j]);
  }

  lemma {:induction false} PolygonsSnoc(cells: seq<Cell>, i: int)
    requires WellFormedCells(cells) && 0 <= i < |cells|
    ensures WellFormedCells(cells[..i]) && WellFormedCells(cells[..i + 1])
    ensures Polygons(cells[..i + 1]) == Polygons(cells[..i]) + CellPolygons(cells[i])
  {
    assert cells[..i + 1][..i] == cells[..i];
  }
}
