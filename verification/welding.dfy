/** The vertex-welded face accumulation of the page script (generateLattice):
    every face of every cell is triangulated, but a vertex is stored only the
    first time its coordinates are met (`vertexDict`, keyed by the string
    `x-y-z`, which here is the point itself), and the fan indices refer to
    the stored vertices. */
module PageLattice {
  import opened Geometry
  import opened Voro3D
  import opened LatticeFaces

  /** The buffers and counters of the loop: `curIdx` counts face corners,
      `curIdx2` stored vertices. */
  datatype Welded = Welded(
    vertices: seq<real>,
    normals: seq<real>,
    indices: seq<int>,
    vertexDict: map<Vec3, int>,
    curIdx: int,
    curIdx2: int)

  const EmptyWeld := Welded([], [], [], map[], 0, 0)

  /** The stored vertex number `i`. */
  function VertexAt(vs: seq<real>, i: int): Vec3
    requires 0 <= i && 3 * i + 2 < |vs|
  {
    Vec3(vs[3 * i], vs[3 * i + 1], vs[3 * i + 2])
  }

  /** Three floats per stored vertex in both buffers; `curIdx2` is the number
      of distinct points; each registered point names the vertex holding its
      coordinates; every index names a stored vertex. */
  predicate WellWelded(m: Welded) {
    && |m.vertices| == 3 * m.curIdx2
    && |m.normals| == 3 * m.curIdx2
    && |m.vertexDict| == m.curIdx2
    && (forall p :: p in m.vertexDict ==>
          0 <= m.vertexDict[p] < m.curIdx2 && VertexAt(m.vertices, m.vertexDict[p]) == p)
    && (forall i :: 0 <= i < |m.indices| ==> 0 <= m.indices[i] < m.curIdx2)
  }

  /** Nothing stored before is changed: buffers only grow and registered
      points keep their vertex. */
  predicate Extends(m: Welded, m': Welded) {
    && m.vertices <= m'.vertices
    && m.normals <= m'.normals
    && m.indices <= m'.indices
    && (forall p :: p in m.vertexDict ==> p in m'.vertexDict && m'.vertexDict[p] == m.vertexDict[p])
  }

  /** One corner: registered and stored with the face normal if new. */
  function AddVertex(m: Welded, p: Vec3, n: Vec3): (r: Welded)
    ensures p in r.vertexDict && m.vertexDict.Keys <= r.vertexDict.Keys
  {
    if p in m.vertexDict then m
    else m.(vertices := m.vertices + [p.x, p.y, p.z],
            normals := m.normals + [n.x, n.y, n.z],
            vertexDict := m.vertexDict[p := m.curIdx2],
            curIdx2 := m.curIdx2 + 1)
  }

  function AddVertices(m: Welded, ps: seq<Vec3>, n: Vec3): (r: Welded)
    ensures r.indices == m.indices && r.curIdx == m.curIdx
    ensures m.vertexDict.Keys <= r.vertexDict.Keys
    ensures forall k :: 0 <= k < |ps| ==> ps[k] in r.vertexDict
  {
    if ps == [] then m else AddVertex(AddVertices(m, ps[..|ps| - 1], n), ps[|ps| - 1], n)
  }

  lemma {:induction false} AddVertexKeeps(m: Welded, p: Vec3, n: Vec3)
    requires WellWelded(m)
    ensures WellWelded(AddVertex(m, p, n)) && Extends(m, AddVertex(m, p, n))
    ensures p in AddVertex(m, p, n).vertexDict
  {
    if p !in m.vertexDict {
      var m' := AddVertex(m, p, n);
      forall q | q in m'.vertexDict
        ensures 0 <= m'.vertexDict[q] < m'.curIdx2 && VertexAt(m'.vertices, m'.vertexDict[q]) == q
      {
        if q != p {
          assert VertexAt(m'.vertices, m'.vertexDict[q]) == VertexAt(m.vertices, m.vertexDict[q]);
        }
      }
    }
  }

  /** After the corner loop every corner is registered, and the mesh is still
      well formed and extends the old one. */
  lemma {:induction false} AddVerticesRegisters(m: Welded, ps: seq<Vec3>, n: Vec3)
    requires WellWelded(m)
    ensures WellWelded(AddVertices(m, ps, n)) && Extends(m, AddVertices(m, ps, n))
    ensures forall k :: 0 <= k < |ps| ==> ps[k] in AddVertices(m, ps, n).vertexDict
    ensures AddVertices(m, ps, n).indices == m.indices
    ensures AddVertices(m, ps, n).curIdx == m.curIdx
  {
    if ps != [] {
      var init, p := ps[..|ps| - 1], ps[|ps| - 1];
      AddVerticesRegisters(m, init, n);
      AddVertexKeeps(AddVertices(m, init, n), p, n);
      forall k | 0 <= k < |ps|
        ensures ps[k] in AddVertices(m, ps, n).vertexDict
      {
        if k < |ps| - 1 {
          assert ps[k] == init[k];
        }
      }
    }
  }

  lemma {:induction false} AddVerticesWellWelded(m: Welded, ps: seq<Vec3>, n: Vec3)
    requires WellWelded(m)
    ensures WellWelded(AddVertices(m, ps, n))
  {
    AddVerticesRegisters(m, ps, n);
  }

  /** The fan `(v0, vk, vk+1)` for k = 1 .. t, looked up in the dictionary. */
  function Fan(dict: map<Vec3, int>, cs: seq<Vec3>, t: nat): (r: seq<int>)
    requires t + 2 <= |cs|
    requires forall k :: 0 <= k < |cs| ==> cs[k] in dict
    ensures |r| == 3 * t
  {
    if t == 0 then []
    else Fan(dict, cs, t - 1) + [dict[cs[0]], dict[cs[t]], dict[cs[t + 1]]]
  }

  lemma {:induction false} FanAt(dict: map<Vec3, int>, cs: seq<Vec3>, t: nat, s: nat)
    requires t + 2 <= |cs|
    requires forall k :: 0 <= k < |cs| ==> cs[k] in dict
    requires s < t
    ensures Fan(dict, cs, t)[3 * s] == dict[cs[0]]
    ensures Fan(dict, cs, t)[3 * s + 1] == dict[cs[s + 1]]
    ensures Fan(dict, cs, t)[3 * s + 2] == dict[cs[s + 2]]
  {
    if s < t - 1 {
      FanAt(dict, cs, t - 1, s);
    }
  }

  /** The normal pushed for a face, computed from its first three corners. */
  function FaceNormal(p: Polygon, normalOf: (Vec3, Vec3, Vec3) -> Vec3): Vec3
    requires IsPolygon(p)
  {
    normalOf(p.corners[0], p.corners[1], p.corners[2])
  }

  /** The fan loop of a face with corners `cs`, then `curIdx += face.length`. */
  function AddFan(m1: Welded, cs: seq<Vec3>): Welded
    requires |cs| >= 3
    requires forall k :: 0 <= k < |cs| ==> cs[k] in m1.vertexDict
  {
    m1.(indices := m1.indices + Fan(m1.vertexDict, cs, |cs| - 2), curIdx := m1.curIdx + |cs|)
  }

  /** One face: its corners, then its fan. */
  function AddWeldedFace(m: Welded, p: Polygon, normalOf: (Vec3, Vec3, Vec3) -> Vec3): Welded
    requires IsPolygon(p)
  {
    AddFan(AddVertices(m, p.corners, FaceNormal(p, normalOf)), p.corners)
  }

  /** Fan indices are looked up in the dictionary, so they are bounded
      like its values. */
  lemma {:induction false} FanBounded(dict: map<Vec3, int>, cs: seq<Vec3>, t: nat, bound: int)
    requires t + 2 <= |cs|
    requires forall k :: 0 <= k < |cs| ==> cs[k] in dict
    requires forall q :: q in dict ==> 0 <= dict[q] < bound
    ensures forall i :: 0 <= i < |Fan(dict, cs, t)| ==> 0 <= Fan(dict, cs, t)[i] < bound
  {
    if t > 0 {
      FanBounded(dict, cs, t - 1, bound);
    }
  }

  /** A face keeps the mesh well formed, changes nothing stored before, and
      adds `3 (n - 2)` indices. */
  lemma {:induction false} WeldedFaceKeeps(m: Welded, p: Polygon, normalOf: (Vec3, Vec3, Vec3) -> Vec3)
    requires WellWelded(m) && IsPolygon(p)
    ensures WellWelded(AddWeldedFace(m, p, normalOf))
    ensures Extends(m, AddWeldedFace(m, p, normalOf))
    ensures |AddWeldedFace(m, p, normalOf).indices| == |m.indices| + 3 * (|p.corners| - 2)
  {
    var m1 := AddVertices(m, p.corners, FaceNormal(p, normalOf));
    AddVerticesRegisters(m, p.corners, FaceNormal(p, normalOf));
    AddFanKeeps(m1, p.corners);
    ExtendsTransitive(m, m1, AddFan(m1, p.corners));
  }

  /** The fan loop keeps the mesh well formed, changes nothing stored
      before, and adds `3 (n - 2)` indices. */
  lemma {:induction false} AddFanKeeps(m1: Welded, cs: seq<Vec3>)
    requires WellWelded(m1) && |cs| >= 3
    requires forall k :: 0 <= k < |cs| ==> cs[k] in m1.vertexDict
    ensures WellWelded(AddFan(m1, cs)) && Extends(m1, AddFan(m1, cs))
    ensures |AddFan(m1, cs).indices| == |m1.indices| + 3 * (|cs| - 2)
  {
    FanBounded(m1.vertexDict, cs, |cs| - 2, m1.curIdx2);
  }

  lemma {:induction false} ExtendsTransitive(a: Welded, b: Welded, c: Welded)
    requires Extends(a, b) && Extends(b, c)
    ensures Extends(a, c)
  {
  }

  /** Triangle `t` of a face's fan names the vertices of corners 0, t+1 and
      t+2. */
  lemma {:induction false} FanTriangleAt(m: Welded, p: Polygon, normalOf: (Vec3, Vec3, Vec3) -> Vec3, t: int)
    requires WellWelded(m) && IsPolygon(p) && 0 <= t < |p.corners| - 2
    ensures FanTriangle(AddWeldedFace(m, p, normalOf), |m.indices| + 3 * t,
                        p.corners[0], p.corners[t + 1], p.corners[t + 2])
  {
    var m1 := AddVertices(m, p.corners, FaceNormal(p, normalOf));
    AddVerticesWellWelded(m, p.corners, FaceNormal(p, normalOf));
    FanNamesCorners(m1, p.corners, t, |m.indices|);
  }

  /** In the fan over registered corners, triangle `t` names the vertices of
      corners 0, t+1 and t+2. */
  lemma {:induction false} FanNamesCorners(m1: Welded, cs: seq<Vec3>, t: int, before: int)
    requires WellWelded(m1) && 0 <= t && t + 2 < |cs|
    requires forall k :: 0 <= k < |cs| ==> cs[k] in m1.vertexDict
    requires before == |m1.indices|
    ensures FanTriangle(AddFan(m1, cs), before + 3 * t, cs[0], cs[t + 1], cs[t + 2])
  {
    var d := m1.vertexDict;
    FanAt(d, cs, |cs| - 2, t);
    StoredPointNamed(m1, cs[0]);
    StoredPointNamed(m1, cs[t + 1]);
    StoredPointNamed(m1, cs[t + 2]);
  }

  lemma {:induction false} StoredPointNamed(m: Welded, q: Vec3)
    requires WellWelded(m) && q in m.vertexDict
    ensures NamesVertex(m.vertices, m.vertexDict[q], q)
  {
  }

  /** Each face adds `n - 2` triangles whose indices name stored vertices with
      exactly the corners' coordinates: corner 0, corner k, corner k+1. */
  lemma {:induction false} WeldedFaceTriangles(m: Welded, p: Polygon, normalOf: (Vec3, Vec3, Vec3) -> Vec3)
    requires WellWelded(m) && IsPolygon(p)
    ensures WellWelded(AddWeldedFace(m, p, normalOf))
    ensures forall t :: 0 <= t < |p.corners| - 2 ==>
      FanTriangle(AddWeldedFace(m, p, normalOf), |m.indices| + 3 * t, p.corners[0], p.corners[t + 1], p.corners[t + 2])
  {
    WeldedFaceKeeps(m, p, normalOf);
    forall t | 0 <= t < |p.corners| - 2
      ensures FanTriangle(AddWeldedFace(m, p, normalOf), |m.indices| + 3 * t,
                          p.corners[0], p.corners[t + 1], p.corners[t + 2])
    {
      FanTriangleAt(m, p, normalOf, t);
    }
  }

  /** Index `v` names a stored vertex with coordinates `q`. */
  predicate NamesVertex(vs: seq<real>, v: int, q: Vec3) {
    0 <= v && 3 * v + 2 < |vs| && VertexAt(vs, v) == q
  }

  /** The triangle at `i` names three stored vertices with coordinates
      `a`, `b` and `c`. */
  predicate FanTriangle(m: Welded, i: int, a: Vec3, b: Vec3, c: Vec3) {
    && 0 <= i && i + 2 < |m.indices|
    && NamesVertex(m.vertices, m.indices[i], a)
    && NamesVertex(m.vertices, m.indices[i + 1], b)
    && NamesVertex(m.vertices, m.indices[i + 2], c)
  }

  /** The loops over all faces of all cells. */
  function Weld(ps: seq<Polygon>, normalOf: (Vec3, Vec3, Vec3) -> Vec3): (m: Welded)
    requires AllPolygons(ps)
    ensures WellWelded(m)
  {
    if ps == [] then EmptyWeld
    else
      var m0 := Weld(ps[..|ps| - 1], normalOf);
      WeldedFaceKeeps(m0, ps[|ps| - 1], normalOf);
      AddWeldedFace(m0, ps[|ps| - 1], normalOf)
  }

  lemma {:induction false} WeldSnoc(ps: seq<Polygon>, p: Polygon, normalOf: (Vec3, Vec3, Vec3) -> Vec3)
    requires AllPolygons(ps) && IsPolygon(p)
    ensures AllPolygons(ps + [p])
    ensures Weld(ps + [p], normalOf) == AddWeldedFace(Weld(ps, normalOf), p, normalOf)
  {
    assert (ps + [p])[..|ps|] == ps;
  }

  /** Later faces never change what earlier faces stored. */
  lemma {:induction false} WeldGrows(ps: seq<Polygon>, qs: seq<Polygon>,
                                     normalOf: (Vec3, Vec3, Vec3) -> Vec3)
    requires AllPolygons(ps) && AllPolygons(qs)
    ensures AllPolygons(ps + qs)
    ensures Extends(Weld(ps, normalOf), Weld(ps + qs, normalOf))
    decreases |qs|
  {
    AppendSnoc(ps, qs);
    if qs != [] {
      var init, q := qs[..|qs| - 1], qs[|qs| - 1];
      WeldGrows(ps, init, normalOf);
      WeldSnoc(ps + init, q, normalOf);
      WeldedFaceKeeps(Weld(ps + init, normalOf), q, normalOf);
      ExtendsTransitive(Weld(ps, normalOf), Weld(ps + init, normalOf), Weld(ps + qs, normalOf));
    }
  }

  /** The normal stored for a registered point. */
  function StoredNormal(m: Welded, q: Vec3): Vec3
    requires WellWelded(m) && q in m.vertexDict
  {
    VertexAt(m.normals, m.vertexDict[q])
  }

  /** The corner loop registers only the face's own corners, and each point
      it registers is stored with the face normal `n`. */
  lemma {:induction false} AddVerticesNormal(m: Welded, ps: seq<Vec3>, n: Vec3)
    requires WellWelded(m)
    ensures WellWelded(AddVertices(m, ps, n))
    ensures forall q :: q in AddVertices(m, ps, n).vertexDict ==> q in m.vertexDict || q in ps
    ensures forall q :: q in AddVertices(m, ps, n).vertexDict && q !in m.vertexDict ==>
      StoredNormal(AddVertices(m, ps, n), q) == n
  {
    AddVerticesRegisters(m, ps, n);
    if ps != [] {
      var init, p := ps[..|ps| - 1], ps[|ps| - 1];
      var m1 := AddVertices(m, init, n);
      var r := AddVertices(m, ps, n);
      AddVerticesNormal(m, init, n);
      AddVertexKeeps(m1, p, n);
      forall q | q in r.vertexDict && q !in m.vertexDict
        ensures StoredNormal(r, q) == n
      {
        if q in m1.vertexDict {
          ExtendsKeepsNormal(m1, r, q);
        } else {
          AddVertexNormal(m1, p, n);
        }
      }
    }
  }

  /** A point met for the first time is stored with the normal `n`. */
  lemma {:induction false} AddVertexNormal(m: Welded, p: Vec3, n: Vec3)
    requires WellWelded(m) && p !in m.vertexDict
    ensures WellWelded(AddVertex(m, p, n))
    ensures StoredNormal(AddVertex(m, p, n), p) == n
  {
    AddVertexKeeps(m, p, n);
    var r := AddVertex(m, p, n);
    assert r.vertexDict[p] == m.curIdx2;
    assert r.normals[3 * m.curIdx2..] == [n.x, n.y, n.z];
  }

  /** A registered point keeps its stored normal in any extension. */
  lemma {:induction false} ExtendsKeepsNormal(m: Welded, m': Welded, q: Vec3)
    requires WellWelded(m) && WellWelded(m') && Extends(m, m') && q in m.vertexDict
    ensures q in m'.vertexDict && StoredNormal(m', q) == StoredNormal(m, q)
  {
    var v := m.vertexDict[q];
    assert m'.normals[3 * v] == m.normals[3 * v];
    assert m'.normals[3 * v + 1] == m.normals[3 * v + 1];
    assert m'.normals[3 * v + 2] == m.normals[3 * v + 2];
  }

  /** A point that is no corner of any face is never registered. */
  lemma {:induction false} WeldUnseen(ps: seq<Polygon>, normalOf: (Vec3, Vec3, Vec3) -> Vec3, q: Vec3)
    requires AllPolygons(ps)
    requires forall j :: 0 <= j < |ps| ==> q !in ps[j].corners
    ensures q !in Weld(ps, normalOf).vertexDict
  {
    if ps != [] {
      var init, p := ps[..|ps| - 1], ps[|ps| - 1];
      assert forall j :: 0 <= j < |init| ==> init[j] == ps[j];
      WeldUnseen(init, normalOf, q);
      AddVerticesNormal(Weld(init, normalOf), p.corners, FaceNormal(p, normalOf));
    }
  }

  /** A face storing a point for the first time stores it with its normal. */
  lemma {:induction false} WeldIntroduces(ps: seq<Polygon>, p: Polygon, normalOf: (Vec3, Vec3, Vec3) -> Vec3, q: Vec3)
    requires AllPolygons(ps) && IsPolygon(p) && q in p.corners
    requires forall j :: 0 <= j < |ps| ==> q !in ps[j].corners
    ensures AllPolygons(ps + [p])
    ensures q in Weld(ps + [p], normalOf).vertexDict
    ensures StoredNormal(Weld(ps + [p], normalOf), q) == FaceNormal(p, normalOf)
  {
    WeldSnoc(ps, p, normalOf);
    WeldUnseen(ps, normalOf, q);
    var m1 := AddVertices(Weld(ps, normalOf), p.corners, FaceNormal(p, normalOf));
    AddVerticesNormal(Weld(ps, normalOf), p.corners, FaceNormal(p, normalOf));
    AddVerticesRegisters(Weld(ps, normalOf), p.corners, FaceNormal(p, normalOf));
    assert Weld(ps + [p], normalOf) == AddFan(m1, p.corners);
  }

  /** A welded vertex carries the normal of the first face that has it as a
      corner, whatever faces come later. */
  lemma {:induction false} WeldNormal(ps: seq<Polygon>, normalOf: (Vec3, Vec3, Vec3) -> Vec3, i: int, q: Vec3)
    requires AllPolygons(ps) && 0 <= i < |ps| && q in ps[i].corners
    requires forall j :: 0 <= j < i ==> q !in ps[j].corners
    ensures q in Weld(ps, normalOf).vertexDict
    ensures StoredNormal(Weld(ps, normalOf), q) == FaceNormal(ps[i], normalOf)
  {
    var before, upto, rest := ps[..i], ps[..i + 1], ps[i + 1..];
    SplitAt(ps, i);
    assert AllPolygons(before) && AllPolygons(rest);
    assert forall j :: 0 <= j < |before| ==> q !in before[j].corners;
    WeldIntroduces(before, ps[i], normalOf, q);
    WeldGrows(upto, rest, normalOf);
    ExtendsKeepsNormal(Weld(upto, normalOf), Weld(ps, normalOf), q);
  }

  lemma {:induction false} AppendSnoc<T>(ps: seq<T>, qs: seq<T>)
    ensures qs == [] ==> ps + qs == ps
    ensures qs != [] ==> ps + qs == (ps + qs[..|qs| - 1]) + [qs[|qs| - 1]]
  {
    if qs != [] {
      assert qs == qs[..|qs| - 1] + [qs[|qs| - 1]];
    }
  }

  lemma {:induction false} SplitAt<T>(s: seq<T>, i: int)
    requires 0 <= i < |s|
    ensures s[..i + 1] == s[..i] + [s[i]]
    ensures s[..i + 1] + s[i + 1..] == s
  {
  }

  /** Every face contributes `n - 2` triangles: there is no face
      de-duplication in this pass. */
  function TriangleCount(ps: seq<Polygon>): int {
    if ps == [] then 0 else TriangleCount(ps[..|ps| - 1]) + |ps[|ps| - 1].corners| - 2
  }

  lemma {:induction false} WeldTriangleCount(ps: seq<Polygon>, normalOf: (Vec3, Vec3, Vec3) -> Vec3)
    requires AllPolygons(ps)
    ensures |Weld(ps, normalOf).indices| == 3 * TriangleCount(ps)
  {
    if ps != [] {
      WeldTriangleCount(ps[..|ps| - 1], normalOf);
      WeldedFaceKeeps(Weld(ps[..|ps| - 1], normalOf), ps[|ps| - 1], normalOf);
    }
  }

  // ---------------------------------------------------------------------------
  // The loops

  /** The corner loop of one face. */
  method RegisterCorners(cell: Cell, face: seq<int>, normal: Vec3, m0: Welded) returns (m: Welded)
    requires ValidFace(cell, face) && WellWelded(m0)
    ensures m == AddVertices(m0, Corners(cell, face), normal)
    ensures forall k :: 0 <= k < |face| ==> Corners(cell, face)[k] in m.vertexDict
  {
    ghost var corners := Corners(cell, face);
    var vertices, normals, vertexDict, curIdx2 := m0.vertices, m0.normals, m0.vertexDict, m0.curIdx2;
    for k := 0 to |face|
      invariant m0.(vertices := vertices, normals := normals, vertexDict := vertexDict, curIdx2 := curIdx2)
             == AddVertices(m0, corners[..k], normal)
    {
      assert corners[..k + 1][..k] == corners[..k];
      var vertexKey := Vec3(cell.vertices[face[k] * 3], cell.vertices[face[k] * 3 + 1], cell.vertices[face[k] * 3 + 2]);
      assert vertexKey == corners[k];
      if vertexKey !in vertexDict {
        vertices := vertices + [cell.vertices[face[k] * 3],
                                cell.vertices[face[k] * 3 + 1],
                                cell.vertices[face[k] * 3 + 2]];
        normals := normals + [normal.x, normal.y, normal.z];
        vertexDict := vertexDict[vertexKey := curIdx2];
        curIdx2 := curIdx2 + 1;
      }
    }
    assert corners[..|face|] == corners;
    m := m0.(vertices := vertices, normals := normals, vertexDict := vertexDict, curIdx2 := curIdx2);
    AddVerticesRegisters(m0, corners, normal);
  }

  /** The fan loop of one face, once all its corners are registered. */
  method PushFan(cell: Cell, face: seq<int>, vertexDict: map<Vec3, int>, indices0: seq<int>)
    returns (indices: seq<int>)
    requires ValidFace(cell, face)
    requires forall k :: 0 <= k < |face| ==> Corners(cell, face)[k] in vertexDict
    ensures indices == indices0 + Fan(vertexDict, Corners(cell, face), |face| - 2)
  {
    ghost var corners := Corners(cell, face);
    indices := indices0;
    for k := 1 to |face| - 1
      invariant indices == indices0 + Fan(vertexDict, corners, k - 1)
    {
      var vertex1Key := Vec3(cell.vertices[face[0] * 3], cell.vertices[face[0] * 3 + 1], cell.vertices[face[0] * 3 + 2]);
      var vertex2Key := Vec3(cell.vertices[face[k] * 3], cell.vertices[face[k] * 3 + 1], cell.vertices[face[k] * 3 + 2]);
      var vertex3Key := Vec3(cell.vertices[face[k + 1] * 3], cell.vertices[face[k + 1] * 3 + 1], cell.vertices[face[k + 1] * 3 + 2]);
      assert vertex1Key == corners[0];
      assert vertex2Key == corners[k];
      assert vertex3Key == corners[k + 1];
      indices := indices + [vertexDict[vertex1Key], vertexDict[vertex2Key], vertexDict[vertex3Key]];
    }
  }

  /** One face of the loop: register its corners, then push its fan. */
  method PushWeldedFace(cell: Cell, j: int, normalOf: (Vec3, Vec3, Vec3) -> Vec3, m0: Welded)
    returns (m: Welded)
    requires WellFormedCell(cell) && 0 <= j < |cell.faces| && WellWelded(m0)
    ensures m == AddWeldedFace(m0, CellPolygons(cell)[j], normalOf)
  {
    var face := cell.faces[j];
    assert ValidFace(cell, face);
    ghost var corners := Corners(cell, face);
    ghost var p := CellPolygons(cell)[j];
    assert p.corners == corners;
    var normal := normalOf(Vec3(cell.vertices[face[0] * 3], cell.vertices[face[0] * 3 + 1], cell.vertices[face[0] * 3 + 2]),
                           Vec3(cell.vertices[face[1] * 3], cell.vertices[face[1] * 3 + 1], cell.vertices[face[1] * 3 + 2]),
                           Vec3(cell.vertices[face[2] * 3], cell.vertices[face[2] * 3 + 1], cell.vertices[face[2] * 3 + 2]));
    assert normal == FaceNormal(p, normalOf);
    var m1 := RegisterCorners(cell, face, normal, m0);
    var indices := PushFan(cell, face, m1.vertexDict, m1.indices);
    m := m1.(indices := indices, curIdx := m1.curIdx + |face|);
  }

  lemma {:induction false} PrefixSnocWeld(done: seq<Polygon>, mine: seq<Polygon>, j: int,
                       normalOf: (Vec3, Vec3, Vec3) -> Vec3)
    requires AllPolygons(done) && AllPolygons(mine) && 0 <= j < |mine|
    ensures AllPolygons(done + mine[..j]) && AllPolygons(done + mine[..j + 1])
    ensures Weld(done + mine[..j + 1], normalOf) == AddWeldedFace(Weld(done + mine[..j], normalOf), mine[j], normalOf)
  {
    assert done + mine[..j + 1] == (done + mine[..j]) + [mine[j]];
    WeldSnoc(done + mine[..j], mine[j], normalOf);
  }

  /** The face loop of one cell, continuing the accumulation of the faces
      `done` of the cells before it. */
  method WeldCell(cell: Cell, normalOf: (Vec3, Vec3, Vec3) -> Vec3, ghost done: seq<Polygon>, m0: Welded)
    returns (m: Welded)
    requires WellFormedCell(cell) && AllPolygons(done) && m0 == Weld(done, normalOf)
    ensures AllPolygons(done + CellPolygons(cell))
    ensures m == Weld(done + CellPolygons(cell), normalOf)
  {
    ghost var mine := CellPolygons(cell);
    PrefixWhole(done, mine);
    m := m0;
    for j := 0 to cell.nFaces
      invariant AllPolygons(done + mine[..j])
      invariant m == Weld(done + mine[..j], normalOf)
    {
      PrefixSnocWeld(done, mine, j, normalOf);
      m := PushWeldedFace(cell, j, normalOf, m);
    }
  }

  /** Taking none or all of `mine`. */
  lemma {:induction false} PrefixWhole<T>(done: seq<T>, mine: seq<T>)
    ensures done + mine[..0] == done
    ensures mine[..|mine|] == mine
  {
  }

  /** The vertex-welded accumulation over all faces of all cells. */
  method WeldFaces(cells: seq<Cell>, normalOf: (Vec3, Vec3, Vec3) -> Vec3)
    returns (vertices: seq<real>, normals: seq<real>, indices: seq<int>,
             vertexDict: map<Vec3, int>, curIdx: int, curIdx2: int)
    requires WellFormedCells(cells)
    ensures Welded(vertices, normals, indices, vertexDict, curIdx, curIdx2)
         == Weld(Polygons(cells), normalOf)
  {
    var m := EmptyWeld;
    for i := 0 to |cells|
      invariant m == Weld(Polygons(cells[..i]), normalOf)
    {
      assert WellFormedCell(cells[i]);
      m := WeldCell(cells[i], normalOf, Polygons(cells[..i]), m);
      PolygonsSnoc(cells, i);
    }
    assert cells[..|cells|] == cells;
    vertices, normals, indices, vertexDict, curIdx, curIdx2 :=
      m.vertices, m.normals, m.indices, m.vertexDict, m.curIdx, m.curIdx2;
  }
}
