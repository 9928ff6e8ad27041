/** The connection pass of the lattice worker: every edge of every Voronoi
    face, from corner k to corner (k+1) mod n, is stored under the key
    `sumA + sumB` (the sum of all six coordinates) the first time that key
    appears, smaller-sum endpoint first. Distinct edges whose coordinate sums
    agree share a key, and only the first of them is kept. */
module LatticeConnections {
  import opened Geometry
  import opened Voro3D
  import opened LatticeFaces
  import opened JsObject

  /** The edges a face contributes, in the order the loop visits them. */
  function FaceEdges(corners: seq<Vec3>): (r: seq<Segment>)
    ensures |r| == |corners|
  {
    seq(|corners|, k requires 0 <= k < |corners| => Segment(corners[k], corners[(k + 1) % |corners|]))
  }

  /** The edges of all faces, face by face. */
  function Edges(ps: seq<Polygon>): seq<Segment> {
    if ps == [] then [] else Edges(ps[..|ps| - 1]) + FaceEdges(ps[|ps| - 1].corners)
  }

  function EdgeKey(e: Segment): real {
    CoordSum(e.a) + CoordSum(e.b)
  }

  /** The stored form of an edge: A then B when sumA < sumB, else B then A. */
  function Oriented(e: Segment): (r: Segment)
    ensures r == e || r == Segment(e.b, e.a)
    ensures CoordSum(r.a) <= CoordSum(r.b)
    ensures EdgeKey(r) == EdgeKey(e)
  {
    if CoordSum(e.a) < CoordSum(e.b) then e else Segment(e.b, e.a)
  }

  function AddEdge(d: map<real, Segment>, e: Segment): map<real, Segment> {
    if EdgeKey(e) in d then d else d[EdgeKey(e) := Oriented(e)]
  }

  /** A JavaScript object used as a dictionary: its entries, and the order in
      which its keys were first stored (which `Object.keys` depends on). */
  datatype Store = Store(dict: map<real, Segment>, order: seq<real>)

  /** One edge stored, unless its key is already present. */
  function StoreEdge(st: Store, e: Segment): Store {
    Store(AddEdge(st.dict, e), if EdgeKey(e) in st.dict then st.order else st.order + [EdgeKey(e)])
  }

  /** `connectionsDict` after a sequence of edges. */
  function Stored(es: seq<Segment>): Store {
    if es == [] then Store(map[], []) else StoreEdge(Stored(es[..|es| - 1]), es[|es| - 1])
  }

  function Connections(es: seq<Segment>): map<real, Segment> {
    Stored(es).dict
  }

  function InsertionOrder(es: seq<Segment>): seq<real> {
    Stored(es).order
  }

  lemma {:induction false} StoredSnoc(es: seq<Segment>, e: Segment)
    ensures Stored(es + [e]) == StoreEdge(Stored(es), e)
  {
    assert (es + [e])[..|es|] == es;
  }

  lemma {:induction false} ConnectionsSnoc(es: seq<Segment>, e: Segment)
    ensures Connections(es + [e]) == AddEdge(Connections(es), e)
  {
    StoredSnoc(es, e);
  }

  function KeysOf(es: seq<Segment>): set<real> {
    set i | 0 <= i < |es| :: EdgeKey(es[i])
  }

  lemma {:induction false} KeysOfSnoc(es: seq<Segment>, e: Segment)
    ensures KeysOf(es + [e]) == KeysOf(es) + {EdgeKey(e)}
  {
    var t := es + [e];
    forall k | k in KeysOf(t)
      ensures k in KeysOf(es) + {EdgeKey(e)}
    {
      var i :| 0 <= i < |t| && EdgeKey(t[i]) == k;
      if i < |es| {
        assert t[i] == es[i];
      }
    }
    forall k | k in KeysOf(es)
      ensures k in KeysOf(t)
    {
      var i :| 0 <= i < |es| && EdgeKey(es[i]) == k;
      assert t[i] == es[i];
    }
    assert t[|es|] == e;
  }

  lemma {:induction false} InsertionOrderSnoc(es: seq<Segment>, e: Segment)
    ensures InsertionOrder(es + [e]) ==
      if EdgeKey(e) in Connections(es) then InsertionOrder(es) else InsertionOrder(es) + [EdgeKey(e)]
  {
    StoredSnoc(es, e);
  }

  /** Each key is recorded once, the first time it is stored. */
  lemma {:induction false} InsertionOrderShape(es: seq<Segment>)
    ensures NoDup(InsertionOrder(es))
    ensures forall k :: k in InsertionOrder(es) <==> k in KeysOf(es)
  {
    if es != [] {
      var init, e := es[..|es| - 1], es[|es| - 1];
      assert es == init + [e];
      KeysOfSnoc(init, e);
      InsertionOrderShape(init);
      ConnectionsShape(init);
      InsertionOrderSnoc(init, e);
      if EdgeKey(e) !in KeysOf(init) {
        NoDupSnoc(InsertionOrder(init), EdgeKey(e));
      }
    }
  }

  /** Every stored connection sits under its own key, smaller-sum endpoint
      first, and the keys are exactly the keys of the edges met. */
  lemma {:induction false} ConnectionsShape(es: seq<Segment>)
    ensures Connections(es).Keys == KeysOf(es)
    ensures forall key :: key in Connections(es) ==>
      EdgeKey(Connections(es)[key]) == key &&
      CoordSum(Connections(es)[key].a) <= CoordSum(Connections(es)[key].b)
  {
    if es != [] {
      var init, e := es[..|es| - 1], es[|es| - 1];
      assert es == init + [e];
      KeysOfSnoc(init, e);
      ConnectionsShape(init);
      ConnectionsSnoc(init, e);
    }
  }

  /** A stored connection is never overwritten by later edges. */
  lemma {:induction false} ConnectionsGrow(es: seq<Segment>, fs: seq<Segment>)
    ensures forall key :: key in Connections(es) ==>
      key in Connections(es + fs) && Connections(es + fs)[key] == Connections(es)[key]
    decreases |fs|
  {
    if fs == [] {
      assert es + fs == es;
    } else {
      var init, f := fs[..|fs| - 1], fs[|fs| - 1];
      ConnectionsGrow(es, init);
      assert es + fs == (es + init) + [f];
      ConnectionsSnoc(es + init, f);
    }
  }

  /** The entry under a key is the first edge that produced that key,
      oriented smaller sum first. */
  lemma {:induction false} FirstEdgeWins(es: seq<Segment>, i: int)
    requires 0 <= i < |es|
    requires EdgeKey(es[i]) !in KeysOf(es[..i])
    ensures EdgeKey(es[i]) in Connections(es)
    ensures Connections(es)[EdgeKey(es[i])] == Oriented(es[i])
  {
    var pre, e, rest := es[..i], es[i], es[i + 1..];
    assert es == (pre + [e]) + rest;
    ConnectionsShape(pre);
    ConnectionsSnoc(pre, e);
    ConnectionsGrow(pre + [e], rest);
  }

  /** An edge whose key is already stored is dropped, even when it is a
      different edge: (0,0,0)-(1,0,0) and (0,0,0)-(0,1,0) both have key 1. */
  lemma {:induction false} CollidingKeyDropped(es: seq<Segment>, e: Segment)
    requires EdgeKey(e) in KeysOf(es)
    ensures Connections(es + [e]) == Connections(es)
  {
    ConnectionsShape(es);
    ConnectionsSnoc(es, e);
  }

  /** The same edge met again, in either direction (from the other face that
      shares it), leaves the connections unchanged. */
  lemma {:induction false} RepeatedEdgeIgnored(es: seq<Segment>, e: Segment)
    requires e in es || Segment(e.b, e.a) in es
    ensures Connections(es + [e]) == Connections(es)
  {
    var i :| 0 <= i < |es| && (es[i] == e || es[i] == Segment(e.b, e.a));
    assert EdgeKey(es[i]) == EdgeKey(e);
    CollidingKeyDropped(es, e);
  }

  // ---------------------------------------------------------------------------
  // The loops

  /** One iteration of the edge loop, on the dictionary and its key order. */
  lemma {:induction false} StoreStep(prior: seq<Segment>, edges: seq<Segment>, k: int)
    requires 0 <= k < |edges|
    ensures Stored(prior + edges[..k + 1]) == StoreEdge(Stored(prior + edges[..k]), edges[k])
  {
    assert prior + edges[..k + 1] == (prior + edges[..k]) + [edges[k]];
    StoredSnoc(prior + edges[..k], edges[k]);
  }

  /** Edge k of face j joins corner k to corner (k + 1) mod n. */
  lemma {:induction false} FaceEdgeAt(cell: Cell, j: int, k: int)
    requires WellFormedCell(cell) && 0 <= j < |cell.faces| && 0 <= k < |cell.faces[j]|
    ensures ValidFace(cell, cell.faces[j])
    ensures FaceEdges(CellPolygons(cell)[j].corners)[k] ==
      Segment(Corner(cell, cell.faces[j][k]), Corner(cell, cell.faces[j][(k + 1) % |cell.faces[j]|]))
  {
    assert ValidFace(cell, cell.faces[j]);
  }

  /** One iteration of the edge loop: edge k of face j, from corner k to
      corner (k + 1) mod n, stored under its coordinate sum unless that key
      is already present. */
  method PushEdge(cell: Cell, j: int, k: int, dict0: map<real, Segment>, order0: seq<real>)
    returns (connectionsDict: map<real, Segment>, keyOrder: seq<real>)
    requires WellFormedCell(cell) && 0 <= j < |cell.faces| && 0 <= k < |cell.faces[j]|
    ensures Store(connectionsDict, keyOrder) ==
      StoreEdge(Store(dict0, order0), FaceEdges(CellPolygons(cell)[j].corners)[k])
  {
    connectionsDict, keyOrder := dict0, order0;
    var face := cell.faces[j];
    FaceEdgeAt(cell, j, k);
    var indexA := face[k];
    var indexB := face[(k + 1) % |face|];

    var aVertexX := cell.vertices[indexA * 3];
    var aVertexY := cell.vertices[indexA * 3 + 1];
    var aVertexZ := cell.vertices[indexA * 3 + 2];

    var bVertexX := cell.vertices[indexB * 3];
    var bVertexY := cell.vertices[indexB * 3 + 1];
    var bVertexZ := cell.vertices[indexB * 3 + 2];

    var sumA := aVertexX + aVertexY + aVertexZ;
    var sumB := bVertexX + bVertexY + bVertexZ;
    var sum := sumA + sumB;

    ghost var e := FaceEdges(CellPolygons(cell)[j].corners)[k];
    assert e == Segment(Vec3(aVertexX, aVertexY, aVertexZ), Vec3(bVertexX, bVertexY, bVertexZ));
    assert sumA == CoordSum(e.a) && sumB == CoordSum(e.b) && sum == EdgeKey(e);

    if sum !in connectionsDict {
      keyOrder := keyOrder + [sum];
      if sumA < sumB {
        connectionsDict := connectionsDict[sum := Segment(Vec3(aVertexX, aVertexY, aVertexZ),
                                                          Vec3(bVertexX, bVertexY, bVertexZ))];
      } else {
        connectionsDict := connectionsDict[sum := Segment(Vec3(bVertexX, bVertexY, bVertexZ),
                                                          Vec3(aVertexX, aVertexY, aVertexZ))];
      }
    }
  }

  /** The edge loop over one face. */
  method PushFaceEdges(cell: Cell, j: int, dict0: map<real, Segment>, order0: seq<real>,
                       ghost prior: seq<Segment>)
    returns (connectionsDict: map<real, Segment>, keyOrder: seq<real>)
    requires WellFormedCell(cell) && 0 <= j < |cell.faces|
    requires Store(dict0, order0) == Stored(prior)
    ensures Store(connectionsDict, keyOrder) == Stored(prior + FaceEdges(CellPolygons(cell)[j].corners))
  {
    connectionsDict, keyOrder := dict0, order0;
    ghost var edges := FaceEdges(CellPolygons(cell)[j].corners);
    assert |edges| == |cell.faces[j]|;
    assert prior + edges[..0] == prior;
    for k := 0 to |cell.faces[j]|
      invariant Store(connectionsDict, keyOrder) == Stored(prior + edges[..k])
    {
      StoreStep(prior, edges, k);
      connectionsDict, keyOrder := PushEdge(cell, j, k, connectionsDict, keyOrder);
    }
    assert edges[..|edges|] == edges;
  }

  lemma {:induction false} EdgesSnoc(ps: seq<Polygon>, p: Polygon)
    ensures Edges(ps + [p]) == Edges(ps) + FaceEdges(p.corners)
  {
    assert (ps + [p])[..|ps|] == ps;
  }

  lemma {:induction false} EdgesPrefixSnoc(done: seq<Polygon>, mine: seq<Polygon>, j: int)
    requires 0 <= j < |mine|
    ensures Edges(done + mine[..j + 1]) == Edges(done + mine[..j]) + FaceEdges(mine[j].corners)
  {
    assert done + mine[..j + 1] == (done + mine[..j]) + [mine[j]];
    EdgesSnoc(done + mine[..j], mine[j]);
  }

  /** The connection pass over all cells (it runs in every mode). */
  method AccumulateConnections(cells: seq<Cell>)
    returns (connectionsDict: map<real, Segment>, keyOrder: seq<real>)
    requires WellFormedCells(cells)
    ensures Store(connectionsDict, keyOrder) == Stored(Edges(Polygons(cells)))
  {
    connectionsDict, keyOrder := map[], [];
    for i := 0 to |cells|
      invariant Store(connectionsDict, keyOrder) == Stored(Edges(Polygons(cells[..i])))
    {
      var cell := cells[i];
      assert WellFormedCell(cell);
      ghost var done := Polygons(cells[..i]);
      ghost var mine := CellPolygons(cell);
      assert done + mine[..0] == done;
      for j := 0 to cell.nFaces
        invariant Store(connectionsDict, keyOrder) == Stored(Edges(done + mine[..j]))
      {
        EdgesPrefixSnoc(done, mine, j);
        connectionsDict, keyOrder := PushFaceEdges(cell, j, connectionsDict, keyOrder, Edges(done + mine[..j]));
      }
      assert mine[..cell.nFaces] == mine;
      PolygonsSnoc(cells, i);
    }
    assert cells[..|cells|] == cells;
  }
}
