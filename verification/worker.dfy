/** The lattice worker: the lattice pipeline with its mode selector, the
    contour struts, the point samplers and the message dispatcher.

    What the worker obtains from libraries is an input here: the Voronoi
    cells (from the wasm container, see `Voro3D.ComputeCells`), the ray hits
    of each strut, the intersection contour of the mesh with the Voronoi skin,
    and the random draws of the samplers. */
module Worker {
  import opened Geometry
  import opened Voro3D
  import opened LatticeFaces
  import opened LatticeConnections
  import opened Pruning
  import opened JsObject

  // ---------------------------------------------------------------------------
  // The connection list

  /** `keys.map((key) => dict[key])`. */
  function ValuesInOrder(dict: map<real, Segment>, keys: seq<real>): (r: seq<Segment>)
    requires forall i :: 0 <= i < |keys| ==> keys[i] in dict
    ensures |r| == |keys|
    ensures forall i :: 0 <= i < |keys| ==> r[i] == dict[keys[i]]
  {
    seq(|keys|, i requires 0 <= i < |keys| => dict[keys[i]])
  }

  /** The connections in `Object.keys` order, before any pruning. */
  function RawConnections(cells: seq<Cell>): seq<Segment>
    requires WellFormedCells(cells)
  {
    Listed(Edges(Polygons(cells)))
  }

  /** The stored connections of an edge sequence, in `Object.keys` order. */
  function Listed(es: seq<Segment>): seq<Segment> {
    ListedKeys(es);
    ValuesInOrder(Connections(es), ObjectKeys(InsertionOrder(es)))
  }

  /** `Object.keys(connectionsDict)` lists exactly the stored keys, once each. */
  lemma {:induction false} ListedKeys(es: seq<Segment>)
    ensures NoDup(ObjectKeys(InsertionOrder(es)))
    ensures forall k :: k in ObjectKeys(InsertionOrder(es)) <==> k in Connections(es)
    ensures forall i :: 0 <= i < |ObjectKeys(InsertionOrder(es))| ==>
      ObjectKeys(InsertionOrder(es))[i] in Connections(es)
  {
    InsertionOrderShape(es);
    ObjectKeysPermutes(InsertionOrder(es));
    ConnectionsShape(es);
    forall k
      ensures k in ObjectKeys(InsertionOrder(es)) <==> k in Connections(es)
    {
      assert k in ObjectKeys(InsertionOrder(es)) <==> k in multiset(ObjectKeys(InsertionOrder(es)));
      assert k in InsertionOrder(es) <==> k in multiset(InsertionOrder(es));
    }
  }

  lemma {:induction false} NoDupDistinct(s: seq<real>, i: int, j: int)
    requires NoDup(s) && 0 <= i < j < |s|
    ensures s[i] != s[j]
  {
    var x := s[j];
    assert s == s[..j] + [x] + s[j + 1..];
    assert multiset(s)[x] == multiset(s[..j])[x] + 1 + multiset(s[j + 1..])[x];
    assert multiset(s[..j])[x] == 0;
    assert s[..j][i] == s[i];
  }

  /** The connection list holds every stored connection, each exactly once,
      and nothing else. */
  lemma {:induction false} RawConnectionsExactlyOnce(cells: seq<Cell>)
    requires WellFormedCells(cells)
    ensures var dict := Connections(Edges(Polygons(cells)));
      (forall key :: key in dict ==> dict[key] in RawConnections(cells)) &&
      (forall c :: c in RawConnections(cells) ==> c in dict.Values) &&
      (forall i, j :: 0 <= i < j < |RawConnections(cells)| ==>
         RawConnections(cells)[i] != RawConnections(cells)[j])
  {
    var es := Edges(Polygons(cells));
    ListedCovers(es);
    ListedDistinct(es);
  }

  /** Every stored connection is listed, and only stored ones are. */
  lemma {:induction false} ListedCovers(es: seq<Segment>)
    ensures forall key :: key in Connections(es) ==> Connections(es)[key] in Listed(es)
    ensures forall c :: c in Listed(es) ==> c in Connections(es).Values
  {
    ListedKeys(es);
    ValuesInOrderCovers(Connections(es), ObjectKeys(InsertionOrder(es)));
  }

  /** Listing a map along keys that are exactly its keys lists every value,
      and nothing else. */
  lemma {:induction false} ValuesInOrderCovers(dict: map<real, Segment>, keys: seq<real>)
    requires forall k :: k in keys <==> k in dict
    requires forall i :: 0 <= i < |keys| ==> keys[i] in dict
    ensures forall key :: key in dict ==> dict[key] in ValuesInOrder(dict, keys)
    ensures forall c :: c in ValuesInOrder(dict, keys) ==> c in dict.Values
  {
    var raw := ValuesInOrder(dict, keys);
    forall key | key in dict
      ensures dict[key] in raw
    {
      var i :| 0 <= i < |keys| && keys[i] == key;
      assert raw[i] == dict[key];
    }
    forall c | c in raw
      ensures c in dict.Values
    {
      var i :| 0 <= i < |raw| && raw[i] == c;
      assert dict[keys[i]] == c;
    }
  }

  /** No connection is listed twice: the listed keys are distinct and each
      connection sits under its own key. */
  lemma {:induction false} ListedDistinct(es: seq<Segment>)
    ensures forall i, j :: 0 <= i < j < |Listed(es)| ==> Listed(es)[i] != Listed(es)[j]
  {
    var keys := ObjectKeys(InsertionOrder(es));
    var raw := Listed(es);
    ListedKeys(es);
    ConnectionsShape(es);
    forall i, j | 0 <= i < j < |raw|
      ensures raw[i] != raw[j]
    {
      NoDupDistinct(keys, i, j);
      assert EdgeKey(raw[i]) == keys[i] && EdgeKey(raw[j]) == keys[j];
    }
  }

  // ---------------------------------------------------------------------------
  // The contour struts

  /** Segments laid out as six floats each, as in a line-segment buffer. */
  function SegmentsFlat(ss: seq<Segment>): (r: seq<real>)
    ensures |r| == 6 * |ss|
  {
    if ss == [] then [] else SegmentsFlat(ss[..|ss| - 1]) + SegmentFloats(ss[|ss| - 1])
  }

  /** The segment stored in floats `i .. i+5` of a buffer. */
  function ChunkAt(buf: seq<real>, i: int): Segment
    requires 0 <= i && i + 6 <= |buf|
  {
    Segment(Vec3(buf[i], buf[i + 1], buf[i + 2]), Vec3(buf[i + 3], buf[i + 4], buf[i + 5]))
  }

  /** One connection per six consecutive floats of a buffer. */
  function Chunks(buf: seq<real>): (r: seq<Segment>)
    requires |buf| % 6 == 0
    ensures 6 * |r| == |buf|
  {
    if buf == [] then [] else Chunks(buf[..|buf| - 6]) + [ChunkAt(buf, |buf| - 6)]
  }

  /** Reading a segment buffer back six floats at a time gives the segments. */
  lemma {:induction false} ChunksOfFlat(ss: seq<Segment>)
    ensures Chunks(SegmentsFlat(ss)) == ss
  {
    if ss != [] {
      var init := ss[..|ss| - 1];
      var buf := SegmentsFlat(ss);
      assert buf[..|buf| - 6] == SegmentsFlat(init);
      ChunksOfFlat(init);
    }
  }

  /** The two points the contour line geometry is created with. */
  const Placeholder := Segment(Vec3(0.0, 1.0, 0.0), Vec3(0.0, -1.0, 0.0))

  /** The contour line buffer as written: the intersection segments when
      there are any; otherwise the two placeholder points are never
      overwritten and remain in the buffer. */
  function LineBufferAsWritten(results: seq<Segment>): (r: seq<real>)
    ensures |r| % 6 == 0
  {
    if results == [] then SegmentFloats(Placeholder) else SegmentsFlat(results)
  }

  /** The struts the as-written buffer yields: the intersection segments, or
      the placeholder when there are none. */
  lemma {:induction false} ContourStrutsAsWritten(results: seq<Segment>)
    ensures Chunks(LineBufferAsWritten(results)) ==
      (if results == [] then [Placeholder] else results)
  {
    if results == [] {
      var buf := LineBufferAsWritten(results);
      assert buf[..0] == [];
    } else {
      ChunksOfFlat(results);
    }
  }

  /** The contour line buffer holding exactly the intersection segments. */
  function LineBuffer(results: seq<Segment>): (r: seq<real>)
    ensures |r| % 6 == 0
  {
    SegmentsFlat(results)
  }

  /** The struts added for the contour are exactly the intersection
      segments; none when the mesh does not cut the Voronoi skin. */
  lemma {:induction false} ContourStrutsAreIntersections(results: seq<Segment>)
    ensures Chunks(LineBuffer(results)) == results
  {
    ChunksOfFlat(results);
  }

  /** The loop appending one connection per six floats of the line buffer. */
  method AppendContour(connections0: seq<Segment>, buf: seq<real>) returns (connections: seq<Segment>)
    requires |buf| % 6 == 0
    ensures connections == connections0 + Chunks(buf)
  {
    connections := connections0;
    var i := 0;
    while i < |buf|
      invariant 0 <= i <= |buf| && i % 6 == 0
      invariant connections == connections0 + Chunks(buf[..i])
    {
      assert buf[..i + 6][..i] == buf[..i];
      assert ChunkAt(buf[..i + 6], i) == ChunkAt(buf, i);
      connections := connections + [Segment(Vec3(buf[i], buf[i + 1], buf[i + 2]),
                                            Vec3(buf[i + 3], buf[i + 4], buf[i + 5]))];
      i := i + 6;
    }
    assert buf[..i] == buf;
  }

  // ---------------------------------------------------------------------------
  // The lattice pipeline

  /** The connections of a mode before the contour pass: none for a negative
      mode, the raw connections for mode 2, the pruned ones otherwise. */
  function Struts(cells: seq<Cell>, mode: int, cast: Segment -> seq<Hit>): seq<Segment>
    requires WellFormedCells(cells)
  {
    var raw := RawConnections(cells);
    if mode < 0 then [] else if mode != 2 then PrunedAll(raw, cast) else raw
  }

  /** The result of `createVoronoiLattice` for the given cells and mode, as
      written. `contour` gives the segments where the mesh cuts the Voronoi
      skin; `cast` gives the ray hits of a strut. The face modes always yield
      a strut, because an empty contour leaves the placeholder in the buffer. */
  function Lattice(cells: seq<Cell>, mode: int, contour: SkinMesh -> seq<Segment>,
                   cast: Segment -> seq<Hit>): (r: seq<Segment>)
    requires WellFormedCells(cells)
    ensures mode <= 0 ==> r != []
  {
    var struts := Struts(cells, mode, cast);
    if mode <= 0 then struts + Chunks(LineBufferAsWritten(contour(Skin(Polygons(cells))))) else struts
  }

  /** The lattice with the corrected contour buffer. */
  function LatticeIntended(cells: seq<Cell>, mode: int, contour: SkinMesh -> seq<Segment>,
                           cast: Segment -> seq<Hit>): seq<Segment>
    requires WellFormedCells(cells)
  {
    var struts := Struts(cells, mode, cast);
    if mode <= 0 then struts + Chunks(LineBuffer(contour(Skin(Polygons(cells))))) else struts
  }

  /** Mode 2 returns every stored connection exactly once, unpruned. */
  lemma {:induction false} RawMode(cells: seq<Cell>, contour: SkinMesh -> seq<Segment>, cast: Segment -> seq<Hit>)
    requires WellFormedCells(cells)
    ensures var dict := Connections(Edges(Polygons(cells)));
      var r := Lattice(cells, 2, contour, cast);
      (forall key :: key in dict ==> dict[key] in r) &&
      (forall c :: c in r ==> c in dict.Values) &&
      (forall i, j :: 0 <= i < j < |r| ==> r[i] != r[j])
  {
    RawConnectionsExactlyOnce(cells);
  }

  /** A negative mode keeps only the contour struts, the placeholder when the
      mesh does not cut the skin: neither the connections nor the ray caster
      matter. */
  lemma {:induction false} NegativeModeIsContourOnly(cells: seq<Cell>, mode: int, contour: SkinMesh -> seq<Segment>,
                                  cast: Segment -> seq<Hit>)
    requires WellFormedCells(cells) && mode < 0
    ensures var results := contour(Skin(Polygons(cells)));
      Lattice(cells, mode, contour, cast) == (if results == [] then [Placeholder] else results)
  {
    ContourStrutsAsWritten(contour(Skin(Polygons(cells))));
  }

  /** Mode 0 is the pruned connections followed by the contour struts, the
      placeholder when the mesh does not cut the skin. */
  lemma {:induction false} ZeroModeIsPrunedThenContour(cells: seq<Cell>, contour: SkinMesh -> seq<Segment>,
                                    cast: Segment -> seq<Hit>)
    requires WellFormedCells(cells)
    ensures var results := contour(Skin(Polygons(cells)));
      Lattice(cells, 0, contour, cast) ==
        PrunedAll(RawConnections(cells), cast) + (if results == [] then [Placeholder] else results)
  {
    ContourStrutsAsWritten(contour(Skin(Polygons(cells))));
  }

  /** With no intersection, the face modes end with the placeholder strut
      from (0,1,0) to (0,-1,0), which the corrected lattice does not have. */
  lemma {:induction false} EmptyContourAddsPlaceholder(cells: seq<Cell>, mode: int, contour: SkinMesh -> seq<Segment>,
                                    cast: Segment -> seq<Hit>)
    requires WellFormedCells(cells) && mode <= 0 && contour(Skin(Polygons(cells))) == []
    ensures Lattice(cells, mode, contour, cast) == LatticeIntended(cells, mode, contour, cast) + [Placeholder]
  {
    ContourStrutsAsWritten(contour(Skin(Polygons(cells))));
    ContourStrutsAreIntersections(contour(Skin(Polygons(cells))));
    var struts := Struts(cells, mode, cast);
    assert LatticeIntended(cells, mode, contour, cast) == struts + [];
    assert struts + [] == struts;
  }

  /** The as-written and corrected lattices agree whenever the mesh cuts the
      skin, and in the modes without a face pass. */
  lemma {:induction false} IntendedAgrees(cells: seq<Cell>, mode: int, contour: SkinMesh -> seq<Segment>,
                                   cast: Segment -> seq<Hit>)
    requires WellFormedCells(cells)
    requires mode > 0 || contour(Skin(Polygons(cells))) != []
    ensures Lattice(cells, mode, contour, cast) == LatticeIntended(cells, mode, contour, cast)
  {
    ContourStrutsAsWritten(contour(Skin(Polygons(cells))));
    ContourStrutsAreIntersections(contour(Skin(Polygons(cells))));
  }

  /** In the corrected lattice a negative mode is exactly the intersection
      segments and mode 0 the pruned connections followed by them. */
  lemma {:induction false} IntendedFaceModes(cells: seq<Cell>, mode: int, contour: SkinMesh -> seq<Segment>,
                                  cast: Segment -> seq<Hit>)
    requires WellFormedCells(cells) && mode <= 0
    ensures mode < 0 ==> LatticeIntended(cells, mode, contour, cast) == contour(Skin(Polygons(cells)))
    ensures mode == 0 ==>
      LatticeIntended(cells, mode, contour, cast) == PrunedAll(RawConnections(cells), cast) + contour(Skin(Polygons(cells)))
  {
    ContourStrutsAreIntersections(contour(Skin(Polygons(cells))));
  }

  /** Positive modes never use the face pass: the contour has no effect, and
      outside mode 2 the result is the pruned connections. */
  lemma {:induction false} PositiveModeIgnoresContour(cells: seq<Cell>, mode: int, contour1: SkinMesh -> seq<Segment>,
                                   contour2: SkinMesh -> seq<Segment>, cast: Segment -> seq<Hit>)
    requires WellFormedCells(cells) && mode > 0
    ensures Lattice(cells, mode, contour1, cast) == Lattice(cells, mode, contour2, cast)
    ensures mode != 2 ==> Lattice(cells, mode, contour1, cast) == PrunedAll(RawConnections(cells), cast)
  {
  }

  /** `createVoronoiLattice` after the cells are computed. */
  method CreateVoronoiLattice(cells: seq<Cell>, mode: int, contour: SkinMesh -> seq<Segment>,
                              cast: Segment -> seq<Hit>)
    returns (connections: seq<Segment>)
    requires WellFormedCells(cells)
    ensures connections == Lattice(cells, mode, contour, cast)
  {
    var skin := EmptySkin;
    if mode <= 0 {
      var vertices, normals, indices, facesDict, curIdx := AccumulateFaces(cells);
      skin := SkinMesh(vertices, normals, indices, facesDict, curIdx);
    }

    var connectionsDict, keyOrder := AccumulateConnections(cells);
    ghost var es := Edges(Polygons(cells));
    ListedKeys(es);
    connections := ValuesInOrder(connectionsDict, ObjectKeys(keyOrder));

    var lineBuffer: seq<real> := [];
    if mode <= 0 {
      lineBuffer := LineBufferAsWritten(contour(skin));
    }

    if mode >= 0 && mode != 2 {
      connections := PruneConnections(connections, cast);
    }

    if mode < 0 {
      connections := [];
    }
    if mode <= 0 {
      connections := AppendContour(connections, lineBuffer);
    }
  }

  // ---------------------------------------------------------------------------
  // Sampling

  /** A negative or zero count asks for no points. */
  function Count(numPoints: int): nat {
    if numPoints < 0 then 0 else numPoints
  }

  /** The first `n` surface samples. */
  function Draws(sample: nat -> Vec3, n: nat): (r: seq<Vec3>)
    ensures |r| == n
  {
    if n == 0 then [] else Draws(sample, n - 1) + [sample(n - 1)]
  }

  /** `samplePointsOnMesh`: one surface sample per requested point; `sample(i)`
      is the sampler's i-th answer. */
  method SamplePointsOnMesh(numPoints: int, sample: nat -> Vec3) returns (points: seq<real>)
    ensures |points| == 3 * Count(numPoints)
    ensures points == Flatten(Draws(sample, Count(numPoints)))
  {
    points := [];
    for i := 0 to Count(numPoints)
      invariant points == Flatten(Draws(sample, i))
    {
      var p := sample(i);
      points := points + [p.x, p.y, p.z];
    }
  }

  /** The samples in the order they are drawn, with the rejected ones (an even
      number of crossings of the ray towards (1,1,1)) removed. */
  function Accepted(draws: seq<Vec3>, crossings: Vec3 -> nat): (r: seq<Vec3>)
    ensures |r| <= |draws|
  {
    if draws == [] then []
    else
      var p := draws[|draws| - 1];
      Accepted(draws[..|draws| - 1], crossings) + (if crossings(p) % 2 == 1 then [p] else [])
  }

  lemma {:induction false} AcceptedAppend(s: seq<Vec3>, t: seq<Vec3>, crossings: Vec3 -> nat)
    ensures Accepted(s + t, crossings) == Accepted(s, crossings) + Accepted(t, crossings)
    decreases |t|
  {
    if t == [] {
      assert s + t == s;
    } else {
      var init := t[..|t| - 1];
      assert (s + t)[..|s + t| - 1] == s + init;
      AcceptedAppend(s, init, crossings);
    }
  }

  /** Every accepted point was drawn and lies inside the mesh by the parity
      test. */
  lemma {:induction false} AcceptedAreInside(draws: seq<Vec3>, crossings: Vec3 -> nat)
    ensures forall p :: p in Accepted(draws, crossings) ==> p in draws && crossings(p) % 2 == 1
  {
    if draws != [] {
      AcceptedAreInside(draws[..|draws| - 1], crossings);
    }
  }

  /** `samplePointsInVolume`: `draws` are the random points in the order they
      are drawn, `crossings(p)` is the number of surface hits of the ray from
      `p`. A rejected draw decrements `i`, so exactly `numPoints` points are
      accepted: the first ones that pass. The random source must supply
      enough passing draws, since otherwise the loop never ends. */
  method SamplePointsInVolume(numPoints: int, draws: seq<Vec3>, crossings: Vec3 -> nat)
    returns (points: seq<real>)
    requires |Accepted(draws, crossings)| >= numPoints
    ensures |points| == 3 * Count(numPoints)
    ensures points == Flatten(Accepted(draws, crossings)[..Count(numPoints)])
  {
    points := [];
    var attempt := 0;
    var i := 0;
    while i < numPoints
      invariant 0 <= attempt <= |draws| && 0 <= i <= Count(numPoints)
      invariant i == |Accepted(draws[..attempt], crossings)|
      invariant points == Flatten(Accepted(draws[..attempt], crossings))
      decreases |draws| - attempt
    {
      AcceptedAppend(draws[..attempt], draws[attempt..], crossings);
      assert draws[..attempt] + draws[attempt..] == draws;
      var p := draws[attempt];
      assert draws[..attempt + 1][..attempt] == draws[..attempt];
      ghost var before := Accepted(draws[..attempt], crossings);
      assert Accepted(draws[..attempt + 1], crossings) ==
        before + (if crossings(p) % 2 == 1 then [p] else []);
      attempt := attempt + 1;
      if crossings(p) % 2 == 1 {
        FlattenAppend(before, [p]);
        assert Flatten([p]) == [p.x, p.y, p.z];
        points := points + [p.x, p.y, p.z];
      } else {
        i := i - 1;
        assert before + [] == before;
      }
      i := i + 1;
    }
    AcceptedAppend(draws[..attempt], draws[attempt..], crossings);
    assert draws[..attempt] + draws[attempt..] == draws;
    assert Accepted(draws[..attempt], crossings) == Accepted(draws, crossings)[..Count(numPoints)];
  }

  // ---------------------------------------------------------------------------
  // The message dispatcher

  datatype Request<D> = Request(kind: string, data: D)

  /** `{type, result}` for a handled request, `{type: "Error", result, data}`
      otherwise. */
  datatype Reply<D, R> = Done(kind: string, result: R) | Error(message: string, data: D)

  const Handlers: set<string> :=
    {"StoreMesh", "SamplePointsOnMesh", "SamplePointsInVolume", "CreateVoronoiLattice"}

  const UnknownPrefix := "Unknown type: "

  /** `onmessage`: `run(kind, data)` is what the handler of `kind` returns. */
  function Dispatch<D, R>(req: Request<D>, run: (string, D) -> R): (reply: Reply<D, R>)
    ensures reply.Error? <==> req.kind !in Handlers
    ensures reply.Done? ==> reply.kind == req.kind && reply.result == run(req.kind, req.data)
    ensures reply.Error? ==> reply.data == req.data
  {
    if req.kind in Handlers then Done(req.kind, run(req.kind, req.data))
    else Error(UnknownPrefix + req.kind, req.data)
  }

  /** The error reply names the offending type: it can be read back from the
      message. */
  lemma {:induction false} ErrorNamesType<D, R>(req: Request<D>, run: (string, D) -> R)
    requires req.kind !in Handlers
    ensures Dispatch(req, run).message[..|UnknownPrefix|] == UnknownPrefix
    ensures Dispatch(req, run).message[|UnknownPrefix|..] == req.kind
  {
  }
}
