/** Trimming of lattice struts to the inside of the mesh (the pruning pass of
    the lattice worker). A ray is cast from the first endpoint of a strut
    towards the second; the hits it returns (in the order the ray caster
    reports them) cut the strut into pieces, and the pieces that lie inside
    the mesh by the even/odd rule are kept. The ray caster is an input: for
    each strut, its list of hits. */
module Pruning {
  import opened Geometry

  /** One ray hit: its distance along the ray and the point hit. */
  datatype Hit = Hit(distance: real, point: Vec3)

  /** The squared length of a strut, `xd*xd + yd*yd + zd*zd`. */
  function Len2(c: Segment): real {
    Dot(Sub(c.b, c.a), Sub(c.b, c.a))
  }

  /** `distance >= maxDist` with `maxDist` the square root of `Len2(c)`,
      written without the square root: both sides are non-negative. */
  predicate Reaches(h: Hit, c: Segment) {
    h.distance >= 0.0 && h.distance * h.distance >= Len2(c)
  }

  /** The index of the first hit at or beyond the far endpoint, or the number
      of hits when there is none. */
  function Stop(c: Segment, hits: seq<Hit>): (s: nat)
    ensures s <= |hits|
    ensures forall j :: 0 <= j < s ==> !Reaches(hits[j], c)
    ensures s < |hits| ==> Reaches(hits[s], c)
  {
    if hits == [] then 0
    else if Reaches(hits[0], c) then 0
    else 1 + Stop(c, hits[1..])
  }

  /** How many hits the loop visits: it breaks right after the stopping hit. */
  function Visited(c: Segment, hits: seq<Hit>): (n: nat)
    ensures n <= |hits|
  {
    if Stop(c, hits) < |hits| then Stop(c, hits) + 1 else |hits|
  }

  /** The start point is inside the mesh when the whole ray crosses its
      surface an odd number of times. */
  predicate StartsInside(hits: seq<Hit>) {
    |hits| % 2 == 1
  }

  /** The piece ending at hit `j` is kept on this parity test. */
  predicate Keep(startsInside: bool, j: int) {
    (startsInside && j % 2 == 0) || (!startsInside && j % 2 != 0)
  }

  /** Where the piece ending at hit `j` starts. */
  function Origin(c: Segment, hits: seq<Hit>, j: nat): Vec3
    requires j <= |hits|
  {
    if j == 0 then c.a else hits[j - 1].point
  }

  /** The piece ending at hit `j`; the stopping hit is replaced by the far
      endpoint of the strut. */
  function Piece(c: Segment, hits: seq<Hit>, j: nat): (r: Segment)
    requires j < |hits|
    ensures r.a == Origin(c, hits, j)
  {
    Segment(Origin(c, hits, j), if j == Stop(c, hits) then c.b else hits[j].point)
  }

  /** The pieces kept among the first `n` visited hits. */
  function Kept(c: Segment, hits: seq<Hit>, n: nat): seq<Segment>
    requires n <= |hits|
  {
    if n == 0 then []
    else Kept(c, hits, n - 1) + (if Keep(StartsInside(hits), n - 1) then [Piece(c, hits, n - 1)] else [])
  }

  /** What the pruning pass emits for one strut. */
  function Pruned(c: Segment, hits: seq<Hit>): seq<Segment> {
    Kept(c, hits, Visited(c, hits))
  }

  /** The parity test means: the piece before hit `j` is inside exactly when
      an odd number of hits lie beyond it. */
  lemma {:induction false} KeepMeansOddRemaining(hits: seq<Hit>, j: nat)
    requires j < |hits|
    ensures Keep(StartsInside(hits), j) <==> (|hits| - j) % 2 == 1
  {
  }

  /** The parity offset: the index of the first kept piece. */
  function Offset(hits: seq<Hit>): nat {
    if StartsInside(hits) then 0 else 1
  }

  lemma {:induction false} KeepIffOffset(hits: seq<Hit>, j: nat)
    ensures Keep(StartsInside(hits), j) <==> j % 2 == Offset(hits)
  {
  }

  /** Closed form: the kept pieces are exactly every other piece, starting
      from the first one inside. */
  lemma {:induction false} KeptClosedForm(c: Segment, hits: seq<Hit>, n: nat)
    requires n <= |hits|
    ensures |Kept(c, hits, n)| == (n + 1 - Offset(hits)) / 2
    ensures forall m :: 0 <= m < |Kept(c, hits, n)| ==>
      2 * m + Offset(hits) < n && Kept(c, hits, n)[m] == Piece(c, hits, 2 * m + Offset(hits))
  {
    if n > 0 {
      var prev, o := Kept(c, hits, n - 1), Offset(hits);
      KeptClosedForm(c, hits, n - 1);
      KeepIffOffset(hits, n - 1);
      var k := |prev|;
      assert k == (n - o) / 2;
      if Keep(StartsInside(hits), n - 1) {
        assert Kept(c, hits, n) == prev + [Piece(c, hits, n - 1)];
        assert (n - 1) % 2 == o;
        assert 2 * k + o == n - 1;
      } else {
        assert Kept(c, hits, n) == prev;
        assert (n - 1) % 2 != o;
      }
    }
  }

  /** At most one piece per hit, and none without hits. */
  lemma {:induction false} PrunedBound(c: Segment, hits: seq<Hit>)
    ensures |Pruned(c, hits)| <= |hits|
    ensures hits == [] ==> Pruned(c, hits) == []
  {
    KeptClosedForm(c, hits, Visited(c, hits));
  }

  /** A strut that starts inside and meets the surface only at or beyond its
      far end is kept whole. */
  lemma {:induction false} WholeStrutInside(c: Segment, hits: seq<Hit>)
    requires StartsInside(hits) && Reaches(hits[0], c)
    ensures Pruned(c, hits) == [c]
  {
    assert Stop(c, hits) == 0 && Visited(c, hits) == 1;
    assert Kept(c, hits, 1) == [Piece(c, hits, 0)];
  }

  /** A strut that starts outside and meets the surface only at or beyond its
      far end is dropped. */
  lemma {:induction false} WholeStrutOutside(c: Segment, hits: seq<Hit>)
    requires hits != [] && !StartsInside(hits) && Reaches(hits[0], c)
    ensures Pruned(c, hits) == []
  {
    assert Stop(c, hits) == 0 && Visited(c, hits) == 1;
    assert Kept(c, hits, 1) == [];
  }

  /** Consecutive kept pieces are separated by exactly one dropped piece: the
      end of kept piece m is the hit whose successor piece is dropped, and
      the next kept piece starts at the hit after that. */
  lemma {:induction false} KeptPiecesAlternate(c: Segment, hits: seq<Hit>, m: nat)
    requires m + 1 < |Pruned(c, hits)|
    ensures 2 * m + Offset(hits) + 1 < |hits|
    ensures Pruned(c, hits)[m].b == hits[2 * m + Offset(hits)].point
    ensures Pruned(c, hits)[m + 1].a == hits[2 * m + Offset(hits) + 1].point
  {
    KeptClosedForm(c, hits, Visited(c, hits));
  }

  // ---------------------------------------------------------------------------
  // The loops

  /** The trimming loop for one strut. */
  method PruneConnection(c: Segment, intersects: seq<Hit>) returns (pieces: seq<Segment>)
    ensures pieces == Pruned(c, intersects)
  {
    var xd := c.b.x - c.a.x;
    var yd := c.b.y - c.a.y;
    var zd := c.b.z - c.a.z;
    var maxDist2 := xd * xd + yd * yd + zd * zd;
    var startsInside := |intersects| % 2 == 1;
    var curOrigin := c.a;
    pieces := [];
    var j := 0;
    while j < |intersects|
      invariant j <= Stop(c, intersects)
      invariant curOrigin == Origin(c, intersects, j)
      invariant pieces == Kept(c, intersects, j)
    {
      var d := intersects[j].distance;
      if d >= 0.0 && d * d >= maxDist2 {
        if (startsInside && j % 2 == 0) || (!startsInside && j % 2 != 0) {
          pieces := pieces + [Segment(curOrigin, c.b)];
        }
        break;
      } else {
        if (startsInside && j % 2 == 0) || (!startsInside && j % 2 != 0) {
          pieces := pieces + [Segment(curOrigin, intersects[j].point)];
        }
      }
      curOrigin := intersects[j].point;
      j := j + 1;
    }
  }

  /** The pieces of all struts, strut by strut. */
  function PrunedAll(conns: seq<Segment>, cast: Segment -> seq<Hit>): seq<Segment> {
    if conns == [] then []
    else PrunedAll(conns[..|conns| - 1], cast) + Pruned(conns[|conns| - 1], cast(conns[|conns| - 1]))
  }

  /** A strut's pieces never outnumber the hits of its ray. */
  lemma {:induction false} PrunedAllBound(conns: seq<Segment>, cast: Segment -> seq<Hit>)
    ensures |PrunedAll(conns, cast)| <= SumHits(conns, cast)
  {
    if conns != [] {
      PrunedAllBound(conns[..|conns| - 1], cast);
      PrunedBound(conns[|conns| - 1], cast(conns[|conns| - 1]));
    }
  }

  function SumHits(conns: seq<Segment>, cast: Segment -> seq<Hit>): nat {
    if conns == [] then 0 else SumHits(conns[..|conns| - 1], cast) + |cast(conns[|conns| - 1])|
  }

  /** The pruning pass over all struts. */
  method PruneConnections(connections: seq<Segment>, cast: Segment -> seq<Hit>)
    returns (prunedConnections: seq<Segment>)
    ensures prunedConnections == PrunedAll(connections, cast)
  {
    prunedConnections := [];
    for i := 0 to |connections|
      invariant prunedConnections == PrunedAll(connections[..i], cast)
    {
      var intersects := cast(connections[i]);
      var pieces := PruneConnection(connections[i], intersects);
      assert connections[..i + 1][..i] == connections[..i];
      prunedConnections := prunedConnections + pieces;
    }
    assert connections[..|connections|] == connections;
  }
}
