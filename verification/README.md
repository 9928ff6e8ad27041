# StochasticLatticeGen, modelled in Dafny

StochasticLatticeGen turns a triangle mesh into a stochastic Voronoi
lattice. Points are sampled on the surface or inside the volume of the mesh.
A Voronoi decomposition of those points is computed by the `voro3d` wasm
container. The edges of the Voronoi cells become struts ("connections"),
and the struts are then trimmed to the inside of the mesh by ray casting.
Optionally, the struts where the mesh surface cuts the Voronoi skin are
added as well. This project models the core of that pipeline and proves
what each part delivers.

- **The lattice worker** (`assets/worker.js`):
  - the face pass, which triangulates each shared Voronoi face once (`LatticeFaces`);
  - the connection pass, a dictionary keyed by the coordinate sum of an edge (`LatticeConnections`);
  - `Object.keys` order (`JsObject`);
  - the parity-based trimming (`Pruning`);
  - the mode selector, the contour struts, both point samplers and the message dispatcher (`Worker`).
- **The voxel segment index** (`src/SegmentAccelerator.js`): a class over a
  `res x res x res` array of buckets (`SegmentIndex`), with its 3-D Bresenham
  rasteriser (`Raster`) and the nearest point on a segment.
- **The page script's vertex-welded face accumulation** (`src/main.js`,
  `PageLattice`).
- **The TypeScript wrapper of the Voronoi container** (`assets/voro3d/src/voro3d.ts`,
  `Voro3D`): argument defaulting, point marshalling, cell copying and sorting.
- **The worker shim's `EventHandler`** (`src/worker-with-import-map.js`, `Events`).

Coordinates are reals. Work done by libraries is a parameter of the model:

- the container's own cell computation;
- three.js ray casts and surface sampling;
- the BVH triangle-triangle intersection;
- `Math.random`.

Loops in the source are methods with loop invariants. Each method is proved
equal to a specification function, and the lemmas state what that function
guarantees. Objects updated in place are classes: `SegmentAccelerator` and
`EventHandler`.

## Model

| member | source | states |
|---|---|---|
| `JsObject.ObjectKeysPermutes` | assets/worker.js:215 | `Object.keys` lists every stored key exactly once. The array-index keys come first in ascending order; after them come the others. |
| `JsObject.SplitKeys` | assets/worker.js:215 | The index keys and the other keys together are exactly the stored keys. |
| `JsObject.OtherKeysKeepOrder` | assets/worker.js:215 | Non-index keys keep their insertion order. |
| `LatticeFaces.FaceKeyOf` | assets/worker.js:142 | The face key is the pair (max, min) of the particle id and the neighbour id. |
| `LatticeFaces.FaceKeySymmetric` | assets/worker.js:142 | Both cells of a face compute the same key. Two keys are equal exactly when they separate the same two particles. |
| `LatticeFaces.FanBounds` | assets/worker.js:165-169 | Every fan index of a t-triangle fan lies in [curIdx, curIdx + t + 2). |
| `LatticeFaces.AddPolygonWellFormed` | assets/worker.js:152-171 | One face keeps the buffers consistent: the lengths match, indices name emitted vertices, and starts are in range. |
| `LatticeFaces.AddPolygonKeys` | assets/worker.js:152-153 | After a face, its key is recorded, whether or not it was new. |
| `LatticeFaces.SkinWellFormed` | assets/worker.js:133-177 | The face pass keeps `3*curIdx` floats in each buffer and indices below `curIdx`. It records exactly the keys it met. |
| `LatticeFaces.DuplicateFaceAddsNothing` | assets/worker.js:152 | A face whose key was already seen leaves the mesh unchanged. |
| `LatticeFaces.SharedFaceTriangulatedOnce` | assets/worker.js:142-152 | The face between a and b, met again from b's side, adds nothing. |
| `LatticeFaces.NewFaceAppends` | assets/worker.js:152-170 | A new face with n corners appends 3n vertex floats, 3n normal floats and n-2 fan triangles. It records its start and advances `curIdx` by n. |
| `LatticeFaces.AddPolygonExtends` | assets/worker.js:152-171 | A face only appends to the buffers and never moves a recorded start. |
| `LatticeFaces.SkinGrows` | assets/worker.js:137-176 | Later faces only append: the buffers of a prefix are prefixes of the final buffers. |
| `LatticeFaces.FirstFaceRecorded` | assets/worker.js:152-162 | `facesDict[key]` is where the corners and normal of the first face with that key start. |
| `LatticeFaces.PushFace` | assets/worker.js:139-171 | One iteration of the face loop is one step of the face-pass specification. |
| `LatticeFaces.PushCorners` | assets/worker.js:155-162 | The corner loop appends the face's corner coordinates, plus one normal per corner. |
| `LatticeFaces.PushFan` | assets/worker.js:165-169 | The index loop appends the fan (curIdx, curIdx+k, curIdx+k+1) for k = 1 .. n-2. |
| `LatticeFaces.AccumulateFaces` | assets/worker.js:133-177 | The nested loops compute the face-pass specification over every face of every cell, in order. |
| `LatticeConnections.FaceEdges` | assets/worker.js:185-187 | A face with n corners gives n edges, from corner k to corner (k+1) mod n. |
| `LatticeConnections.Oriented` | assets/worker.js:202-206 | The stored edge is the edge or its reverse, with the smaller coordinate sum first. Its key does not change. |
| `LatticeConnections.InsertionOrderShape` | assets/worker.js:201-207 | Each key enters the key order once, when it is first stored. |
| `LatticeConnections.ConnectionsShape` | assets/worker.js:197-207 | The dictionary's keys are exactly the keys of the edges met. Each entry sits under its own key, smaller sum first. |
| `LatticeConnections.ConnectionsGrow` | assets/worker.js:201 | A stored connection is never overwritten. |
| `LatticeConnections.FirstEdgeWins` | assets/worker.js:197-207 | The entry under a key is the first edge that produced the key, oriented. |
| `LatticeConnections.CollidingKeyDropped` | assets/worker.js:197-201 | A different edge with an already stored sum is dropped. |
| `LatticeConnections.RepeatedEdgeIgnored` | assets/worker.js:185-201 | The same edge met again, in either direction, changes nothing. |
| `LatticeConnections.PushEdge` | assets/worker.js:186-207 | One iteration of the edge loop stores edge k of face j unless its key is present. |
| `LatticeConnections.PushFaceEdges` | assets/worker.js:185-208 | The edge loop over a face stores the face's edges in order. |
| `LatticeConnections.AccumulateConnections` | assets/worker.js:180-213 | The connection loops compute the dictionary, and its key order, of all edges of all faces. |
| `Pruning.Stop` | assets/worker.js:250-255 | The loop stops at the first hit at or beyond the far endpoint. |
| `Pruning.Visited` | assets/worker.js:250-263 | The loop visits the hits up to and including the stopping hit. |
| `Pruning.Piece` | assets/worker.js:249-262 | A piece runs from the previous hit (or the start) to this hit. At the stopping hit it runs to the far endpoint instead. |
| `Pruning.KeepMeansOddRemaining` | assets/worker.js:246-257 | The parity test keeps the piece before hit j exactly when an odd number of hits lie at or beyond it. |
| `Pruning.KeepIffOffset` | assets/worker.js:246-257 | The kept pieces are those of one parity. |
| `Pruning.KeptClosedForm` | assets/worker.js:250-263 | The kept pieces are every other piece, starting with the first piece inside; their count is given in closed form. |
| `Pruning.PrunedBound` | assets/worker.js:250-263 | A strut yields at most one piece per hit, and none without hits. |
| `Pruning.WholeStrutInside` | assets/worker.js:246-255 | A strut that starts inside and whose first hit is beyond its end is kept whole. |
| `Pruning.WholeStrutOutside` | assets/worker.js:246-255 | A strut that starts outside and whose first hit is beyond its end is dropped. |
| `Pruning.KeptPiecesAlternate` | assets/worker.js:250-263 | Consecutive kept pieces are separated by exactly one dropped piece. |
| `Pruning.PruneConnection` | assets/worker.js:231-263 | The trimming loop for one strut emits exactly the specified pieces. |
| `Pruning.PrunedAllBound` | assets/worker.js:227-269 | The trimmed struts never outnumber the hits of all rays. |
| `Pruning.PruneConnections` | assets/worker.js:227-269 | The pruning pass emits the pieces of every strut, strut by strut. |
| `Worker.ValuesInOrderCovers` | assets/worker.js:215 | `keys.map(key => dict[key])` over keys that are exactly the dictionary's keys lists every stored value, and only stored values. |
| `Worker.ListedKeys` | assets/worker.js:215 | `Object.keys(connectionsDict)` lists exactly the stored keys, each once. |
| `Worker.RawConnectionsExactlyOnce` | assets/worker.js:180-215 | The connection list holds every stored connection exactly once, and nothing else. |
| `Worker.ListedCovers` | assets/worker.js:215 | Every stored connection is listed, and only stored ones are. |
| `Worker.ListedDistinct` | assets/worker.js:215 | No connection is listed twice. |
| `Worker.ChunksOfFlat` | assets/worker.js:274-281 | Reading a segment buffer six floats at a time gives back the segments written into it. |
| `Worker.LineBufferAsWritten` | assets/worker.js:305-343 | The contour buffer holds whole segments: the results, or the placeholder when there are none. |
| `Worker.ContourStrutsAsWritten` | assets/worker.js:272-343 | Read back six floats at a time, the buffer as written gives the intersection segments. When there are none it gives the single placeholder strut (0,1,0)-(0,-1,0). |
| `Worker.LineBuffer` | assets/worker.js:331-343 | The corrected contour buffer holds whole segments. |
| `Worker.ContourStrutsAreIntersections` | assets/worker.js:272-281 | The contour struts are exactly the intersection segments. |
| `Worker.AppendContour` | assets/worker.js:274-281 | The loop appends one connection per six floats of the buffer. |
| `Worker.Lattice` | assets/worker.js:217-282 | As written, the modes with the face pass (mode <= 0) always return at least one strut, even when nothing else survives. |
| `Worker.RawMode` | assets/worker.js:227 | Mode 2 returns every stored connection exactly once, unpruned. |
| `Worker.NegativeModeIsContourOnly` | assets/worker.js:271-282 | A negative mode returns exactly the intersection segments. When there are none it returns the placeholder strut alone. |
| `Worker.ZeroModeIsPrunedThenContour` | assets/worker.js:217-282 | Mode 0 returns the pruned connections followed by the intersection segments, or by the placeholder strut when there are none. |
| `Worker.EmptyContourAddsPlaceholder` | assets/worker.js:271-282 | With no intersection, a face mode returns the corrected result with the placeholder strut appended. |
| `Worker.IntendedAgrees` | assets/worker.js:217-282 | The as-written and corrected lattices are equal when the mesh cuts the skin, and in every positive mode. |
| `Worker.IntendedFaceModes` | assets/worker.js:271-282 | In the corrected lattice a negative mode returns exactly the intersection segments, and mode 0 the pruned connections followed by them. |
| `Worker.PositiveModeIgnoresContour` | assets/worker.js:133-282 | Positive modes ignore the contour. Outside mode 2 they return the pruned connections. |
| `Worker.CreateVoronoiLattice` | assets/worker.js:113-301 | `createVoronoiLattice` after the cells returns the as-written lattice of the given mode. |
| `Worker.SamplePointsOnMesh` | assets/worker.js:57-75 | Returns `3*numPoints` floats, the coordinates of the samples in draw order. A negative count gives none. |
| `Worker.AcceptedAreInside` | src/main.js:100-121 | Every accepted sample was drawn and passes the odd-crossings test. |
| `Worker.AcceptedAppend` | assets/worker.js:87-108 | The accepted samples of two runs of draws are concatenated. |
| `Worker.SamplePointsInVolume` | assets/worker.js:77-111 | Returns exactly `numPoints` points: the first draws that pass the parity test, in order. |
| `Worker.Dispatch` | assets/worker.js:360-372 | A known type gets a reply of that type with the handler's result. Any other type gets an Error reply carrying the data. |
| `Worker.ErrorNamesType` | assets/worker.js:370 | The error message is "Unknown type: " followed by the type. |
| `Voro3D.OrDefault` | assets/voro3d/src/voro3d.ts:50 | The logical or `v or d` of JavaScript gives d exactly when v is missing, zero or d itself. Otherwise it gives v. |
| `Voro3D.NewContainer` | assets/voro3d/src/voro3d.ts:49-59 | Each argument is kept unless missing or zero, else defaults to -10, 10 or 1. No bound is ever 0. |
| `Voro3D.ZeroMinimumIsReplaced` | assets/voro3d/src/voro3d.ts:50-54 | Asking for the box [0,1]^3 yields minimum corner (-10,-10,-10). |
| `Voro3D.NullishDefault` | assets/voro3d/src/voro3d.ts:50 | `v ?? d` keeps any given value and replaces only a missing one. |
| `Voro3D.NewContainerNullish` | assets/voro3d/src/voro3d.ts:49-59 | With `??`, every given argument is kept and only missing ones default. |
| `Voro3D.NullishKeepsZeroMinimum` | assets/voro3d/src/voro3d.ts:50-54 | With `??`, the box [0,1]^3 is the container's box. |
| `Voro3D.NestedStorageAt` | assets/voro3d/src/voro3d.ts:85-89 | Nested input is pushed as x, y, z of every point, in order. |
| `Voro3D.FillPointStorage` | assets/voro3d/src/voro3d.ts:81-90 | The push_back loops fill the float vector with the input's coordinates: flat input as is, nested input three per point. |
| `Voro3D.CopyCell` | assets/voro3d/src/voro3d.ts:97-123 | The element-by-element copy gives a cell whose fields equal the exported cell's. |
| `Voro3D.Insert` | assets/voro3d/src/voro3d.ts:130 | Inserting into a sorted list keeps it sorted and adds exactly that cell. |
| `Voro3D.SortById` | assets/voro3d/src/voro3d.ts:130 | The sort returns the cells in ascending particle id, as a permutation of the input. |
| `Voro3D.ComputeCells` | assets/voro3d/src/voro3d.ts:77-131 | Empty input gives no cells. Otherwise: one cell per exported cell, sorted by particle id, a permutation of the converted exports. |
| `PageLattice.AddVertex` | src/main.js:154-164 | After a corner, its point is registered and earlier registrations remain. |
| `PageLattice.AddVertices` | src/main.js:153-165 | The corner loop registers every corner and leaves the indices and `curIdx` alone. |
| `PageLattice.AddVertexKeeps` | src/main.js:154-164 | One corner keeps the welded mesh consistent and only extends it. |
| `PageLattice.AddVerticesRegisters` | src/main.js:153-165 | After the corner loop every corner is registered; the mesh stays consistent and is only extended. |
| `PageLattice.Fan` | src/main.js:168-175 | The fan of a face has 3(n-2) indices. |
| `PageLattice.FanAt` | src/main.js:168-175 | Fan triangle s names the vertices of corners 0, s+1 and s+2. |
| `PageLattice.FanBounded` | src/main.js:168-175 | Fan indices are bounded like the dictionary's values. |
| `PageLattice.WeldedFaceKeeps` | src/main.js:139-176 | A face keeps the mesh consistent, changes nothing stored before and adds 3(n-2) indices. |
| `PageLattice.WeldedFaceTriangles` | src/main.js:153-175 | Each triangle of a face names stored vertices with exactly the coordinates of corners 0, k and k+1. |
| `PageLattice.Weld` | src/main.js:136-179 | The welded accumulation keeps the mesh consistent. |
| `PageLattice.WeldGrows` | src/main.js:136-179 | Later faces never change earlier storage: the buffers only grow and registered points keep their vertex. |
| `PageLattice.AddVertexNormal` | src/main.js:154-164 | A point met for the first time is stored with the normal of its face. |
| `PageLattice.AddVerticesNormal` | src/main.js:153-165 | The corner loop registers only the face's own corners, and every point it newly registers carries the face normal. |
| `PageLattice.ExtendsKeepsNormal` | src/main.js:154-164 | Nothing a later face does changes the normal stored for a registered point. |
| `PageLattice.WeldUnseen` | src/main.js:136-165 | A point that is no corner of any face is never registered. |
| `PageLattice.WeldIntroduces` | src/main.js:143-164 | The face that first meets a point stores it with that face's normal. |
| `PageLattice.WeldNormal` | src/main.js:136-179 | Every welded vertex carries the normal of the first face that has it as a corner, whatever faces follow. |
| `PageLattice.WeldTriangleCount` | src/main.js:168-176 | Every face adds n-2 triangles; faces are not de-duplicated. |
| `PageLattice.RegisterCorners` | src/main.js:153-165 | The corner loop computes the corner-registration specification. |
| `PageLattice.PushFan` | src/main.js:168-175 | The fan loop appends the specified fan. |
| `PageLattice.PushWeldedFace` | src/main.js:139-177 | One iteration of the face loop is one step of the welding specification. |
| `PageLattice.WeldCell` | src/main.js:137-178 | The face loop of one cell continues the welding specification over that cell's faces. |
| `PageLattice.WeldFaces` | src/main.js:133-179 | The nested loops compute the welding specification. The result is consistent: each stored vertex has three coordinate and three normal floats, and indices name stored vertices. |
| `Raster.MinorEnds` | src/SegmentAccelerator.js:126-127 | A minor axis has not moved before the first step and has moved its full extent by the last. |
| `Raster.MinorNext` | src/SegmentAccelerator.js:130-139 | A minor coordinate moves exactly when its error term is non-negative. The term then drops by 2du, and it always grows by 2dv. |
| `Raster.MinorSteps` | src/SegmentAccelerator.js:130-139 | A minor coordinate moves by zero or one unit per step. |
| `Raster.Line` | src/SegmentAccelerator.js:100-181 | The line has max(dx, dy, dz) + 1 voxels. It starts at the start voxel and ends at the end voxel. |
| `Raster.LineSteps` | src/SegmentAccelerator.js:128-140 | Successive voxels are adjacent, and the driving coordinate moves one unit towards the end. |
| `Raster.LineDistinct` | src/SegmentAccelerator.js:128-140 | No voxel is listed twice. |
| `Raster.Bresenham3D` | src/SegmentAccelerator.js:92-182 | `Bresenham3D` returns the specified line between the floored end points. |
| `Raster.Walk` | src/SegmentAccelerator.js:125-180 | The branch for the driving axis yields the line. |
| `Raster.WalkFrame` | src/SegmentAccelerator.js:125-141 | The loop with error terms p1 and p2 yields the frame walk. |
| `Raster.WalkedIsLine` | src/SegmentAccelerator.js:125-180 | The walk along the driving axis, mapped back out of its frame, is the line. |
| `SegmentIndex.ClosestPoint` | src/SegmentAccelerator.js:70-87 | There is no point exactly when the end points coincide (the source's NaN). Otherwise the point lies on the segment, at a parameter in [0, 1]. |
| `SegmentIndex.Clamp01` | src/SegmentAccelerator.js:82 | `Math.max(0, Math.min(1, x))` lies in [0, 1] and is x when x already does. |
| `SegmentIndex.Degenerate` | src/SegmentAccelerator.js:71-75 | `baba` is zero exactly when the segment's end points coincide. |
| `SegmentIndex.ClosestIsNearest` | src/SegmentAccelerator.js:70-87 | For a proper segment the returned point lies on the segment, and no point of the segment is nearer. |
| `SegmentIndex.NearestAlong` | src/SegmentAccelerator.js:81-86 | The clamped parameter `paba/baba` minimises the distance over [0, 1]. |
| `SegmentIndex.ClosestAll` | src/SegmentAccelerator.js:63-65 | One nearest point per segment, in order. |
| `SegmentIndex.ClosestPoints` | src/SegmentAccelerator.js:60-67 | The loop pushes the nearest point of each segment, in order. |
| `SegmentIndex.CenterAxisInside` | src/SegmentAccelerator.js:52 | The centre of cell i along an axis lies strictly between the bounds. |
| `SegmentIndex.CenterAxisBack` | src/SegmentAccelerator.js:45-52 | Mapping a cell centre back into grid units and flooring gives the cell again. |
| `SegmentIndex.SegmentAccelerator.constructor` | src/SegmentAccelerator.js:4-20 | Every voxel of the grid starts with an empty bucket. |
| `SegmentIndex.SegmentAccelerator.AddSegment` | src/SegmentAccelerator.js:23-42 | The segment is appended once to the bucket of every rasterised voxel inside the grid. Every other bucket is unchanged. |
| `SegmentIndex.SegmentAccelerator.PushAll` | src/SegmentAccelerator.js:33-41 | The loop skips out-of-grid voxels and appends to each in-grid voxel once. |
| `SegmentIndex.SegmentAccelerator.Push` | src/SegmentAccelerator.js:37-40 | One bucket receives the segment and no other bucket changes. |
| `SegmentIndex.SegmentAccelerator.VoxelAtPoint` | src/SegmentAccelerator.js:44-49 | The bucket returned is that of the voxel whose unit cell, in grid units, holds the point. That voxel lies in the grid. |
| `SegmentIndex.SegmentAccelerator.VoxelCenter` | src/SegmentAccelerator.js:44-57 | `getVoxelAtPoint` of a voxel's centre is that voxel, and the centre of a grid voxel lies strictly inside the box. |
| `SegmentIndex.SegmentAccelerator.GetClosestPointsOnSegmentsToPoint` | src/SegmentAccelerator.js:59-68 | One nearest point per segment of the point's own bucket, in bucket order. |
| `Events.Added` | src/worker-with-import-map.js:15 | `Set.add` keeps listeners distinct and appends only a new listener; the old order is a prefix. |
| `Events.Removed` | src/worker-with-import-map.js:22 | `Set.delete` drops exactly that listener, keeps the others and stays duplicate-free. |
| `Events.Dispatched` | src/worker-with-import-map.js:27-31 | The `on<type>` property is called first when set, then every listener of the type. |
| `Events.AddIdempotent` | src/worker-with-import-map.js:13-16 | Adding the same listener twice registers it once. |
| `Events.RemoveUndoesAdd` | src/worker-with-import-map.js:13-23 | Removing a freshly added listener restores the previous set. |
| `Events.RemoveAbsent` | src/worker-with-import-map.js:22 | Removing an absent listener changes nothing. |
| `Events.RemovedNotDispatched` | src/worker-with-import-map.js:21-31 | A removed listener is no longer called for that type, unless it is also the `on` property. |
| `Events.EventHandler.constructor` | src/worker-with-import-map.js:2-8 | No properties are set and there are no listeners. |
| `Events.EventHandler.AddEventListener` | src/worker-with-import-map.js:13-16 | The type's set is created when missing and the listener is added. Nothing else changes. |
| `Events.EventHandler.RemoveEventListener` | src/worker-with-import-map.js:21-23 | The listener is deleted from an existing set. A missing type is not created. |
| `Events.EventHandler.DispatchEvent` | src/worker-with-import-map.js:27-31 | The listeners called, in call order, are the specified ones. |

## Left out

- Progress and log messages, and the unused handlers:
  - `postMessage` progress reports and `console.log`;
  - `storeMesh` and `serializeMesh`, and the mesh registry `namesToMeshes`;
  - a handler's own work: `Dispatch` takes a `run` function in its place.
- Library work, taken as parameters of the model:
  - the Voronoi computation of the wasm container;
  - three.js ray casting (`cast`, `crossings`);
  - `MeshSurfaceSampler` (`sample`);
  - the BVH triangle-triangle intersection (`contour`);
  - `Math.random` (`draws`).
- The asynchronous loading and re-creation of the Voronoi container: `Voro3D.create`, and worker.js lines 40-55 and 284-297. Only the constructor's argument defaulting is modelled.
- The `Voro3D` getters and setters. They forward to the container.
- `delete()` calls on wasm objects.
- Floating point:
  - Coordinates are reals: no rounding, and no NaN or infinities.
  - Float32 storage in the line and mesh buffers is left out.
  - Connection keys are exact sums, so float rounding cannot make two keys collide or differ.
  - Keys are compared as numbers, not as their strings.
- Geometry shortcuts:
  - The worker's face normal is the unnormalised cross product, because `normalize` needs a square root.
  - The pruning comparison `distance >= sqrt(len2)` is stated as `distance >= 0 && distance^2 >= len2`, which is the same test over reals.
- `PageLattice`: the page script's face normal is an input (`normalOf`). The source builds it with `Vector3.fromArray` on three numbers, which does not read them as coordinates.
- `PageLattice`: the vertex key string `x-y-z` is modelled as the point itself.
- The rest of `src/main.js` (user interface, rendering, downloads) is not part of this model.
- The rest of `src/worker-with-import-map.js` (the import map and the worker shim around `EventHandler`) is not part of this model.
- Object property names:
  - `Worker.Dispatch`: the `in` test also accepts names inherited from `Object.prototype` (such as `toString`); the model accepts only the four handler names.
  - `Events.EventHandler.AddEventListener` and `Events.EventHandler.DispatchEvent`: inherited names on the plain `events` object (such as `toString`) make the source throw; the model treats every type as an ordinary key.
  - `this["on" + type]` is modelled for the two declared properties `onclick` and `onmessage` only.
- `Events.EventHandler.DispatchEvent`: listeners are handles, so what a listener does when called is not modelled. That includes adding or removing listeners while `forEach` runs.
- `SegmentIndex.SegmentAccelerator.AddSegment`: requires a box with extent along every axis (`Proper`). With a flat box the source divides by zero.
- `SegmentIndex.SegmentAccelerator.GetClosestPointsOnSegmentsToPoint`: requires the query point to map into the grid, because `getVoxelAtPoint` does no bounds check. Outside the grid the source throws or reads `undefined`.
- `SegmentIndex.SegmentAccelerator.VoxelCenter`: requires a positive resolution. With resolution 0 the source divides by zero.
- `SegmentIndex.SegmentAccelerator.VoxelAtPoint`: requires the point to map into the grid, because the source does no bounds check.
- `SegmentIndex.ClosestAll`: a degenerate segment (both end points equal) gives `None` where the source computes NaN coordinates.
- `LatticeFaces.WellFormedCells`, required by the lattice members: every cell has `nFaces` faces and neighbours, and each face lists at least three valid vertex indices. The Voronoi container guarantees this for the cells it exports. It is not checked again in the worker.
- `Worker.SamplePointsInVolume`: requires enough passing draws among the supplied random points. Otherwise the source's loop does not end.
- `Voro3D.ComputeCells`: states sortedness and permutation, not the exact order the engine's sort gives to equal particle ids.

## Findings

| source | as written | input that shows it | evidently intended | confidence | as-written member | corrected member |
|---|---|---|---|---|---|---|
| assets/worker.js:305-343 | The contour geometry starts with the placeholder points (0,1,0) and (0,-1,0). It is only overwritten when there is at least one intersection, and lines 272-281 append whatever the buffer holds. | Mode 0 or -1 with a mesh that does not cut the Voronoi skin: no intersection segments. | No contour strut at all, rather than a strut from (0,1,0) to (0,-1,0). | medium; not executed | `Worker.EmptyContourAddsPlaceholder` | `Worker.IntendedFaceModes` |
| assets/voro3d/src/voro3d.ts:50-58 | Arguments default with JavaScript's logical or, so an explicit 0 is replaced like a missing argument. | `Voro3D.create(0, 1, 0, 1, 0, 1)` builds a container with minimum corner (-10,-10,-10). | Replace only a missing argument (`??`), keeping the box [0,1]^3. | medium; not executed | `Voro3D.ZeroMinimumIsReplaced` | `Voro3D.NullishKeepsZeroMinimum` |
