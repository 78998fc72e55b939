# simple-gl core, modelled in Dafny

simple-gl is a small OpenGL/Bullet game engine. It comes with two Blender
scripts that export level geometry. This project models the engine's
deterministic core and proves properties of it:

- **Scene graph.** Nodes live in an arena keyed by node id. A node's
  children are ids that are always present. Its parent is an id that may be
  gone, like a weak reference. Components are keyed by their dynamic type.
  Reparenting, component lookup and child lookup are modelled.
- **Transforms.** Each node has a local position, orientation and scale. Its
  absolute position and scale are derived from its parent's. The `dirty` and
  `subtreeDirty` flags are set by the setters. They are propagated to the
  ancestors by `markAsDirty` and consumed by `recalculate`.
- **Logger.** The scene tree is rendered as indented text, one line per node.
- **Frame metrics.** Counters and the per-frame maximum recursion depth.
- **Teleportable component.** A hysteresis switch that clears and restores
  a collision-mask group near a portal.
- **glm/Bullet converters.** Vector and quaternion conversions between the
  two libraries.
- **Mesh data.** The interleaved vertex buffer, the flat index buffer, and
  the breadth-first construction of a MeshData tree from an imported scene.
- **Mesh and texture caches.** Includes the mirroring of a MeshData tree as
  scene nodes.
- **JSON map importer** (`MapLoader`). Validation, optional transform
  fields, the collider rule, name prefixes and materials.
- **Level reader of the map-loading demo** (`MapLoadingDemo`). Twelve-field
  records and material name resolution.
- **The two Blender exporters.**
  - `BlenderExport` covers vertex deduplication, the 8-float vertex layout,
    fan triangulation, bounding-box half-extents and document assembly.
  - `Basis` covers the change of basis from Blender's axes to the engine's,
    and the box records.

Modules follow the source files. `Common` holds the shared value types: an
option, a result, and vectors and quaternions over `real`. An object whose
methods update fields in place is a class with `modifies` frames:

- the scene graph, the transforms, the two caches and the metrics;
- the teleportable component, the map loader and the demo.

Pure code is modelled as functions and lemmas. Loops are methods with
invariants. Each method is proved against a specification function, and
the properties are proved about that function.

## Model

| member | source | states |
|---|---|---|
| Converter.VecRoundTrip | helpers/converter.cpp:9-12 | glm→Bullet→glm and Bullet→glm→Bullet are the identity on 3-vectors |
| Converter.QuatRoundTrip | helpers/converter.cpp:10-13 | quaternion conversion round-trips in both directions, although the two libraries order the components differently |
| Converter.QuatComponentsPreserved | helpers/converter.cpp:10-13 | `toBt` keeps w, x, y and z unchanged, with no scaling or normalisation |
| Logger.Joined | helpers/logger.cpp:44-49 | the component list has the names' total length plus two characters per separator, and starts with the first name and ends with the last |
| Logger.WriteComponents | helpers/logger.cpp:44-49 | the loop that writes a separator after every name but the last yields exactly `Joined(names)` |
| Logger.Label | helpers/logger.cpp:39-53 | a line's text starts with the node name, and equals the bare name exactly when the node has no components |
| Logger.Preorder | helpers/logger.cpp:64-67 | a subtree's preorder starts with the node itself |
| Logger.WriteNode | helpers/logger.cpp:28-68 | every subtree renders at least one line |
| Logger.LinesFollowPreorder | helpers/logger.cpp:35-37 | one line per node of the subtree in preorder; line i ends with the label of the i-th node; below the root every line starts with the inherited prefix |
| Logger.ChildrenFollowPreorder | helpers/logger.cpp:60-67 | the same for the children loop: one line per node of every child subtree in order, each starting with the child prefix |
| Logger.LogNode | helpers/logger.cpp:14-26 | a null node writes nothing; otherwise the text starts with the root's label line, which has no connector |
| Logger.TwoLeaves | tests/test.cpp:33-36 | a root with two leaf children renders as three lines: the root's label, `├─ ` plus the left child's label, and `└─ ` plus the right child's label |
| Logger.SmokeTest | tests/test.cpp:14-36 | the smoke test's tree renders to exactly its three expected lines |
| Teleportable.MaskAfterDisable | entities/components/portal/teleportable.cpp:57-61 | an enable→disable transition clears the group bits from the mask |
| Teleportable.MaskAfterEnable | entities/components/portal/teleportable.cpp:62-66 | a disable→enable transition sets the group bits in the mask |
| Teleportable.MaskAfterSame | entities/components/portal/teleportable.cpp:57-66 | without a transition the mask is unchanged |
| Teleportable.DisableClearsGroup | entities/components/portal/teleportable.cpp:59 | after disabling, the mask has no bit of the group |
| Teleportable.EnableSetsGroup | entities/components/portal/teleportable.cpp:64 | after enabling, the mask has every bit of the group |
| Teleportable.DisableEnableRestores | entities/components/portal/teleportable.cpp:59-64 | disabling and then enabling restores a mask that contained the group |
| Teleportable.Teleportable.constructor | entities/components/portal/teleportable.h:47-52 | the group starts unset, the threshold at 1.0, and both portal flags clear |
| Teleportable.Teleportable.StartCheck | entities/components/portal/teleportable.cpp:12-24 | start succeeds iff the portal, the rigid body and the group are all set; otherwise the error is the first missing one, in the order portal, rigid body, group |
| Teleportable.Teleportable.OnStart | entities/components/portal/teleportable.cpp:12-24 | `onStart` returns the outcome `StartCheck` describes |
| Teleportable.Teleportable.ToggleCollisionIfNeed | entities/components/portal/teleportable.cpp:49-67 | afterwards the flag equals `needDisable`; the mask changes only on a transition; `reinit` runs exactly once per transition |
| Teleportable.Teleportable.OnUpdate | entities/components/portal/teleportable.cpp:26-37 | teleport checks run, portal 1 first, only for portals whose flag was set before this update; then both flags and the mask are toggled |
| Teleportable.Teleportable.Clones | entities/components/portal/teleportable.cpp:39-47 | a clone is drawn for a portal iff its flag is set |
| MetricsManager.RaiseDepth | managers/metrics_manager.cpp:20-24 | the new frame depth is the larger of the old depth and the reported one |
| MetricsManager.RaisedByIsMax | managers/metrics_manager.cpp:20-24 | after a sequence of reports, the frame depth is the maximum of 0 and every reported depth |
| MetricsManager.MetricsManager.constructor | managers/metrics_manager.cpp:3-6 | every counter the constructor initialises starts at zero, and the last print time at the clock's value |
| MetricsManager.MetricsManager.AddFrameTime | managers/metrics_manager.cpp:8-10 | the frame time is added to the total |
| MetricsManager.MetricsManager.AddPortalPassTime | managers/metrics_manager.cpp:12-14 | the portal pass time is added to the total |
| MetricsManager.MetricsManager.IncrementDrawCalls | managers/metrics_manager.cpp:16-18 | the frame's draw calls go up by one, modulo 2^32 (unsigned) |
| MetricsManager.MetricsManager.UpdateRecursionDepth | managers/metrics_manager.cpp:20-24 | the frame depth becomes `RaiseDepth` of the old depth and the reported one |
| MetricsManager.MetricsManager.Averages | managers/metrics_manager.cpp:47-52 | averages exist iff at least one frame was counted, and report the maximum depth |
| MetricsManager.MetricsManager.PrintMetrics | managers/metrics_manager.cpp:47-61 | a report is added only when frames were counted |
| MetricsManager.MetricsManager.ResetMetrics | managers/metrics_manager.cpp:63-71 | every counter is zero except the total frame count and the last print time |
| MetricsManager.MetricsManager.EndFrame | managers/metrics_manager.cpp:26-45 | the frame's draw calls and depth are folded into the totals and the per-frame counters are cleared; after at least a second a report is printed and the metrics are reset |
| SceneGraph.Erase | entities/node.cpp:28 | removing every occurrence of a child keeps all the others and no duplicates appear |
| SceneGraph.Parent | entities/node.h:35 | the parent is reported only when it is set and still alive |
| SceneGraph.ChildOnlyOfParent | entities/node.cpp:23-34 | in a linked graph, a node listed as a child has that node as its parent |
| SceneGraph.ReparentedEffect | entities/node.cpp:23-34 | after `setParent`, the node's parent is the new one; it is the last child of the new parent and no longer a child of the old parent |
| SceneGraph.SameParentMovesToEnd | entities/node.cpp:23-34 | reparenting to the current parent moves the node to the end of its siblings |
| SceneGraph.ReparentedAt | entities/node.cpp:23-34 | node by node: only the moved node's parent changes; the old parent loses it, and the new parent has it erased and appended at the end; no other children list and no component changes |
| SceneGraph.ReparentedLinked | entities/node.cpp:23-34 | `setParent` keeps the graph linked: every child points back to its parent and every parent lists its children once |
| SceneGraph.ReparentedFresh | entities/node.cpp:23-34 | attaching a parentless node appends it to the parent's children |
| SceneGraph.GetComponent | entities/node.h:68-77 | a component is returned iff one of exactly that type is registered, and it is that one |
| SceneGraph.SecondComponentReplaces | entities/node.cpp:19-21 | adding a second component of a type replaces the first |
| SceneGraph.AddThenGet | entities/node.cpp:19-21 | a component just added is what the lookup for its type returns; other types are unaffected |
| SceneGraph.FirstChild | entities/node.cpp:36-43 | the first child, or nothing when there are no children |
| SceneGraph.ChildNamed | entities/node.cpp:36-43 | the first child with the requested name; nothing iff no child has that name |
| SceneGraph.GetChildIgnoresName | entities/node.cpp:36-43 | as written, `getChild` can return a child whose name differs from the one requested |
| SceneGraph.Collected | entities/node.h:79-93 | at most one component per visited node; every collected component has the requested type and is that type's component of some node of the traversal other than the starting one |
| SceneGraph.CollectedExcludesSelf | entities/node.h:84-86 | the starting node's own component is never collected |
| SceneGraph.Graph.constructor | entities/node.cpp:9-17 | the graph starts empty |
| SceneGraph.Graph.Create | entities/node.cpp:9-17 | a fresh node with the given name, no parent, no children and a Transform as its only component |
| SceneGraph.Graph.SetName | entities/node.h:22 | only the node's name changes |
| SceneGraph.Graph.CreateComponent | entities/components/component.h:24-26 | a new component of the given type, registered on the node |
| SceneGraph.Graph.AddComponent | entities/node.cpp:19-21 | the node's component map is updated under the component's type |
| SceneGraph.Graph.SetParent | entities/node.cpp:23-34 | the new graph is `Reparented`, and stays linked |
| SceneGraph.Graph.GetChild | entities/node.cpp:36-43 | as written: the first child, whatever its name |
| SceneGraph.Graph.FindChild | entities/node.cpp:36-43 | the child lookup by name: the result carries the requested name, and nothing is returned iff no child has it |
| SceneGraph.Graph.Components | entities/node.cpp:45-54 | one entry per registered type, each the registered component, with no type repeated |
| SceneGraph.Graph.GetChildComponents | entities/node.h:79-93 | the components of the requested type along the traversal, without the node's own |
| SceneGraph.Graph.GetChildComponent | entities/node.h:95-99 | the first collected component, or nothing when none is collected |
| Transform.LinksOf | entities/node.cpp:23-34 | the transform tree's parent and children maps are those of the scene graph, with dead parents dropped |
| Transform.LinkedFramed | entities/node.cpp:23-34 | in a linked graph the parent map and the children map agree |
| Transform.Mark | entities/components/transform.cpp:93-102 | climbing sets `subtreeDirty` only on the starting node and its ancestors reached through nodes that did not have it, stopping at the first that did; it changes no other field and clears no flag |
| Transform.DirtyMarked | entities/components/transform.cpp:89-103 | `markAsDirty` sets both flags on the node and `subtreeDirty` on its parent; any other node that gains `subtreeDirty` is an ancestor reached from the parent through nodes that lacked it; no flag is cleared and no other field changes |
| Transform.MarkCloses | entities/components/transform.cpp:95-102 | the climb restores "every `subtreeDirty` node's parent is `subtreeDirty`" |
| Transform.MarkKeepsClosed | entities/components/transform.cpp:89-103 | `markAsDirty` preserves that invariant |
| Transform.MarkReachesAncestors | entities/components/transform.cpp:89-103 | under the invariant, after `markAsDirty` every ancestor of the node is `subtreeDirty` |
| Transform.Moved | entities/components/transform.cpp:12-19 | `setPosition` replaces only the position and marks the transform dirty |
| Transform.Turned | entities/components/transform.cpp:21-28 | `setOrientation` replaces only the orientation and marks the transform dirty |
| Transform.Scaled | entities/components/transform.cpp:30-41 | `setScale` replaces only the scale and marks the transform dirty |
| Transform.SettersKeepPrepared | entities/components/transform.cpp:12-41 | the setters keep "every clean transform agrees with its parent, and every stale one is marked" |
| Transform.Recalc | entities/components/transform.cpp:63-87 | `recalculate` changes no key of the transform map |
| Transform.RecalcFrame | entities/components/transform.cpp:63-87 | `recalculate` changes only the node and its descendants |
| Transform.RecalcCleans | entities/components/transform.cpp:85-86 | every transform that still has a flag set after `recalculate` is one it left unchanged |
| Transform.RecalcNode | entities/components/transform.cpp:64-69 | a dirty node gets the parent's absolute position plus its own position, and the parent's absolute scale times its own scale; a clean node keeps its absolute values |
| Transform.CorrectedRecalcSettles | entities/components/transform.cpp:63-87 | with the corrected visiting rule, recalculating the root leaves every transform consistent with its parent and every flag clear |
| Transform.StaleGrandchild | entities/components/transform.cpp:76-83 | as written, after a child of the root is moved, recalculating the root leaves a great-grandchild inconsistent with its parent |
| Transform.Transforms.constructor | entities/components/transform.h:57-69 | no transforms yet |
| Transform.Transforms.Attach | entities/components/transform.h:57-69 | a new transform has the default position, orientation, scale and clear flags |
| Transform.Transforms.MarkAsDirty | entities/components/transform.cpp:89-103 | the new state is `DirtyMarked` |
| Transform.Transforms.Climb | entities/components/transform.cpp:93-102 | the ancestor loop yields `Mark` |
| Transform.Transforms.SetPosition | entities/components/transform.cpp:12-19 | the new state is `Moved` |
| Transform.Transforms.SetOrientation | entities/components/transform.cpp:21-28 | the new state is `Turned` |
| Transform.Transforms.SetScale | entities/components/transform.cpp:34-41 | the new state is `Scaled` |
| Transform.Transforms.SetUniformScale | entities/components/transform.cpp:30-33 | the same factor on every axis |
| Transform.Transforms.Recalculate | entities/components/transform.cpp:63-87 | the new state is `Recalc` with the corrected visiting rule |
| Transform.Transforms.RecalculateChildren | entities/components/transform.cpp:76-83 | the children loop ORs in the parent's dirty flag and recurses, child by child |
| TextureManager.Format | managers/texture_manager.cpp:46-55 | 1, 3 and 4 channels map to RED, RGB and RGBA; every other count maps to 0 |
| TextureManager.Decode | managers/texture_manager.cpp:19-36 | a null image and an unsupported channel count are the two errors; otherwise the texture has the image's size and format |
| TextureManager.FetchAsWritten | managers/texture_manager.cpp:12-44 | as written: the cache is probed under the resolved path and stores under the given path; errors leave the cache unchanged |
| TextureManager.Fetch | managers/texture_manager.cpp:12-44 | the same with one key: hits return the cached texture without decoding; new textures are stored under the probed key |
| TextureManager.AsWrittenReloads | managers/texture_manager.cpp:15-40 | as written, a path that differs from its resolved form is decoded again on every request |
| TextureManager.SecondFetchHits | managers/texture_manager.cpp:15-40 | with one key, a second request returns the first texture and decodes nothing |
| TextureManager.TextureManager.constructor | managers/texture_manager.cpp:12-44 | the cache starts empty |
| TextureManager.TextureManager.GetTexture | managers/texture_manager.cpp:12-44 | the result, the new cache and whether decoding ran are those of `Fetch` |
| MeshManager.Fresh | managers/mesh_manager.cpp:24-42 | a null scene, a null root or an incomplete flag is the loading error; a good scene is parsed, and stored only on success |
| MeshManager.LoadAsWritten | managers/mesh_manager.cpp:17-43 | as written: the cache is probed under the given path and stores under the resolved path |
| MeshManager.Load | managers/mesh_manager.cpp:17-43 | the same with one key: hits return the cached slot without loading |
| MeshManager.AsWrittenReloads | managers/mesh_manager.cpp:20-40 | as written, a path that differs from its resolved form is loaded again on every request |
| MeshManager.SecondLoadHits | managers/mesh_manager.cpp:20-40 | with one key, a second load returns the first result and runs no importer |
| MeshManager.Freed | managers/mesh_manager.cpp:45-49 | freeing empties an existing slot but keeps its key; an absent key is a no-op |
| MeshManager.FreedLoadsNothing | managers/mesh_manager.cpp:20-22 | after freeing, a load returns the empty slot without loading |
| MeshManager.Mirror | managers/mesh_manager.cpp:51-81 | the node tree has the data's names, has a mesh exactly where the data has vertices, and has children in sub-mesh order |
| MeshManager.ViewComplete | managers/mesh_manager.cpp:58-79 | once every queued node is built, the nodes from the root on read back as the wanted tree |
| MeshManager.NewChild | managers/mesh_manager.cpp:72-74 | a new child node is created, unvisited, under the current node |
| MeshManager.NameAndMesh | managers/mesh_manager.cpp:65-69 | the node gets the data's name, and a mesh component iff the data has vertices; nothing else changes |
| MeshManager.AddChildren | managers/mesh_manager.cpp:71-76 | one new child per sub-mesh, in order, each queued with its sub-mesh |
| MeshManager.MirrorEntry | managers/mesh_manager.cpp:61-77 | one queue entry is visited completely |
| MeshManager.MirrorStep | managers/mesh_manager.cpp:61-77 | one visit preserves the breadth-first invariant |
| MeshManager.MirrorStart | managers/mesh_manager.cpp:58-59 | the root node and the one-entry queue establish the invariant |
| MeshManager.QueueShrinks | managers/mesh_manager.cpp:61-77 | the total size of the queued subtrees strictly decreases, so the loop ends |
| MeshManager.MirrorVisit | managers/mesh_manager.cpp:61-77 | one iteration keeps the invariant, keeps the earlier nodes, and shrinks the queue measure |
| MeshManager.MirrorTree | managers/mesh_manager.cpp:56-79 | the new nodes from the returned root read back as `Mirror` of the data; earlier nodes are unchanged; the root has no parent |
| MeshManager.MeshManager.constructor | managers/mesh_manager.cpp:17-43 | the cache starts empty |
| MeshManager.MeshManager.LoadMeshData | managers/mesh_manager.cpp:17-43 | the result, the new cache and whether loading ran are those of `Load` |
| MeshManager.MeshManager.FreeMeshData | managers/mesh_manager.cpp:45-49 | the new cache is `Freed` |
| MeshManager.MeshManager.CreateNodeFromMeshData | managers/mesh_manager.cpp:51-81 | load errors are passed on and an emptied slot is an error, and on both the scene graph is left as it was; otherwise the new nodes mirror the loaded tree and earlier nodes are unchanged |
| MeshData.VertexSize | entities/mesh_data.cpp:131-150 | 3 for positions, 2 for texture coordinates and 3 for normals: the size is 8 iff all three are present, and 0 iff there are no positions |
| MeshData.VertexRecord | entities/mesh_data.cpp:102-119 | each vertex record has 8 floats |
| MeshData.Interleaved | entities/mesh_data.cpp:102-119 | the vertex buffer has 8 floats per vertex |
| MeshData.InterleavedAt | entities/mesh_data.cpp:102-119 | float k of vertex i sits at offset 8·i+k: position at 0..2, uv at 3..4, normal at 5..7 |
| MeshData.WriteVertex | entities/mesh_data.cpp:102-119 | writing vertex i fills its 8 slots and leaves the earlier ones untouched |
| MeshData.WriteVertices | entities/mesh_data.cpp:102-119 | the vertex loop produces `Interleaved` |
| MeshData.WriteFace | entities/mesh_data.cpp:121-126 | writing face i fills slots i·n … i·n+n−1 and leaves the earlier ones untouched |
| MeshData.WriteIndices | entities/mesh_data.cpp:121-126 | the index loop produces the flattened faces |
| MeshData.FlatFacesLength | entities/mesh_data.cpp:93-100 | the index buffer has faces × n entries, n being face 0's index count |
| MeshData.FlatFacesAt | entities/mesh_data.cpp:121-126 | index j of face i sits at i·n+j |
| MeshData.FillMeshData | entities/mesh_data.cpp:80-129 | the method's outcome is `Fill` |
| MeshData.FillSizes | entities/mesh_data.cpp:93-100 | a filled entry has vertex size × vertices floats and faces × n indices, and keeps its name and sub-meshes |
| MeshData.FillOutcome | entities/mesh_data.cpp:81-91 | no faces or no vertices leaves the entry unchanged; otherwise missing texture coordinates or normals is the error |
| MeshData.Start | entities/mesh_data.cpp:38-40 | the descent stops at a node with meshes or without exactly one child |
| MeshData.MeshLeaves | entities/mesh_data.cpp:58-65 | a node with several meshes gets one leaf sub-mesh per mesh; a single mesh gets none |
| MeshData.DenoteComplete | entities/mesh_data.cpp:47-75 | once every arena entry is done, the arena reads back as the wanted tree |
| MeshData.AddMeshSubs | entities/mesh_data.cpp:58-65 | one filled sub-mesh per mesh is appended and linked, and it fails iff some mesh cannot be filled |
| MeshData.AddChildren | entities/mesh_data.cpp:68-74 | one blank sub-mesh per child is appended and linked, and each child is queued with its slot |
| MeshData.VisitNode | entities/mesh_data.cpp:51-74 | visiting a node fills its own mesh or adds its mesh leaves, then queues its children; it fails iff some mesh cannot be filled |
| MeshData.VisitKeepsInv | entities/mesh_data.cpp:47-75 | one visit preserves the breadth-first invariant |
| MeshData.QueueShrinks | entities/mesh_data.cpp:47-75 | the total size of the queued subtrees strictly decreases |
| MeshData.ParseScene | entities/mesh_data.cpp:35-78 | it succeeds iff every reachable mesh can be filled, and then the arena reads back as the tree of the starting node |
| MeshData.CreateFromArrays | entities/mesh_data.cpp:19-33 | a single entry with the given name, vertices and indices; the stride is unused |
| MapLoader.Numbers | managers/map_loader.cpp:110-111 | an array of numbers and booleans is read element by element, a boolean as 1 or 0; anything else is rejected |
| MapLoader.ArrayField | managers/map_loader.cpp:129-160 | an optional field is present only as an array of at least n numbers |
| MapLoader.ToUint32 | managers/map_loader.cpp:111 | the conversion of an index to `uint32_t` lands in [0, 2^32) |
| MapLoader.ToUint32Examples | managers/map_loader.cpp:111 | truncation toward zero, then wrap-around modulo 2^32 |
| MapLoader.Uint32s | managers/map_loader.cpp:111 | every index is converted, in order |
| MapLoader.LastUnderscore | managers/map_loader.cpp:89-96 | the position of the last underscore, or nothing iff there is none |
| MapLoader.ExtractPrefix | managers/map_loader.cpp:89-96 | the name up to and including its last underscore when that underscore is past index 0, otherwise the empty string |
| MapLoader.ExtractPrefixExamples | managers/map_loader.cpp:89-96 | `C_w_001` gives `C_w_`; `_001` and `wall` give the empty string |
| MapLoader.MeshNode | managers/map_loader.cpp:107-124 | a mesh node carries the object's name, vertices and converted indices, the default transform, no material and no collider |
| MapLoader.Transformed | managers/map_loader.cpp:129-147 | position from an array of ≥3, rotation from ≥4 read as (w, x, y, z), and scale from a number or an array of ≥3; each is applied only when present |
| MapLoader.ScaleField | managers/map_loader.cpp:139-147 | the scale field is either a uniform number or an array of at least 3 numbers |
| MapLoader.Absorb | managers/map_loader.cpp:55-61 | one object adds at most one child and counts at most one success; the root turns `subtreeDirty` when the object's setters ran |
| MapLoader.MarkedDirty | entities/components/transform.cpp:12-41 | a setter sets `dirty` and `subtreeDirty` and changes nothing else of the node |
| MapLoader.Recalculated | entities/components/transform.cpp:63-87 | both flags are cleared; a dirty node's absolute position is the parent's plus its own and its absolute scale the parent's times its own; a clean node keeps them |
| MapLoader.TouchedIff | managers/map_loader.cpp:129-147 | a setter runs on an object iff it is accepted and its position is present, or its rotation is present after a well-formed position, or its scale after a well-formed position and rotation |
| MapLoader.TransformedFields | managers/map_loader.cpp:129-147 | each optional field that is present sets the local value it describes; an absent one keeps the node's |
| MapLoader.TransformedOk | managers/map_loader.cpp:129-147 | reading the transform fails iff one of position, rotation and scale is malformed |
| MapLoader.RecalculatedSettles | entities/components/transform.cpp:63-87 | under a root at the origin with unit scale, a recalculated node's absolute values are its local ones whenever it was dirty or still at the defaults |
| MapLoader.NotDirtyUntouched | managers/map_loader.cpp:129-147 | when no setter ran, the local transform is the default one and `subtreeDirty` is raised exactly with `dirty` |
| MapLoader.Gather | managers/map_loader.cpp:53-62 | the root is `MapRoot`, and the loaded count never exceeds the children, which never exceed the objects |
| MapLoader.GatherSnoc | managers/map_loader.cpp:54-61 | one more object is absorbed after the earlier ones |
| MapLoader.Kept | managers/map_loader.cpp:54-61 | every kept position is in range and its object was not rejected |
| MapLoader.KeptExactly | managers/map_loader.cpp:54-61 | the kept positions increase, and a position is kept iff its object was not rejected |
| MapLoader.GatheredChildren | managers/map_loader.cpp:54-61 | child k is the node of the k-th kept object |
| MapLoader.GatheredCount | managers/map_loader.cpp:56-57 | the count is the number of completed objects |
| MapLoader.GatheredRootDirty | managers/map_loader.cpp:54-61 | the root is `subtreeDirty` iff some object's setters ran |
| MapLoader.GatheredAllCreated | managers/map_loader.cpp:54-61 | when every object is completed, child j is object j's node and all are counted |
| MapLoader.MapLoader.constructor | managers/map_loader.h:50-52 | no materials, no default material and no shader |
| MapLoader.MapLoader.SetMaterial | managers/map_loader.cpp:69-71 | the material is stored for the prefix, overwriting any earlier one |
| MapLoader.MapLoader.SetDefaultMaterial | managers/map_loader.cpp:73-75 | only the default material changes |
| MapLoader.MapLoader.SetBlinnPhongShader | managers/map_loader.cpp:77-79 | only the shader changes |
| MapLoader.MapLoader.GetMaterial | managers/map_loader.cpp:81-87 | the material stored for the exact prefix, else the default |
| MapLoader.MapLoader.Configure | managers/map_loader.cpp:129-175 | configuring never rejects the node and keeps its name, vertices and indices; the local transform is the one the fields set; a malformed field abandons the node before `recalculate`; otherwise the flags are cleared and a dirty node's absolute values are derived from the root's, and the node is created iff the collider is not malformed |
| MapLoader.MapLoader.RejectedIff | managers/map_loader.cpp:103-115 | an object is rejected iff its name, vertices or indices are missing or empty |
| MapLoader.MapLoader.NodeKeepsMesh | managers/map_loader.cpp:107-124 | an accepted node keeps the object's name, vertices and indices |
| MapLoader.MapLoader.CreatedIff | managers/map_loader.cpp:129-147 | an accepted object fails only on a malformed optional field |
| MapLoader.MapLoader.CreatedTransform | managers/map_loader.cpp:129-147 | a created node's transform is the one the optional fields describe, with defaults where they are absent |
| MapLoader.MapLoader.CreatedMaterial | managers/map_loader.cpp:153-157 | the default material is applied iff a shader is set and both textures exist |
| MapLoader.MapLoader.Settled | managers/map_loader.cpp:129-150 | after a well-read transform the flags are clear and the absolute values equal the local ones; after a malformed field both flags are raised iff a setter ran and the absolute values are still the defaults |
| MapLoader.MapLoader.ColliderIff | managers/map_loader.cpp:160-175 | a collider is created iff `colliderHalfExtents` has at least 3 numbers whose first three are all positive, and it has those half-extents |
| MapLoader.MapLoader.Steps | managers/map_loader.cpp:54-61 | one step per object, in order: its outcome and whether its setters ran |
| MapLoader.MapLoader.LoadObjects | managers/map_loader.cpp:53-62 | the root is `MapRoot`, and the loaded count never exceeds the children, which never exceed the objects |
| MapLoader.MapLoader.Accepted | managers/map_loader.cpp:54-61 | positions of objects that were not rejected |
| MapLoader.MapLoader.AcceptedExactly | managers/map_loader.cpp:54-61 | every non-rejected position exactly once, in increasing order |
| MapLoader.MapLoader.LoadedChildren | managers/map_loader.cpp:54-61 | the children are exactly the nodes of the non-rejected objects, completed or abandoned, in document order |
| MapLoader.MapLoader.LoadedCount | managers/map_loader.cpp:53-62 | the loaded count is the number of objects whose node was completed |
| MapLoader.MapLoader.RootDirtyIff | managers/map_loader.cpp:54-61 | `MapRoot` ends `subtreeDirty` iff a setter ran on some object |
| MapLoader.MapLoader.LoadObjectsStep | managers/map_loader.cpp:53-62 | objects are processed one by one, in order |
| MapLoader.MapLoader.ChildrenFromObjects | managers/map_loader.cpp:53-62 | every child of the root is the node made from some object |
| MapLoader.MapLoader.AllCreated | managers/map_loader.cpp:53-62 | when every object succeeds, the root has one child per object, in order, and all are counted |
| MapLoader.MapLoader.ApplyTransform | managers/map_loader.cpp:129-147 | the fields are applied one after another with the result `Transformed` |
| MapLoader.MapLoader.CreateNodeFromJson | managers/map_loader.cpp:98-178 | the method's outcome is `NodeFromJson`, recalculation included, and it reports whether a setter ran |
| MapLoader.MapLoader.LoadMap | managers/map_loader.cpp:20-67 | a missing or wrong version, or a missing objects array, is rejected before any node is made; otherwise the result is `LoadObjects` |
| MapLoadingDemo.ReadRecord | demos/map_loading_demo.h:248-254 | a record is read iff 12 fields are available and the last 10 are numbers; name and material are the first two fields |
| MapLoadingDemo.Records | demos/map_loading_demo.h:254 | at most one record per token |
| MapLoadingDemo.RecordsStopAtIncomplete | demos/map_loading_demo.h:254 | reading stops exactly at the first incomplete record |
| MapLoadingDemo.RecordsOfWholeStream | demos/map_loading_demo.h:254 | a stream of n complete records yields n records |
| MapLoadingDemo.BaseName | demos/map_loading_demo.h:273 | the longest dot-free prefix of the name |
| MapLoadingDemo.BaseNameSplit | demos/map_loading_demo.h:273 | `p.q` has base name `p`, and a dot-free name is its own base name |
| MapLoadingDemo.ResolveMaterial | demos/map_loading_demo.h:269-277 | the exact key wins, then the base name, then the default |
| MapLoadingDemo.ResolveDotted | demos/map_loading_demo.h:269-277 | a dotted name that is not itself a key resolves through its base name |
| MapLoadingDemo.ResolveUndotted | demos/map_loading_demo.h:269-277 | a dot-free name resolves to its own entry or the default |
| MapLoadingDemo.Placements | demos/map_loading_demo.h:257-298 | one placed box per record |
| MapLoadingDemo.PlacementsSnoc | demos/map_loading_demo.h:257-298 | records are placed one by one, in order |
| MapLoadingDemo.PlacementsAt | demos/map_loading_demo.h:257-298 | box k is record k placed with its resolved material |
| MapLoadingDemo.PlacedBoxShape | demos/map_loading_demo.h:259-298 | mass 0; half-extents are half the size; the scale is the size; position and orientation are copied from the record |
| MapLoadingDemo.ReadLevel | demos/map_loading_demo.h:236-303 | the read loop counts the records and places exactly `Placements` of them |
| MapLoadingDemo.LevelDemo.constructor | demos/map_loading_demo.h:192-214 | no materials and no boxes |
| MapLoadingDemo.LevelDemo.LoadMaterials | demos/map_loading_demo.h:211-213 | the keys `Wall` and `Floor` are set, and the default is the wall material |
| MapLoadingDemo.LevelDemo.LoadMap | demos/map_loading_demo.h:236-303 | the count is the number of records read, and the boxes are appended in order |
| Basis.ConversionMapsAxes | resources/export_map.py:17-28 | the conversion matrix maps (x, y, z, 1) to (x, z, −y, 1) |
| Basis.ConversionInverse | resources/export_map.py:21-29 | the inverse matrix is a two-sided inverse, equals the transpose, and the determinant is 1 |
| Basis.ToEngineSpaceIsPermuted | resources/export_map.py:31-33 | conjugation is the signed permutation of rows and columns |
| Basis.ToEngineSpaceIdentity | resources/export_map.py:31-33 | the identity converts to the identity |
| Basis.ToEngineSpaceMul | resources/export_map.py:31-33 | conversion preserves products |
| Basis.TranslationConverted | resources/export_map.py:69-72 | an affine matrix stays affine, and its translation (tx, ty, tz) becomes (tx, tz, −ty) |
| Basis.SizeOfProperties | resources/export_map.py:77-78 | the size swap is its own inverse and keeps signs |
| Basis.Boxes | resources/export_map.py:61-86 | one record per mesh object, so at most one per object |
| Basis.BoxLayout | resources/export_map.py:35-41 | a record has the object's name, type `box`, the converted translation as [x, y, z], the converted rotation as [w, x, y, z] and the dimensions as [x, z, y] |
| Basis.BoxesFromMeshes | resources/export_map.py:61-86 | every record is a `box` made from a mesh object |
| Basis.BoxesCount | resources/export_map.py:61-86 | one record per mesh object: non-mesh objects are skipped |
| Basis.BoxPosition | resources/export_map.py:69-83 | a record's position is the converted translation of the object's world matrix |
| Basis.ExportLevel | resources/export_map.py:43-101 | a missing collection fails after the output directory is made; otherwise the document has version 1, the axis system and the box records, and is written |
| BlenderExport.FirstSeen | resources/blender_export_map.py:77-92 | the distinct keys in order of first occurrence: the same keys as the input |
| BlenderExport.FirstSeenNoDup | resources/blender_export_map.py:77-92 | no key is stored twice |
| BlenderExport.FirstSeenSnoc | resources/blender_export_map.py:77-92 | a key is appended only on its first occurrence |
| BlenderExport.FirstSeenExtends | resources/blender_export_map.py:77-92 | later corners never reorder earlier keys |
| BlenderExport.Slot | resources/blender_export_map.py:77-92 | the ordinal of a key: its first and only position |
| BlenderExport.SlotsSeparateKeys | resources/blender_export_map.py:77-92 | two corners share an index iff their keys are equal |
| BlenderExport.VertexBuffer | resources/blender_export_map.py:84-88 | 8 floats per distinct key |
| BlenderExport.VertexBufferAt | resources/blender_export_map.py:84-88 | float c of vertex i sits at 8·i+c |
| BlenderExport.FanTriangle | resources/blender_export_map.py:95-104 | triangle t is (v0, v(t+1), v(t+2)) |
| BlenderExport.FanShape | resources/blender_export_map.py:95-104 | a face of k ≥ 3 corners gives k−2 triangles, a shorter one none, and the length is a multiple of 3 |
| BlenderExport.FanMembers | resources/blender_export_map.py:95-104 | triangles only use the face's own corners |
| BlenderExport.TriangulateFace | resources/blender_export_map.py:95-104 | the triangle, quad and fan branches all produce the fan |
| BlenderExport.MinCoord | resources/blender_export_map.py:107-125 | the minimum of a non-empty list along an axis |
| BlenderExport.MaxCoord | resources/blender_export_map.py:107-125 | the maximum of a non-empty list along an axis |
| BlenderExport.SpanSign | resources/blender_export_map.py:121-125 | a scaled half-span is non-negative, and zero on a degenerate axis |
| BlenderExport.HalfExtentSign | resources/blender_export_map.py:107-125 | half-extents are non-negative and vanish exactly on a flat axis |
| BlenderExport.BoundingHalfExtents | resources/blender_export_map.py:107-125 | the bounding-box loop yields the half-extents over all mesh vertices times the absolute scale |
| BlenderExport.ResolveCorner | resources/blender_export_map.py:77-92 | a seen key reuses its index; a new key gets the float length 8·ordinal and appends its 8 floats |
| BlenderExport.ResolveFace | resources/blender_export_map.py:56-92 | the face loop resolves every corner as specified, or fails on an invalid corner |
| BlenderExport.ExtractMeshData | resources/blender_export_map.py:20-135 | the method's record is `ExtractSpec`: a non-mesh object gives nothing, and a mesh gives its vertices, indices and half-extents |
| BlenderExport.IndexBufferStep | resources/blender_export_map.py:95-104 | faces are triangulated one after another over the running dedup table |
| BlenderExport.IndicesAreFloatOffsets | resources/blender_export_map.py:79-81 | the vertex buffer is 8 floats per distinct key; every index is a multiple of 8 below its length; the index count is a multiple of 3 |
| BlenderExport.LastOffsetPastVertices | resources/blender_export_map.py:79-81 | as written, with two or more distinct vertices the last one's index is at least the vertex count |
| BlenderExport.FaceOrdinals | resources/blender_export_map.py:79-92 | each corner's corrected index is below the vertex count and names the vertex holding its key |
| BlenderExport.CornerAddressesItsKey | resources/blender_export_map.py:79-92 | a corner's corrected index addresses the 8 floats of that corner's own key in the vertex buffer |
| BlenderExport.OrdinalIndicesInRange | resources/blender_export_map.py:79-104 | every corrected index names an existing vertex, in whole triangles |
| BlenderExport.CorrectedIndicesAddressVertices | resources/blender_export_map.py:79-104 | for an exported mesh every corrected index names one of the stored vertices, in whole triangles |
| BlenderExport.VerticesCopyCorners | resources/blender_export_map.py:84-88 | each stored vertex is some corner's position, uv and normal, copied unconverted |
| BlenderExport.NoUvLayerGivesZeroUv | resources/blender_export_map.py:65-70 | without a UV layer every stored uv is (0, 0) |
| BlenderExport.MeshObjects | resources/blender_export_map.py:145 | the filter keeps at most every object |
| BlenderExport.MeshObjectsFilter | resources/blender_export_map.py:144-146 | exactly the mesh objects are kept |
| BlenderExport.Successes | resources/blender_export_map.py:165-178 | at most one record per object |
| BlenderExport.SuccessesAreExtractions | resources/blender_export_map.py:165-178 | every record is the extraction of some object, and failures are omitted |
| BlenderExport.ExtractAll | resources/blender_export_map.py:162-178 | the records are the successes, in scene order, and the failure count is the remainder |
| BlenderExport.ExportScene | resources/blender_export_map.py:155-218 | with no mesh objects nothing is written; when every mesh object fails nothing is written and the failures are counted; otherwise `{version: 1, objects}` is written with the successes, and the failures are counted |

## Left out

- Floating point. Every float is a `real`, so rounding is not modelled. Neither are quaternion normalisation, the absolute orientation, the direction vector or the transform matrix (entities/components/transform.cpp:70-73, 105-113).
- `Transform::translate` and `rotate` are left out (entities/components/transform.cpp:43-61). They are float quaternion arithmetic on top of the setters, which are modelled.
- `scaleBy` and `Transform::onUpdate` are declared in entities/components/transform.h but have no definition in the sources.
- Transform.Transforms.Recalculate: it uses the corrected visiting rule. The visiting rule as written lives only in the specification function `Recalc` with `corrected` false, where `StaleGrandchild` is proved about it.
- Transform.Recalc: recursion is bounded by a rank witness on the tree. The model takes it as a parameter, where the source relies on the scene being a tree. A dirty transform must have a parent, as a precondition; the source dereferences the parent unconditionally.
- Transform.StaleGrandchild: proved for a chain of single children. Wider trees behave the same way, but that is not proved.
- Scene-graph aliasing. `shared_ptr`/`weak_ptr` objects are ids in an arena, so aliasing and lifetime are not modelled. Only "the parent may be gone" is kept.
- Node::create: entities/node.h:25-28 declares `create(name, parent)`, but entities/node.cpp:9-17 defines only `create(name)`. Call sites are modelled as follows:
  - `SceneGraph.Graph.Create` follows node.cpp:9-17 and makes a parentless node.
  - Objects made at managers/map_loader.cpp:121 use the two-argument form; they become `MapRoot.children`.
  - managers/mesh_manager.cpp:72-74 calls `create()` and then `setParent`; that is `MeshManager.NewChild`.
- MapLoader.MapLoader.LoadMap: the `parent` argument (managers/map_loader.cpp:22, 50) is dropped, and `MapRoot` is a value with no parent. So `markAsDirty` is followed up to `MapRoot` and no further. `MapRoot`'s absolute transform is taken to be the default one when the objects are recalculated.
- SceneGraph.Graph.GetChildComponents: the traversal order is a parameter. The lambda captures the result vector by copy (entities/node.h:83-89), so the vector returned stays empty. Without `mutable` the lambda's `push_back` does not compile once the template is instantiated, as at demos/test_chamber_demo.h:151. The model states the evidently intended collection and its self-exclusion.
- Components: the order of the unordered map is not modelled. Only the set of entries is stated.
- MeshManager.MeshManager.CreateNodeFromMeshData: the source dereferences an emptied slot; here that is the error `NullMeshData`. The `parent` argument (managers/mesh_manager.cpp:51-56) is dropped, so the new root has no parent. Loading goes through the one-key `Load`; the as-written cache (mesh_manager.cpp:20, 40) is `MeshManager.LoadAsWritten`, with `MeshManager.AsWrittenReloads` proved about it.
- MeshManager.MeshManager.LoadMeshData: follows the corrected one-key `Load`. The as-written behaviour probes `path` and stores under `resourcePath` (managers/mesh_manager.cpp:20, 40); that is `MeshManager.LoadAsWritten`, with `MeshManager.AsWrittenReloads` proved about it.
- TextureManager.TextureManager.GetTexture: follows the corrected one-key `Fetch`. The as-written behaviour probes `resourcePath` and stores under `path` (managers/texture_manager.cpp:15, 40); that is `TextureManager.FetchAsWritten`, with `TextureManager.AsWrittenReloads` proved about it.
- BlenderExport.ExtractMeshData: it writes the indices as the exporter does, as float offsets. The corrected buffer of vertex numbers is `OrdinalIndexBufferUpTo`, built from the same faces and distinct keys. The extraction is not rewritten to produce it, and the equation between the two buffers (each written index is 8 times the corrected one) is not proved.
- MeshData: faces shorter than face 0 are a precondition of the index loop. The source would read past them.
- GPU buffer creation (`createBuffers`), textures, shaders and rendering are left out; they are foreign GPU state.
- Image decoding (stb_image), mesh import (Assimp), JSON parsing, file opening and the stream's own number parsing are left out. Their results are parameters.
- The logger's ofstream and its failure to open (helpers/logger.cpp:19-23) are left out. The output is the text that would be written.
- Bullet physics is left out: teleporting through a portal, `reinit`, the rigid body, and drawing the portal clone. The teleportable component records only the events it causes.
- MetricsManager.MetricsManager.PrintMetrics: the console text is not modelled. A report is recorded as the figures it prints.
- MetricsManager.MetricsManager.constructor: the source never initialises `totalFrames`, so its starting value is a parameter.
- The steady clock is a parameter, counted in milliseconds.
- The Blender scene enumeration, path probing, `json.dump` and `print` calls in both exporters are left out. So are mathutils' `decompose` and `to_quaternion`, which is a parameter.
- The demos' hard-coded scene construction is not part of this model. Nor are input, windowing, the render pipeline, and helpers/errors.cpp, which only concatenates message text.
- `recalculateDetached`, called from render-pipeline/window_panel.cpp, has no definition in the sources.

## Findings

| source | as written | input that shows it | evidently intended | confidence | as-written member | corrected member |
|---|---|---|---|---|---|---|
| managers/texture_manager.cpp:15-40 | the cache is probed under `resourcePath` but a new texture is stored under `path` | any `path` that differs from its resolved form: every request decodes the image again | store under the key the probe uses, so that a second request is a cache hit | not executed | TextureManager.AsWrittenReloads | TextureManager.SecondFetchHits |
| managers/mesh_manager.cpp:20-40 | the cache is probed under `path` but a loaded tree is stored under `resourcePath` | any `path` that differs from its resolved form: every load runs the importer again | store under the key the probe uses | not executed | MeshManager.AsWrittenReloads | MeshManager.SecondLoadHits |
| entities/node.cpp:36-43 | the loop's `if` on the child's name has an empty body, so the first child is returned whatever its name | a node whose first child is not named as requested | return the first child with the requested name, or null | not executed | SceneGraph.GetChildIgnoresName | SceneGraph.Graph.FindChild |
| entities/components/transform.cpp:76-83 | children are visited only when the node is `subtreeDirty`; a dirty child that is not `subtreeDirty` is recomputed, but its own children are not | chain root → a → b → c with all clean; `setPosition` on a; `recalculate` on the root, as main.cpp:59 does every frame: b is recomputed, c keeps b's old absolute position | also visit the children of a node that is dirty itself, so that every descendant is brought up to date | not executed | Transform.StaleGrandchild | Transform.CorrectedRecalcSettles |
| resources/blender_export_map.py:79-81 | a new vertex's index is `len(vertices)`, the number of floats stored so far, which is 8 times its vertex number | any mesh with two or more distinct vertices: the second one is written as index 8, while managers/map_loader.cpp:111-118 hands the indices unchanged to `createFromArrays`, whose element buffer (entities/mesh_data.cpp:161-162) is read as vertex numbers, as the Assimp path's indices are (entities/mesh_data.cpp:121-126) | record the vertex number, `len(vertices) // 8` | not executed | BlenderExport.LastOffsetPastVertices | BlenderExport.CorrectedIndicesAddressVertices |
