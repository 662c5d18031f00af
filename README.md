# FbxImporter04 in Dafny

A model of the import path of the `FbxImporter04` Unity editor example
(`examples/import/Assets/Editor/FbxImporter04.cs`). The example reads an FBX
scene through the FBX SDK and rebuilds it as Unity GameObjects. The model
covers the following.

- `ProcessUVSet` decodes one UV layer element into a per-polygon-vertex
  array. It handles the by-control-point, all-same and unsupported mapping
  modes, direct and indexed reference, the null result for a direct array of
  the wrong length, and the NaN guard.
- `ProcessUVs` hands the UV sets of a mesh's layers, in layer order, to the
  four Unity channels `uv`, `uv2`, `uv3` and `uv4`. It stops at `maxUVs`.
- `ProcessMesh` copies the control points into the vertices and flattens
  the polygons into the triangle list, then calls `ProcessUVs`.
- `ConvertScene` rescales the source scene in place. It walks the nodes
  breadth first with an explicit queue. Each node's translation is
  multiplied three times and each control point of its mesh once.
- `ProcessNode` is a pre-order walk. It creates one GameObject per source
  node and counts each in `NumNodes`.
- `ProcessScene` rescales only when the units differ, warns when the axis
  systems differ, then walks the scene from the root.
- `ImportAll` returns `NumNodes` when the file was imported, and 0 when
  initialisation or the import failed.

The code is modelled with every `#if UNI_*` block compiled in: `UNI_18844`,
`UNI_18848`, `UNI_18850` and `UNI_18892`. With those blocks left out,
`ProcessUVs` would be empty and `ConvertScene` would always return at line
363.

Modules, one per file:

- `Wrappers` holds `Option`.
- `Geometry` holds UVs whose components may be NaN, 3-vectors, and `v *= f`.
- `UvDecoder` holds `ProcessUVSet` and its reference function `DecodeUVSet`.
- `MeshBuilder` holds the FBX mesh, the Unity mesh, `ProcessUVs` and
  `ProcessMesh`.
- `SceneGraph` holds the node hierarchy, pre-order listing, and the
  `FbxScene` whose translations and meshes are updated in place.
- `Importer` holds the per-node object creation, `ConvertScene`, and the
  `FbxImporter` class with `NumNodes`, `ProcessNode`, `ProcessScene` and
  `ImportAll`.

The scene is an arena, described by these conventions.

- Nodes are numbered `0 .. n-1`, with the root as node 0.
- Every node's parent carries a smaller number. Any tree can be numbered so.
- The GameObjects an importer has created are kept in order in its
  `created` field.
- A GameObject's parent is the index of another created object.

One reading departs from the code: the all-same branch of `ProcessUVSet`
broadcasts slot 0 of the direct array, as lines 92-102 evidently intend,
although line 96 passes `value` without `out` (see Findings). Every
downstream member (`ProcessUVs`, `ProcessMesh`, the walk) inherits that
corrected reading; the as-written zeros appear only in
`UvDecoder.AllSameAsWritten`.

The model follows the code in four places where the comments and the
surrounding design suggest something else:

- Translations are multiplied by the cube of the conversion factor. The
  `lclTrs *= scaleFactor` statement appears three times (lines 381-383).
  Control points are multiplied once (line 393). `Importer.RescaleEffect`
  states both.
- `Debug.Assert (polySize == 3)` only logs in the editor. Larger polygons
  are therefore appended whole, while the UV arrays still assume three
  indices per polygon (line 123).
- An unsupported mapping mode logs an error and still returns the
  zero-filled array, not null (lines 103-107).
- The secondary-UV fallback of lines 167-187 can never run, because line 135
  tests `fbxFirstUVSet != null` (see Findings).

## Model

| member | source | states |
|---|---|---|
| UvDecoder.Sanitize | examples/import/Assets/Editor/FbxImporter04.cs:85-89 | a UV with a NaN component becomes (0,0); any other UV is kept; the result never has a NaN |
| UvDecoder.DecodeUVSet | examples/import/Assets/Editor/FbxImporter04.cs:57-107 | the result is null exactly when the mapping is by control point and the direct array does not hold one entry per control point; otherwise it is an array of indexCount UVs |
| UvDecoder.ProcessUVSet | examples/import/Assets/Editor/FbxImporter04.cs:52-108 | the loop that fills the preallocated result array returns exactly DecodeUVSet |
| UvDecoder.ControlPointSlots | examples/import/Assets/Editor/FbxImporter04.cs:74-89 | in by-control-point mode, slot i holds direct[indices[k]], with k = i for direct reference and k = indexArray[i] for indexed reference; a NaN value becomes (0,0), so no slot is NaN |
| UvDecoder.AllSameBroadcasts | examples/import/Assets/Editor/FbxImporter04.cs:92-102 | in all-same mode every slot holds the value of slot 0 of the direct array (zeros when there is no slot 0) |
| UvDecoder.UnsupportedModeIsZeroFilled | examples/import/Assets/Editor/FbxImporter04.cs:103-107 | any other mapping mode yields indexCount zero UVs, not null |
| UvDecoder.AllSameAsWritten | examples/import/Assets/Editor/FbxImporter04.cs:93-102 | the all-same branch as written: `value` is passed to GetAt by value, so every slot stays (0,0) |
| UvDecoder.AllSameAsWrittenDropsSlot0 | examples/import/Assets/Editor/FbxImporter04.cs:93-100 | for one all-same UV (0.5, 0.5) the code as written gives (0,0), while the intended decoder gives (0.5, 0.5) in all six slots |
| Geometry.ScaleThriceIsCube | examples/import/Assets/Editor/FbxImporter04.cs:381-383 | three successive `lclTrs *= f` equal one multiplication by f³ |
| Geometry.ScaleByOne | examples/import/Assets/Editor/FbxImporter04.cs:363-364 | a factor of one leaves a vector unchanged, whether applied once or three times |
| MeshBuilder.TriangleVertices | examples/import/Assets/Editor/FbxImporter04.cs:216-229 | when every polygon is a triangle, the flattened list has 3 entries per polygon and vertex j of polygon p sits at 3p+j |
| MeshBuilder.UVSetsPrefix | examples/import/Assets/Editor/FbxImporter04.cs:125-133 | the UV sets met in the first i layers are a prefix of those met in all layers |
| MeshBuilder.UVSetsStep | examples/import/Assets/Editor/FbxImporter04.cs:125-133 | one more layer adds its UV set, if it has one, after the sets met so far |
| MeshBuilder.SkippedLayerTakesNoSlot | examples/import/Assets/Editor/FbxImporter04.cs:127-133 | a null layer or a layer without UVs takes no channel: removing it leaves the sequence of sets unchanged |
| MeshBuilder.FilledSlots | examples/import/Assets/Editor/FbxImporter04.cs:157-160 | the loop fills no more channels than there are sets, and no more than maxUVs when maxUVs is positive |
| MeshBuilder.SecondaryUVSet | examples/import/Assets/Editor/FbxImporter04.cs:171-177 | the search yields null exactly when every typed set from eTextureEmissive on is null, and otherwise the first non-null one |
| MeshBuilder.FirstUVLayer | examples/import/Assets/Editor/FbxImporter04.cs:135-139 | the layer the first UV set comes from exists exactly when some layer has UVs; it is the first layer carrying UVs (no UV set is met before it), and its UV set is the first one met |
| MeshBuilder.UnityMesh.SetChannel | examples/import/Assets/Editor/FbxImporter04.cs:141-156 | slots 0 to 3 assign uv, uv2, uv3 or uv4 and nothing else; any other slot changes nothing |
| MeshBuilder.StoreUVSet | examples/import/Assets/Editor/FbxImporter04.cs:141-156 | one case of the switch stores the decoded set in its channel and leaves the other channels, the vertices and the triangles unchanged |
| MeshBuilder.ProcessUVs | examples/import/Assets/Editor/FbxImporter04.cs:110-190 | channel k is the decoding of the k-th UV set in layer order when k is below FilledSlots; otherwise it keeps its old value; vertices and triangles are unchanged |
| MeshBuilder.IntendedFallbackFillsUV2 | examples/import/Assets/Editor/FbxImporter04.cs:162-187 | with line 135 corrected, a mesh whose only UV set shares its layer with a typed set from eTextureEmissive on gets that set in uv2; uv keeps the diffuse set and uv3, uv4 are unchanged |
| MeshBuilder.FallbackNeverFiresAsWritten | examples/import/Assets/Editor/FbxImporter04.cs:135-187 | for one layer with a diffuse and an emissive set, uv2 stays empty as written but receives the emissive set when corrected |
| MeshBuilder.BuildMeshShape | examples/import/Assets/Editor/FbxImporter04.cs:204-229 | one vertex per control point, in index order; every present UV channel has 3 entries per polygon; for triangles, the triangle list has 3 entries per polygon in polygon order |
| MeshBuilder.ProcessMesh | examples/import/Assets/Editor/FbxImporter04.cs:192-238 | a node without a mesh gets none; otherwise the vertex and triangle loops and ProcessUVs yield exactly BuildMesh |
| SceneGraph.PreOrder | examples/import/Assets/Editor/FbxImporter04.cs:332-349 | the pre-order listing of a subtree starts at its root and lists only nodes numbered from the root to the end of the scene |
| SceneGraph.PreOrderMembers | examples/import/Assets/Editor/FbxImporter04.cs:346-348 | a node is listed in v's pre-order exactly when it lies below v |
| SceneGraph.PreOrderDistinct | examples/import/Assets/Editor/FbxImporter04.cs:346-348 | the pre-order listing repeats no node |
| SceneGraph.SiblingsApart | examples/import/Assets/Editor/FbxImporter04.cs:346-348 | of two distinct children of one node, neither lies below the other, so their subtrees are disjoint |
| SceneGraph.PreOrderCoversScene | examples/import/Assets/Editor/FbxImporter04.cs:436 | the walk from the root lists every node of the scene exactly once |
| SceneGraph.ParentClosedCoversScene | examples/import/Assets/Editor/FbxImporter04.cs:370-401 | a set of nodes that holds the root and every child of its members holds every node |
| SceneGraph.FbxScene.SetTranslation | examples/import/Assets/Editor/FbxImporter04.cs:385 | LclTranslation.Set changes this node's translation and nothing else |
| SceneGraph.FbxScene.SetControlPointAt | examples/import/Assets/Editor/FbxImporter04.cs:395 | SetControlPointAt changes control point i of this node's mesh and nothing else |
| Importer.Walk | examples/import/Assets/Editor/FbxImporter04.cs:332-349 | ProcessNode creates as many objects as the subtree has nodes |
| Importer.WalkMirrorsPreOrder | examples/import/Assets/Editor/FbxImporter04.cs:334-347 | the i-th object created is named after the i-th node in pre-order and carries the mesh built for it |
| Importer.WalkParentsFollowTree | examples/import/Assets/Editor/FbxImporter04.cs:339-348 | the first object hangs under the given parent; every later object hangs under an earlier one, the object of its node's source parent |
| Importer.WalkCoversScene | examples/import/Assets/Editor/FbxImporter04.cs:332-349 | from the root: one object per scene node, no node twice, the root's object without a parent, each other object under its source parent's object |
| Importer.NewNodeObject | examples/import/Assets/Editor/FbxImporter04.cs:334-344 | the new object has the node's name, the given parent and the mesh ProcessMesh builds for the node (none without a mesh) |
| Importer.RescaleEffect | examples/import/Assets/Editor/FbxImporter04.cs:378-397 | after the conversion each translation is multiplied by f³, and each control point by f; polygons, layers and point counts are kept, so the meshes stay fit for ProcessMesh |
| Importer.UnitFactorIsIdentity | examples/import/Assets/Editor/FbxImporter04.cs:363-364 | with factor 1 the conversion would change nothing, so the early return loses nothing |
| Importer.RescaleControlPoints | examples/import/Assets/Editor/FbxImporter04.cs:389-397 | the control-point loop multiplies every point of this node's mesh by the factor and changes nothing else |
| Importer.RescaleNode | examples/import/Assets/Editor/FbxImporter04.cs:378-397 | one dequeued node: its translation is multiplied three times, its mesh (if any) rescaled, and no other node changes |
| Importer.VisitOneMore | examples/import/Assets/Editor/FbxImporter04.cs:374-397 | visiting a node not visited before rescales that node, which was still unscaled, and no other |
| Importer.VisitBounds | examples/import/Assets/Editor/FbxImporter04.cs:370-401 | before any visit nothing is rescaled; once every node is visited the scene is fully rescaled |
| Importer.FrontierStep | examples/import/Assets/Editor/FbxImporter04.cs:374-401 | the dequeued node has not been visited; visiting it and enqueuing its children keeps the queue and the visited nodes distinct, holding the root, and closed under "child of a visited node" |
| Importer.FrontierDone | examples/import/Assets/Editor/FbxImporter04.cs:374 | when the queue is empty every node has been visited |
| Importer.Enqueue | examples/import/Assets/Editor/FbxImporter04.cs:399-401 | the children are appended to the queue in child order |
| Importer.ConvertScene | examples/import/Assets/Editor/FbxImporter04.cs:354-403 | factor 1 changes nothing; otherwise every node is dequeued exactly once and the scene ends with each translation multiplied three times and each control point once |
| Importer.WalkChildrenStep | examples/import/Assets/Editor/FbxImporter04.cs:346-348 | processing child i after children 0..i-1 appends that child's subtree, in listing and in objects |
| Importer.FbxImporter.constructor | examples/import/Assets/Editor/FbxImporter04.cs:556 | a new importer has counted no nodes and created no objects |
| Importer.FbxImporter.ProcessNode | examples/import/Assets/Editor/FbxImporter04.cs:332-349 | NumNodes grows by the subtree's node count, and the objects appended are exactly Walk: pre-order, named and parented as in the source tree |
| Importer.FbxImporter.ProcessChildren | examples/import/Assets/Editor/FbxImporter04.cs:346-348 | the children are processed in child order under the node's object, appending their subtrees' objects and counts |
| Importer.FbxImporter.ProcessScene | examples/import/Assets/Editor/FbxImporter04.cs:408-439 | rescales exactly when the units differ; warns exactly when the axis systems differ; then NumNodes grows by the scene's node count and the objects of the walk from the root are appended |
| Importer.FbxImporter.ImportAll | examples/import/Assets/Editor/FbxImporter04.cs:478-527 | returns 0 and changes nothing when Initialize or Import fails; otherwise rescales the scene exactly when the units differ (as ProcessScene), returns NumNodes, which has grown by the scene's node count, and appends the walk from the root |

## Left out

- ProcessTransform (lines 253-327) is not modelled. Its result comes from the FBX SDK's matrix and quaternion routines, which are foreign code over floating point.
- The SDK lifecycle of ImportAll is not modelled. That covers the manager, IO settings, `Initialize`, `Import`, `GetStatus`, `Destroy` and the import flags of lines 497-503. The outcomes of `Initialize` and `Import` are boolean parameters.
- `GetConversionFactorTo` (line 360) is foreign: the factor is a parameter of ConvertScene.
- The unit and axis comparisons (lines 415, 430) are SDK operators: their results are boolean parameters.
- Unity object creation beyond name, parent and mesh is not modelled. That covers the transform, `MeshFilter`, `MeshRenderer` and the `CreatePrimitive` material of lines 240-250.
- Logging is not modelled: `Debug.Log`, `LogWarning` and `LogError`. ProcessScene's axis warning is its result.
- Editor UI is not modelled: `OnMenuItem`, `OnValidateMenuItem` and `OnImport`.
- `AxisSystemToString` and `MakeFileName` are formatting helpers and are not modelled.
- Coordinates are reals. The double-to-float casts, the float-range `Debug.Assert` of lines 208-210 and the W component of `FbxVector4` are not modelled. Only the NaN test on UVs is kept.
- UvDecoder.ProcessUVSet: the all-same branch uses the corrected reading of line 96 (slot 0 broadcast) here and in every member built on it; the as-written result, all zeros, is kept only in UvDecoder.AllSameAsWritten.
- UvDecoder.ProcessUVSet: requires every lookup of the by-control-point loop to land inside its array (`Addressable`). Out of range, the C# code would throw or pass the SDK a bad slot, which is not modelled.
- MeshBuilder.ProcessUVs: requires `Addressable` of every UV set it decodes, for the same reason.
- Importer.ConvertScene: each node is given its own mesh. A mesh shared by several nodes (instancing) would be rescaled once per node in the C# code; that aliasing is not modelled.
- Importer.FbxImporter.ProcessChildren is the `for` loop at the end of ProcessNode (lines 346-348). It is written as a method of its own, and the recursion is unchanged.
- `NumNodes` is never reset in the source (line 556), and the model keeps it so: ImportAll's count includes nodes from earlier imports by the same importer.

## Findings

| source | as written | input that shows it | evidently intended | confidence | as-written member | corrected member |
|---|---|---|---|---|---|---|
| examples/import/Assets/Editor/FbxImporter04.cs:96 | `fbxElementArray.GetAt (0, value)` passes the struct `value` without `out`, so it keeps the (0,0) it was created with | an all-same element whose direct array is [(0.5, 0.5)], with six polygon vertices | every position receives slot 0 of the direct array | not executed | UvDecoder.AllSameAsWrittenDropsSlot0 | UvDecoder.AllSameBroadcasts |
| examples/import/Assets/Editor/FbxImporter04.cs:135 | `if (fbxFirstUVSet!=null)` never holds, so `fbxFirstUVSet` stays null and the secondary-set fallback of lines 167-187 never runs | one layer with a diffuse UV set and an emissive UV set, on a one-triangle mesh | `== null`: record the first UV layer, and put its first emissive-or-later set in uv2 | not executed | MeshBuilder.FallbackNeverFiresAsWritten | MeshBuilder.IntendedFallbackFillsUV2 |
