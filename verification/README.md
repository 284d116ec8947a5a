# FBXSharp object model in Dafny

This project models the object-graph core of FBXSharp, a C# library that reads and writes
Autodesk FBX scenes. Four components are modelled as pure functions, plus a few methods
with loops, over immutable data:

- **Geometry.** The polygon topology codec: each face's last vertex index is written
  complemented. The model also covers:
  - undirected edge derivation;
  - the per-layer channel bookkeeping of `Geometry.AsElement`, including the synthetic
    material channel and the relocation of its block;
  - per-polygon material indices expanded from submeshes;
  - blend-shape and skin list editing, connections and link resolution;
  - the `GeometryBuilder` validation and finalisation (arity, divisibility, resizing every
    channel to the index count, sorting by type and layer).
- **Model hierarchy.** An arena of models, from object id to parent and child list. It covers:
  - the parent/child mutation API;
  - connection enumeration and `ResolveLink` dispatch;
  - the node-attribute guard, with `NullNode` as the concrete model that takes an attribute;
  - the shading-byte and culling-name mapping of the written `Model` node.
- **Bind pose.** The lenient parse of `PoseNode` children into placeholders, their resolution
  against an id→object map, the upsert-by-target editing, and the written pose-node layout.
- **Material.** Null normalisation of names and the shading model, and one property connection
  per texture channel. The builder side covers the null-texture rejection and the "Bump"
  rule for factor type strings.

Files:
- `wrappers.dfy`: `Option`, `Result` and the error kinds that stand for the source's exceptions.
- `values.dfy`: 32-bit integer and byte ranges, and vectors.
- `tree.dfy`: the written/parsed element tree, as plain node records.
- `scene.dfy`: object identity and connections.
- `seqs.dfy`: list insert/remove helpers.
- One file per component: `polygons.dfy`, `edges.dfy`, `channels.dfy`, `layers.dfy`,
  `geometry.dfy`, `geometry_writer.dfy`, `geometry_builder.dfy`, `models.dfy`, `bind_pose.dfy`
  and `materials.dfy`.

Object identity (the source's `GetHashCode`-derived ids) is an `Obj` record holding:
- an `Int32` id;
- a scene id;
- a class tag;
- a type tag.

Exceptions become `Err` results. Each error kind is named after the .NET exception or the
check that raises it.

Behaviours of the code worth knowing before reading the contracts:
- The edge key puts the larger vertex index in the high 32 bits. The low word is sign-extended,
  as C#'s `(long)hi << 32 | lo` does (`Geometry.cs:166`).
- `MoveMaterials` carries the first material block, by adjacent swaps, to the last slot of the
  block range (`Geometry.cs:123-143`).
- `Model.ResolveLink` hands a model linker to `AddChild` (`Model.cs:435`), so a model linking
  to itself throws there.
- `Geometry.AsElement` calls `MateriaToElement` for every material-type channel
  (`Geometry.cs:466-469`). The model builds that block once per render. With no submeshes it
  cannot fail, so the outcome is the same.

## Model

| member | source | states |
|---|---|---|
| PolygonCodec.Complement | FBXSharp/Objective/Geometry.cs:445 | `~i` is `-i-1`, and it is negative exactly when `i` is non-negative, so a complemented last index marks the end of a face |
| PolygonCodec.IndexCountAppend | FBXSharp/Objective/Geometry.cs:104-114 | the index count (sum of polygon lengths) is additive over concatenated polygon lists |
| PolygonCodec.EncodeLength | FBXSharp/Objective/Geometry.cs:430-446 | the flat `PolygonVertexIndex` buffer has exactly `IndexCount` entries |
| PolygonCodec.EncodeAppend | FBXSharp/Objective/Geometry.cs:430-446 | encoding distributes over concatenation of polygon lists: each polygon is written independently in order |
| PolygonCodec.EncodeLayout | FBXSharp/Objective/Geometry.cs:430-446 | vertex `j` of polygon `i` lands at flat offset `IndexCount(polys[..i]) + j`: verbatim before the last vertex, complemented at the last |
| PolygonCodec.EncodeIndices | FBXSharp/Objective/Geometry.cs:430-446 | the writer's loop produces exactly the reference encoding, of length `IndexCount` |
| PolygonCodec.WritePolygon | FBXSharp/Objective/Geometry.cs:433-445 | one polygon's step appends its encoding; an empty polygon contributes nothing |
| PolygonCodec.FirstNegative | FBXSharp/Objective/Geometry.cs:445 | finds the first end-of-face marker, or reports that none exists |
| PolygonCodec.DecodeEncode | FBXSharp/Objective/Geometry.cs:430-446 | with non-negative indices, splitting at the negative entries and re-complementing recovers the non-empty polygons in order |
| PolygonCodec.DecodeEncodeExact | FBXSharp/Objective/Geometry.cs:430-446 | when no polygon is empty, decoding the encoding gives back the polygon list exactly |
| EdgeDerivation.EdgeKeySymmetric | FBXSharp/Objective/Geometry.cs:163-166 | for any two `int` indices, the edge key is the same in both directions |
| EdgeDerivation.EdgeKeyNegativeCollision | FBXSharp/Objective/Geometry.cs:163-166 | a negative smaller index is sign-extended over the high word, so the key is that index alone and edges sharing it collide |
| EdgeDerivation.EdgeKeyUndirected | FBXSharp/Objective/Geometry.cs:163-166 | for non-negative indices, two keys are equal iff they name the same undirected edge |
| EdgeDerivation.EdgeKeyPacking | FBXSharp/Objective/Geometry.cs:166 | for non-negative indices the key's high 32-bit word is the larger index and the low word the smaller |
| EdgeDerivation.EdgeKeysAppend | FBXSharp/Objective/Geometry.cs:157-175 | the flat key list is the concatenation of the polygons' key lists |
| EdgeDerivation.FirstPositionsSnoc | FBXSharp/Objective/Geometry.cs:166-171 | a flat position is recorded exactly when its key has not been seen before |
| EdgeDerivation.FirstPositionsSpec | FBXSharp/Objective/Geometry.cs:153-182 | recorded positions lie in range and strictly increase, and a position is recorded iff it is the first occurrence of its edge |
| EdgeDerivation.FirstPositionsCover | FBXSharp/Objective/Geometry.cs:153-182 | every flat position's edge is represented by a recorded position no later than it |
| EdgeDerivation.RecalculateEdges | FBXSharp/Objective/Geometry.cs:153-182 | the dictionary-based loop returns exactly the first-occurrence positions of the distinct undirected edges |
| EdgeDerivation.RecalculatedEdgesInRange | FBXSharp/Objective/Geometry.cs:153-182 | the derived edges are distinct and lie in `[0, IndexCount)` |
| EdgeDerivation.QuadHasFourEdges | FBXSharp/Objective/Geometry.cs:153-182 | a single quad yields exactly four edges, at positions 0 to 3 |
| Channels.OrdinalInjective | FBXSharp/Objective/Geometry.cs:12-20 | distinct channel types have distinct ordinals |
| Channels.NewChannel | FBXSharp/Objective/Geometry.cs:39-46 | the channel keeps its layer, type, size and buffer, and a null name becomes `""` |
| Channels.KeyInjective | FBXSharp/Objective/Geometry.cs:116-121 | the sort key identifies a channel's (type, layer) pair |
| Channels.CompareTo | FBXSharp/Objective/Geometry.cs:118-120 | `CompareTo` returns -1, 0 or 1 with sign matching the order of its operands |
| Channels.ChannelSorter | FBXSharp/Objective/Geometry.cs:116-121 | the comparer orders channels by type ordinal, then by layer |
| Channels.SortChannels | FBXSharp/Objective/Geometry.cs:151 | sorting gives a sorted permutation of the channel list |
| Channels.SortedUnique | FBXSharp/Objective/Geometry.cs:151 | with distinct (type, layer) keys there is only one sorted permutation, so the unstable sort's output is determined |
| Channels.SortDeterminate | FBXSharp/Objective/Geometry.cs:151 | any sorted permutation of a list with unique keys equals the reference sort |
| Channels.Resize | FBXSharp/Objective/Geometry.cs:583-588 | `Array.Resize` keeps the common prefix and pads with the default value up to the new length |
| Channels.ResizeIdempotent | FBXSharp/Objective/Geometry.cs:583-588 | resizing twice to the same length is the same as resizing once |
| Channels.ResizeWellTyped | FBXSharp/Objective/Geometry.cs:545-571 | resizing with the size's default value keeps every cell of the channel's component type |
| Channels.FitChannel | FBXSharp/Objective/Geometry.cs:545-571 | a fitted channel keeps its identity fields, has `IndexCount` cells, and keeps its prefix |
| Channels.ElementNameInjective | FBXSharp/Objective/Geometry.cs:190-197 | each channel type is written under a distinct `LayerElement…` name |
| Channels.MaterialElementName | FBXSharp/Objective/Geometry.cs:125-140 | `LayerElementMaterial` is the name of the material channel and of no other |
| LayerGroups.Layers | FBXSharp/Objective/Geometry.cs:414-415 | the group keys are distinct layers taken from the channel list |
| LayerGroups.LayersCover | FBXSharp/Objective/Geometry.cs:414-415 | every channel's layer is a group key |
| LayerGroups.InLayer | FBXSharp/Objective/Geometry.cs:414-415 | a group holds only channels of its layer, drawn from the list |
| LayerGroups.BlocksPermutation | FBXSharp/Objective/Geometry.cs:414-488 | with distinct covering keys, the rendered groups are a permutation of the channel list |
| LayerGroups.GroupedChannels | FBXSharp/Objective/Geometry.cs:414-488 | every channel is rendered in exactly one slot, so the groups hold as many channels as the list |
| Geometries.WithDeformers | FBXSharp/Objective/Geometry.cs:283-365 | replacing one deformer list leaves the other list and every other field unchanged |
| Geometries.GetIndexCount | FBXSharp/Objective/Geometry.cs:104-114 | `IndexCount` equals the length of the encoded polygon buffer |
| Geometries.InsertDeformer | FBXSharp/Objective/Geometry.cs:296-314 | null is a no-op; a foreign scene, then an index outside `0..Count`, are errors; otherwise the item is inserted at the index with the rest shifted |
| Geometries.EraseDeformer | FBXSharp/Objective/Geometry.cs:287-295 | null, foreign-scene and absent items are ignored; otherwise only the first occurrence is removed |
| Geometries.EraseDeformerAt | FBXSharp/Objective/Geometry.cs:315-323 | an index outside `0..Count-1` is a range error; otherwise that one entry is removed |
| Geometries.InsertThenEraseAt | FBXSharp/Objective/Geometry.cs:296-323 | removing at the index just inserted at restores the list |
| Geometries.AppendThenErase | FBXSharp/Objective/Geometry.cs:283-295 | `Add` appends, and removing the same item from the appended list restores it |
| Geometries.AddDeformerAt | FBXSharp/Objective/Geometry.cs:296-314 | `AddBlendShapeAt`/`AddSkinAt` edit only the chosen list, with the insert's guards and effect |
| Geometries.AddDeformer | FBXSharp/Objective/Geometry.cs:283-286 | `AddBlendShape`/`AddSkin` append after the scene check; null is a no-op |
| Geometries.RemoveDeformer | FBXSharp/Objective/Geometry.cs:287-295 | `RemoveBlendShape`/`RemoveSkin` leave the other list and everything else alone; the chosen list loses the first occurrence of a same-scene deformer it holds and is otherwise unchanged |
| Geometries.RemoveDeformerAt | FBXSharp/Objective/Geometry.cs:315-323 | `RemoveBlendShapeAt`/`RemoveSkinAt` throw outside `0..Count-1` and otherwise drop that entry of the chosen list |
| Geometries.GetConnections | FBXSharp/Objective/Geometry.cs:367-389 | one object connection per blend shape, then per skin, each from the deformer to this geometry |
| Geometries.ResolveLink | FBXSharp/Objective/Geometry.cs:391-405 | blend-shape deformers are appended to the shapes and skin deformers to the skins; other linkers are ignored |
| Geometries.ConnectionsRoundTrip | FBXSharp/Objective/Geometry.cs:367-405 | resolving the deformers that `GetConnections` lists, into a geometry with no deformers, rebuilds both lists |
| Geometries.ResolveAllConcat | FBXSharp/Objective/Geometry.cs:391-405 | resolving a concatenation of linker lists is resolving one list after the other |
| GeometryWriter.FirstMaterial | FBXSharp/Objective/Geometry.cs:127-131 | finds the first material block in the range, or reports that there is none |
| GeometryWriter.MoveMaterials | FBXSharp/Objective/Geometry.cs:123-143 | the first material in `[start, start+count-1)` goes to the last slot and the blocks after it move one place left; the range is permuted, everything outside is untouched, and with no such material nothing changes |
| GeometryWriter.Bubble | FBXSharp/Objective/Geometry.cs:133-138 | the swap chain carries one element to the last slot, shifting the rest left as a permutation |
| GeometryWriter.MoveMaterialsEndsWithMaterial | FBXSharp/Objective/Geometry.cs:123-143 | when the range holds a material block, its last slot holds one afterwards |
| GeometryWriter.MoveMaterialsLoop | FBXSharp/Objective/Geometry.cs:123-143 | the array loop computes exactly `MoveMaterials` |
| GeometryWriter.MoveMaterialsNotFound | FBXSharp/Objective/Geometry.cs:123-143 | with no material before the last slot (none, or one already last) the array is unchanged |
| GeometryWriter.Rotate | FBXSharp/Objective/Geometry.cs:133-138 | the adjacent-swap loop computes the rotation `Bubble` describes |
| GeometryWriter.PaintSubMesh | FBXSharp/Objective/Geometry.cs:259-265 | one submesh writes its material over its polygon range, failing exactly when a write falls outside the buffer |
| GeometryWriter.MaterialIndices | FBXSharp/Objective/Geometry.cs:253-267 | one entry per polygon: the material of the last submesh covering it, or 0; fails iff some submesh range leaves the buffer |
| GeometryWriter.MateriaToElement | FBXSharp/Objective/Geometry.cs:243-281 | exactly one submesh gives `AllSame` with its one material; otherwise `ByPolygon` with per-polygon indices (later submeshes overwrite earlier ones, uncovered polygons stay 0) |
| GeometryWriter.ChannelToElement | FBXSharp/Objective/Geometry.cs:184-241 | the block is named after the type and tagged with the layer. It holds `Version` 101, the channel name, `ByPolygonVertex`, `Direct` and the typed array, plus a weight array exactly when the channel has weights |
| GeometryWriter.WeightsForBuilderChannels | FBXSharp/Objective/Geometry.cs:186 | for builder-shaped channels a weight array is written exactly for tangents and binormals |
| GeometryWriter.LayerNode | FBXSharp/Objective/Geometry.cs:454-488 | a `Layer` node is tagged with its layer and lists a version plus one entry per channel of the layer |
| GeometryWriter.AsInt32s | FBXSharp/Objective/Geometry.cs:418 | the edge positions are written as the same values in an `int` array |
| GeometryWriter.MaterialRendered | FBXSharp/Objective/Geometry.cs:409-488 | with the synthetic channel last, one rendered channel block is the material block |
| GeometryWriter.AssembledShape | FBXSharp/Objective/Geometry.cs:448-488 | the children are the five header nodes, one block per channel, then one `Layer` node per group |
| GeometryWriter.AssembledMaterial | FBXSharp/Objective/Geometry.cs:409-488 | some slot among the channel blocks holds the material block |
| GeometryWriter.Layout | FBXSharp/Objective/Geometry.cs:448-494 | `5 + channels + groups` children; the `Layer` nodes follow the blocks; with submeshes, the last channel slot holds a material block |
| GeometryWriter.MaterialBlock | FBXSharp/Objective/Geometry.cs:243-281 | the material block fails only with two or more submeshes and one of them out of range; otherwise it is the block `ExpectedMaterial` describes, child by child |
| GeometryWriter.RenderWith | FBXSharp/Objective/Geometry.cs:430-494 | every child of the rendered node is pinned: the header with the encoded indices and derived edges, one block per augmented channel with the material block `ExpectedMaterial` describes moved to the end, then one layer node per layer |
| GeometryWriter.Render | FBXSharp/Objective/Geometry.cs:414-494 | rendering fails exactly where the material block fails, and otherwise yields the geometry node with every child pinned as for `RenderWith` |
| GeometryWriter.AsElement | FBXSharp/Objective/Geometry.cs:407-497 | as written: the channel list is restored on success, but when the material block throws, the synthetic channel stays appended |
| GeometryWriter.LeakingGeometry | FBXSharp/Objective/Geometry.cs:407-497 | a one-triangle geometry with two submeshes, one reaching past the polygon count, makes the as-written `AsElement` throw |
| GeometryWriter.AsElementRestoring | FBXSharp/Objective/Geometry.cs:407-497 | with the channel list restored on every path, the geometry is unchanged whether or not writing fails |
| GeometryBuilders.NewBuilder | FBXSharp/Objective/Geometry.cs:523-531 | a new builder is bound to its scene, with every list empty |
| GeometryBuilders.NewBuilderValid | FBXSharp/Objective/Geometry.cs:523-531 | a new builder satisfies the builder invariant (one channel per type and layer, builder-shaped channels) |
| GeometryBuilders.WithVertex | FBXSharp/Objective/Geometry.cs:612-616 | appends one vertex and changes nothing else |
| GeometryBuilders.WithVertices | FBXSharp/Objective/Geometry.cs:617-621 | null is a no-op |
| GeometryBuilders.WithVerticesOneByOne | FBXSharp/Objective/Geometry.cs:612-621 | adding an array of vertices is adding them one by one |
| GeometryBuilders.WithPolygon | FBXSharp/Objective/Geometry.cs:623-632 | rejects null or fewer than 3 indices, otherwise appends the polygon |
| GeometryBuilders.WithSubMesh | FBXSharp/Objective/Geometry.cs:671-680 | appends the submesh and changes nothing else |
| GeometryBuilders.FlattenChunk | FBXSharp/Objective/Geometry.cs:653-667 | concatenating the cut polygons gives back the input buffer |
| GeometryBuilders.ChunkShape | FBXSharp/Objective/Geometry.cs:645-667 | the buffer is cut into `len/n` polygons of length `n` |
| GeometryBuilders.ChunkFlatten | FBXSharp/Objective/Geometry.cs:653-667 | cutting the concatenation of `n`-gons gives back the polygons |
| GeometryBuilders.Arity | FBXSharp/Objective/Geometry.cs:634-637 | the named polygon types have arity at least 3 |
| GeometryBuilders.WithIndices | FBXSharp/Objective/Geometry.cs:638-669 | `numPerPoly < 3` is rejected first, then a null buffer, then a length not divisible by it; otherwise `len/n` polygons of length `n` are appended whose concatenation is the input |
| GeometryBuilders.NamedArityAccepted | FBXSharp/Objective/Geometry.cs:634-637 | the `PolyType` overload never hits the arity error |
| GeometryBuilders.WithIndicesRoundTrip | FBXSharp/Objective/Geometry.cs:638-669 | adding the flattened buffer of `n`-gons appends exactly those polygons |
| GeometryBuilders.WithPolygonAsIndices | FBXSharp/Objective/Geometry.cs:623-669 | a polygon of three or more indices added on its own and as a buffer of its own arity gives the same builder |
| GeometryBuilders.SplitIndices | FBXSharp/Objective/Geometry.cs:653-667 | the copy loops cut the buffer exactly as the reference chunking does |
| GeometryBuilders.CopyRun | FBXSharp/Objective/Geometry.cs:657-664 | the inner loop copies one run of `n` indices |
| GeometryBuilders.WithDeformer | FBXSharp/Objective/Geometry.cs:682-713 | `WithBlendShape`/`WithSkin`: null is a no-op, a foreign scene is an error, otherwise the item is appended |
| GeometryBuilders.WithChannel | FBXSharp/Objective/Geometry.cs:715-769 | a null or empty array, or a channel already present for the type and layer, is a no-op; otherwise one channel is appended; channel presence per (type, layer) is unchanged or added |
| GeometryBuilders.WithChannelValid | FBXSharp/Objective/Geometry.cs:715-769 | adding a channel keeps one channel per (type, layer) |
| GeometryBuilders.TypedChannelsValid | FBXSharp/Objective/Geometry.cs:715-769 | `WithNormals`, `WithTangents`, `WithBinormals`, `WithColors` and `WithUVs` all keep the builder invariant |
| GeometryBuilders.SecondChannelIgnored | FBXSharp/Objective/Geometry.cs:715-769 | a second channel for the same type and layer is ignored: the first one stays |
| GeometryBuilders.FittedUnique | FBXSharp/Objective/Geometry.cs:545-571 | fitting keeps the (type, layer) keys unique |
| GeometryBuilders.FitChannels | FBXSharp/Objective/Geometry.cs:545-571 | the resize loop computes the fitted channel list |
| GeometryBuilders.BuildGeometry | FBXSharp/Objective/Geometry.cs:533-581 | the geometry takes the builder's lists; every channel buffer has `IndexCount` entries; the channels are a sorted permutation of the fitted builder channels |
| GeometryBuilders.BuiltChannelsDetermined | FBXSharp/Objective/Geometry.cs:533-581 | for a valid builder the sorted channel list is unique, and it contains every fitted builder channel |
| GeometryBuilders.QuadThroughBuilder | FBXSharp/Objective/Geometry.cs:634-669 | a quad given as a flat buffer becomes one polygon, encoded as `[0, 1, 2, -4]`, with four edges |
| Models.ParentIffOnce | FBXSharp/Objective/Model.cs:296-396 | in a valid arena a model's parent is `p` iff it occurs exactly once in `p`'s children |
| Models.Link | FBXSharp/Objective/Model.cs:208-212 | linking inserts the child into the parent's list and sets its parent, touching no other model |
| Models.Unlink | FBXSharp/Objective/Model.cs:367-377 | unlinking drops the child from the parent's list and clears its parent, touching no other model |
| Models.LinkKeepsValid | FBXSharp/Objective/Model.cs:313-321 | linking a parentless model of the parent's scene keeps the arena valid |
| Models.UnlinkKeepsValid | FBXSharp/Objective/Model.cs:367-377 | unlinking a child keeps the arena valid |
| Models.DetachFromParent | FBXSharp/Objective/Model.cs:378-387 | the model ends parentless; a parentless model leaves the arena unchanged; only it and its parent change |
| Models.DetachFromParentEffect | FBXSharp/Objective/Model.cs:378-387 | the old parent's list loses the model |
| Models.DetachIsUnlink | FBXSharp/Objective/Model.cs:378-387 | detaching is unlinking the model at its position in its parent's list |
| Models.DetachKeepsValid | FBXSharp/Objective/Model.cs:378-387 | detaching keeps the arena valid |
| Models.DetachAllChildren | FBXSharp/Objective/Model.cs:388-396 | every child ends parentless and the child list is empty; other models are unchanged |
| Models.DetachAllKeepsValid | FBXSharp/Objective/Model.cs:388-396 | detaching all children keeps the arena valid |
| Models.Destroy | FBXSharp/Objective/Model.cs:448-452 | the child list is cleared, each former child keeps its record with the parent cleared, and every other model is untouched |
| Models.DestroyOrphansChildren | FBXSharp/Objective/Model.cs:448-452 | after destroy the arena is valid, the children survive parentless, and nothing names the destroyed model as parent |
| Models.AddGuard | FBXSharp/Objective/Model.cs:298-311 | the add is allowed iff the child is in the same scene and is not the parent; a foreign scene is reported before self-parenting |
| Models.AddChild | FBXSharp/Objective/Model.cs:296-322 | null is a no-op; the guards come before any change; an existing child is a no-op; a new child is appended after the first occurrence of it is removed from its old parent's list; every other model keeps its record |
| Models.AddChildKeepsValid | FBXSharp/Objective/Model.cs:296-322 | after adding, the arena is valid, the child occurs exactly once, and any old parent's list lost it |
| Models.AddChildAt | FBXSharp/Objective/Model.cs:333-366 | same guards plus a range error outside `0..Count`; an existing child stays where it is; a new child is inserted at the index after the first occurrence of it is removed from its old parent's list; every other model keeps its record |
| Models.AddChildAtKeepsValid | FBXSharp/Objective/Model.cs:333-366 | inserting keeps the arena valid with the child occurring exactly once |
| Models.RemoveChild | FBXSharp/Objective/Model.cs:323-332 | acts only on a same-scene child whose parent is this model, otherwise does nothing; the child's first occurrence is removed from the list and its parent cleared, and every other model keeps its record |
| Models.RemoveChildKeepsValid | FBXSharp/Objective/Model.cs:323-332 | removal keeps the arena valid and the model no longer listed |
| Models.RemoveChildAt | FBXSharp/Objective/Model.cs:367-377 | throws outside `0..Count-1`; otherwise removes that child and clears its parent, and every other model keeps its record |
| Models.RemoveChildAtKeepsValid | FBXSharp/Objective/Model.cs:367-377 | positional removal keeps the arena valid |
| Models.AddThenRemove | FBXSharp/Objective/Model.cs:296-332 | adding a parentless same-scene model and removing it restores the arena |
| Models.DetachAfterLink | FBXSharp/Objective/Model.cs:313-387 | detaching a just-appended child restores the arena |
| Models.UnlinkLink | FBXSharp/Objective/Model.cs:296-332 | unlinking at the index just linked at restores the arena |
| Models.AddAtThenRemoveAt | FBXSharp/Objective/Model.cs:333-377 | removing at the index just inserted at restores the arena |
| Models.CycleAccepted | FBXSharp/Objective/Model.cs:308 | only self-parenting is refused: making a model the child of its own child is accepted, leaving a two-model parent cycle |
| Models.GetAttribute | FBXSharp/Objective/Model.cs:183-191 | reading the attribute throws `NotSupported` exactly when the model does not support one |
| Models.SetAttribute | FBXSharp/Objective/Model.cs:193-206 | setting throws `NotSupported`, then null-reference, then on a type mismatch, and otherwise stores the attribute |
| Models.SetThenGetAttribute | FBXSharp/Objective/Model.cs:183-206 | an attribute that was set is the one read back |
| Models.NullNode | FBXSharp/Objective/NullNode.cs:5-20 | a `NullNode` is a model of type `Null` that supports an attribute |
| Models.NullNodeTakesNullAttribute | FBXSharp/Objective/NullNode.cs:23-42 | a `NullAttribute` passes the `NullNode`'s type check |
| Models.GetConnections | FBXSharp/Objective/Model.cs:398-429 | one object connection per child in order, then one for the attribute iff supported and set |
| Models.ConnectionsRecoverChildren | FBXSharp/Objective/Model.cs:398-429 | the connections' sources are the children in order, then the attribute, all targeting this model |
| Models.ResolveLink | FBXSharp/Objective/Model.cs:431-446 | model linkers go to `AddChild`, node-attribute linkers to the attribute setter, anything else is ignored |
| Models.ResolveLinkKeepsValid | FBXSharp/Objective/Model.cs:431-446 | a successful link resolution keeps the arena valid |
| Models.SelfLinkThrows | FBXSharp/Objective/Model.cs:435 | a model resolving a link to itself throws through `AddChild` |
| Models.ResolvedLinkEmitted | FBXSharp/Objective/Model.cs:398-446 | a resolved child link appears again among the model's connections |
| Models.ShadingByte | FBXSharp/Objective/Model.cs:254-263 | hard shading writes 0, every other shading one of the letters W, F, Y, T, U |
| Models.ParseShading | FBXSharp/Objective/Model.cs:159-172 | a known letter parses to the shading written as it; anything else is hard shading |
| Models.ShadingRoundTrip | FBXSharp/Objective/Model.cs:159-172 | parsing the written byte gives back every shading type |
| Models.ToByte | FBXSharp/Objective/Model.cs:161 | a byte attribute converts to itself; only numeric or boolean attributes convert |
| Models.ParseCulling | FBXSharp/Objective/Model.cs:174-180 | a name parses only to the culling written under it |
| Models.CullingRoundTrip | FBXSharp/Objective/Model.cs:174-180 | parsing the written culling name gives back every culling type |
| Models.MakeElement | FBXSharp/Objective/Model.cs:250-273 | the written `Model` node is `Version` 232, an opaque `Properties70` stand-in for the property bag, `MultiLayer` false, `MultiTake` 0, then the shading byte and the culling name |
| Models.ParseDepthFields | FBXSharp/Objective/Model.cs:149-181 | a missing element changes nothing; otherwise only shading and culling change. A convertible `Shading` sets the shading its byte names, an unconvertible one throws, a missing one keeps it. A string `Culling` naming an enumerator sets it; any other value, or none, keeps it |
| Models.DepthFieldsRoundTrip | FBXSharp/Objective/Model.cs:149-181 | parsing a written model node restores its shading and culling |
| Models.WrittenDepthFields | FBXSharp/Objective/Model.cs:250-273 | the written node's `Shading` and `Culling` children hold the byte and the name |
| BindPoses.ToInt32 | FBXSharp/Objective/BindPose.cs:57 | an `Int32` attribute converts to itself, and every converted value lies in the 32-bit range |
| BindPoses.PoseMatrix | FBXSharp/Objective/BindPose.cs:79-104 | a missing, non-double-array or undecodable matrix gives the identity |
| BindPoses.EntryOf | FBXSharp/Objective/BindPose.cs:62-106 | a pose node yields a placeholder carrying its `Int64` node id |
| BindPoses.PoseNodes | FBXSharp/Objective/BindPose.cs:62-106 | parsing yields only placeholders, at most one per child |
| BindPoses.PoseNodesAppend | FBXSharp/Objective/BindPose.cs:62-106 | parsing distributes over concatenated child lists, so placeholders keep document order |
| BindPoses.PoseNodesSingle | FBXSharp/Objective/BindPose.cs:66-77 | a child yields one placeholder iff it is a `PoseNode` with an `Int64` `Node` attribute |
| BindPoses.ParsePoseNodes | FBXSharp/Objective/BindPose.cs:62-106 | the constructor's loop builds exactly the reference placeholder list |
| BindPoses.ParsePose | FBXSharp/Objective/BindPose.cs:41-107 | no element, a missing `NbPoseNodes` or a count of 0 gives no placeholders, and an unconvertible count fails |
| BindPoses.ResolveOne | FBXSharp/Objective/BindPose.cs:113-125 | an entry resolves to at most one bound binding |
| BindPoses.Resolved | FBXSharp/Objective/BindPose.cs:109-129 | no placeholder remains after resolution, and the list never grows |
| BindPoses.ResolvedAppend | FBXSharp/Objective/BindPose.cs:109-129 | resolution distributes over concatenation, so relative order is kept |
| BindPoses.ResolvedCount | FBXSharp/Objective/BindPose.cs:109-129 | the count afterwards is the bound entries plus the resolvable placeholders |
| BindPoses.ResolvedIdempotent | FBXSharp/Objective/BindPose.cs:109-129 | resolving twice is resolving once |
| BindPoses.NoPlaceholdersStay | FBXSharp/Objective/BindPose.cs:109-129 | a list of bound entries is left untouched |
| BindPoses.ResolveAllBinds | FBXSharp/Objective/BindPose.cs:109-129 | the remove-in-place loop computes exactly the reference resolution |
| BindPoses.FindTarget | FBXSharp/Objective/BindPose.cs:166-174 | finds the first binding with the given target, or reports that there is none |
| BindPoses.AddBindingAt | FBXSharp/Objective/BindPose.cs:149-177 | a null target is a no-op; a foreign scene, then an index outside `0..Count`, throw even when the target is already bound; an existing target is replaced in place, otherwise inserted at the index |
| BindPoses.AddBinding | FBXSharp/Objective/BindPose.cs:131-134 | adds at the end, and succeeds for any same-scene target |
| BindPoses.AddKeepsUniqueTargets | FBXSharp/Objective/BindPose.cs:149-177 | the upsert keeps at most one binding per target |
| BindPoses.AddTwice | FBXSharp/Objective/BindPose.cs:149-177 | two adds for one target leave exactly one binding for it, carrying the second matrix |
| BindPoses.FirstMatch | FBXSharp/Objective/BindPose.cs:137-146 | finds the first entry equal in both target and matrix |
| BindPoses.RemoveBinding | FBXSharp/Objective/BindPose.cs:135-148 | only the first entry matching both target and matrix is removed; with no match nothing changes |
| BindPoses.AddThenRemoveBinding | FBXSharp/Objective/BindPose.cs:131-177 | removing a binding just added for a new target restores the pose |
| BindPoses.RemoveBindingAt | FBXSharp/Objective/BindPose.cs:178-186 | throws outside `0..Count-1`, otherwise removes that entry |
| BindPoses.RemoveAtUndoesAdd | FBXSharp/Objective/BindPose.cs:149-186 | binding a target not yet bound at an index, then removing that index, gives the pose back |
| BindPoses.RemoveAtKeepsUniqueTargets | FBXSharp/Objective/BindPose.cs:178-186 | removing by index keeps at most one binding per target |
| BindPoses.RemoveKeepsUniqueTargets | FBXSharp/Objective/BindPose.cs:135-148 | removing by target and matrix keeps at most one binding per target |
| BindPoses.PoseNodeOf | FBXSharp/Objective/BindPose.cs:198-204 | each binding is written as a `PoseNode` with a node id and a matrix |
| BindPoses.PoseNodeList | FBXSharp/Objective/BindPose.cs:196-204 | one `PoseNode` per binding, in list order |
| BindPoses.AsElement | FBXSharp/Objective/BindPose.cs:188-208 | an unresolved entry makes writing fail; otherwise the `Pose` node has `3 + Count` children, `NbPoseNodes` equal to `Count`, and one `PoseNode` per binding in order |
| BindPoses.Unresolved | FBXSharp/Objective/BindPose.cs:62-106 | reading a binding back gives the placeholder of its target's id with the same matrix |
| BindPoses.ParseAsElement | FBXSharp/Objective/BindPose.cs:41-208 | parsing a written pose gives one placeholder per binding, in order |
| BindPoses.SaveLoadCycle | FBXSharp/Objective/BindPose.cs:41-208 | writing, parsing and resolving against the targets' ids gives back the bindings |
| BindPoses.ResolveUnresolved | FBXSharp/Objective/BindPose.cs:109-129 | resolving placeholders whose ids are all known gives back the bindings |
| Materials.NewChannel | FBXSharp/Objective/Material.cs:16-20 | a channel keeps its texture, and a null name becomes `""` |
| Materials.NewChannelIdempotent | FBXSharp/Objective/Material.cs:16-20 | building a channel from an existing channel's name and texture gives that channel back |
| Materials.AddedChannelConnection | FBXSharp/Objective/Material.cs:16-20 | a textured channel added last emits the last connection, from its texture to the material, named by the channel, with a null name written as `""`; earlier connections are unchanged |
| Materials.SetShadingModel | FBXSharp/Objective/Material.cs:35-39 | null becomes `""`, and nothing else in the material changes |
| Materials.SetChannel | FBXSharp/Objective/Material.cs:144 | the channel is appended at the end, and nothing else changes |
| Materials.ToBoolean | FBXSharp/Objective/Material.cs:136-141 | a boolean converts to itself, an integer to "non-zero", and strings other than `True`/`False` fail |
| Materials.ReadShadingModel | FBXSharp/Objective/Material.cs:125-134 | the shading model is the first attribute only when it is a string, else `""` |
| Materials.ReadMaterial | FBXSharp/Objective/Material.cs:120-142 | a missing `MultiLayer` leaves the flag false; otherwise its conversion decides the flag or the failure |
| Materials.AsElement | FBXSharp/Objective/Material.cs:169-179 | the `Material` node is `Version` 102, the shading model, the flag as 1 or 0, then an opaque `Properties70` stand-in for the property bag |
| Materials.ReadAsElement | FBXSharp/Objective/Material.cs:120-179 | reading a written material gives back its shading model and `MultiLayer` flag |
| Materials.SetShadingModelRoundTrip | FBXSharp/Objective/Material.cs:35-39 | a value set through the setter reads back from the written node, null as `""` |
| Materials.GetConnections | FBXSharp/Objective/Material.cs:146-167 | one property connection per channel in order, from its texture to this material under the channel name; a channel without a texture fails |
| Materials.ConnectionsDescribeChannels | FBXSharp/Objective/Material.cs:146-167 | the connections carry exactly the channels' (texture, name) pairs |
| Materials.SetChannelConnection | FBXSharp/Objective/Material.cs:144-167 | adding a channel adds exactly its connection at the end |
| Materials.ChannelTypeNamesDistinct | FBXSharp/Objective/Material.cs:207-217 | the channel-type names are distinct |
| Materials.WithChannel | FBXSharp/Objective/Material.cs:256-265 | a null texture throws `ArgumentNullException`; otherwise the channel is appended with no de-duplication |
| Materials.WithChannelNamed | FBXSharp/Objective/Material.cs:252-255 | the name overload appends a channel under that name, null becoming `""` |
| Materials.WithChannelOf | FBXSharp/Objective/Material.cs:248-251 | the enum overload names the channel after the enum identifier |
| Materials.WithChannelKeepsTextured | FBXSharp/Objective/Material.cs:256-265 | builder-added channels always have a texture |
| Materials.FactorProperty | FBXSharp/Objective/Material.cs:284-293 | names starting with `Bump` get (`double`, `Number`), all others (`Number`, ``); flags are `Imported|Animatable`; a null name fails |
| Materials.ColorProperty | FBXSharp/Objective/Material.cs:271-278 | a color is stored as a `Color` property flagged `Imported|Animatable` |
| Materials.FactorTypesAgree | FBXSharp/Objective/Material.cs:74-118 | the builder's type strings agree with the material's own factor setters, and only `BumpFactor` is `double` |

## Left out

- Floating-point data is opaque: vertices, the flattened `double[]` of channel values,
  matrices and colours. `ToMatrix4x4` is a parameter of the pose parse.
- Matrix equality in `RemoveBinding` is structural; NaN comparison is left out.
- The base-class property bag is not part of this model: `Properties70`, `BuildAttributes`,
  `BuilderBase`, `SetFBXProperty`, `WithName`, `WithFBXProperty`. It appears only as an opaque
  node or attribute.
- Tree construction through `ElementaryFactory` is not part of this model. Elements are plain
  node records and the binary/ASCII flag is dropped.
- Transform evaluation (`EvaluateLocal`, `GetLocalTransform`, `GetGlobalTransform`,
  `Model.cs:219-294`) is left out as matrix algebra. Its parent recursion only terminates on
  acyclic chains, which `AddChild` does not enforce (see `Models.CycleAccepted`).
- `FBXObject.Destroy` (the base call in `Model.Destroy`) is not part of this model. Only the
  child detachment is modelled.
- `Cluster.cs` and `Distance.cs` are left out: one is an unfinished stub, the other a plain
  record.
- The `Geometry` reading constructor (`Geometry.cs:94-103`) is left out. `InternalSet*` are
  modelled as record updates.
- Models.ToByte: `Convert.ToByte` on strings, doubles and out-of-range values is approximated.
  Only byte, boolean and in-range integer attributes convert.
- BindPoses.ToInt32: `Convert.ToInt32` on strings and doubles is approximated. Every other
  attribute kind fails.
- BindPoses.AddBindingAt and BindPoses.RemoveBinding: the binding is passed as its target and
  matrix. A null `IBinding` itself is not modelled. The source throws `NullReferenceException`
  on it: `AddBindingAt` always (`BindPose.cs:151`), `RemoveBinding` whenever the list is
  non-empty (`BindPose.cs:141`).
- Materials.ToBoolean: case-insensitive and whitespace-padded `"true"`/`"false"` strings are
  not modelled, and a NaN double (which converts to true) has no counterpart among the reals.
- Models.ParseCulling: only the exact enum names parse.
- Materials.FactorProperty: `StartsWith("Bump")` is modelled as an ordinal prefix test. The
  culture-sensitive comparison is left out.
- GeometryWriter.AsElement: `IndexCount` is required to stay below 2^31 so the written `int`
  arrays are exact. The source would overflow beyond it.
- Geometries.GetIndexCount: the count is an unbounded `nat`. `InternalGetIndexCount`
  (`Geometry.cs:104-114`) sums into an `int`, which wraps past 2^31-1. The 32-bit wrap is not
  modelled.
- GeometryBuilders.BuildGeometry: every channel is resized to the exact index count. Past
  2^31-1 indices the source would pass the wrapped `int` count to `Resize`
  (`Geometry.cs:545-561`). A negative count throws and a wrapped positive count truncates the
  buffers; neither is modelled.
- GeometryWriter.MoveMaterials: requires the range to lie inside the array, which the source's
  only caller guarantees.
- Channels.SortChannels: `List.Sort` is unstable, so only a sorted permutation is promised.
  `Channels.SortedUnique` shows the order is still determined when (type, layer) keys are
  unique, as the builder ensures.
- LayerGroups.Layers: the order of the `GroupBy` groups is modelled as first appearance.
- The synthetic material channel's null buffer is modelled as an empty buffer.
- `WithPolygon` stores the caller's array by reference. The aliasing is not modelled.
- Geometries.GetConnections and the connection lists carry ids only. The `IElementAttribute`
  argument of `ResolveLink` is dropped.
- Materials.ColorProperty: the colour setters of `Material` (`Material.cs:43-72`) use the
  `Animatable` flag only. Only the builder's `Imported|Animatable` form is modelled.
- Materials.ReadMaterial: a null element (the constructor's `element == null` path) is not
  modelled. Channels are filled by link resolution, so reading starts with none.
- Object identity is an abstract `Obj` record, and the model hierarchy an arena map from id to
  record. `Present`/`Valid` describe the well-formed arenas the mutations start from.

## Findings

| source | as written | input that shows it | evidently intended | confidence | as-written member | corrected member |
|---|---|---|---|---|---|---|
| FBXSharp/Objective/Geometry.cs:407-497 | the synthetic material channel is appended to `Channels` before `MateriaToElement` runs and removed only after it, so when `MateriaToElement` throws the channel stays in the geometry | one triangle `[[0, 1, 2]]` with submeshes `(0, 1, 0)` and `(0, 2, 1)`: the second submesh writes past the one-entry material buffer | `Channels` is the same before and after `AsElement`, on every path | not executed | GeometryWriter.AsElement | GeometryWriter.AsElementRestoring |
