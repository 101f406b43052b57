# COLLADA mesh import of WEBGL_LIB, in Dafny

This project models the mesh import of the WEBGL_LIB renderer,
`Renderer.prototype.loadModelFromCollada`, once the COLLADA document has been
read into plain values, and proves what the import produces. The model covers:

- the interleave width of the `<p>` index list (`maxOffset`);
- the three loops that pull the VERTEX, NORMAL and TEXCOORD index streams out
  of the interleaved list;
- the vertex/UV reconciliation pass that splits vertices along texture seams:
  a registry (`vertexUVRelation`) from position index to the registered texture
  tuples;
- the rebuild of the texture-coordinate buffer from that registry;
- the zero-filled texture buffer of a model without texture coordinates;
- the naming of the models of a document and the loop that stores them;
- the world registry of the renderer with its active world, the cameras of a
  world with the active camera, and the light-count clamp of the render loop.

Modules, one per file:

- `Common` (`common.dfy`): the building blocks.
  - JavaScript's `Array.prototype.slice`, with its clamping.
  - Records of a stride in a flat array.
  - `/` on lengths: a whole count, or an inexact quotient.
  - Decimal rendering of numbers, with its inverse.
- `Collada` (`collada.dfy`): the data of one `<geometry>` as the importer reads it, and the loaded model.
- `Extraction` (`extraction.dfy`): `maxOffset` and the strided extraction loop.
- `Matching` (`matching.dfy`): the `checkingStr` comparison and the search for a registered tuple.
- `Reconcile` (`reconcile.dfy`): the reconciliation pass.
  - `Step` handles one corner; `RunFrom`/`Final` run it over all corners.
  - The gather, sort and concatenation build the texture buffer.
  - The methods `SplitSeams`, `VisitCorner`, `CollectEntries` and `ConcatTuples` are the source's loops, each proved equal to its function.
- `PassInvariant` (`pass_invariant.dfy`): what holds after every corner of the pass.
- `Seams` (`seams.dfy`): the per-corner rules (first occurrence, reuse, split) and the pass-level results (bounds, the seam rule).
- `TexCoords` (`texcoords.dfy`): the order, completeness, alignment and gaps of the rebuilt texture buffer.
- `Importer` (`importer.dfy`): the import of one geometry, as functions and as the source's loops.
- `ImportFacts` (`import_facts.dfy`): import-level results.
  - When the import fails.
  - Which input each stream comes from.
  - The fallback buffer.
  - The counts of a reconciled model.
- `Renderer` (`renderer.dfy`): the renderer around the importer.
  - Model naming.
  - `loadModelFromCollada`'s loop over geometries.
  - `createWorld`/`setActiveWorld` and the `World`/`Camera` objects.
  - The light clamp.

Coordinates are integers (`Coord`). The source compares them only with
`===`, so no arithmetic on them is modelled. Index tokens are natural numbers.

Where the importer updates arrays and the registry in place, the model uses
methods over the same values, proved equal to the specification functions.
The renderer's state lives in classes (`Renderer`, `World`).

Three behaviours of the source are modelled as written and proved:

- A split pushes onto the normal array a slice of the *vertex* array. That
  array has already been extended, and the slice is taken at
  `normalIndex * normalStride`. See `Reconcile.NormalCopy`, `Seams.NormalsLagVertices` and
  `Seams.DifferentTupleSplits`.
- A registered tuple matches only when the comparison string is `"11"` or
  `"111"`. Tuples of other lengths never match, so every revisit of their
  position splits. See `Matching.MatchesIff`, `Seams.OtherLengthsSplit` and
  `Seams.NoSharing`.
- An original position that no corner uses leaves a gap in the rebuilt texture
  buffer, which is then shorter than one tuple per vertex. See
  `TexCoords.GapWhenUnused`; `TexCoords.NoGaps` shows that there is no gap when
  every position is used.

The library's documentation says nothing about a COLLADA source that an input
names but the mesh lacks. The code then throws from inside the loop over
geometries. The model follows the code: the partial model stays stored under
its name, the error is reported, and the remaining geometries are not read.

## Model

| member | source | states |
|---|---|---|
| Common.Slice | examples/js/webgl_lib.js:929 | `slice(lo, hi)` has `min(hi, len) - lo` elements (none when that is not positive), each the array element at its offset from `lo` |
| Common.Quotient | examples/js/webgl_lib.js:990 | a length over a stride is a whole count exactly when the stride is positive and divides the length, and then count times stride is the length |
| Common.Decimal | examples/js/webgl_lib.js:362 | a number renders as a non-empty string of decimal digits without a leading zero, of more than one digit exactly from 10 on |
| Common.DecimalRoundTrip | examples/js/webgl_lib.js:733 | reading the rendered digits back gives the number |
| Common.DecimalInjective | examples/js/webgl_lib.js:733 | different numbers render as different strings |
| Extraction.MaxOffsetOf | examples/js/webgl_lib.js:851-856 | the value is at least every declared offset and is 0 or one of them: the maximum, starting from 0 |
| Extraction.MaxOffset | examples/js/webgl_lib.js:851-856 | the loop over the inputs computes that maximum |
| Extraction.StridedElements | examples/js/webgl_lib.js:874-876 | element `i` of a stream is `p[offset + i * step]`, and there is an element for exactly the positions below `p.length` |
| Extraction.ExtractStream | examples/js/webgl_lib.js:886-888 | the extraction loop produces that stream (the same loop serves VERTEX, NORMAL and TEXCOORD) |
| Extraction.StridedRecordCount | examples/js/webgl_lib.js:897-899 | when `p` holds whole records, every channel with an offset inside a record has one index per record |
| Matching.CheckString | examples/js/webgl_lib.js:938-945 | one flag per registered component, `'1'` exactly when the corner's tuple has that component and it is equal |
| Matching.CompareTuples | examples/js/webgl_lib.js:939-945 | the comparison loop builds that string |
| Matching.MatchesIff | examples/js/webgl_lib.js:947 | a registered tuple matches exactly when it has 2 or 3 components and the corner's tuple starts with it |
| Matching.MatchesSameLength | examples/js/webgl_lib.js:940-947 | equal-length tuples of 2 or 3 components match exactly when they are equal |
| Matching.NeverMatchesOtherLengths | examples/js/webgl_lib.js:947 | a registered tuple of any other length never matches |
| Matching.FirstMatch | examples/js/webgl_lib.js:936-956 | the first matching registered entry, or none when no entry matches |
| Matching.FindMatch | examples/js/webgl_lib.js:935-956 | the search loop stops at that first match |
| Matching.FirstMatchIsFirst | examples/js/webgl_lib.js:951-954 | a matching entry with no earlier match is the one the search returns |
| Matching.FirstMatchNone | examples/js/webgl_lib.js:957 | with no matching entry the search finds none |
| Reconcile.Step | examples/js/webgl_lib.js:926-968 | processing one corner rewrites at most that corner's index |
| Reconcile.RunFrom | examples/js/webgl_lib.js:925-969 | the pass keeps one index per corner |
| Reconcile.Bound | examples/js/webgl_lib.js:973 | a bound above every position index, so the ascending key walk visits every registered key |
| Reconcile.InsertByIndex | examples/js/webgl_lib.js:976-978 | insertion keeps the entries as a multiset and the order by output index |
| Reconcile.SortByIndex | examples/js/webgl_lib.js:976-978 | the sort is a permutation ordered by output index |
| Reconcile.InsertStable | examples/js/webgl_lib.js:976-978 | inserting an entry puts it in front of the entries of its output index and keeps their order |
| Reconcile.SortStable | examples/js/webgl_lib.js:976-978 | the sort is stable: the entries of each output index keep their relative order |
| Reconcile.Reconcile | examples/js/webgl_lib.js:907-994 | the pass as the importer runs it gives the specified outcome |
| Reconcile.SplitSeams | examples/js/webgl_lib.js:925-969 | the loop over the corners reaches the state after all corners |
| Reconcile.VisitCorner | examples/js/webgl_lib.js:926-968 | the loop body for one corner is one step of the pass |
| Reconcile.CollectEntries | examples/js/webgl_lib.js:972-975 | the key loop collects the entries of every key in ascending key order |
| Reconcile.ConcatTuples | examples/js/webgl_lib.js:979-987 | the accumulation loop concatenates the sorted entries' tuples |
| PassInvariant.InitialInv | examples/js/webgl_lib.js:912-923 | before the first corner the invariant of the pass holds |
| PassInvariant.StepInv | examples/js/webgl_lib.js:926-968 | each corner keeps it (whole records, original prefix, registry keys, first entries, distinct output indices, corner indices below the count and copying their position, entry count) |
| PassInvariant.FinalInv | examples/js/webgl_lib.js:925-969 | it holds after the whole pass |
| Seams.KeysBefore | examples/js/webgl_lib.js:933-967 | before corner `j` the registry's keys are the positions of the earlier corners, and the later corners still hold their position indices |
| Seams.FirstOccurrence | examples/js/webgl_lib.js:965-967 | the first corner of a position keeps the position's index at the end of the pass, and the position's first entry holds that index and the corner's tuple |
| Seams.EqualTupleReuses | examples/js/webgl_lib.js:936-955 | a corner with a registered equal tuple, where every registered tuple of its position has the corner's length 2 or 3, takes the stored index, the vertex and normal arrays stay as they are, and the entry's occurrence count goes up by one |
| Seams.DifferentTupleSplits | examples/js/webgl_lib.js:957-962 | with no match the index becomes the vertex count before the append, exactly the position's `vertexStride` elements are appended, the prefix is unchanged, the count grows by one, and the normal array grows by the extended vertex array's slice at the normal index |
| Seams.OtherLengthsSplit | examples/js/webgl_lib.js:947 | with registered tuples of lengths other than 2 or 3, a revisit always splits |
| Seams.OutputBounds | examples/js/webgl_lib.js:958-990 | after the pass the vertex array holds whole records and starts with the original data, and every corner's index is below the vertex count and addresses a copy of its original position record |
| Seams.SeamIff | examples/js/webgl_lib.js:925-969 | for position indices below the vertex count and tuples of one length 2 or 3, two corners share a vertex exactly when they have the same position and the same tuple |
| Seams.NoSplitWhenConsistent | examples/js/webgl_lib.js:925-969 | for position indices below the vertex count and tuples of one length 2 or 3, when corners with the same position always have the same tuple, the pass returns the index stream unchanged |
| Seams.Idempotent | examples/js/webgl_lib.js:925-969 | for position indices below the vertex count and tuples of one length 2 or 3, the pass run again on its own indices, vertices and normals is well indexed and returns the same indices |
| Seams.NormalsLagVertices | examples/js/webgl_lib.js:918-962 | an instance with two vertices and one normal in, where a seam yields three vertices and two normals, the second normal being vertex 0's position |
| Seams.NoSharing | examples/js/webgl_lib.js:947 | for position indices below the vertex count and tuples of lengths other than 2 or 3, no two corners share a vertex |
| TexCoords.TexEntriesOrdered | examples/js/webgl_lib.js:972-987 | for position indices below the vertex count, the entries behind the rebuilt buffer are exactly the registered ones, in strictly ascending order of output index, each below the vertex count |
| TexCoords.NoGaps | examples/js/webgl_lib.js:981-987 | for position indices below the vertex count, when every original position is used, there is one entry per vertex and entry `i` has output index `i` |
| TexCoords.GapWhenUnused | examples/js/webgl_lib.js:983-985 | for position indices below the vertex count, an unused original position leaves no entry at its index and fewer entries than vertices |
| Seams.LengthBefore | examples/js/webgl_lib.js:929-967 | when all corner tuples have one length, every registered tuple has that length at every corner of the pass |
| Seams.LinkedEntryAny | examples/js/webgl_lib.js:936-955 | with tuples of one length, whatever it is, the entry a corner uses holds exactly the corner's tuple |
| TexCoords.TexAligned | examples/js/webgl_lib.js:979-994 | with every position used and all tuples of one length `L`, the buffer has `L` values per vertex and each corner's vertex holds the corner's own tuple |
| Importer.ReadPositions | examples/js/webgl_lib.js:814-830 | the `<vertices>` loop changes only the vertex buffer, and a whole vertex count stays whole; which buffer it stores is `ImportFacts.LastPositionWins`, and when it fails is `ImportFacts.PositionsFail` |
| Importer.ReadChannel | examples/js/webgl_lib.js:861-904 | one polylist input leaves the vertex buffer alone, and fails exactly when it is NORMAL or TEXCOORD and its source is missing; which buffer it stores is `ImportFacts.ChannelBuffer` |
| Importer.ReadChannels | examples/js/webgl_lib.js:861-906 | the loop over the polylist inputs leaves the vertex buffer alone |
| Importer.Zeros | examples/js/webgl_lib.js:999-1003 | `n` zeros |
| Importer.PushZeros | examples/js/webgl_lib.js:998-1003 | the fallback loop appends two zeros per vertex to the texture data |
| Importer.ReadVertices | examples/js/webgl_lib.js:814-830 | the `<vertices>` loop as written gives the specified result |
| Importer.VisitChannel | examples/js/webgl_lib.js:862-904 | the body of the polylist loop gives the specified result |
| Importer.ReadPolylist | examples/js/webgl_lib.js:851-906 | `maxOffset` followed by the channel loop gives the specified result |
| Importer.ImportGeometry | examples/js/webgl_lib.js:737-1006 | the import of one geometry as written gives the specified staged model and error |
| ImportFacts.PositionsFail | examples/js/webgl_lib.js:821-823 | the `<vertices>` loop fails exactly when some POSITION input names a missing source, and the error names a missing source |
| ImportFacts.ChannelsFail | examples/js/webgl_lib.js:882-895 | the polylist loop fails exactly when some NORMAL or TEXCOORD input names a missing source |
| ImportFacts.ImportFails | examples/js/webgl_lib.js:814-904 | a geometry's import fails exactly when a POSITION, NORMAL or TEXCOORD input names a missing source, and the error carries a missing name |
| ImportFacts.ChannelStream | examples/js/webgl_lib.js:870-904 | one input writes its semantic's stream (VERTEX only when it names `<vertices>`) and no other |
| ImportFacts.LastChannelWins | examples/js/webgl_lib.js:861-904 | each stream is the one extracted for the last input of its semantic |
| ImportFacts.UnwrittenStreamKept | examples/js/webgl_lib.js:861-904 | a stream that no input of its semantic writes stays as it was |
| ImportFacts.NoPositionKeeps | examples/js/webgl_lib.js:814-830 | without a POSITION input the `<vertices>` loop changes nothing and reports no error |
| ImportFacts.LastPositionWins | examples/js/webgl_lib.js:814-830 | when the `<vertices>` loop succeeds, the vertex buffer is the buffer of the source named by the last POSITION input |
| ImportFacts.PreparedVertexBuffer | examples/js/webgl_lib.js:821-823 | a geometry read without error has the last POSITION input's source as its vertex buffer |
| ImportFacts.ChannelBuffer | examples/js/webgl_lib.js:880-896 | a NORMAL or TEXCOORD input replaces the buffer of its semantic by its source's buffer and leaves the other alone |
| ImportFacts.UnwrittenBufferKept | examples/js/webgl_lib.js:861-904 | the normal or texture buffer stays as it was when no input of that semantic follows |
| ImportFacts.LastBufferWins | examples/js/webgl_lib.js:861-904 | after the polylist loop, the normal and texture buffers are the buffers of the sources named by the last NORMAL and the last TEXCOORD input |
| ImportFacts.ZeroFilled | examples/js/webgl_lib.js:995-1006 | without a texture count the texture data gets `2 * vertices.count` zeros after its old data, stride 2 and count `vertices.count`; the index streams, vertices and normals stay as extracted |
| ImportFacts.NoTexChannelKeeps | examples/js/webgl_lib.js:892-901 | only a TEXCOORD input changes the texture buffer |
| ImportFacts.NoTexCoordChannel | examples/js/webgl_lib.js:998-1005 | with no TEXCOORD input, the texture buffer is exactly `2 * vertices.count` zeros with stride 2 and count `vertices.count` |
| ImportFacts.ReconciledVertices | examples/js/webgl_lib.js:988-990 | for position indices below the vertex count, after reconciliation `vertices.count` is the whole number `data.length / stride`, every rewritten index is below it and addresses a copy of its original position, and the original data is a prefix |
| ImportFacts.ReconciledStreams | examples/js/webgl_lib.js:991-994 | the normal and texture index streams stay as extracted, and the normal and texture counts are a length over a stride |
| ImportFacts.ReconciledTexture | examples/js/webgl_lib.js:993-994 | for position indices below the vertex count, with every position used and all tuples of the (positive) texture stride, the texture count equals the vertex count and each corner's vertex holds the corner's tuple |
| Renderer.BaseName | examples/js/webgl_lib.js:726 | a missing or empty model name becomes `"model"`, any other name is kept |
| Renderer.GeometryName | examples/js/webgl_lib.js:730-734 | one geometry uses the base name; with several, the name is the base followed by digits that read back as `i + 1` |
| Renderer.NamesDistinct | examples/js/webgl_lib.js:732-733 | the geometries of one document get different names |
| Renderer.LightCount | examples/js/webgl_lib.js:572 | the light count is the smaller of the number of lights and the shader maximum |
| Renderer.WorldKey | examples/js/webgl_lib.js:361-363 | a named world keeps its name; an unnamed one is `"world"` followed by digits that read back as the number of worlds |
| Renderer.UnnamedKeyIsNew | examples/js/webgl_lib.js:362 | when all worlds were created unnamed, the next generated name is new |
| Renderer.World.constructor | examples/js/webgl_lib.js:364-380 | a new world has no camera and no active camera |
| Renderer.World.SetActiveCamera | examples/js/webgl_lib.js:383-389 | the given value, a camera or none, becomes active; the camera list is unchanged |
| Renderer.World.AddCamera | examples/js/webgl_lib.js:391-401 | the camera is appended and becomes active when it is the first one |
| Renderer.Renderer.constructor | examples/js/webgl_lib.js:332-335 | a new renderer has no world, no active world and no loaded model |
| Renderer.Renderer.CreateWorld | examples/js/webgl_lib.js:350-429 | a fresh empty world is stored under its key, replacing any world of that name; it becomes active only when it is the first world |
| Renderer.Renderer.SetActiveWorld | examples/js/webgl_lib.js:449-455 | the named world becomes active when it exists; otherwise nothing changes |
| Renderer.Renderer.LoadModelFromCollada | examples/js/webgl_lib.js:717-1009 | only the geometries the loop reaches need to be importable; they are imported in order, each stored under its name, and the first error stops the loop; `results` are exactly the imports up to and including the first failing one |
| Renderer.ImportsUnique | examples/js/webgl_lib.js:727-1007 | the document alone decides which imports the loop performs |
| Renderer.StoreAllSnoc | examples/js/webgl_lib.js:737 | storing one more import after a run without error stores it under its name and reports its error |
| Renderer.StoresUnderName | examples/js/webgl_lib.js:737 | every geometry up to the first failing one is stored under its own name with the model its import produced |
| Renderer.KeepsOtherNames | examples/js/webgl_lib.js:737 | a model stored under any other name is kept |
| Renderer.SucceedsIff | examples/js/webgl_lib.js:729-1007 | no error is reported exactly when every stored import is without error |
| Renderer.LoadSucceedsIff | examples/js/webgl_lib.js:727-1007 | loading a document reports no error exactly when every one of its geometries imports without error |
| Renderer.FirstErrorReported | examples/js/webgl_lib.js:821 | the error reported is that of the first failing geometry |

## Left out

- The XML DOM traversal and token parsing (`getElementsByTagName`, `getElementById`, `innerHTML`, `parseFloat`, `parseInt`). A geometry is given as its sources, its `<vertices>` inputs, its polylist inputs and its `<p>` list. The count-mismatch message about the source data is only a log line.
- The polylist inputs are a sequence in the order `for (key in sourceTypes)` visits them. Two inputs with the same source key, where the later one replaces the earlier in the source's object, are not modelled.
- JavaScript objects are modelled as maps of their own keys. The source looks names up with `obj[name]`, which also finds inherited properties such as `"constructor"`: `if(this.worlds[worldName])` (lines 449-454) is then truthy for a world that was never created, and `sources[sourceId]` or `sources[key]` (lines 821, 882, 893) yields an object without `dataArray` instead of throwing. The model treats such names as absent: `Renderer.Renderer.SetActiveWorld` tests `worldName in worlds`, and an import fails on them as on any missing source.
- Model names are strings. For a non-string `modelName`, `modelName + (i+1)` at line 733 would add numbers instead of appending digits; `Renderer.GeometryName` appends the decimal rendering of `i+1`.
- The comment at lines 719-720 says that the models are stored with the id of the geometry as key. The code at lines 726-738 keys them by `modelName`, with `i+1` appended when there are several geometries, and the model follows the code.
- The normal and vertex counts of a reconciled model need not agree. The normal array starts as a copy of the normal source (line 918) and each split appends one slice of the vertex array to it (line 961), so the counts differ whenever the sources differ in count, and the appended normals are position data. `Seams.NormalsLagVertices` gives an instance: two vertices and one normal in, three vertices and two normals out.
- Negative, fractional or non-numeric index tokens and offsets. A NaN coordinate, and its never-equal comparison, is not modelled either.
- A stream that has no entry for a corner makes the source slice at NaN. The model treats this as the empty tuple and the empty normal copy, which is what `slice` returns.
- Reconcile.Reconcile: requires `Runnable`, that is, position data of a positive stride holding whole records whenever there is a corner. Only the vertex index of a split (line 958) must be a whole quotient: with stride 0 it is Infinity or NaN, and with data that is not whole records it is fractional, and the model represents neither. The counts that every reconciled import computes at lines 990-994 are modelled by `Common.Quotient`, which also covers an inexact or undefined quotient. `Runnable` also excludes unaligned inputs on which no corner splits, so that line 958 never runs; nothing is claimed about them.
- Importer.ImportSpec: requires `ImportDefined`, the same condition for the reconciliation pass of that geometry.
- Seams.OutputBounds: requires `WellIndexed`, that is, every position index is below the original vertex count. Out-of-range indices produce empty copies, and nothing is claimed about them. The same requirement holds for `Seams.SeamIff`, `Seams.NoSharing`, `Seams.NoSplitWhenConsistent`, `Seams.Idempotent`, `TexCoords.TexEntriesOrdered`, `TexCoords.NoGaps`, `TexCoords.GapWhenUnused`, `ImportFacts.ReconciledVertices` and `ImportFacts.ReconciledTexture`. Without it the seam rule fails: with positions `[1, 1]` over a single vertex of stride 1 and tuples `[1, 1]` and `[2, 2]`, both corners end on index 1, because the first keeps the out-of-range index 1 and the split of the second allocates the vertex count 1.
- Seams.SeamIff: requires `WellIndexed` (see `Seams.OutputBounds` above) and states the seam rule only for tuples that all have one length, 2 or 3. Mixed lengths follow `Matching.MatchesIff` corner by corner.
- Seams.EqualTupleReuses: requires that every registered tuple of that position has the corner's tuple length, 2 or 3, and that no earlier registered entry carries the same tuple. Without the length condition a shorter registered tuple can match by its prefix (`Matching.MatchesIff`). `Seams.UniformBefore` shows that both conditions hold at every corner of the pass when all tuples have one length, 2 or 3.
- TexCoords.TexAligned: requires that every original position is used, that every position index is below the original vertex count, and that all tuples have one length. The gap case is `TexCoords.GapWhenUnused`; tuples of mixed lengths are not covered.
- Reconcile.SortByIndex: when every position index is below the original vertex count, the output indices in the registry are distinct (`TexCoords.TexEntriesOrdered`). Otherwise two entries can carry the same index, and their order is the stable order that `Reconcile.SortStable` proves, as with the source's `sort`.
- The `occurred` counter of a registry entry is bookkeeping that nothing reads. Beyond the increment in `Seams.EqualTupleReuses`, no property of it is stated.
- Renderer.LightCount: only the point-light clamp at line 572 is cited. The spotlight clamp at line 590 is the same expression. The uniform uploads that follow are WebGL calls.
- The fallback shares the texture data array with its source object in the source, so the zeros are pushed onto that shared array. The model works on values and does not capture this aliasing.
- The other parts of a world are not modelled: meshes, point lights, spotlights, ambient and directional light, and `addMesh`/`addPointLight`/`addSpotlight`, which set a back reference and append. Camera projection and transforms are floating-point code and are not modelled either.
- `calculateNormals`, the render loop, buffer setup, shaders, image and texture loading, and the `WEBGL_LIB.Math` library are floating point or WebGL. `console.debug` logging is also left out, including the gap message at line 984.
