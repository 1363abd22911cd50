# gltf-pipeline core, modelled in Dafny

This project models the core of gltf-pipeline, a JavaScript library that
converts between glTF, a JSON description of 3D assets, and GLB, its binary
container. The core has five parts:

- **The GLB codec** (`lib/parseGlb.js`, `getGlb` in `lib/gltfToGlb.js`). The
  12-byte header is read and checked, and then either the version-1 layout
  (header, JSON, binary body) or the version-2 chunk walk (JSON and BIN chunks)
  is decoded. The writer lays out the header and the two chunks.
- **The version upgrade** (`lib/updateVersion.js`). The starting revision is
  resolved, and the asset is walked along 0.8 → 1.0 → 2.0.
  - The 0.8 → 1.0 passes covered are primitive modes, technique passes and
    per-node mesh splitting.
  - The 1.0 → 2.0 passes covered are: dictionaries to arrays with every
    reference remapped, set indices and underscored application-specific
    semantics, known extensions, scissor state, clamped states and camera
    parameters, parameter counts, and buffer lengths. They also include
    moving `byteStride` from accessors onto split buffer views and
    compacting the buffer-view array.
- **Accessor bounds** (`lib/findAccessorMinMax.js`). The per-component
  minimum and maximum of an accessor's elements are read out of its buffer.
- **Resource writing** (`lib/writeResources.js`). Each image, shader and
  buffer is placed in one of three ways:
  - inline as a data URI;
  - in a buffer view of the shared binary buffer;
  - in a separate file, with a relative path.
- **Pipeline extras and defaults** (`lib/addPipelineExtras.js`,
  `lib/removePipelineExtras.js`, `lib/addDefaults.js`).
  - `extras._pipeline` is attached to every object and later stripped.
  - Every missing value the library fills in is defaulted: per-kind values,
    the default material, the default technique with its program and
    shaders, byte offsets, the default scene and inferred buffer-view
    targets.

The JSON document is modelled as the datatype `Json.Json`. An object is a
sequence of fields in insertion order. JavaScript's `undefined` is a missing
field, and Cesium's `defined` means "present and not `null`". A `TypeError`
or `ReferenceError` that the source raises becomes an `Err` result.

Loops over arrays are methods with loop invariants, proved against
specification functions. Records the source updates in place are classes
with `modifies` frames (`WriteResources.Resource`, `WriteResources.Asset`)
or arrays (the buffer-view compaction, the GLB writer). Recursive
traversals are functions.

## Model

| member | source | states |
|---|---|---|
| Version.UpdateFunction | lib/updateVersion.js:21-25 | the table has an entry exactly for the known revisions other than 2.0, and each entry moves to a different revision |
| Version.Truncate | lib/updateVersion.js:50-52 | truncation is the prefix of length three, or the whole string when it is shorter |
| Version.Normalize | lib/updateVersion.js:47-57 | the resolved revision is always a table key: a known version is kept; an unknown one becomes its three-character prefix when that is known, and 1.0 otherwise |
| Version.StartVersion | lib/updateVersion.js:38-45 | the starting revision is a table key, and resolution fails exactly when there is no root version and the asset has no version (calling toString on undefined) |
| Version.UpdateVersion | lib/updateVersion.js:37-71 | an undefined version fails; otherwise the loop runs exactly the planned rewrites in order; after at least one rewrite `asset.version` is the planned final revision, and with no rewrite it is exactly what it was (1.0 when there was no `asset`) |
| Version.UntouchedAssetVersion | lib/updateVersion.js:38-46 | with no rewrite `asset.version` keeps its raw value: a root 2.0 leaves an asset's 1.0 alone, and 1.0.3 with target 1.0 runs nothing |
| Version.RootTakesPrecedence | lib/updateVersion.js:44 | a root `version` hides `asset.version` entirely, and a known root version is used as it is |
| Version.TruncationExamples | lib/updateVersion.js:47-57 | "1.0.3" resolves to 1.0, "0.8.1" to 0.8, and "3.1" and "" fall back to 1.0 |
| Version.NoTargetReaches20 | lib/updateVersion.js:61-68 | without a target every known revision is upgraded to 2.0, through 0.8→1.0→2.0 |
| Version.TargetStops | lib/updateVersion.js:62-64 | with a target the loop stops at it when it lies at or after the start on the chain, and otherwise runs to 2.0 |
| Version.PlanLength | lib/updateVersion.js:61-68 | the number of rewrites is the distance along the chain, the final revision is known, and no rewrite runs twice |
| Glb.Payload | lib/parseGlb.js:97 | the as-written slice of a chunk whose length does not pass its start is empty; the intended slice is exactly the `chunkLength` bytes at the start |
| Glb.ParseGlbSpec | lib/parseGlb.js:28-47 | a missing magic is "not valid binary glTF", fewer than 20 bytes is a RangeError, a version other than 1 or 2 is rejected, and a result exists only for version 1 or 2 with the matching layout |
| Glb.ParseGlb | lib/parseGlb.js:28-47 | the decoder returns what the header dispatch specifies |
| Glb.SplitVersion1 | lib/parseGlb.js:50-65 | a content format other than 0 is "not JSON" and nothing else fails; the body is everything after the `contentLength` bytes at 20; with the intended slice the content is exactly those bytes, and as written it runs on to byte `40 + contentLength` |
| Glb.ContentText | lib/parseGlb.js:61 | the intended slice is bytes 20 up to the binary start; as written the end argument is `20 + binaryStart`, so the slice ends 20 bytes later |
| Glb.SplitVersion1AsWritten | lib/parseGlb.js:58-65 | as written, the text handed to the parser is the content followed by up to 20 bytes of the body, so it differs from the content whenever the body is not empty |
| Glb.AttachBinaryVersion1 | lib/parseGlb.js:67-78 | without `buffers` the asset is unchanged; otherwise only `buffers` changes |
| Glb.AttachVersion1Target | lib/parseGlb.js:70-77 | the body lands in `extras._pipeline.source` of `binary_glTF`, or else of `KHR_binary_glTF`, and that buffer's other properties are untouched |
| Glb.ParseGlbVersion1 | lib/parseGlb.js:49-78 | a non-JSON format fails, text that does not parse is a SyntaxError, and parsed content gets the body attached; the caller chooses the as-written or the intended content slice |
| Glb.SplitVersion1OfLayout | lib/parseGlb.js:50-65 | with the intended slice, splitting a file laid out as the KHR_binary_glTF extension describes recovers its content and body |
| Glb.Version1Fields | lib/parseGlb.js:36-37 | the five header words of such a file read back as magic, version 1, length, content length and format 0 |
| Glb.ChunkAt | lib/parseGlb.js:93-98 | a chunk header read fails exactly when it is misaligned or outside the data, and otherwise advances the offset by 8 plus the chunk length and reads the chunk type |
| Glb.Step | lib/parseGlb.js:99-109 | a JSON chunk is parsed and given pipeline extras, a BIN chunk is kept, any other chunk type is skipped, and a later chunk of a type replaces an earlier one |
| Glb.WalkFollowsChunks | lib/parseGlb.js:92-110 | when the chunk table can be walked, the loop handles its chunks in order |
| Glb.AttachBinaryVersion2 | lib/parseGlb.js:111-118 | the result is defined exactly when a JSON chunk was seen; it is the parsed JSON unchanged when no BIN chunk was seen, when `buffers` is missing, not an array or empty, or when the first buffer's `extras` is an array or typed array (the source then stores the BIN chunk on a property JSON does not hold); a first buffer that is not an object throws |
| Glb.AttachVersion2Source | lib/parseGlb.js:111-117 | when `buffers[0].extras._pipeline` consists of objects, the BIN chunk becomes its `source` and the other top-level properties are untouched |
| Glb.ReadChunk | lib/parseGlb.js:93-98 | one loop iteration reads the chunk the header table specifies |
| Glb.HandleChunk | lib/parseGlb.js:99-109 | one loop iteration handles the chunk by its type as specified |
| Glb.ParseGlbVersion2 | lib/parseGlb.js:87-119 | the chunk loop from offset 12 up to the declared length, followed by the attachment, computes the specified decoding |
| Glb.GlbLayout | lib/gltfToGlb.js:46-81 | the written file has length 12 + 8 + JSON + 8 + BIN |
| Glb.LayoutFields | lib/gltfToGlb.js:53-79 | every header word and payload of the written file sits where the GLB format puts it |
| Glb.LayoutHeader | lib/gltfToGlb.js:53-66 | the header reads back as magic "glTF", version 2, total length, JSON length and the JSON chunk type |
| Glb.LayoutBinHeader | lib/gltfToGlb.js:72-76 | the BIN chunk header reads back as the binary length and the BIN chunk type |
| Glb.LayoutPayloads | lib/gltfToGlb.js:68-79 | the JSON and BIN payloads are copied in full at their offsets |
| Glb.LayoutChunks | lib/parseGlb.js:92-98 | walking written bytes visits exactly a JSON chunk and a BIN chunk and ends at the total length |
| Glb.LayoutRoundTrip | lib/parseGlb.js:87-119 | with the intended slices, decoding what `getGlb` writes hands the JSON chunk to the parser and keeps the BIN chunk; when the document's first buffer is an object without pipeline extras, the decoded document holds the BIN chunk as `buffers[0].extras._pipeline.source` |
| Glb.LayoutWalk | lib/parseGlb.js:92-110 | with the intended slices, the chunk walk over what `getGlb` writes ends with the JSON chunk parsed and given pipeline extras, and the BIN chunk kept |
| Glb.LayoutLosesPayloadsAsWritten | lib/parseGlb.js:97 | as written, decoding what `getGlb` writes never hands the JSON chunk to the parser |
| Glb.EmptyObjectGlbAsWritten | lib/parseGlb.js:97 | for the smallest padded `{}` file the as-written decoder parses empty text |
| Glb.GetGlb | lib/gltfToGlb.js:46-81 | the allocated buffer holds exactly the specified layout |
| AccessorMinMax.MinE | lib/findAccessorMinMax.js:49 | `Math.min` of a running bound and a value is one of the two and below both |
| AccessorMinMax.MaxE | lib/findAccessorMinMax.js:50 | `Math.max` of a running bound and a value is one of the two and above both |
| AccessorMinMax.AccessorByteStride | lib/findAccessorMinMax.js:38 | a stride exists exactly for a known component type, and is the element size when the view has no positive `byteStride` |
| AccessorMinMax.ReadComponent | lib/findAccessorMinMax.js:64-93 | an integer component can be read exactly when its bytes lie inside the buffer, and each type's value lies in its signed or unsigned range |
| AccessorMinMax.ReadComponents | lib/findAccessorMinMax.js:61-105 | an unknown component type leaves `undefined`; for an integer type every component `i` is read at `byteOffset + i * size`, and a read outside the buffer throws a RangeError |
| AccessorMinMax.BoundsCover | lib/findAccessorMinMax.js:45-53 | every value read for a component lies between that component's minimum and maximum |
| AccessorMinMax.BoundsAttained | lib/findAccessorMinMax.js:45-53 | after at least one element, both bounds are values actually read, and the minimum does not exceed the maximum |
| AccessorMinMax.FoldElement | lib/findAccessorMinMax.js:47-51 | the inner loop folds one element's components into the running bounds |
| AccessorMinMax.ScanElement | lib/findAccessorMinMax.js:46-52 | one outer iteration succeeds exactly when the element is readable, and then extends the bounds by that element |
| AccessorMinMax.FindAccessorMinMax | lib/findAccessorMinMax.js:25-59 | an unknown component type fails; for integer types the result holds one bound per component, infinite when `count` is 0, and otherwise the minimum and maximum over the `count` strided elements, failing exactly when one is outside the buffer |
| PipelineExtras.AddExtras | lib/addPipelineExtras.js:35-36 | an object whose `extras` is absent, `null` or an object gets a defined `extras._pipeline`, an empty object when none was defined; an array or typed-array `extras` takes `_pipeline` as a property JSON does not hold, so the object is unchanged; the other properties are untouched, and existing `extras` and `_pipeline` values are kept rather than replaced |
| PipelineExtras.AddChildren | lib/addPipelineExtras.js:37-43 | every child is processed except those under `attributes`, `targets`, `extensions` and `extras`, which are kept as they are |
| PipelineExtras.LookupAdd | lib/addPipelineExtras.js:37-43 | a property outside the exception keys reads, after the pass, as the pass applied to its old value |
| PipelineExtras.LookupChildren | lib/addPipelineExtras.js:37-43 | the same read through the processed children |
| PipelineExtras.Add | lib/addPipelineExtras.js:25-47 | non-container values are untouched; arrays keep their length and each element is processed; every object is tagged with `extras._pipeline`, visibly unless its `extras` is an array or typed array; only a number, string or boolean `extras` is outside the pass's domain, where the source throws |
| PipelineExtras.AddTagsEverything | lib/addPipelineExtras.js:25-47 | every object reachable without passing an exception key carries `extras._pipeline` afterwards, in JSON or on an array or typed-array `extras` |
| PipelineExtras.ExtrasDomain | lib/addPipelineExtras.js:35-36 | an object whose `extras` is an array or typed array is in the add pass's domain and comes back unchanged; one whose `extras` is a number, string or boolean is outside it, where the source throws |
| PipelineExtras.AddKeepsOk | lib/addPipelineExtras.js:35-36 | the result of the add pass is again a valid input of it |
| PipelineExtras.AddIdempotent | lib/addPipelineExtras.js:35-36 | running the add pass twice gives the same tree as running it once |
| PipelineExtras.AddChildrenFixed | lib/addPipelineExtras.js:37-43 | the children of a processed object are already processed |
| PipelineExtras.Remove | lib/removePipelineExtras.js:14-34 | objects stay objects and arrays stay arrays of the same length, and every other value, `null` included, is returned unchanged |
| PipelineExtras.RemoveAll | lib/removePipelineExtras.js:26-30 | every element is processed and the length is kept |
| PipelineExtras.LookupRemoveFields | lib/removePipelineExtras.js:26-30 | a property outside the skipped keys reads as its processed value |
| PipelineExtras.LookupRemoveWithExtras | lib/removePipelineExtras.js:26-30 | properties other than `extras` read as their processed values |
| PipelineExtras.ExtrasOfRemoveWithExtras | lib/removePipelineExtras.js:19-25 | the `extras` object loses `_pipeline` and is itself deleted when nothing else is left in it |
| PipelineExtras.LookupRemoveObject | lib/removePipelineExtras.js:18-31 | properties other than `extras` survive the remove pass, processed |
| PipelineExtras.RemoveClears | lib/removePipelineExtras.js:14-34 | after the remove pass no reachable object has a defined `extras._pipeline` |
| PipelineExtras.RemoveNoOp | lib/removePipelineExtras.js:18-31 | a tree with no defined `extras._pipeline` anywhere is left unchanged |
| PipelineExtras.RemoveIdempotent | lib/removePipelineExtras.js:14-34 | running the remove pass twice gives the same tree as running it once |
| PipelineExtras.NoExtrasKeyIsClean | lib/addPipelineExtras.js:35 | a tree with no `extras` property anywhere is a valid input of both passes |
| PipelineExtras.AddThenRemove | lib/removePipelineExtras.js:19-25 | a tree that had no `extras` anywhere comes back unchanged from adding and then removing the pipeline extras |
| PipelineExtras.AddThenRemoveObject | lib/removePipelineExtras.js:19-25 | the same round trip for an object |
| WriteResources.Resource.Buffer | lib/writeResources.js:135-142 | the allocated buffer holds the source and its byte length, and nothing else |
| WriteResources.StorageOf | lib/writeResources.js:103-110 | a separate file wins over a data URI, which wins over a buffer view, each exactly under its flags |
| WriteResources.BufferNeverInBufferView | lib/writeResources.js:82 | the buffer is written with data URIs forced on, so it never goes into a buffer view |
| WriteResources.ForwardSlashes | lib/writeResources.js:156 | every backslash becomes a slash and every other character is kept |
| WriteResources.ForwardSlashesClean | lib/writeResources.js:156 | the written URI has no backslash, and a path without one is kept as it is |
| WriteResources.DataUriOf | lib/writeResources.js:116 | the URI is `data:`, the MIME type, `;base64,` and the encoded source, in that order |
| WriteResources.WriteDataUri | lib/writeResources.js:112-117 | the buffer view is dropped and `uri` becomes the data URI of the source |
| WriteResources.WriteBufferView | lib/writeResources.js:119-143 | `uri` is dropped; a resource with a buffer view keeps it and the asset is unchanged; otherwise it gets the next view index, a view `{buffer: next buffer, byteOffset: 0, byteLength}` is appended and one buffer is appended |
| WriteResources.WriteFile | lib/writeResources.js:145-159 | the buffer view is dropped, the path is `relativePath` or name-or-index plus extension, and `uri` is that path with forward slashes |
| WriteResources.WriteResource | lib/writeResources.js:103-110 | the resource is stored as the flags select, a file path is returned exactly for a separate file, and the asset's arrays only grow at the end, and only for a buffer view |
| WriteResources.WriteImage | lib/writeResources.js:85-97 | the image is stored as its flags select, and `mimeType` is set from the extension exactly when it ends up in a buffer view |
| WriteResources.WriteBuffer | lib/writeResources.js:77-83 | with a buffer storage the source is handed over and the buffer left alone; otherwise the buffer is stored as a separate file or a data URI |
| WriteResources.Schedule | lib/writeResources.js:47-66 | one job per shader, then per image, then per compressed image, each with the flags and extension the source passes; shaders come first because they are written synchronously while image writes are deferred behind a promise |
| WriteResources.ShadersFirst | lib/writeResources.js:53-55 | every shader job comes before every image job |
| WriteResources.PathsCount | lib/writeResources.js:104-105 | only separate resources write files, one each |
| WriteResources.WriteOne | lib/writeResources.js:50-63 | one image or shader job is done as specified and returns its file path exactly when separate; a resource placed in a new buffer view gets the next view index, and that view spans exactly its source in a buffer holding that source |
| WriteResources.WriteNext | lib/writeResources.js:47-69 | one more job is done and the progress of the loop (jobs done so far, views placed in ascending order) is kept |
| WriteResources.WriteJobs | lib/writeResources.js:47-69 | every job is done, the files written are those of the separate jobs in order, the asset's arrays only grow at the end, every resource placed in a new buffer view finds its source there at offset 0, and those views are numbered in job order |
| WriteResources.WriteAll | lib/writeResources.js:38-75 | every job is done, in order, then the first buffer is written; a missing first buffer fails; the files, the handed-out source and the new buffer views are as specified |
| NodeSplit.MeshNode | lib/updateVersion.js:410-412 | a split-off node is an object whose `mesh` is the new index of its mesh id |
| NodeSplit.MeshNodes | lib/updateVersion.js:405-420 | a node with n meshes splits off n - 1 nodes, none when it has no meshes |
| NodeSplit.NodesForAt | lib/updateVersion.js:409-412 | the split-off node for mesh id i carries that id's new index |
| NodeSplit.MeshNodesAt | lib/updateVersion.js:409-412 | split-off node i carries the new index of mesh i + 1 |
| NodeSplit.NewIds | lib/updateVersion.js:413 | the split-off nodes receive the consecutive indices after the existing nodes |
| NodeSplit.LookupFixNode | lib/updateVersion.js:395-442 | a property the node had reads as the handler's rewrite of it, and one it lacked only as the handler creates it |
| NodeSplit.LookupAppended | lib/updateVersion.js:408-418 | a node lacking `mesh` gets the index of its first mesh, one lacking `children` gets the split-off indices when there are any, and nothing else is created |
| NodeSplit.SplitNodeMesh | lib/updateVersion.js:403-422 | a node with meshes `[m0, ...]` ends with `mesh` the index of m0, and a defined `meshes` is removed |
| NodeSplit.SplitNodeChildren | lib/updateVersion.js:396-418 | the rewritten `children` gets the split-off indices appended, and is created when missing and something was split off |
| NodeSplit.FixNodeRefs | lib/updateVersion.js:423-428 | a defined `camera` and `skin` are rewritten to their new indices, and undefined ones are left alone |
| NodeSplit.FixNodeClean | lib/updateVersion.js:429-441 | a defined `skeletons` is removed and no `jointName` is left |
| NodeSplit.FixNodeFrame | lib/updateVersion.js:395-442 | every property the handler does not write is left alone |
| NodeSplit.SkinWrite | lib/updateVersion.js:433-436 | a skeleton write keeps the number of skins, and throws when the skin index has no skin object |
| NodeSplit.FixNodes | lib/updateVersion.js:395-442 | the node pass throws when a skeleton write throws, and otherwise returns the handled nodes followed by the split-off ones, with the skins as the skeleton writes leave them |
| NodeSplit.VisitNode | lib/updateVersion.js:395-442 | handling node i advances the pass state from the first i nodes to the first i + 1 |
| NodeSplit.SkinErrorSticks | lib/updateVersion.js:434-435 | once a skeleton write has thrown, the pass stays thrown |
| NodeSplit.FixedAt | lib/updateVersion.js:413 | the pass keeps one handled node per visited node, in order, each handled with the length of `nodes` at its visit |
| NodeSplit.SplitChildrenResolve | lib/updateVersion.js:413-418 | the indices a node received as new children are the final positions of exactly the nodes split off it, in mesh order |
| ObjectArrays.Named | lib/updateVersion.js:272-274 | an element keeps a defined `name` and otherwise takes its old id as name; nothing else changes |
| ObjectArrays.Enumerated | lib/updateVersion.js:267 | `for...in` visits an object's own keys, and an array's, a string's or a typed array's indices `"0"` to `"n-1"` with their elements; a number, boolean or `null` enumerates nothing |
| ObjectArrays.EnumeratedUnique | lib/updateVersion.js:267-269 | `for...in` never visits the same key twice |
| ObjectArrays.ArrayEnumeratesIndices | lib/updateVersion.js:267 | an array's first key is `"0"`, and the string `"ab"` enumerates `"0"` and `"1"` with their characters |
| ObjectArrays.ObjectToArray | lib/updateVersion.js:265-278 | the conversion succeeds exactly when every value is an object, array or typed array; then the values come in key order, each named, with the table mapping every id to its index and back; otherwise the error names a value whose `name` cannot be read or written |
| ObjectArrays.MappingIsBijection | lib/updateVersion.js:270 | the id-to-index table maps distinct ids to distinct indices and has exactly as many ids as indices |
| ObjectArrays.ConvertTopLevel | lib/updateVersion.js:314-322 | the pass succeeds exactly when every collection can be converted; each of the sixteen collections becomes the array of what `for...in` visits in it, with its table; other properties are kept, and a missing collection has an empty table |
| ObjectArrays.ConvertCollection | lib/updateVersion.js:316-321 | one collection converted through what `for...in` visits in it (an array or string included), succeeding exactly when every visited value can be named |
| ObjectArrays.ConvertedFieldFrame | lib/updateVersion.js:320 | recording the table of a later collection leaves the earlier collections' tables as they were |
| ObjectArrays.JointNames | lib/updateVersion.js:301-312 | every joint name recorded was the `jointName` of a node with the recorded id |
| ObjectArrays.JointNamesLastWins | lib/updateVersion.js:305-311 | the last node carrying a joint name wins |
| ObjectArrays.JointIndices | lib/updateVersion.js:324-329 | every joint name keeps an entry, which is the node index of its id when that id is a node and `undefined` otherwise |
| References.Assign | lib/updateVersion.js:333 | assigning a possibly undefined value sets exactly that property |
| References.RemapDefined | lib/updateVersion.js:332-334 | a defined reference is replaced by its new index, an undefined one is left alone, and no other property changes |
| References.RemapResolves | lib/updateVersion.js:282-299 | a rewritten reference names the converted element its old id named, and an unknown id leaves the property absent |
| References.RemapElems | lib/updateVersion.js:398-401 | every element of an id array is replaced by its new index, an unknown id by `null` |
| References.RemapValues | lib/updateVersion.js:387-389 | every attribute whose id is known gets its new index and the others disappear |
| References.MapElems | lib/updateVersion.js:335-339 | the handler is applied to every element of a collection array |
| References.UpdateCollection | lib/updateVersion.js:335-339 | only that collection changes, and only when it is an array |
| References.RemapSimple | lib/updateVersion.js:335-365 | rewriting one kind of single-id reference changes only its collection |
| References.RemapAllSimple | lib/updateVersion.js:335-365 | the buffer-view, accessor, program and texture references are rewritten, and collections without such a reference are untouched |
| References.RemapSimpleElements | lib/updateVersion.js:335-365 | each element of a rewritten collection has its defined reference rewritten and nothing else changed |
| References.TextureValues | lib/updateVersion.js:487-493 | every string value becomes `{index: new texture index}` and every other value is kept |
| References.FixMaterial | lib/updateVersion.js:483-507 | a material's defined `technique` is rewritten to the new technique index |
| References.FixParameter | lib/updateVersion.js:370-380 | a technique parameter stays an object |
| References.FixPrimitive | lib/updateVersion.js:383-393 | a primitive stays an object |
| References.FixSkin | lib/updateVersion.js:443-457 | an array `jointNames` is replaced by `joints`, the node index recorded for each joint name |
| References.JointElems | lib/updateVersion.js:449-453 | one joint per joint name, the recorded node index or `undefined` |
| References.LiftBinary | lib/updateVersion.js:345-357 | a binary-glTF extension is lifted onto the object, and no emptied `extensions` object is left behind |
| References.BinaryLifted | lib/updateVersion.js:509-515 | `bufferView` becomes the extension's rewritten `bufferView` and, for images, `mimeType` is copied; nothing else changes |
| References.WithExtensions | lib/updateVersion.js:351-355 | `extensions` is set to what is left of it, or removed when nothing is left |
| References.FixCompressedAll | lib/updateVersion.js:523-538 | every compressed-image entry is handled and keeps its key |
| References.CompressedImageThrowsAsWritten | lib/updateVersion.js:534 | as written, an image without `extensions` whose compressed variant is embedded throws |
| References.CompressedEntryIntended | lib/updateVersion.js:526-537 | testing the compressed image's own extensions, the variant gets its rewritten `bufferView` and `mimeType` and loses its emptied `extensions` |
| References.CompressedImageConvertsIntended | lib/updateVersion.js:508-541 | with the intended test the same image converts |
| References.IntendedCompressedNeverThrows | lib/updateVersion.js:523-538 | with the intended test no non-null compressed variant throws and none keeps an emptied `extensions` |
| References.FixRootScene | lib/updateVersion.js:332-334 | a defined `scene` is rewritten to the new scene index and nothing else changes |
| References.IndexResolves | lib/updateVersion.js:475 | a rewritten channel sampler names the converted sampler its old id named, and an unknown id yields `undefined` |
| References.FixSampler | lib/updateVersion.js:470-473 | `input` and `output` are replaced by the accessor indices, even when unknown, and nothing else changes |
| References.FixChannel | lib/updateVersion.js:474-481 | `sampler` goes through the animation's own sampler table, and the target's `id` becomes `node` |
| References.AnimationWith | lib/updateVersion.js:467-482 | the animation's samplers become the converted array with every sampler rewritten, and every channel is rewritten |
| References.FixAnimation | lib/updateVersion.js:467-482 | an animation object converts exactly when every value `for...in` visits in its `samplers` can be named, and then is its samplers' array and table applied to every sampler and channel; an animation that is not an object is unchanged |
| ByteStride.AccessorStride | lib/updateVersion.js:717-719 | a non-zero stride of the accessor's own wins, and otherwise the element size is used |
| ByteStride.RequireBufferLengths | lib/updateVersion.js:722-726 | a buffer with a `byteLength` is kept, one without takes its source's length, and reading the source of a buffer without one throws |
| ByteStride.RequireViewLengths | lib/updateVersion.js:727-733 | an accessor naming a missing view throws; otherwise only `byteLength` changes, views no accessor names are unchanged, and a named view's length never decreases and covers every accessor on it |
| ByteStride.Group | lib/updateVersion.js:744-748 | the group of a view holds exactly the accessors naming it, in accessor order |
| ByteStride.Entries | lib/updateVersion.js:763-766 | one entry per grouped accessor with its offset, stride and byte length |
| ByteStride.Insert | lib/updateVersion.js:755-757 | insertion adds exactly one entry |
| ByteStride.InsertSorted | lib/updateVersion.js:755-757 | inserting into a sorted group keeps it sorted |
| ByteStride.SortByOffset | lib/updateVersion.js:755-757 | sorting is a permutation of the group |
| ByteStride.SortSorted | lib/updateVersion.js:755-757 | the sorted group is in ascending offset order |
| ByteStride.Cloned | lib/updateVersion.js:770-773 | a clone keeps the view's buffer and target and gets the run's stride, a shifted offset and the run's length |
| ByteStride.MoveRun | lib/updateVersion.js:775-779 | exactly the entries `currentIndex .. i-1` are pointed at the new view with relative offsets |
| ByteStride.SplitGroup | lib/updateVersion.js:758-784 | as written, every entry but the last is moved onto a clone of the view, the last one never moves, and the stride carries over to the next group |
| ByteStride.CloseRun | lib/updateVersion.js:769-783 | closing a run appends one clone that holds exactly the run and moves the run onto it |
| ByteStride.SplitGroupIntended | lib/updateVersion.js:758-784 | as evidently intended, every entry moves onto a clone with its own stride that is long enough to hold it |
| ByteStride.SortedGroupFacts | lib/updateVersion.js:744-757 | the sorted group holds each accessor naming the view exactly once, as it was before the split, in ascending offset order |
| ByteStride.Moved | lib/updateVersion.js:767-778 | a grouped accessor loses `byteStride`, and a moved one gets the new view and offset |
| ByteStride.ApplyMoves | lib/updateVersion.js:767-779 | the moves are written to exactly the group's accessors |
| ByteStride.ProcessGroup | lib/updateVersion.js:753-784 | every accessor of the group is handled, others are untouched, views are only appended, and as written one accessor of the group is left behind |
| ByteStride.SplitFor | lib/updateVersion.js:758-784 | the split the rule selects; as written the last entry never moves |
| ByteStride.SplitAll | lib/updateVersion.js:750-786 | with valid references the split succeeds, existing views are kept and new ones follow, every accessor is handled, and as written every group strands one accessor |
| ByteStride.CountRemoved | lib/updateVersion.js:795 | at most i of the ids below i are removed |
| ByteStride.Kept | lib/updateVersion.js:792-804 | the survivors in order, as many as the views minus those removed |
| ByteStride.KeptAt | lib/updateVersion.js:799-800 | survivor i lands at index i minus the number removed before it |
| ByteStride.ShiftTable | lib/updateVersion.js:790-802 | the shift map has one slot per old view id |
| ByteStride.ShiftTableAt | lib/updateVersion.js:798-802 | slot i of the shift map is the entry made for id i |
| ByteStride.CompactOne | lib/updateVersion.js:793-802 | one turn of the compaction loop keeps the loop invariant |
| ByteStride.Compact | lib/updateVersion.js:788-804 | the array holds exactly the survivors in order, its new length is the old one minus those removed, and the shift map is the specified table |
| ByteStride.RemapRef | lib/updateVersion.js:808-811 | an undefined reference stays undefined |
| ByteStride.RemovedDropped | lib/updateVersion.js:794-810 | a reference to a removed view becomes `undefined`, whichever rule |
| ByteStride.SurvivorKept | lib/updateVersion.js:798-802 | a reference to a survivor that has an entry is sent to where compaction put it; as intended every survivor has an entry |
| ByteStride.EarlyDropped | lib/updateVersion.js:798 | as written, a reference to a survivor with no removed view at or below it is lost, although the view stays where it was |
| ByteStride.ShiftCounterexample | lib/updateVersion.js:798-802 | with view 1 removed, view 0 stays at index 0, yet as written its reference is lost, and as intended it maps to 0 |
| ByteStride.Grouped | lib/updateVersion.js:744-748 | the grouped view ids are exactly those some accessor names |
| ByteStride.RemapAccessors | lib/updateVersion.js:807-812 | every accessor's `bufferView` is rewritten through the shift map and nothing else changes |
| ByteStride.RemapRefs | lib/updateVersion.js:814-838 | every shader, image and compressed-image reference is rewritten through the shift map |
| ByteStride.PlacedAfter | lib/updateVersion.js:788-812 | a relocated, covered accessor still names a view holding its elements after compaction |
| ByteStride.RefKept | lib/updateVersion.js:798-802 | as intended, a reference to an original view no accessor names still names that view |
| ByteStride.MoveByteStrideToBufferView | lib/updateVersion.js:737-839 | every accessor loses `byteStride` and references to split views become `undefined`; as written one accessor per split view ends with no view and early survivors lose their references; as intended every accessor names a view holding it and every other reference follows its view |
| Semantics.LookupCopySetIndex | lib/updateVersion.js:586-595 | after the attribute loop `TEXCOORD_0` and `COLOR_0` hold the accessors of `TEXCOORD` and `COLOR` when those exist, and every other name reads as before |
| Semantics.WithSetIndexEffect | lib/updateVersion.js:586-597 | after the primitive's loop and deletions no unindexed `TEXCOORD` or `COLOR` is left, the index-0 names hold their accessors (or keep their own when there was none), and every other attribute is unchanged |
| Semantics.SetIndexPrimitive | lib/updateVersion.js:586-596 | a primitive that is not an object throws, and so does one whose `attributes` is undefined; otherwise only `attributes` changes, to the index-0 form |
| Semantics.SetIndexParameter | lib/updateVersion.js:599-608 | a `TEXCOORD` semantic becomes `TEXCOORD_0`, a `COLOR` one `COLOR_0`, any other semantic and every other property is unchanged |
| Semantics.RequireAttributeSetIndex | lib/updateVersion.js:584-610 | the pass throws exactly when a mesh primitive's handler throws; `meshes` holds the visited meshes, `techniques` the visited techniques, and every other top-level property is unchanged |
| Semantics.SetIndexAt | lib/updateVersion.js:627 | the position found is the first underscore followed by a digit, or the length when there is none |
| Semantics.Scan | lib/updateVersion.js:625-637 | the attribute loop only appends to `mappedSemantics`, keeps its keys distinct and never adds an underscored one |
| Semantics.ScanCovers | lib/updateVersion.js:625-637 | after the loop every semantic of the primitive that needs an underscore, and every semantic mapped before, is mapped |
| Semantics.ScanCoversAt | lib/updateVersion.js:625-637 | the semantic at any given position that needs an underscore is mapped after the loop |
| Semantics.MappedAppend | lib/updateVersion.js:632-635 | adding a fresh non-underscored semantic keeps the table well formed |
| Semantics.ScanKeeps | lib/updateVersion.js:625-637 | a semantic mapped before the loop stays mapped |
| Semantics.RenameOne | lib/updateVersion.js:640-645 | a defined attribute moves to its underscored name and its own name is gone; an undefined one changes nothing; other names read as before |
| Semantics.UnderscoreSplit | lib/updateVersion.js:633 | a name is `'_' + k` exactly when it is underscored and its tail is `k` |
| Semantics.LookupRename | lib/updateVersion.js:638-647 | after the renaming loop a defined mapped semantic reads as undefined, its underscored name holds its accessor, and every other name reads as before |
| Semantics.UnderscoreComplete | lib/updateVersion.js:625-647 | after scanning and renaming no defined attribute still needs an underscore, and every such attribute's accessor is found under its underscored name |
| Semantics.MappedGone | lib/updateVersion.js:638-647 | a non-underscored name reads as undefined after renaming exactly when it was mapped and defined, and otherwise as before |
| Semantics.MappedMoved | lib/updateVersion.js:641-644 | a mapped, defined semantic's accessor is found under its underscored name after renaming |
| Semantics.UnderscorePrimitive | lib/updateVersion.js:624-648 | a `null` primitive throws; a primitive with an attribute object is scanned and renamed and `mappedSemantics` is extended as the scan says; one without attributes (a non-object primitive among them) throws exactly when some semantic was mapped before; the table only grows at its end |
| Semantics.UnderscoreParameter | lib/updateVersion.js:650-656 | a parameter whose semantic, read as a key (`String` of a string, number, boolean, `null` or missing value), is mapped gets the underscored semantic; every other parameter and every other property is unchanged |
| Semantics.UnderscorePrimitives | lib/updateVersion.js:624-648 | every primitive of a mesh is visited, in order, and the mapped table only grows at its end |
| Semantics.UnderscoreMesh | lib/updateVersion.js:623-649 | a mesh's visit only grows the mapped table at its end and keeps it well formed |
| Semantics.MeshesAfter | lib/updateVersion.js:623-649 | after `n` meshes there are `n` visited meshes and a well-formed table |
| Semantics.MeshesErrorSticks | lib/updateVersion.js:623-649 | once a mesh has thrown, every longer run of the loop has thrown |
| Semantics.UnderscoreMeshes | lib/updateVersion.js:623-649 | the loop over the meshes returns exactly the visit of all of them, throwing exactly when that visit throws |
| Semantics.UnderscoreApplicationSpecificSemantics | lib/updateVersion.js:621-658 | the pass throws exactly when the mesh visit throws; `meshes` holds the visited meshes, every technique is visited with the final table, and nothing else changes |
| CleanupPasses.MapFields | lib/updateVersion.js:90-92 | visiting an object's properties keeps every key, in order, and applies the handler to each value |
| CleanupPasses.LookupMapFields | lib/updateVersion.js:90-92 | a property of the visited object reads as the handler applied to the original property, and a missing one stays missing |
| CleanupPasses.EachOf | lib/updateVersion.js:90-92 | an array or an object is visited element by element and anything else is left alone |
| CleanupPasses.Within | lib/updateVersion.js:89-90 | only the named collection is visited; every other top-level property is unchanged and a missing collection changes nothing |
| CleanupPasses.MapElemsOk | lib/updateVersion.js:182-184 | visiting an array with a throwing handler succeeds exactly when the handler succeeds on every element, and then holds each result in place |
| CleanupPasses.MapFieldsOk | lib/updateVersion.js:182-184 | visiting an object with a throwing handler succeeds exactly when the handler succeeds on every value, keeping each key |
| CleanupPasses.EachOfOk | lib/updateVersion.js:182-184 | a throwing visit of an array or object is the element-wise visit, and anything else is left alone |
| CleanupPasses.WithinOk | lib/updateVersion.js:181-184 | a throwing visit of the named collection fails exactly when the element-wise visit fails, and nothing else changes |
| CleanupPasses.SetMode | lib/updateVersion.js:97-100 | a `null` primitive, or one that is a number, string or boolean, throws; an object keeps a defined `mode`, otherwise takes a defined `primitive`, otherwise TRIANGLES, loses `primitive` and nothing else changes |
| CleanupPasses.SetModeIdempotent | lib/updateVersion.js:97-100 | afterwards every primitive has a defined mode, and a second run changes nothing |
| CleanupPasses.SetMeshModes | lib/updateVersion.js:92-102 | a `null` mesh throws; an array of primitives is walked and the walk succeeds exactly when every primitive can take a `mode`; a mesh without primitives, or that is not an object, is unchanged; only `primitives` changes |
| CleanupPasses.SetModesOk | lib/updateVersion.js:95-101 | walking the primitives succeeds exactly when every primitive is an object |
| CleanupPasses.SetPrimitiveModes | lib/updateVersion.js:88-105 | the pass throws exactly when some mesh's visit throws; otherwise `meshes` holds the visited meshes and every other top-level property is unchanged |
| CleanupPasses.DefaultFrom | lib/updateVersion.js:191-194 | a defined property is kept, an undefined one takes the default, and nothing else changes |
| CleanupPasses.LiftPass | lib/updateVersion.js:190-194 | `attributes`, `program` and `uniforms` come from the pass's instance program and `states` from the pass, each only where the technique does not define it; nothing else changes |
| CleanupPasses.RemovePasses | lib/updateVersion.js:185-198 | a `null` technique throws; a technique with `passes` loses `passes` and `pass`, takes the selected pass's program and states, and throws exactly when the selected pass has no instance program; one without `passes`, or that is not an object, is unchanged |
| CleanupPasses.RemovePassesKeepsDefined | lib/updateVersion.js:191-194 | a property the technique already defines is never replaced by the pass's |
| CleanupPasses.RemoveTechniquePasses | lib/updateVersion.js:180-201 | the pass fails exactly when some technique's handler throws; otherwise `techniques` holds the handled techniques and nothing else changes |
| CleanupPasses.KnownIn | lib/updateVersion.js:569-574 | the pushed entries are at most as many as the used ones |
| CleanupPasses.KnownInMembers | lib/updateVersion.js:559-574 | an entry is pushed exactly when it is a used, known extension |
| CleanupPasses.RequireKnownExtensions | lib/updateVersion.js:564-576 | `extensionsRequired` becomes the old array, or an empty one, followed by the known used extensions in order; pushing onto a non-array throws exactly when there is something to push; nothing else changes |
| CleanupPasses.PushKnown | lib/updateVersion.js:567-575 | the loop collects exactly the known extensions of `extensionsUsed`, in their order |
| CleanupPasses.FirstIndex | lib/updateVersion.js:670 | `indexOf` finds the first position holding the value |
| CleanupPasses.RemoveFirst | lib/updateVersion.js:670-673 | the first occurrence is removed and the rest kept in order; no occurrence, no change |
| CleanupPasses.RemoveFirstCount | lib/updateVersion.js:670-673 | exactly one occurrence disappears when there is one, and none otherwise |
| CleanupPasses.RemoveScissor | lib/updateVersion.js:662-675 | `states.functions.scissor` is deleted and the first SCISSOR_TEST leaves `states.enable`; nothing else changes |
| CleanupPasses.RemoveScissorFromTechniques | lib/updateVersion.js:660-677 | every technique is handled and nothing else changes |
| CleanupPasses.Clamp | lib/updateVersion.js:688 | the clamped value lies in the interval, and a value inside it is kept |
| CleanupPasses.ClampUnit | lib/updateVersion.js:688 | a number is clamped into [0, 1] and anything else is kept |
| CleanupPasses.BlendColor | lib/updateVersion.js:686-690 | the first four entries are clamped, missing ones stay undefined (written as null), later ones are kept |
| CleanupPasses.BlendColorClamped | lib/updateVersion.js:686-690 | the four colour components are numbers in [0, 1] or not numbers, and clamping again changes nothing |
| CleanupPasses.DepthRange | lib/updateVersion.js:692-695 | the far value is clamped into [0, 1] first and the near value into [0, far]; the rest is kept |
| CleanupPasses.DepthRangeOrdered | lib/updateVersion.js:692-695 | a clamped depth range satisfies 0 <= near <= far <= 1 |
| CleanupPasses.ClampFunctions | lib/updateVersion.js:683-696 | `blendColor` and `depthRange` are clamped and nothing else in `functions` changes |
| CleanupPasses.ClampStates | lib/updateVersion.js:681-697 | only `states.functions` of a technique changes, and it is clamped |
| CleanupPasses.ClampTechniqueFunctionStates | lib/updateVersion.js:679-699 | every technique is clamped and nothing else changes |
| CleanupPasses.ClampPerspective | lib/updateVersion.js:705-712 | a zero aspect ratio is deleted, a zero field of view becomes 1, nothing else changes |
| CleanupPasses.ClampPerspectiveIdempotent | lib/updateVersion.js:705-712 | no zero aspect ratio or field of view is left, and clamping twice is clamping once |
| CleanupPasses.ClampCamera | lib/updateVersion.js:703-713 | only a camera's `perspective` changes, and it is clamped |
| CleanupPasses.ClampCameraParameters | lib/updateVersion.js:701-715 | every camera is clamped and nothing else changes |
| CleanupPasses.StripCount | lib/updateVersion.js:864-870 | a `null` parameter throws; a defined `count` is deleted unless the semantic is `JOINTMATRIX` or starts with an underscore; a semantic without `indexOf` throws; nothing else changes |
| CleanupPasses.StripCountSound | lib/updateVersion.js:865-870 | afterwards a defined `count` is left only under a semantic that allows it, and stripping twice is stripping once |
| CleanupPasses.StripTechniqueParameterCount | lib/updateVersion.js:862-873 | the pass throws exactly when some parameter's handler throws; otherwise every technique's parameters are stripped and nothing else changes |
| AddDefaults.FillSpec | lib/addDefaults.js:32-33 | filling from a table assigns a property only when it is undefined, and then the table's value; defined properties and properties the table does not name are unchanged |
| AddDefaults.FillDefines | lib/addDefaults.js:32-33 | after filling, every property the table names is defined |
| AddDefaults.FillNoop | lib/addDefaults.js:32-33 | filling an object that already defines every property of the table changes nothing |
| AddDefaults.FillIdempotent | lib/addDefaults.js:32-33 | filling twice is filling once |
| AddDefaults.SimpleDefaults | lib/addDefaults.js:31-50 | accessors get `byteStride` 0 and `normalized` false, animation samplers `LINEAR`, buffer views `byteOffset` 0, primitives TRIANGLES, samplers REPEAT on both axes, each only where undefined |
| AddDefaults.NodeDefaultsRule | lib/addDefaults.js:112-120 | a node with any of translation, rotation or scale gets all three and its matrix is untouched; any other node gets the identity matrix; nothing defined is overwritten |
| AddDefaults.NodeDefaultsIdempotent | lib/addDefaults.js:112-120 | defaulting a node twice is defaulting it once |
| AddDefaults.CommonDefaultsRule | lib/addDefaults.js:65-78 | `diffuse` is given exactly when the technique is not CONSTANT, `specular` and `shininess` exactly when it is neither CONSTANT nor LAMBERT |
| AddDefaults.CommonDefaults | lib/addDefaults.js:61-80 | the `KHR_materials_common` branch throws exactly when `values` is undefined, and otherwise fills only `values` from the technique's table |
| AddDefaults.TextureSets | lib/addDefaults.js:24-27 | a texture object gets a defined `texCoord`, its own when it had one and 0 otherwise |
| AddDefaults.TextureOther | lib/addDefaults.js:24-27 | defaulting one texture leaves every other property alone |
| AddDefaults.FillOther | lib/addDefaults.js:32-33 | filling never touches a property the table does not name |
| AddDefaults.MaterialDefaults | lib/addDefaults.js:52-110 | a glTF 1.0 material is left alone; otherwise a material that is not an object, or has no `extensions`, throws; one with `KHR_materials_common` throws exactly when its `values` is undefined and changes only `extensions`; any other gets the PBR defaults |
| AddDefaults.MaterialAlphaRule | lib/addDefaults.js:82-88 | the defaulted alpha mode is MASK exactly when the material's own was, and defined factors keep their values; after the material's base defaults, `alphaCutoff` is the given default exactly when the material is MASK and lacks one, and is otherwise its old value, so it is defined exactly when the material is MASK or already had one |
| AddDefaults.AddDefaultsBody | lib/addDefaults.js:30-126 | the body fails exactly when some material's handler throws, and leaves every property outside the seven visited collections unchanged |
| AddDefaults.EarlyKindVisited | lib/addDefaults.js:31-50 | accessors, animations, buffer views and meshes each hold their elements as their handler leaves them |
| AddDefaults.MaterialsVisited | lib/addDefaults.js:52-110 | the materials hold their elements as the material handler leaves them |
| AddDefaults.LateKindVisited | lib/addDefaults.js:112-125 | nodes and samplers each hold their elements as their handler leaves them |
| AddDefaults.WithinOther | lib/addDefaults.js:31-125 | visiting one collection leaves every other top-level property alone |
| AddDefaults.MaterialBaseFrame | lib/addDefaults.js:82-92 | the material's own defaults touch only its factors, alpha mode, alpha cutoff and its own three textures |
| AddDefaults.PutElsewhere | lib/addDefaults.js:82-92 | an assignment leaves every other property alone |
| AddDefaults.SpecularGlossinessFrame | lib/addDefaults.js:103-109 | the specular-glossiness defaults touch only `extensions` and the material's `specularGlossinessTexture` |
| AddDefaults.BlockTexturesUntouched | lib/addDefaults.js:94-101 | as written, no texture coordinate inside the metallic-roughness block is ever defaulted |
| AddDefaults.TexCoordSame | lib/addDefaults.js:94-101 | a texture coordinate read through a block depends on that block only |
| AddDefaults.BaseColorTexCoordMissed | lib/addDefaults.js:99-100 | as written, a base color texture inside the metallic-roughness block that lacks `texCoord` keeps lacking it |
| AddDefaults.TableLacksTextures | lib/addDefaults.js:96-98 | the metallic-roughness factor defaults hold no texture |
| AddDefaults.TexturedMaterialLacksTexCoord | lib/addDefaults.js:99-100 | a concrete material with a base color texture in its block and no `texCoord` exists |
| AddDefaults.BlockTexturesDefaulted | lib/addDefaults.js:94-101 | with the textures looked up inside their block, every base color and metallic-roughness texture ends with a defined `texCoord` |
| AddDefaults.TexCoordAt | lib/addDefaults.js:94-101 | reading a texture coordinate through a block reads the block's texture object |
| AddDefaults.BlockTextures | lib/addDefaults.js:94-101 | inside a metallic-roughness block both textures end with a defined `texCoord` |
| DefaultObjects.AssignAll | lib/addDefaults.js:221-228 | every primitive of a sequence lacking a material is given the identifier, the others are kept, in place |
| DefaultObjects.VisitPrimitive | lib/addDefaults.js:222-228 | a primitive lacking a material gets the default material's index, the material is appended at most once, and reading a property of a non-object or pushing onto a missing `materials` array throws |
| DefaultObjects.VisitMesh | lib/addDefaults.js:218-229 | a mesh is visited without throwing exactly when its primitives are defined objects and, if it needs a default material not yet created, one can be created; each primitive is assigned in place |
| DefaultObjects.PrimitivesStep | lib/addDefaults.js:221-229 | one more visited primitive extends the loop invariant of the inner loop |
| DefaultObjects.AddDefaultMaterial | lib/addDefaults.js:210-231 | the pass throws exactly when `meshes` is undefined, a mesh is malformed, or a default is needed but cannot be pushed; otherwise every primitive lacking a material gets the next index and exactly one material is appended when any primitive needed it, none otherwise |
| DefaultObjects.VisitMeshes | lib/addDefaults.js:216-230 | the mesh loop succeeds under the same conditions and assigns every mesh in place, appending the default material at most once |
| DefaultObjects.MeshesStep | lib/addDefaults.js:217-230 | one more visited mesh extends the loop invariant of the outer loop |
| DefaultObjects.AddDefaultMaterialAsWritten | lib/addDefaults.js:224-226 | with the undeclared `defaultMaterial`, the pass succeeds only when no primitive lacks a material, and then changes nothing |
| DefaultObjects.NoNeedNoChange | lib/addDefaults.js:223 | when no primitive lacks a material, assigning changes no mesh |
| DefaultObjects.AssignMeshRule | lib/addDefaults.js:219-228 | assigning a mesh keeps its primitive count, assigns each primitive, and leaves every other property of the mesh alone |
| DefaultObjects.AssignPrimitiveRule | lib/addDefaults.js:223-227 | a primitive lacking a material gets exactly that material and nothing else changes; any other primitive is unchanged; afterwards it has a material |
| DefaultObjects.SecondPassNoNeeds | lib/addDefaults.js:210-231 | after the pass no primitive lacks a material, so running it again appends nothing |
| DefaultObjects.NeedsGrow | lib/addDefaults.js:217-230 | some primitive of the first `i + 1` meshes needs a material exactly when one of the first `i` does or mesh `i` does |
| DefaultObjects.NeedsFirst | lib/addDefaults.js:217-230 | a mesh needing a material makes the whole pass need one |
| DefaultObjects.Push | lib/addDefaults.js:250 | pushing onto an array appends the value and returns the old length; pushing onto anything else throws |
| DefaultObjects.CreateDefaults | lib/addDefaults.js:249-259 | the technique, program and two shaders are pushed, linked by index, and the technique's index is returned; a missing collection throws |
| DefaultObjects.VisitMaterial | lib/addDefaults.js:243-262 | a material without a technique gets the default technique's index, created the first time a material without `KHR_materials_common` needs it, or `undefined` when none exists yet |
| DefaultObjects.VisitMaterials | lib/addDefaults.js:241-264 | the loop succeeds exactly when every material is an object and creation, when needed, can push; every material is assigned the default id as it stood after its visit, and the defaults are created at most once |
| DefaultObjects.MaterialsStep | lib/addDefaults.js:242-264 | one more visited material extends the loop invariant |
| DefaultObjects.AddDefaultTechnique | lib/addDefaults.js:233-265 | the pass throws exactly when `materials` is undefined, a material is not an object, or creation is needed but cannot push; otherwise each material is assigned as the loop leaves it and the collections grow by the defaults exactly when some material created them |
| DefaultObjects.CreatedGrow | lib/addDefaults.js:242-264 | the defaults exist after `i + 1` materials exactly when they did after `i` or material `i` creates them |
| DefaultObjects.CreatedFirst | lib/addDefaults.js:242-264 | a material that creates the defaults makes the whole pass create them |
| DefaultObjects.SecondPassCreatesNothing | lib/addDefaults.js:233-265 | after the pass no material creates the defaults again |
| DefaultObjects.DeleteKeepsCommon | lib/addDefaults.js:245-246 | deleting a property other than `extensions` does not change whether a material has `KHR_materials_common` |
| DefaultObjects.DefaultTechniqueLinks | lib/addDefaults.js:249-259 | the collections only grow at their ends; the new technique names the new program, which names the two new shaders, vertex then fragment |
| DefaultObjects.DefaultOffsets | lib/addDefaults.js:270-286 | the loop succeeds exactly when every element is an object, and then defaults each element's offset in place |
| DefaultObjects.OffsetsStep | lib/addDefaults.js:271-276 | one more visited element extends the loop invariant |
| DefaultObjects.AddDefaultByteOffsets | lib/addDefaults.js:267-287 | the pass throws exactly when either collection is undefined or holds a non-object; otherwise every accessor and buffer view has its offset defaulted |
| DefaultObjects.OffsetDefaultRule | lib/addDefaults.js:273-275 | a defined offset is kept, an undefined one becomes 0, nothing else changes, and defaulting twice is defaulting once |
| DefaultObjects.SelectDefaultScene | lib/addDefaults.js:289-293 | with scenes and no scene, scene 0 is selected; otherwise nothing changes |
| DefaultObjects.SelectDefaultSceneIdempotent | lib/addDefaults.js:289-293 | afterwards a glTF with scenes has a scene, and selecting again changes nothing |
| InferTargets.AttributeUses | lib/addDefaults.js:336-347 | each attribute of a primitive is one ARRAY_BUFFER use of its accessor, in attribute order |
| InferTargets.TargetUses | lib/addDefaults.js:348-358 | every morph-target attribute is an ARRAY_BUFFER use of its accessor |
| InferTargets.PrimitiveUses | lib/addDefaults.js:322-358 | a `null` primitive yields one use that throws; any other primitive yields only accessor uses, and one that is not an object yields none |
| InferTargets.ViewOf | lib/addDefaults.js:325-326 | a view is read through the accessor only when the accessors form an array holding that index; reading through a missing accessor throws |
| InferTargets.Apply | lib/addDefaults.js:324-358 | one use keeps the number of views and marks |
| InferTargets.ApplyAll | lib/addDefaults.js:322-358 | a primitive's uses keep the number of views and marks |
| InferTargets.ApplyAllAppend | lib/addDefaults.js:322-358 | applying two runs of uses in sequence is applying the first, then the second from where it ended, and an error in the first stops both |
| InferTargets.NullPrimitiveThrows | lib/addDefaults.js:322-323 | a mesh holding a `null` primitive throws once the traversal reaches it, whatever its other primitives are |
| InferTargets.Traverse | lib/addDefaults.js:321-363 | the mesh traversal keeps the number of views and marks |
| InferTargets.Marks | lib/addDefaults.js:312-317 | a view is marked exactly when it lacks a target |
| InferTargets.MarkViews | lib/addDefaults.js:312-317 | the marking loop throws exactly when a view is `null`, and otherwise returns the marks and their count |
| InferTargets.ApplyUses | lib/addDefaults.js:322-358 | the use loop computes exactly the uses applied in order |
| InferTargets.InferBufferViewTargets | lib/addDefaults.js:308-365 | the pass computes exactly the marked traversal: nothing when no view lacks a target, and otherwise the meshes in order until no marked view is left |
| InferTargets.CountAppend | lib/addDefaults.js:315 | the counter grows by one exactly for each newly marked view |
| InferTargets.MarksAppend | lib/addDefaults.js:312-317 | marking one more view appends its mark |
| InferTargets.CountClear | lib/addDefaults.js:331-332 | clearing a mark lowers the counter by one |
| InferTargets.CountZero | lib/addDefaults.js:360-362 | a zero counter means no view is still marked |
| InferTargets.ApplyTracks | lib/addDefaults.js:324-358 | one use keeps the invariant tying views, marks and the counter |
| InferTargets.ApplyAllTracks | lib/addDefaults.js:322-358 | a primitive's uses keep that invariant |
| InferTargets.TraverseTracks | lib/addDefaults.js:321-363 | the whole traversal keeps that invariant |
| InferTargets.OnlyMissingTargetsChange | lib/addDefaults.js:308-365 | the pass keeps the number of views, never changes a view that had a target, and every view it changes ends with a defined target |
| InferTargets.DoneMeansAllAssigned | lib/addDefaults.js:360-362 | when the counter reaches zero every view that lacked a target has one |
| InferTargets.ClearedStays | lib/addDefaults.js:327-357 | a view whose mark is cleared is never written again |
| InferTargets.FirstUseDecides | lib/addDefaults.js:327-357 | a marked view takes the target of its first use: ELEMENT_ARRAY_BUFFER for indices, ARRAY_BUFFER for attributes |
| Bytes.U16 | lib/findAccessorMinMax.js:79-82 | two little-endian bytes read as an unsigned 16-bit value |
| Bytes.U32 | lib/parseGlb.js:36-37 | four little-endian bytes read as an unsigned 32-bit value |
| Bytes.U32Bytes | lib/gltfToGlb.js:55-59 | the four little-endian bytes written for a 32-bit value read back as that value |
| Bytes.U32Window | lib/parseGlb.js:93-95 | a word read from the document depends only on its four bytes |
| Bytes.Signed | lib/findAccessorMinMax.js:63-67 | the two's-complement reading of an unsigned value lies in [-half, half) and agrees with it modulo the type's range |
| Bytes.Subarray | lib/parseGlb.js:97 | `subarray(begin, end)` is the slice when both ends are in range, and empty when the end does not lie after the start |
| GlConstants.NumberOfComponents | lib/findAccessorMinMax.js:29 | every element type has between 1 and 16 components |
| GlConstants.SizeInBytes | lib/findAccessorMinMax.js:41 | a size exists exactly for the integer and floating-point component types, and it is 1, 2, 4 or 8 |
| Glb.WriteBytes | lib/gltfToGlb.js:69 | copying bytes into the buffer puts them at the offset and leaves the written prefix alone |
| Glb.Emit | lib/gltfToGlb.js:54-70 | each write extends the written prefix by exactly its bytes |
| Glb.WriteChunk | lib/gltfToGlb.js:62-79 | a chunk is written as its length word, its type word and its payload |
| Glb.TwoChunks | lib/parseGlb.js:92-110 | bytes whose chunk headers describe a JSON chunk and then a BIN chunk walk as exactly those two chunks |
| Glb.ChunkAtHeader | lib/parseGlb.js:93-98 | an aligned chunk header reads as its length and type words, with the payload after it |
| Glb.ChunksStep | lib/parseGlb.js:92-98 | one step of the chunk walk puts the chunk read in front of the rest |
| NodeSplit.NodesFor | lib/updateVersion.js:409-412 | one split-off node per mesh id, in order |
| NodeSplit.Chunks | lib/updateVersion.js:395-442 | the nodes each node splits off, one group per node |
| PipelineExtras.RemoveAllClears | lib/removePipelineExtras.js:26-30 | no element of a processed array holds a defined `extras._pipeline` |
| PipelineExtras.RemoveFieldsClears | lib/removePipelineExtras.js:26-30 | no property of a processed object holds a defined `extras._pipeline` |
| PipelineExtras.RemoveObjectClears | lib/removePipelineExtras.js:18-31 | a processed object holds no defined `extras._pipeline`, at the top or below |
| PipelineExtras.RemoveWithExtrasClears | lib/removePipelineExtras.js:19-25 | the processed `extras` properties hold no defined `_pipeline` |
| PipelineExtras.RemoveAllNoOp | lib/removePipelineExtras.js:26-30 | an array with no pipeline extras anywhere is unchanged |
| PipelineExtras.RemoveFieldsNoOp | lib/removePipelineExtras.js:26-30 | an object's properties with no pipeline extras anywhere are unchanged |
| PipelineExtras.RemoveAllPointwise | lib/removePipelineExtras.js:26-30 | processing an array is processing each element |
| PipelineExtras.RemoveAfterAddChildren | lib/removePipelineExtras.js:19-25 | removing the added `extras` from an object whose children came back unchanged gives the original properties |
| WriteResources.Paths | lib/writeResources.js:104-105 | at most one path per job |
| Json.Decimal | lib/writeResources.js:153 | an index is spelled as a non-empty run of decimal digits, with one digit exactly below ten and a leading zero only for zero |
| Json.DecimalInjective | lib/updateVersion.js:267-270 | distinct indices are spelled differently, so array keys never collide |

## Left out

- The pipeline-extras passes (`lib/addPipelineExtras.js`, `lib/removePipelineExtras.js`) walk the tree with an explicit object stack and change it in place. The model writes them as recursive functions on values, so it does not capture aliasing between shared sub-objects or the visiting order of the stack.
- `JSON.parse`, `JSON.stringify`, UTF-8 decoding and `getJsonBufferPadded` are not part of this model. The GLB codec takes and returns the JSON chunk as bytes, and the caller supplies the parsed document.
- `mime.getType`, base64 encoding, `getImageExtension`, Jimp re-encoding (`writeJimpImage`, lib/writeResources.js:161-178), `fsExtra.outputFile` and `path.join` are I/O or library calls. MIME lookup and base64 are function parameters, and writing a file is not modelled beyond the path and URI it produces.
- WriteResources.Schedule and WriteResources.WriteJobs run the writes one after another: shaders, then images, then compressed images. In the source (lib/writeResources.js:47-74) each shader's `writeResource` runs synchronously while the promises are collected, and each image's runs a promise turn later, after `writeJimpImage` (lib/writeResources.js:86-89). So images keep their scheduled order only when no image is re-encoded with Jimp; a re-encoded image finishes when Jimp does and may take a later buffer view. That completion order is not modelled.
- `mergeBuffers`, which runs after the writes (lib/writeResources.js:70-72), is not part of this model.
- FLOAT and DOUBLE component decoding (lib/findAccessorMinMax.js:94-103) is floating point and is not modelled. On those component types AccessorMinMax.ReadComponents reports `FloatUnmodelled`, and AccessorMinMax.FindAccessorMinMax stops with `Err(FloatNotModelled)` without computing bounds.
- `ForEach` and `addToArray` are not part of this model. They are assumed to be a loop over the indices or keys and a push that returns the old length.
- `getAccessorByteStride` is not part of this model. AccessorMinMax.AccessorByteStride computes the stride as that helper is documented to: the view's positive `byteStride`, else the packed element size.
- `numberOfComponentsForType` is not part of this model. It is the fixed table `GlConstants.NumberOfComponents`.
- Cesium `clone`, `getMagic` and `getStringFromTypedArray` are not part of this model. Values are immutable, so a deep clone is the value itself, and the magic is compared as four bytes.
- `removeExtensionsUsed` and `addExtensionsRequired` are not part of this model. The extension passes state only what they do to `extensionsUsed` themselves.
- The calls to `updateVersion` and `addPipelineExtras` after a version-1 body is attached (lib/parseGlb.js:80-83) are separate stages and are not repeated inside the decoder.
- The stage list of `gltfToGlb` (lib/gltfToGlb.js:24-44) is orchestration over promises and is not modelled. Only `getGlb` is.
- The exported `addDefaults` (lib/addDefaults.js:380-392) refers to identifiers that are not defined in the file and is not modelled. `optimizeForCesium` (lib/addDefaults.js:295-306) is not modelled either.
- The default material, technique, program and shader templates (lib/addDefaults.js:128-208) are parameters, not literal objects.
- The `alphaCutoff` default 0.5 (lib/addDefaults.js:104) is a parameter, because the model has no floating-point numbers.
- When a JavaScript pass throws half-way, the objects it already changed stay changed. The model returns `Err` and drops the partial state.
- Numbers are integers (`Json.JNum` holds an `int`). Fractional values such as blend colours, depth ranges, `yfov`, the PBR factor defaults and FLOAT accessor components cannot be written. So CleanupPasses.Clamp, CleanupPasses.ClampUnit, CleanupPasses.BlendColorClamped, CleanupPasses.DepthRangeOrdered, CleanupPasses.ClampPerspective and AccessorMinMax.FindAccessorMinMax are stated over integers only.
- These handlers return `Err` where the source reads a property of `null` or writes one on a number, string or boolean: Semantics.SetIndexPrimitive, Semantics.UnderscorePrimitive, AddDefaults.MaterialDefaults, InferTargets.PrimitiveUses, CleanupPasses.SetMode, CleanupPasses.SetMeshModes, CleanupPasses.RemovePasses, CleanupPasses.StripCount and CleanupPasses.StripParameterCounts.
- The References handlers (FixMaterial, FixParameter, FixTechnique, FixPrimitive, FixMesh, FixScene, FixSkin, FixSampler, FixChannel, FixShader, FixImage, FixAnimation) and the handlers CleanupPasses.RemoveScissor, CleanupPasses.ClampStates and CleanupPasses.ClampCamera return a non-object element unchanged. They run on the arrays `objectsToArrays` builds, whose elements ObjectArrays.ObjectToArray guarantees are objects, arrays or typed arrays; on an array the source's property writes are not serialised. A `null` nested element (a parameter, primitive, sampler or channel) would make the source throw, and the model leaves it unchanged.
- Strict mode also throws when the default handlers of `addDefaults` write to a primitive value: a non-object texture in `addTextureDefaults`, a non-object `values` in `KHR_materials_common`, a non-object element of a visited collection. The model leaves such values unchanged.
- `for...in` visits integer-like keys first, in ascending order, and only then the other keys in insertion order. The model visits every object's keys in insertion order. This affects ObjectArrays.ObjectToArray, ObjectArrays.ConvertTopLevel, ObjectArrays.ConvertCollection, ObjectArrays.JointNames and References.FixAnimation when an id such as `"0"` follows a named id.
- CleanupPasses.SetMeshModes: a `primitives` object is not walked, even when it has a numeric `length` property that the source's loop would follow.
- Semantics.SetIndexPrimitive, Semantics.UnderscorePrimitive and InferTargets.PrimitiveUses treat an `attributes` string or array as having no attributes. The source's `for...in` would visit its indices, and deleting a string index throws.
- CleanupPasses.DepthRange: when the first two entries of `depthRange` are not both numbers, the array is left unchanged. JavaScript's comparisons with `null` or `undefined` would still write entries.
- CleanupPasses.ClampFunctions: a `blendColor` or `depthRange` that is defined but is not an array is left unchanged.
- CleanupPasses.ClampUnit: a numeric string is not converted to a number, as `Math.min`/`Math.max` would.
- CleanupPasses.RemoveScissor: a defined `enable` that is not an array is left alone. JavaScript would call `indexOf` and `splice` on it and might throw.
- InferTargets: an accessor referenced by a string id rather than an index is not resolved by `inferBufferViewTargets`, and a string `accessor.bufferView` such as `"0"` is not matched, although `needsTarget["0"]` would find it. InferTargets.MeshUses reads a `null` mesh as having no primitives, where the source's `mesh.primitives` throws. InferTargets.Apply returns `Err` when it writes `target` on an array view, where the source's write succeeds and is not serialised.
- Semantics.UnderscoreParameter: a `null` parameter or technique is kept, where `parameter.semantic` throws. An inherited key such as `"constructor"` is not found in `mappedSemantics`, whereas JavaScript finds an `Object.prototype` member and writes it as the semantic.
- Semantics.MappedOk: `mappedSemantics` is held as the list of its keys. Each key's value, `'_'` followed by the key, is implied rather than stored.
- PipelineExtras.Add and Glb.AttachBinaryVersion2: on an array or typed-array `extras` (or `_pipeline`) the source stores `_pipeline` (or `source`) as a named property, which JSON does not hold, and the model leaves the tree unchanged. So the model does not keep the BIN chunk of such a first buffer, and it does not capture that PipelineExtras.Remove, run after the add pass, would delete an empty array `extras` (lib/removePipelineExtras.js:19-24) because its hidden `_pipeline` is defined.
- DefaultObjects.VisitPrimitive, DefaultObjects.VisitMaterial, DefaultObjects.DefaultOffsets and their passes read a non-empty string `meshes`, `primitives`, `materials`, `accessors` or `bufferViews` as empty and succeed. The source indexes the string's characters and throws, on `.primitives.length` (lib/addDefaults.js:219) or on the strict-mode write (lib/addDefaults.js:227, 260, 274, 283). They return `Err` for an array element, where the source's property write succeeds and is not serialised.
- AccessorMinMax.FindAccessorMinMax takes the accessor, its view and the source bytes as AccessorInfo, ViewInfo and parameters, with the byte offsets already defaulted. The lookups `bufferViews[bufferViewId]`, `buffers[bufferId]` and `buffer.extras._pipeline.source` (lib/findAccessorMinMax.js:32-35) and the TypeErrors they raise on a missing step are not modelled. Nor is the NaN offset that an undefined `accessor.byteOffset` gives at lib/findAccessorMinMax.js:39.
- Glb.GetGlb and Glb.GlbLayout require the total length to be below 2^32, so the RangeError that `writeUInt32LE` raises on a larger length is not modelled.
- Version.StartVersion takes the version as a string. A numeric `version` such as 0.8, which lib/updateVersion.js:44 turns into text with `toString()`, is not modelled.
- Glb.AttachBinaryVersion2 treats a string `buffers` as empty. The source reads `buffers[0]` as its first character and throws on `.extras._pipeline` (lib/parseGlb.js:113-116).
- These edge cases are not modelled: in the References handlers, a compressed variant whose `extensions` is not an object, a `jointNames` that is not an array, and numeric ids; in ObjectArrays.JointNames, a `jointName` that is not a string; in WriteResources.WriteBufferView, a missing `bufferViews` or `buffers`, on which the source throws at `bufferViews.length` or `push` (lib/writeResources.js:124-142), since the model's asset always holds both lists; in References.LiftBinary, a shader or image whose defined `extensions` is not an object, such as `5`, `[]` or `""`, which the model keeps and the source deletes because `Object.keys` gives no keys (lib/updateVersion.js:353-355, 517-519); in NodeSplit.FixValue, a node whose `children` is a defined non-array such as `5` and which splits off no meshes, whose `children` the model turns into `[]` while the source leaves it untouched (lib/updateVersion.js:396-401).
- References.FixParameter and References.FixPrimitive state only that the object stays an object, not every rewritten reference.
- References.FixMaterial states only what becomes of `technique`.
- These passes of `lib/updateVersion.js` are not modelled:
  - `updateInstanceTechniques` (73-86);
  - `updateNodes` (107-129), which converts axis-angle rotations to quaternions in floating point;
  - `updateAnimations` (131-178), for the same reason;
  - `removeAnimationSamplersIndirection` (244-263);
  - the `asset`, `profile`, lights and `allExtensions` rewrites of `glTF08to10` (203-242), except the version it sets;
  - `stripAsset` (552-557), `removeBufferType` (578-582), `requireAccessorMinMax` (841-849), `stripTechniqueAttributeValues` (851-860) and `addKHRTechniqueExtension` (875-880).
- The order in which `glTF10to20` (882-919) runs its passes is not modelled as one function. Each modelled pass stands on its own.

## Findings

| source | as written | input that shows it | evidently intended | confidence | as-written member | corrected member |
|---|---|---|---|---|---|---|
| lib/parseGlb.js:97 | the chunk payload is `glb.subarray(byteOffset, chunkLength)`, so the end argument is a length | a GLB from `getGlb` whose JSON chunk is `{}` plus two spaces (4 bytes) and whose BIN chunk is empty: the JSON slice is `[20, 4)`, which is empty | `glb.subarray(byteOffset, byteOffset + chunkLength)`, so decoding the writer's output gives back both chunks | not executed | Glb.LayoutLosesPayloadsAsWritten | Glb.LayoutRoundTrip |
| lib/updateVersion.js:775 | three things in the split loop of lib/updateVersion.js:758-783: (1) only accessors `currentIndex` to `i - 1` (`j < i`) are pointed at the new view, so the last accessor of each view keeps the old view, which the compaction then removes; (2) `var currentByteStride` (:758) is function-scoped, so each group after the first starts with the previous group's last stride; (3) the clone's `byteLength` (:773) runs to the end of accessor `i`, which after a stride change is the first accessor of the next run | (1) one buffer view used by one accessor: the clone is appended, the old view is removed, and the accessor's `bufferView` becomes `undefined`; (2) views 0 and 1, each used by one accessor, of strides 8 and 12: the group of view 1 opens with a stride-8 clone that no accessor uses; (3) in one view, an accessor at offset 0 of 80 bytes with stride 8, then one at offset 16 of 24 bytes with stride 12: the first clone is 40 bytes long, shorter than its accessor | (1) `j <= i` when the group ends at the last accessor; (2) the stride starts afresh in every group; (3) each clone runs to the furthest end of its own run's accessors; so every accessor moves to a view of its own stride that holds it, and every clone is used | not executed | ByteStride.SplitGroup | ByteStride.SplitGroupIntended |
| lib/updateVersion.js:798-802 | the shift map has entries only for views after the first removed one, and every reference is replaced by its lookup | buffer views 0 and 1, with only view 1 moved: a reference to view 0 becomes `undefined` | every surviving view's reference maps to its new index | not executed | ByteStride.ShiftCounterexample | ByteStride.SurvivorKept |
| lib/updateVersion.js:534 | the emptiness test after converting a compressed variant calls `Object.keys` on the image's own `extensions`, not on the variant's | an image without `extensions` whose `extras.compressedImage3DTiles` holds one variant with a `KHR_binary_glTF` extension: `Object.keys(undefined)` throws a `TypeError` | the variant's `extensions` is checked and deleted when it is empty | not executed | References.CompressedImageThrowsAsWritten | References.CompressedImageConvertsIntended |
| lib/addDefaults.js:99-100 | the texture defaults are applied to `material.baseColorTexture`, which is not where glTF 2.0 keeps it | a material `{extensions: {}, pbrMetallicRoughness: {baseColorTexture: {index: 0}}}` (without `extensions`, lib/addDefaults.js:60 throws first): its `texCoord` stays missing | the texture inside `pbrMetallicRoughness` is defaulted | not executed | AddDefaults.BaseColorTexCoordMissed | AddDefaults.BlockTexturesDefaulted |
| lib/parseGlb.js:61 | the JSON text is `getStringFromTypedArray(glb, jsonStart, binaryStart)`, whose third argument is a length, so the text runs 20 bytes past the content | a version-1 file with content `{}` and a non-empty body: the text is `{}` followed by the first body bytes, so `JSON.parse` is given bytes that are not the content and rejects them unless they are whitespace | `getStringFromTypedArray(glb, jsonStart, contentLength)`, the content bytes only | not executed | Glb.SplitVersion1AsWritten | Glb.SplitVersion1OfLayout |
| lib/addDefaults.js:225 | `defaultMaterial` is not declared, so the first primitive without a material raises a `ReferenceError` | any mesh with one primitive that has no `material` | a default material object is appended and its index is given to those primitives | not executed | DefaultObjects.AddDefaultMaterialAsWritten | DefaultObjects.AddDefaultMaterial |
