# eSpace3D: a Dafny model of the Piglet glTF importer, its undo/redo and file-browser filters

This project models, in Dafny, the parts of the eSpace3D Unity application that turn glTF files into
scene objects, that undo and redo edits, and that build file-dialog filters:

- **The Piglet glTF importer** (`GltfImporter`). It reads the input, detects and unpacks zip archives,
  parses the JSON, then loads buffers, textures, materials, meshes, the node hierarchy, morph
  targets and skins, in that order. Every phase reports progress, and any failure is an error value
  that stops the import. The textures of the interleaved texture phase may complete in any order,
  so that order is a parameter.
- **The import caches.** `GltfImportCache` keeps everything an import creates and destroys it on
  `Clear`. `EditorGltfImportCache` additionally saves textures, materials and meshes as asset files
  under the import directory.
- **The editor and runtime import tasks** (`EditorGltfImporter`, `RuntimeGltfImporter`). Each is a
  fixed list of phases stepped one at a time. A failed or aborted step clears the importer.
- **Utilities.** The helpers from `GLTFUtils` that the importer uses (name cleaning, path
  separators, coordinate-system conversion of vectors and quaternions, bone-weight
  normalisation), plus `UnityPathUtil` (project-relative paths and file URIs) and
  `BoundsUtil` (the bounding box of a hierarchy).
- **Undo and redo.**
  - `UndoRedoSystem` keeps two stacks of typed actions.
  - `UndoRedoClass` keeps two stacks of `UndoableChange`s. An `UndoableChange` is two lists of
    `ObjectState` snapshots.
  - `DeleteCommand` hides and shows its targets.
- **The file-browser filter strings** built for Linux, iOS and WebGL.

The Unity engine is modelled as a `World` object (module `Engine`): game objects are ids in a map,
alongside meshes, a destroy log and an error log. The importer and the caches are classes whose
methods update the world and their own fields in place. Each method is proved against a
specification function on values, in the modules `ImporterSpec`, `SceneSpec`, `DeformSpec` and
`GltfImporterRules`, and the properties of the import are proved about those functions.

Everything the importer calls but does not define is a parameter carried in one `ImportEnv.Env`
value: URI parsing and reading, zip archives, JSON parsing, image and accessor decoding, and the
platform. Exceptions are modelled as `Result`/`Outcome` error values, and effects made before a
throw are kept. The progress callback is a log of reports on the importer.

Where the code and its design notes disagree, the model follows the code. The one exception is the
defect listed under Findings: the code as written is kept in a member of its own, and the rest of the
model uses the corrected lookup. The disagreements are:

- `NormalizePathSeparators` is documented as making paths uniform. It removes only one trailing
  slash, so it is not idempotent (`UnityPathUtil.NormalizeNotIdempotent`).
- The cache's comment says that a primitive list's element 0 is the node's own object. `Clear`
  relies on this, and the model states it as part of the cache invariant.

## Model

| member | source | states |
|---|---|---|
| BoundsUtil.BoundsAreHull | eSpace3D_SivaKrishna/Assets/Piglet/Scripts/Util/BoundsUtil.cs:15-42 | the result is the smallest box enclosing every renderer box of the subtree (absent when there is none) |
| BoundsUtil.BoundsAbsentIffNoRenderer | eSpace3D_SivaKrishna/Assets/Piglet/Scripts/Util/BoundsUtil.cs:15-42 | the result is absent exactly when no object of the subtree has a renderer |
| BoundsUtil.RootBoxInside | eSpace3D_SivaKrishna/Assets/Piglet/Scripts/Util/BoundsUtil.cs:23-26 | a root with a renderer gets a result that contains its own box |
| BoundsUtil.ChildBoundsInside | eSpace3D_SivaKrishna/Assets/Piglet/Scripts/Util/BoundsUtil.cs:28-38 | every child's present result lies inside the parent's result |
| BoundsUtil.LeafBounds | eSpace3D_SivaKrishna/Assets/Piglet/Scripts/Util/BoundsUtil.cs:23-41 | a leaf with a renderer returns exactly its own box |
| BoundsUtil.HullUnique | eSpace3D_SivaKrishna/Assets/Piglet/Scripts/Util/BoundsUtil.cs:15-42 | a set of boxes has only one hull, so the fold is determined by that set |
| BoundsUtil.BoundsDependOnlyOnBoxes | eSpace3D_SivaKrishna/Assets/Piglet/Scripts/Util/BoundsUtil.cs:28-41 | two hierarchies with the same renderer boxes give the same result |
| BoundsUtil.ChildOrderIrrelevant | eSpace3D_SivaKrishna/Assets/Piglet/Scripts/Util/BoundsUtil.cs:28-41 | reordering or repeating children does not change the result |
| GltfUtils.RemoveDisallowed | eSpace3D_SivaKrishna/Assets/Piglet/Dependencies/UnityGLTF/GLTFUtils.cs:68-71 | the regex `[^a-zA-Z0-9 -_.]` replacement keeps only allowed characters, never adds any and never lengthens |
| GltfUtils.CleanNameAlphabet | eSpace3D_SivaKrishna/Assets/Piglet/Dependencies/UnityGLTF/GLTFUtils.cs:68-71 | every character of `cleanName` is a letter, a digit, '.', or in space..'_' other than '/', '\\', ':' and '"' |
| GltfUtils.CleanNameShrinks | eSpace3D_SivaKrishna/Assets/Piglet/Dependencies/UnityGLTF/GLTFUtils.cs:68-71 | `cleanName` never lengthens its input |
| GltfUtils.CleanNameIdempotent | eSpace3D_SivaKrishna/Assets/Piglet/Dependencies/UnityGLTF/GLTFUtils.cs:68-71 | cleaning a cleaned name changes nothing |
| GltfUtils.UnifyPathSeparator | eSpace3D_SivaKrishna/Assets/Piglet/Dependencies/UnityGLTF/GLTFUtils.cs:47-50 | the result holds no backslash and is no longer than the input |
| GltfUtils.UnifyPathSeparatorNoBackslash | eSpace3D_SivaKrishna/Assets/Piglet/Dependencies/UnityGLTF/GLTFUtils.cs:47-50 | a path without backslashes comes back unchanged |
| GltfUtils.ConvertVector3 | eSpace3D_SivaKrishna/Assets/Piglet/Dependencies/UnityGLTF/GLTFUtils.cs:135-138 | the handedness conversion negates z only |
| GltfUtils.ConvertVector4 | eSpace3D_SivaKrishna/Assets/Piglet/Dependencies/UnityGLTF/GLTFUtils.cs:140-144 | the conversion negates z and w only |
| GltfUtils.ConvertQuat | eSpace3D_SivaKrishna/Assets/Piglet/Dependencies/UnityGLTF/GLTFUtils.cs:146-150 | the quaternion conversion negates z and w only |
| GltfUtils.ConversionsAreInvolutions | eSpace3D_SivaKrishna/Assets/Piglet/Dependencies/UnityGLTF/GLTFUtils.cs:135-150 | converting twice gives back the original vector or quaternion |
| GltfUtils.BuildBlendShapeNameInjective | eSpace3D_SivaKrishna/Assets/Piglet/Dependencies/UnityGLTF/GLTFUtils.cs:202-205 | distinct (mesh, target) pairs give distinct "Target_m_t" names |
| GltfUtils.Vector4ToArrayRoundTrip | eSpace3D_SivaKrishna/Assets/Piglet/Dependencies/UnityGLTF/GLTFUtils.cs:207-216 | `Vector4ToArray` lists x, y, z, w in order: it and its inverse undo each other |
| GltfUtils.NormalizeBoneWeights | eSpace3D_SivaKrishna/Assets/Piglet/Dependencies/UnityGLTF/GLTFUtils.cs:218-227 | weights summing to 1 come back unchanged; otherwise each is divided by the sum and the result sums to 1; a zero sum gives no result (division by zero) |
| UnityPathUtil.NormalizePathSeparators | eSpace3D_SivaKrishna/Assets/Piglet/Scripts/Util/UnityPathUtil.cs:12-22 | no backslash in the result, never longer than the input, and exactly one trailing '/' removed when present |
| UnityPathUtil.NormalizeNotIdempotent | eSpace3D_SivaKrishna/Assets/Piglet/Scripts/Util/UnityPathUtil.cs:18-19 | "a//" normalises to "a/" and that to "a": the function is not idempotent |
| UnityPathUtil.NormalizeClean | eSpace3D_SivaKrishna/Assets/Piglet/Scripts/Util/UnityPathUtil.cs:12-22 | a path with no backslash and no trailing '/' is left unchanged |
| UnityPathUtil.GetFileURI | eSpace3D_SivaKrishna/Assets/Piglet/Scripts/Util/UnityPathUtil.cs:39-42 | the URI starts with "file://" and holds no backslash |
| UnityPathUtil.GetFileURIPath | eSpace3D_SivaKrishna/Assets/Piglet/Scripts/Util/UnityPathUtil.cs:39-42 | what follows "file://" is exactly the normalised path |
| UnityPathUtil.GetProjectPathOutside | eSpace3D_SivaKrishna/Assets/Piglet/Scripts/Util/UnityPathUtil.cs:24-27 | a path not containing the data path is only normalised |
| UnityPathUtil.GetAbsolutePathOutside | eSpace3D_SivaKrishna/Assets/Piglet/Scripts/Util/UnityPathUtil.cs:29-32 | a path not containing "Assets" is only normalised |
| UnityPathUtil.ProjectPathRoundTrip | eSpace3D_SivaKrishna/Assets/Piglet/Scripts/Util/UnityPathUtil.cs:24-32 | dataPath + rest maps to "Assets" + rest and back, for clean paths |
| ImportCaches.GltfImportCache.constructor | eSpace3D_SivaKrishna/Assets/Piglet/Scripts/Importer/GltfImportCache.cs:107-120 | a fresh cache has empty buffers, textures, materials, meshes, node maps, morph list and skin map, and no scene |
| ImportCaches.GltfImportCache.DestroyNodes | eSpace3D_SivaKrishna/Assets/Piglet/Scripts/Importer/GltfImportCache.cs:135-136 | every node object is destroyed, in insertion order |
| ImportCaches.GltfImportCache.DestroyPrimitives | eSpace3D_SivaKrishna/Assets/Piglet/Scripts/Importer/GltfImportCache.cs:138-152 | every primitive object at index 1 or more of each list is destroyed, in order; element 0 never is |
| ImportCaches.GltfImportCache.Clear | eSpace3D_SivaKrishna/Assets/Piglet/Scripts/Importer/GltfImportCache.cs:133-160 | nodes, then primitive tails, then the scene root when present are destroyed in that order; nothing else in the world and none of the cache's collections change |
| ImportCaches.GltfImportCache.ClearDestroysEachOnce | eSpace3D_SivaKrishna/Assets/Piglet/Scripts/Importer/GltfImportCache.cs:73-160 | given primitive 0 is the node's own object, `Clear` destroys each object the cache refers to exactly once |
| ImportCaches.DestroyedTrans | eSpace3D_SivaKrishna/Assets/Piglet/Scripts/Importer/GltfImportCache.cs:133-160 | destroying one list and then another destroys their concatenation |
| ImportCaches.AddNodeKeeps | eSpace3D_SivaKrishna/Assets/Piglet/Scripts/Importer/GltfImporter.cs:1141 | adding a fresh node object keeps the cache invariant (distinct, already allocated objects) |
| ImportCaches.AddPrimitivesKeeps | eSpace3D_SivaKrishna/Assets/Piglet/Scripts/Importer/GltfImporter.cs:1043-1068 | storing a primitive list headed by the node's object keeps the cache invariant |
| ImportCaches.SetSceneKeeps | eSpace3D_SivaKrishna/Assets/Piglet/Scripts/Importer/GltfImporter.cs:1090-1100 | setting a fresh scene root keeps the cache invariant |
| ImportCaches.GltfImportCache.SetTexture | eSpace3D_SivaKrishna/Assets/Piglet/Scripts/Importer/GltfImporter.cs:556-568 | a texture slot is replaced only when it exists; otherwise `ArgumentOutOfRange` and nothing changes |
| EditorImportCache.PathCombineInjective | eSpace3D_SivaKrishna/Assets/Piglet/Scripts/Importer/Editor/EditorGltfImportCache.cs:98-165 | combining one directory with two different relative names gives different paths |
| EditorImportCache.TextureFileNameInjective | eSpace3D_SivaKrishna/Assets/Piglet/Scripts/Importer/Editor/EditorGltfImportCache.cs:98 | "texture_{i}.png" names distinct textures distinctly |
| EditorImportCache.MaterialFileNameInjective | eSpace3D_SivaKrishna/Assets/Piglet/Scripts/Importer/Editor/EditorGltfImportCache.cs:126 | "material_{i}.mat" names distinct materials distinctly |
| EditorImportCache.MeshFileNameInjective | eSpace3D_SivaKrishna/Assets/Piglet/Scripts/Importer/Editor/EditorGltfImportCache.cs:165 | "mesh_{i}_{j}.asset" names distinct (mesh, primitive) pairs distinctly |
| EditorImportCache.AssetKindsDistinct | eSpace3D_SivaKrishna/Assets/Piglet/Scripts/Importer/Editor/EditorGltfImportCache.cs:98-165 | a texture, a material and a mesh never share a path |
| EditorImportCache.BackedMeshesOwnFiles | eSpace3D_SivaKrishna/Assets/Piglet/Scripts/Importer/Editor/EditorGltfImportCache.cs:159-182 | when the primitives use distinct meshes, primitive j's mesh is backed by the asset mesh_{i}_{j} and changes in nothing else |
| EditorImportCache.BackedMeshesUntouched | eSpace3D_SivaKrishna/Assets/Piglet/Scripts/Importer/Editor/EditorGltfImportCache.cs:159-182 | meshes no primitive of the list uses are left as they were |
| EditorImportCache.EditorGltfImportCache.constructor | eSpace3D_SivaKrishna/Assets/Piglet/Scripts/Importer/Editor/EditorGltfImportCache.cs:50-74 | creates the import directory and its Textures, Materials and Meshes subdirectories, in that order; the wrapped cache destroys immediately |
| EditorImportCache.EditorGltfImportCache.SerializeTexture | eSpace3D_SivaKrishna/Assets/Piglet/Scripts/Importer/Editor/EditorGltfImportCache.cs:91-108 | the texture is flipped right side up into a new texture, written to Textures/texture_{i}.png, and the flipped texture backed by that asset is returned |
| EditorImportCache.EditorGltfImportCache.SerializeMaterial | eSpace3D_SivaKrishna/Assets/Piglet/Scripts/Importer/Editor/EditorGltfImportCache.cs:124-135 | the material becomes the asset Materials/material_{i}.mat |
| EditorImportCache.EditorGltfImportCache.SerializeMesh | eSpace3D_SivaKrishna/Assets/Piglet/Scripts/Importer/Editor/EditorGltfImportCache.cs:156-185 | the same list comes back, each primitive's mesh now backed by Meshes/mesh_{i}_{j}.asset; the world's objects are untouched |
| EditorImportCache.BackMeshes | eSpace3D_SivaKrishna/Assets/Piglet/Scripts/Importer/Editor/EditorGltfImportCache.cs:159-182 | each primitive mesh is saved under Meshes/mesh_{index}_{i}.asset, meshes are not added or removed and game objects are untouched |
| GltfImporterRules.GltfEntryIndex | eSpace3D_SivaKrishna/Assets/Piglet/Scripts/Importer/GltfImporter.cs:259-272 | the first zip entry whose name ends in ".gltf" or ".glb", or the entry count when there is none |
| GltfImporterRules.EntryBytes | eSpace3D_SivaKrishna/Assets/Piglet/Scripts/Importer/GltfImporter.cs:387-400 | the bytes of the zip entry with the given path, absent exactly when no entry has that name |
| GltfImporterRules.GetGltfBytes | eSpace3D_SivaKrishna/Assets/Piglet/Scripts/Importer/GltfImporter.cs:130-151 | plain input is returned as is; a zip yields its first .gltf/.glb entry, and a zip without one fails with "no .gltf or .glb file in zip archive" |
| GltfImporterRules.ZipRelativeAtRoot | eSpace3D_SivaKrishna/Assets/Piglet/Scripts/Importer/GltfImporter.cs:275-293 | inside a zip, a relative URI next to a root-level document stays unchanged |
| GltfImporterRules.ZipRelativeInDirectory | eSpace3D_SivaKrishna/Assets/Piglet/Scripts/Importer/GltfImporter.cs:275-293 | inside a zip, a relative URI is joined to the document entry's directory with "/" |
| GltfImporterRules.ResolveUri | eSpace3D_SivaKrishna/Assets/Piglet/Scripts/Importer/GltfImporter.cs:244-350 | an absolute URI is returned unchanged; a zip needs a document entry; otherwise a relative URI needs an absolute base URI that is not an Android content URI |
| GltfImporterRules.ZipResolutionIgnoresBaseUri | eSpace3D_SivaKrishna/Assets/Piglet/Scripts/Importer/GltfImporter.cs:259-295 | for zip input the base URI plays no part in resolution |
| GltfImporterRules.LoadBuffer | eSpace3D_SivaKrishna/Assets/Piglet/Scripts/Importer/GltfImporter.cs:371-425 | no URI takes the GLB binary chunk; a data URI is decoded; otherwise the URI must resolve, and a resolution failure is the buffer's failure |
| GltfImporterRules.BufferIgnoresBaseUri | eSpace3D_SivaKrishna/Assets/Piglet/Scripts/Importer/GltfImporter.cs:371-425 | GLB, data-URI and zip buffers do not depend on the base URI |
| GltfImporterRules.BufferViewBytes | eSpace3D_SivaKrishna/Assets/Piglet/Scripts/Importer/GltfImporter.cs:491-510 | a buffer view is the byteLength bytes at byteOffset, and fails on a missing buffer or an overrun |
| GltfImporterRules.LoadImage | eSpace3D_SivaKrishna/Assets/Piglet/Scripts/Importer/GltfImporter.cs:465-540 | an image with neither URI nor buffer view fails; a buffer-view image loads iff its bytes do; a data URI is decoded |
| GltfImporterRules.SamplerModes | eSpace3D_SivaKrishna/Assets/Piglet/Scripts/Importer/GltfImporter.cs:589-620 | MinFilter Nearest gives Point, anything else (or no sampler) Bilinear; WrapS ClampToEdge gives Clamp, anything else Repeat |
| GltfImporterRules.LoadTexture | eSpace3D_SivaKrishna/Assets/Piglet/Scripts/Importer/GltfImporter.cs:576-623 | a texture loads iff its image does, and takes the image with the sampler's filter and wrap modes |
| GltfImporterRules.ShaderName | eSpace3D_SivaKrishna/Assets/Piglet/Scripts/Importer/GltfImporter.cs:685-710 | every shader is a "Piglet/" shader |
| GltfImporterRules.ShaderNameInjective | eSpace3D_SivaKrishna/Assets/Piglet/Scripts/Importer/GltfImporter.cs:685-710 | two materials share a shader iff they agree on specular-glossiness and on alpha mode, unknown modes counting as OPAQUE: six shaders in all |
| GltfImporterRules.SetMaterialTexture | eSpace3D_SivaKrishna/Assets/Piglet/Scripts/Importer/GltfImporter.cs:665-675 | the property gets the texture, and the (1,-1) scale only when flipping by scale (the runtime importer, not the editor one) |
| GltfImporterRules.ApplyMetallicRoughness | eSpace3D_SivaKrishna/Assets/Piglet/Scripts/Importer/GltfImporter.cs:744-766 | sets the metallic/roughness factors and base colour, binds the two textures, and keeps shader, name and asset |
| GltfImporterRules.ApplySpecularGlossiness | eSpace3D_SivaKrishna/Assets/Piglet/Scripts/Importer/GltfImporter.cs:768-792 | sets glossiness, diffuse and specular (w = 1) and binds the two textures, keeping shader, name and asset |
| GltfImporterRules.LoadCommon | eSpace3D_SivaKrishna/Assets/Piglet/Scripts/Importer/GltfImporter.cs:677-742 | shader by (extension, alpha mode), the definition's name, `_alphaCutoff` only for MASK, the emissive factor and the normal/occlusion/emissive textures |
| GltfImporterRules.LoadMaterialProperties | eSpace3D_SivaKrishna/Assets/Piglet/Scripts/Importer/GltfImporter.cs:677-797 | `_alphaCutoff` is set iff the mode is MASK, metallic and roughness iff the PBR block is present, glossiness iff the extension is |
| GltfImporterRules.LoadMaterialColors | eSpace3D_SivaKrishna/Assets/Piglet/Scripts/Importer/GltfImporter.cs:735-797 | the emissive colour is always set, base colour iff PBR, diffuse and specular iff specular-glossiness, specular with w = 1 |
| GltfImporterRules.LoadMaterialTextures | eSpace3D_SivaKrishna/Assets/Piglet/Scripts/Importer/GltfImporter.cs:677-797 | each texture slot is bound iff its block is present, to the referenced texture with the scale flip rule |
| GltfImporterRules.LoadCommonSlots | eSpace3D_SivaKrishna/Assets/Piglet/Scripts/Importer/GltfImporter.cs:714-742 | the common part binds normal, occlusion and emissive slots and leaves the four PBR slots unbound |
| GltfImporterRules.PrimitiveMaterial | eSpace3D_SivaKrishna/Assets/Piglet/Scripts/Importer/GltfImporter.cs:832-833 | a primitive takes `Materials[id]` when it names id >= 0, else the default material |
| GltfImporterRules.SiblingNameAgrees | eSpace3D_SivaKrishna/Assets/Piglet/Scripts/Importer/GltfImporter.cs:1050-1107 | the sibling objects' `node.Name ??` name agrees with `CreateNode`'s name exactly when the node name is not "" |
| GltfImporterRules.IsValidSkin | eSpace3D_SivaKrishna/Assets/Piglet/Scripts/Importer/GltfImporter.cs:1156-1164 | valid iff the index is in range, there are joints, and as many inverse bind matrices as joints; joints without matrices throw |
| GltfImporterRules.TruncateToInt | eSpace3D_SivaKrishna/Assets/Piglet/Scripts/Importer/GltfImporter.cs:1405-1410 | a float-to-int cast truncates toward zero |
| GltfImporterRules.VertexBoneWeight | eSpace3D_SivaKrishna/Assets/Piglet/Scripts/Importer/GltfImporter.cs:1400-1430 | four bone indices and the weights as `normalizeBoneWeights` gives them |
| GltfImporterRules.GetBoneWeights | eSpace3D_SivaKrishna/Assets/Piglet/Scripts/Importer/GltfImporter.cs:1388-1436 | with JOINTS_0 and WEIGHTS_0 one weight per vertex, each from that vertex's joints and weights and summing to 1; a count mismatch logs one message and gives none |
| GltfImporterRules.MorphFrame | eSpace3D_SivaKrishna/Assets/Piglet/Scripts/Importer/GltfImporter.cs:946-981 | a target needs POSITION and buffer 0; the frame is "Target_m_t" at weight 1 with the deltas read from buffer 0 |
| GltfImporterRules.MorphFrames | eSpace3D_SivaKrishna/Assets/Piglet/Scripts/Importer/GltfImporter.cs:1199-1220 | the frames of a primitive's targets in order, one per target |
| GltfImporterRules.MorphFrameNamesDistinct | eSpace3D_SivaKrishna/Assets/Piglet/Scripts/Importer/GltfImporter.cs:1199-1220 | the frames added for one primitive have pairwise distinct names |
| ImporterSpec.RunUntilError | eSpace3D_SivaKrishna/Assets/Piglet/Scripts/Importer/GltfImporter.cs:211-648 | a phase's loop: results in order until the first failure, which is reported |
| ImporterSpec.RunUntilErrorStops | eSpace3D_SivaKrishna/Assets/Piglet/Scripts/Importer/GltfImporter.cs:211-233 | once an item fails, later items change nothing |
| ImporterSpec.PhaseReportsComplete | eSpace3D_SivaKrishna/Assets/Piglet/Scripts/Importer/GltfImporter.cs:216-232 | a complete phase reports 0 of n, then 1..n of n, in order |
| ImporterSpec.PlacedSlots | eSpace3D_SivaKrishna/Assets/Piglet/Scripts/Importer/GltfImporter.cs:556-568 | each completed texture lands in its own index slot; other slots keep their placeholder |
| ImporterSpec.CompletedTexturesPlaced | eSpace3D_SivaKrishna/Assets/Piglet/Scripts/Importer/GltfImporter.cs:545-574 | when every texture loads, slot j holds texture j whatever the completion order |
| ImporterSpec.MaterialsLoadWhenResolved | eSpace3D_SivaKrishna/Assets/Piglet/Scripts/Importer/GltfImporter.cs:635-648 | with resolvable texture references every material loads |
| ImporterSpec.MeshesLoadWhenResolved | eSpace3D_SivaKrishna/Assets/Piglet/Scripts/Importer/GltfImporter.cs:799-811 | with resolvable references and POSITION on every primitive every mesh loads |
| ImporterSpec.ParseResult | eSpace3D_SivaKrishna/Assets/Piglet/Scripts/Importer/GltfImporter.cs:158-187 | plain input parses iff the JSON parser accepts it; failures are a JSON parse exception or the zip error |
| ImporterSpec.ReadReports | eSpace3D_SivaKrishna/Assets/Piglet/Scripts/Importer/GltfImporter.cs:103-124 | the read's progress is forwarded unchanged under the read step |
| ImporterSpec.PrimitiveError | eSpace3D_SivaKrishna/Assets/Piglet/Scripts/Importer/GltfImporter.cs:847-895 | a primitive builds iff its buffers are loaded, it has POSITION, and its material index is in range; a missing POSITION is a key-not-found error |
| ImporterSpec.MorphMeshes | eSpace3D_SivaKrishna/Assets/Piglet/Scripts/Importer/GltfImporter.cs:805-839 | exactly the meshes with some morph target, in increasing order |
| ImporterSpec.NodeSwaps | eSpace3D_SivaKrishna/Assets/Piglet/Scripts/Importer/GltfImporter.cs:1195-1215 | primitive objects are swapped in order until the first primitive without targets, which ends the whole phase |
| ImporterSpec.FirstPlainPrimitiveStopsAll | eSpace3D_SivaKrishna/Assets/Piglet/Scripts/Importer/GltfImporter.cs:1197-1198 | a mesh whose primitive 0 has no targets gets no swaps at all |
| ImporterSpec.SkinnedSwap | eSpace3D_SivaKrishna/Assets/Piglet/Scripts/Importer/GltfImporter.cs:1203-1210 | the object swaps its mesh renderer and filter for a skinned renderer with the primitive's mesh and material |
| ImporterSpec.SkinnedSwapIdempotent | eSpace3D_SivaKrishna/Assets/Piglet/Scripts/Importer/GltfImporter.cs:1203-1210 | swapping twice is swapping once |
| ImporterSpec.ApplySwapsEffect | eSpace3D_SivaKrishna/Assets/Piglet/Scripts/Importer/GltfImporter.cs:1195-1215 | swapped objects have a skinned renderer and no mesh renderer; all others are untouched |
| ImporterSpec.GetBones | eSpace3D_SivaKrishna/Assets/Piglet/Scripts/Importer/GltfImporter.cs:1445-1451 | one bone object per joint, in order; a joint without a node fails |
| ImporterSpec.RootBone | eSpace3D_SivaKrishna/Assets/Piglet/Scripts/Importer/GltfImporter.cs:1265-1270 | the skeleton node's object when there is one |
| ImporterSpec.SkinTargets | eSpace3D_SivaKrishna/Assets/Piglet/Scripts/Importer/GltfImporter.cs:1276 | the dictionary lookup `SkinToNodes[skin]` as written: fails for a skin no node uses |
| ImporterSpec.UnusedSkinAborts | eSpace3D_SivaKrishna/Assets/Piglet/Scripts/Importer/GltfImporter.cs:1253-1287 | a valid skin that no node uses makes the lookup throw |
| ImporterSpec.SkinTargetsOrEmpty | eSpace3D_SivaKrishna/Assets/Piglet/Scripts/Importer/GltfImporter.cs:1276 | the intended lookup: the nodes using the skin, or none |
| ImporterSpec.SkinTargetsOrEmptyAgrees | eSpace3D_SivaKrishna/Assets/Piglet/Scripts/Importer/GltfImporter.cs:1276 | the two lookups agree wherever the written one succeeds |
| ImporterSpec.SkinnedPrimitive | eSpace3D_SivaKrishna/Assets/Piglet/Scripts/Importer/GltfImporter.cs:1316-1353 | the object gets a skinned renderer with the bones, root bone, mesh and material, and keeps name, parent, TRS and active flag |
| SceneSpec.CreateNodeKeeps | eSpace3D_SivaKrishna/Assets/Piglet/Scripts/Importer/GltfImporter.cs:1105-1154 | node construction keeps the scene invariant |
| SceneSpec.ChildrenKeeps | eSpace3D_SivaKrishna/Assets/Piglet/Scripts/Importer/GltfImporter.cs:1144-1152 | constructing the children keeps the scene invariant |
| SceneSpec.MeshNodesKeeps | eSpace3D_SivaKrishna/Assets/Piglet/Scripts/Importer/GltfImporter.cs:1023-1075 | setting up the mesh nodes keeps the scene invariant |
| SceneSpec.LoadSceneKeeps | eSpace3D_SivaKrishna/Assets/Piglet/Scripts/Importer/GltfImporter.cs:1082-1103 | loading the scene keeps the scene invariant |
| SceneSpec.NextIdIsNew | eSpace3D_SivaKrishna/Assets/Piglet/Scripts/Importer/GltfImporter.cs:1077-1080 | the next object id is not yet referenced by the cache |
| SceneSpec.AddedNodeVisited | eSpace3D_SivaKrishna/Assets/Piglet/Scripts/Importer/GltfImporter.cs:1105-1154 | each new node visit shrinks the unvisited set, so construction terminates |
| SceneSpec.CreateNodeBuilds | eSpace3D_SivaKrishna/Assets/Piglet/Scripts/Importer/GltfImporter.cs:1105-1154 | the node's object is named by the cleaned-up node name ("GLTFNode_" + index for a missing or empty one) and has the node's local TRS; the index is appended to its mesh's and its skin's back-reference lists; on success `Nodes[index]` is that object and every child's object is parented under it |
| SceneSpec.CreateNodeRecorded | eSpace3D_SivaKrishna/Assets/Piglet/Scripts/Importer/GltfImporter.cs:1141 | a node reached a second time throws from `Nodes.Add`; a new node is entered under its own object even when a descendant then fails |
| SceneSpec.CreateNodeKeepsRecords | eSpace3D_SivaKrishna/Assets/Piglet/Scripts/Importer/GltfImporter.cs:1117-1141 | building a subtree never changes the object a node was entered under, only appends to back-reference lists, and leaves the scene root alone |
| SceneSpec.ChildrenParented | eSpace3D_SivaKrishna/Assets/Piglet/Scripts/Importer/GltfImporter.cs:1144-1152 | when the loop over the children completes, every child has an object and it is parented under the node's object |
| SceneSpec.FanOutKeepsOthers | eSpace3D_SivaKrishna/Assets/Piglet/Scripts/Importer/GltfImporter.cs:1040-1067 | primitive 0 goes on the node's own object (a mesh filter and renderer with its mesh and material); no other existing object changes |
| SceneSpec.FanOutSiblings | eSpace3D_SivaKrishna/Assets/Piglet/Scripts/Importer/GltfImporter.cs:1047-1067 | primitive i >= 1 goes on a new object named by the cleaned sibling name, with the node object's local TRS and parent and primitive i's mesh and material |
| SceneSpec.PlacePrimitivesEntries | eSpace3D_SivaKrishna/Assets/Piglet/Scripts/Importer/GltfImporter.cs:1039-1070 | the list of primitive objects has one entry per primitive: entry 0 the node's object, later entries objects allocated in the loop; each carries its primitive's mesh and material and the node object's local TRS and parent |
| SceneSpec.MeshNodeStepBuilds | eSpace3D_SivaKrishna/Assets/Piglet/Scripts/Importer/GltfImporter.cs:1027-1073 | a node without a mesh changes nothing; a node with a mesh that succeeds was not recorded before and now has `NodeToMeshPrimitives[k]` holding its primitives' objects as placed |
| SceneSpec.MeshNodesKeepLists | eSpace3D_SivaKrishna/Assets/Piglet/Scripts/Importer/GltfImporter.cs:1072-1073 | a recorded primitive list is never replaced, since `Add` throws on a key already present |
| SceneSpec.MeshNodesRecorded | eSpace3D_SivaKrishna/Assets/Piglet/Scripts/Importer/GltfImporter.cs:1023-1075 | when the whole loop succeeds, every node with a mesh has one recorded entry per primitive: entry 0 its own object, the others objects allocated during the loop |
| SceneSpec.MeshNodesShape | eSpace3D_SivaKrishna/Assets/Piglet/Scripts/Importer/GltfImporter.cs:1023-1075 | the loop changes no existing object's name, parent or local TRS |
| SceneSpec.LoadSceneRoot | eSpace3D_SivaKrishna/Assets/Piglet/Scripts/Importer/GltfImporter.cs:1084-1092 | on success the scene root is a new parentless object named after the input file, or "model" without one |
| SceneSpec.LoadSceneParented | eSpace3D_SivaKrishna/Assets/Piglet/Scripts/Importer/GltfImporter.cs:1094-1098 | on success every node of the default scene has an object parented under the scene root |
| SceneSpec.LoadSceneListed | eSpace3D_SivaKrishna/Assets/Piglet/Scripts/Importer/GltfImporter.cs:1082-1103 | on success every node entered during the scene phase that has a mesh has its primitives recorded |
| DeformSpec.RunMatchesMorphFrames | eSpace3D_SivaKrishna/Assets/Piglet/Scripts/Importer/GltfImporter.cs:1199-1220 | the phase's target loop yields exactly the primitive's morph frames |
| DeformSpec.PrimitiveMorphFrames | eSpace3D_SivaKrishna/Assets/Piglet/Scripts/Importer/GltfImporter.cs:1190-1220 | one primitive's frames are appended to its mesh iff they all load |
| DeformSpec.MeshMorphKeeps | eSpace3D_SivaKrishna/Assets/Piglet/Scripts/Importer/GltfImporter.cs:1170-1224 | morph setup only appends frames and swaps renderers |
| DeformSpec.LoadMorphTargetsKeeps | eSpace3D_SivaKrishna/Assets/Piglet/Scripts/Importer/GltfImporter.cs:1229-1246 | the phase only appends frames and swaps renderers, and reports the meshes done |
| DeformSpec.BindPoses | eSpace3D_SivaKrishna/Assets/Piglet/Scripts/Importer/GltfImporter.cs:1365-1379 | the bind poses come from the accessor's buffer, which must be loaded |
| DeformSpec.LoadSkinKeeps | eSpace3D_SivaKrishna/Assets/Piglet/Scripts/Importer/GltfImporter.cs:1253-1287 | skinning changes only renderers and skin data |
| DeformSpec.LoadSkinsKeeps | eSpace3D_SivaKrishna/Assets/Piglet/Scripts/Importer/GltfImporter.cs:1292-1306 | the phase changes only renderers and skin data, and reports the skins done |
| DeformSpec.SkinNodesSkin | eSpace3D_SivaKrishna/Assets/Piglet/Scripts/Importer/GltfImporter.cs:1276-1286 | every target node of the skin is skinned with the skin's bones |
| DeformSpec.LoadSkinApplies | eSpace3D_SivaKrishna/Assets/Piglet/Scripts/Importer/GltfImporter.cs:1253-1287 | a successful valid skin leaves every node using it skinned with its bones and root bone |
| DeformSpec.UnusedSkinSkipped | eSpace3D_SivaKrishna/Assets/Piglet/Scripts/Importer/GltfImporter.cs:1276 | with the intended lookup, an unused skin changes nothing and fails only on its own bones or bind poses |
| DeformSpec.ApplySwapsSwapped | eSpace3D_SivaKrishna/Assets/Piglet/Scripts/Importer/GltfImporter.cs:1195-1215 | applying swaps only swaps renderers |
| Importer.GltfImporter.constructor | eSpace3D_SivaKrishna/Assets/Piglet/Scripts/Importer/GltfImporter.cs:79-87 | the importer holds the URI, data, cache and progress log it was given, and no document |
| Importer.GltfImporter.Clear | eSpace3D_SivaKrishna/Assets/Piglet/Scripts/Importer/GltfImporter.cs:93-96 | the cache's objects are destroyed as `GltfImportCache.Clear` promises |
| Importer.GltfImporter.SceneObject | eSpace3D_SivaKrishna/Assets/Piglet/Scripts/Importer/GltfImporter.cs:625-633 | the scene object is the cache's scene root |
| Importer.GltfImporter.ReadUri | eSpace3D_SivaKrishna/Assets/Piglet/Scripts/Importer/GltfImporter.cs:103-124 | with data in hand nothing is read; otherwise the input is read or downloaded and its progress forwarded; a read failure is the phase's failure |
| Importer.GltfImporter.ParseFile | eSpace3D_SivaKrishna/Assets/Piglet/Scripts/Importer/GltfImporter.cs:158-187 | the document is the parse result; progress 0/1, then 1/1 on success |
| Importer.GltfImporter.LoadBuffers | eSpace3D_SivaKrishna/Assets/Piglet/Scripts/Importer/GltfImporter.cs:211-233 | the cache's buffers grow by the buffers loaded in index order until the first failure, with one report per buffer |
| Importer.GltfImporter.LoadTextures | eSpace3D_SivaKrishna/Assets/Piglet/Scripts/Importer/GltfImporter.cs:545-574 | one placeholder per texture, each filled in its own slot as it completes, until the first failure |
| Importer.GltfImporter.AddPlaceholders | eSpace3D_SivaKrishna/Assets/Piglet/Scripts/Importer/GltfImporter.cs:556-561 | the texture list grows by exactly one empty slot per texture, before any texture is loaded |
| Importer.GltfImporter.LoadMaterials | eSpace3D_SivaKrishna/Assets/Piglet/Scripts/Importer/GltfImporter.cs:635-648 | materials appended in index order until the first failure, with one report each |
| Importer.GltfImporter.CreateMeshObject | eSpace3D_SivaKrishna/Assets/Piglet/Scripts/Importer/GltfImporter.cs:813-845 | exactly one (mesh, material) pair per primitive in order; the mesh index joins the morph list iff a primitive has targets |
| Importer.GltfImporter.CreateMeshPrimitives | eSpace3D_SivaKrishna/Assets/Piglet/Scripts/Importer/GltfImporter.cs:826-840 | the primitives' meshes and materials, in order, stopping at the first failing primitive |
| Importer.GltfImporter.LoadMeshes | eSpace3D_SivaKrishna/Assets/Piglet/Scripts/Importer/GltfImporter.cs:799-811 | every mesh is loaded in order until the first failure, with the morph list and reports kept in step |
| Importer.GltfImporter.LoadMeshAt | eSpace3D_SivaKrishna/Assets/Piglet/Scripts/Importer/GltfImporter.cs:806-810 | one loop iteration: mesh i is created and (MeshStep, i + 1, total) reported, or its exception ends the phase with every earlier mesh loaded |
| Importer.GltfImporter.CreateNode | eSpace3D_SivaKrishna/Assets/Piglet/Scripts/Importer/GltfImporter.cs:1105-1154 | the node's object is created and named, the back-reference lists and node map updated and its children built depth first |
| Importer.GltfImporter.CreateChildren | eSpace3D_SivaKrishna/Assets/Piglet/Scripts/Importer/GltfImporter.cs:1144-1152 | each child is built and parented under the node, in order |
| Importer.GltfImporter.SetupMeshNodes | eSpace3D_SivaKrishna/Assets/Piglet/Scripts/Importer/GltfImporter.cs:1023-1075 | primitive 0 on the node's own object, later primitives on new sibling objects with the node's TRS and parent |
| Importer.GltfImporter.LoadScene | eSpace3D_SivaKrishna/Assets/Piglet/Scripts/Importer/GltfImporter.cs:1082-1103 | the scene root is created and every root node built beneath it |
| Importer.GltfImporter.AddMorphFrames | eSpace3D_SivaKrishna/Assets/Piglet/Scripts/Importer/GltfImporter.cs:1190-1220 | a primitive's morph frames are added to its mesh |
| Importer.GltfImporter.LoadMeshMorphTargets | eSpace3D_SivaKrishna/Assets/Piglet/Scripts/Importer/GltfImporter.cs:1170-1224 | one mesh's morph targets are loaded and its objects swapped to skinned renderers |
| Importer.GltfImporter.LoadMorphTargets | eSpace3D_SivaKrishna/Assets/Piglet/Scripts/Importer/GltfImporter.cs:1229-1246 | every mesh with morph targets is processed in order, stopping at the first failure |
| Importer.GltfImporter.SetupSkinnedMeshPrimitive | eSpace3D_SivaKrishna/Assets/Piglet/Scripts/Importer/GltfImporter.cs:1316-1353 | one primitive's object becomes skinned, with weights and bind poses on its mesh |
| Importer.GltfImporter.LoadSkin | eSpace3D_SivaKrishna/Assets/Piglet/Scripts/Importer/GltfImporter.cs:1253-1287 | an invalid skin is logged and skipped; a valid one skins every node that uses it |
| Importer.GltfImporter.LoadSkins | eSpace3D_SivaKrishna/Assets/Piglet/Scripts/Importer/GltfImporter.cs:1292-1306 | every skin is loaded in order, with one report per skin |
| ImportTasks.Position | eSpace3D_SivaKrishna/Assets/Piglet/Scripts/Importer/Editor/EditorGltfImporter.cs:72-84 | each of the ten phases has its position in the pipeline |
| ImportTasks.PhaseLists | eSpace3D_SivaKrishna/Assets/Piglet/Scripts/Importer/Editor/EditorGltfImporter.cs:72-84 | both pipelines have ten phases and share the first nine; the editor ends with CreatePrefabEnum, the runtime with GetSceneObjectEnum |
| ImportTasks.PrefabBasename | eSpace3D_SivaKrishna/Assets/Piglet/Scripts/Importer/Editor/EditorGltfImporter.cs:155-160 | "scene.prefab" for an empty scene name, else the cleaned name + ".prefab" |
| ImportTasks.PrefabInImportDir | eSpace3D_SivaKrishna/Assets/Piglet/Scripts/Importer/Editor/EditorGltfImporter.cs:155-162 | the prefab path is the import directory joined with a basename without '/' |
| ImportTasks.EditorGltfImporter.constructor | eSpace3D_SivaKrishna/Assets/Piglet/Scripts/Importer/Editor/EditorGltfImporter.cs:43-50 | the editor importer wraps an immediate-destroy editor cache rooted at the project path of the import directory, without the texture scale flip |
| ImportTasks.EditorGltfImporter.Clear | eSpace3D_SivaKrishna/Assets/Piglet/Scripts/Importer/Editor/EditorGltfImporter.cs:180-187 | runs the in-memory clear, then removes the import directory |
| ImportTasks.EditorGltfImporter.CreatePrefabEnum | eSpace3D_SivaKrishna/Assets/Piglet/Scripts/Importer/Editor/EditorGltfImporter.cs:153-174 | without a scene root it fails; otherwise it saves the prefab under the cleaned scene name and then clears the in-memory objects but not the files |
| ImportTasks.NewRuntimeImporter | eSpace3D_SivaKrishna/Assets/Piglet/Scripts/Importer/Runtime/RuntimeGltfImporter.cs:14-16 | the runtime importer uses a deferred-destroy cache and flips textures by scale |
| ImportTasks.ImportTask.Abort | eSpace3D_SivaKrishna/Assets/Piglet/Scripts/Importer/Runtime/RuntimeGltfImporter.cs:68-69 | aborting clears the importer |
| ImportTasks.ImportTask.Step | eSpace3D_SivaKrishna/Assets/Piglet/Scripts/Importer/Runtime/RuntimeGltfImporter.cs:51-69 | one phase runs per step, in order; a failure clears the importer (and the import directory in the editor); the runtime task completes with the scene object |
| ImportTasks.RuntimeGetImportTask | eSpace3D_SivaKrishna/Assets/Piglet/Scripts/Importer/Runtime/RuntimeGltfImporter.cs:41-72 | a fresh runtime task over a fresh importer, ready to run the runtime phases |
| ImportTasks.RuntimeGetImportTaskFromUri | eSpace3D_SivaKrishna/Assets/Piglet/Scripts/Importer/Runtime/RuntimeGltfImporter.cs:85-88 | the URI overload passes no data |
| ImportTasks.RuntimeGetImportTaskFromString | eSpace3D_SivaKrishna/Assets/Piglet/Scripts/Importer/Runtime/RuntimeGltfImporter.cs:102-105 | the string overload fails on a malformed URI, otherwise passes the parsed URI and no data |
| ImportTasks.RuntimeGetImportTaskFromBytes | eSpace3D_SivaKrishna/Assets/Piglet/Scripts/Importer/Runtime/RuntimeGltfImporter.cs:118-121 | the byte overload passes no URI |
| ImportTasks.EditorGetImportTask | eSpace3D_SivaKrishna/Assets/Piglet/Scripts/Importer/Editor/EditorGltfImporter.cs:62-93 | a fresh editor task with the editor phase list; a malformed path fails |
| UndoRedoSystems.UnboxBool | eSpace3D_SivaKrishna/Assets/Scenes/UndoRedoSystem.cs:30-31 | unboxing a bool succeeds exactly for a boxed bool |
| UndoRedoSystems.UnboxVector | eSpace3D_SivaKrishna/Assets/Scenes/UndoRedoSystem.cs:34-35 | unboxing a vector succeeds exactly for a boxed vector |
| UndoRedoSystems.Write | eSpace3D_SivaKrishna/Assets/Scenes/UndoRedoSystem.cs:26-38 | SetActive writes the bool to a game object, Position the vector to a transform, Enable nothing; bad casts fail and change nothing; no other object changes |
| UndoRedoSystems.Perform | eSpace3D_SivaKrishna/Assets/Scenes/UndoRedoSystem.cs:26-38 | the switch on the action kind writes to the world exactly what the write semantics gives |
| UndoRedoSystems.WriteThenRead | eSpace3D_SivaKrishna/Assets/Scenes/UndoRedoSystem.cs:26-38 | after a successful write the target reads back the written value |
| UndoRedoSystems.UndoRestoresTracked | eSpace3D_SivaKrishna/Assets/Scenes/UndoRedoSystem.cs:44-67 | undoing a tracked change restores the objects exactly |
| UndoRedoSystems.RedoAfterUndo | eSpace3D_SivaKrishna/Assets/Scenes/UndoRedoSystem.cs:19-67 | redo after undo gives the state of the original change |
| UndoRedoSystems.UndoRedoSystem.constructor | eSpace3D_SivaKrishna/Assets/Scenes/UndoRedoSystem.cs:7-8 | both stacks start empty |
| UndoRedoSystems.UndoRedoSystem.TrackChangeAction | eSpace3D_SivaKrishna/Assets/Scenes/UndoRedoSystem.cs:10-17 | the redo stack is emptied and the action pushed onto the undo stack |
| UndoRedoSystems.UndoRedoSystem.Redo | eSpace3D_SivaKrishna/Assets/Scenes/UndoRedoSystem.cs:19-42 | empty redo stack: no change; otherwise the top action's `to` value is written and the action moves to the undo stack |
| UndoRedoSystems.UndoRedoSystem.Undo | eSpace3D_SivaKrishna/Assets/Scenes/UndoRedoSystem.cs:44-67 | empty undo stack: no change; otherwise the top action's `from` value is written and the action moves to the redo stack |
| TwoStacks.Track | eSpace3D_SivaKrishna/Assets/Scenes/UndoRedoSystem.cs:10-17 | tracking empties redo and pushes onto undo |
| TwoStacks.UndoMove | eSpace3D_SivaKrishna/Assets/Scenes/UndoRedoSystem.cs:44-67 | moving the top of undo onto redo keeps the total size |
| TwoStacks.RedoMove | eSpace3D_SivaKrishna/Assets/Scenes/UndoRedoSystem.cs:19-42 | moving the top of redo onto undo keeps the total size |
| TwoStacks.UndoThenRedo | eSpace3D_SivaKrishna/Assets/Scripts/New/UndoRedoClass.cs:10-32 | undo followed by redo restores both stacks |
| TwoStacks.RedoThenUndo | eSpace3D_SivaKrishna/Assets/Scripts/New/UndoRedoClass.cs:10-32 | redo followed by undo restores both stacks |
| TwoStacks.TrackThenUndo | eSpace3D_SivaKrishna/Assets/Scripts/New/UndoRedoClass.cs:34-40 | undoing a just-tracked change leaves it alone on the redo stack |
| UndoRedoClasses.CountMessage | eSpace3D_SivaKrishna/Assets/Scripts/New/UndoRedoClass.cs:12 | the logged message is "undo stack count" followed by the count's digits |
| UndoRedoClasses.CountMessageInjective | eSpace3D_SivaKrishna/Assets/Scripts/New/UndoRedoClass.cs:12-24 | different counts log different messages |
| UndoRedoClasses.UndoRedoClass.constructor | eSpace3D_SivaKrishna/Assets/Scripts/New/UndoRedoClass.cs:7-8 | both stacks start empty |
| UndoRedoClasses.UndoRedoClass.Undo | eSpace3D_SivaKrishna/Assets/Scripts/New/UndoRedoClass.cs:10-20 | logs the count; empty stack: no change; otherwise the top change's `Undo` runs and it moves to redo |
| UndoRedoClasses.UndoRedoClass.Redo | eSpace3D_SivaKrishna/Assets/Scripts/New/UndoRedoClass.cs:22-32 | logs the redo count; empty stack: no change; otherwise the top change's `Redo` runs and it moves to undo |
| UndoRedoClasses.UndoRedoClass.AddAction | eSpace3D_SivaKrishna/Assets/Scripts/New/UndoRedoClass.cs:34-40 | redo cleared, the change pushed onto undo |
| ObjectStates.Capture | eSpace3D_SivaKrishna/Assets/Scripts/New/ObjectState.cs:17-26 | captures the local position, rotation, scale, material and active flag of a live object with a renderer |
| ObjectStates.ApplyState | eSpace3D_SivaKrishna/Assets/Scripts/New/ObjectState.cs:28-35 | writes exactly those five values back to the captured object and touches no other object |
| ObjectStates.Apply | eSpace3D_SivaKrishna/Assets/Scripts/New/ObjectState.cs:28-35 | the in-place apply leaves the world exactly as the snapshot semantics says, changing only game objects |
| ObjectStates.CaptureThenApply | eSpace3D_SivaKrishna/Assets/Scripts/New/ObjectState.cs:17-35 | capturing and then applying leaves the objects unchanged |
| ObjectStates.ApplyIdempotent | eSpace3D_SivaKrishna/Assets/Scripts/New/ObjectState.cs:28-35 | applying a snapshot twice is applying it once |
| ObjectStates.ApplyThenCapture | eSpace3D_SivaKrishna/Assets/Scripts/New/ObjectState.cs:17-35 | capturing after a successful apply gives back the snapshot |
| UndoableChanges.ApplyAll | eSpace3D_SivaKrishna/Assets/Scripts/New/UndoableChange.cs:31-34 | applying a snapshot list never adds or removes objects |
| UndoableChanges.ApplyAllUncaptured | eSpace3D_SivaKrishna/Assets/Scripts/New/UndoableChange.cs:26-45 | an object's name, parent, components, mesh and bones are never changed by applying snapshots |
| UndoableChanges.ApplyAllKeepsPositionField | eSpace3D_SivaKrishna/Assets/Scripts/New/UndoableChange.cs:26-45 | snapshots never write the world position directly; the model keeps it as a field of its own |
| UndoableChanges.ApplyStates | eSpace3D_SivaKrishna/Assets/Scripts/New/UndoableChange.cs:31-34 | the foreach loop ends in the state and outcome the snapshot-list semantics gives, changing only game objects |
| UndoableChanges.UntargetedUnchanged | eSpace3D_SivaKrishna/Assets/Scripts/New/UndoableChange.cs:26-45 | objects no snapshot targets are untouched |
| UndoableChanges.PassIffApplicable | eSpace3D_SivaKrishna/Assets/Scripts/New/UndoableChange.cs:26-45 | the whole list applies iff every snapshot's object is live with a renderer |
| UndoableChanges.FailureStops | eSpace3D_SivaKrishna/Assets/Scripts/New/UndoableChange.cs:31-34 | after the first failing snapshot nothing more is applied |
| UndoableChanges.LastSnapshotWins | eSpace3D_SivaKrishna/Assets/Scripts/New/UndoableChange.cs:31-44 | the last snapshot of an object decides its final state |
| UndoableChanges.AgreeingSnapshotsWin | eSpace3D_SivaKrishna/Assets/Scripts/New/UndoableChange.cs:31-34 | when all snapshots of an object agree, the object ends in that state |
| UndoableChanges.Undo | eSpace3D_SivaKrishna/Assets/Scripts/New/UndoableChange.cs:26-37 | applies the `before` snapshots in order |
| UndoableChanges.Redo | eSpace3D_SivaKrishna/Assets/Scripts/New/UndoableChange.cs:39-45 | applies the `after` snapshots in order |
| UndoableChanges.RedoAfterUndoRestores | eSpace3D_SivaKrishna/Assets/Scripts/New/UndoableChange.cs:26-45 | undo then redo restores the objects when `after` was captured from them |
| DeleteCommands.PassIffLive | eSpace3D_SivaKrishna/Assets/RuntimeGizmo/Objects/Commands/DeleteCommand.cs:19-29 | setting the flags succeeds iff every target is a live object |
| DeleteCommands.SetActiveAll | eSpace3D_SivaKrishna/Assets/RuntimeGizmo/Objects/Commands/DeleteCommand.cs:19-29 | setting the flag on a target list never adds or removes objects |
| DeleteCommands.FlagsAfter | eSpace3D_SivaKrishna/Assets/RuntimeGizmo/Objects/Commands/DeleteCommand.cs:19-29 | each target gets the flag; others keep theirs |
| DeleteCommands.OnlyFlagsChange | eSpace3D_SivaKrishna/Assets/RuntimeGizmo/Objects/Commands/DeleteCommand.cs:19-29 | nothing but active flags changes |
| DeleteCommands.SetActiveAllStops | eSpace3D_SivaKrishna/Assets/RuntimeGizmo/Objects/Commands/DeleteCommand.cs:19-29 | the first missing target stops the loop |
| DeleteCommands.DeleteCommand.constructor | eSpace3D_SivaKrishna/Assets/RuntimeGizmo/Objects/Commands/DeleteCommand.cs:13-17 | the command keeps its targets |
| DeleteCommands.DeleteCommand.Execute | eSpace3D_SivaKrishna/Assets/RuntimeGizmo/Objects/Commands/DeleteCommand.cs:19-23 | every target is made inactive, in order |
| DeleteCommands.DeleteCommand.UnExecute | eSpace3D_SivaKrishna/Assets/RuntimeGizmo/Objects/Commands/DeleteCommand.cs:25-29 | every target is made active, in order |
| DeleteCommands.SetEach | eSpace3D_SivaKrishna/Assets/RuntimeGizmo/Objects/Commands/DeleteCommand.cs:21-22 | the foreach loop ends in the state and outcome the flag semantics gives, changing only game objects |
| DeleteCommands.RoundTripRestoresIff | eSpace3D_SivaKrishna/Assets/RuntimeGizmo/Objects/Commands/DeleteCommand.cs:19-29 | Execute then UnExecute restores the objects iff every target was active before |
| DeleteCommands.RoundTripShowsTargets | eSpace3D_SivaKrishna/Assets/RuntimeGizmo/Objects/Commands/DeleteCommand.cs:19-29 | after Execute then UnExecute every target is active, so a target hidden before comes back visible and the objects differ from the original ones |
| FileBrowserFilters.AppendChunk | eSpace3D_SivaKrishna/Assets/StandaloneFileBrowser/StandaloneFileBrowserLinux.cs:107-115 | the inner loop appends Name + ";" + the extensions joined by ",", drops the last character and appends "\|" |
| FileBrowserFilters.TerminatedIsDelimited | eSpace3D_SivaKrishna/Assets/StandaloneFileBrowser/StandaloneFileBrowserLinux.cs:115-117 | removing the final "\|" gives the chunks joined by "\|" |
| FileBrowserFilters.ChunkRoundTrip | eSpace3D_SivaKrishna/Assets/StandaloneFileBrowser/StandaloneFileBrowserLinux.cs:107-114 | a chunk of delimiter-free names decodes back to its filter |
| FileBrowserFilters.DelimitedFilterRoundTrip | eSpace3D_SivaKrishna/Assets/StandaloneFileBrowser/StandaloneFileBrowserLinux.cs:100-119 | the filter string decodes back to the same filters in the same order |
| FileBrowserFilters.StripDotUnifies | eSpace3D_SivaKrishna/Assets/StandaloneFileBrowser/StandaloneFileBrowserWebGL.cs:123 | "png" and ".png" give the same item |
| FileBrowserFilters.WebGlItemsCount | eSpace3D_SivaKrishna/Assets/StandaloneFileBrowser/StandaloneFileBrowserWebGL.cs:114-124 | one item per extension of every filter |
| FileBrowserFilters.WebGlIgnoresNames | eSpace3D_SivaKrishna/Assets/StandaloneFileBrowser/StandaloneFileBrowserWebGL.cs:114-124 | filter names play no part in the WebGL string |
| StandaloneFileBrowserLinux.GetFilterFromFileExtensionList | eSpace3D_SivaKrishna/Assets/StandaloneFileBrowser/StandaloneFileBrowserLinux.cs:100-119 | null gives ""; an empty array throws from `Remove(-1)`; otherwise the chunks joined by "\|" |
| StandaloneFileBrowserIOS.GetFilterFromFileExtensionList | eSpace3D_SivaKrishna/Assets/StandaloneFileBrowser/StandaloneFileBrowserIOS.cs:105-127 | the same result as the Linux builder for every input |
| StandaloneFileBrowserWebGL.GetFilterFromFileExtensionList | eSpace3D_SivaKrishna/Assets/StandaloneFileBrowser/StandaloneFileBrowserWebGL.cs:110-128 | null gives ""; an empty extension throws; otherwise every extension as "." + it without its dot, joined by ", " |
| Strings.IntToStringInjective | eSpace3D_SivaKrishna/Assets/Piglet/Dependencies/UnityGLTF/GLTFUtils.cs:202-205 | the decimal rendering of integers is injective |
| Strings.SplitJoin | eSpace3D_SivaKrishna/Assets/StandaloneFileBrowser/StandaloneFileBrowserLinux.cs:107-117 | splitting a join on a separator absent from the items gives the items back |

## Left out

- Foreign libraries are modelled as uninterpreted parameters in `ImportEnv.Env`: `GLTFParser`, `ZipUtil`, `UriUtil`, image decoding, and the accessor decoding into positions, normals, UVs, colours, triangles, joints and weights. Their results are arbitrary.
- The mathematics of matrix conversion and floating-point rounding are not modelled. Mesh bounds and tangents (`RecalculateBounds`, `RecalculateTangents`) are not modelled either. Vectors are tuples of reals.
- The Unity editor APIs (`AssetDatabase`, `PrefabUtility`, `TextureImporter`) appear only as logs of calls on the editor importer: saved assets, saved prefabs and removed directories. The editor's `LoadMaterial` override, which re-imports the normal-map texture as a normal map before calling the base method, is not modelled: the material itself is the base one. The editor's `LoadTexture(byte[])` override decodes with `Texture2D.LoadImage`; decoding is a parameter of `ImportEnv.Env` either way. The editor's `SetMaterialTexture` override, which drops the scale flip, is modelled.
- `FixSpecularGlossinessDefaults` works by reflection on the parser's objects and is not modelled; the defaults come from the parsed document.
- The `GltfImportTask`/`InterleavedTaskSet` coroutine scheduler is not modelled. The texture phase is modelled through its completion order. Each `ImportTask.Step` runs one whole phase; the per-frame `yield`s are not modelled.
- `Mesh.AddBlendShapeFrame` is not modelled beyond appending the frame. Its checks of vertex counts and duplicate names belong to Unity.
- The `MissingReference` checks on objects the importer itself has just created cannot fail, so they are not modelled.
- The call `wei.Normalize()` on a copy of a `Vector4` in `GetBoneWeights` has no effect and is not modelled.
- `Debug.Log` messages are not modelled; this includes `UndoRedoClass.AddAction`'s count message and the last-action message of `Undo`. `Debug.LogError` calls are modelled as entries in the world's error log: the importer's error reports and the stack-count messages of `UndoRedoClass`.
- The `SerializedAssetList` bookkeeping of the editor cache is not modelled. The serializers are modelled as standalone methods.
- `createGameObject` is not a separate member; each caller creates its game object directly in the world.
- The other `GLTFUtils` helpers (editor-only conversions and `getSceneTransforms`) are not called by the importer and are not modelled.
- The native dialog calls of the three file browsers are not modelled; only their filter strings are.
- `UndoRedoController` does not compile against `UndoRedoClass`, so it is not modelled.
- `Importer.GltfImporter.CreateNode` requires `node == Nodes[index]`. That is the only way the importer calls it.
- `Importer.GltfImporter.ParseFile` requires the bytes to be present. The read phase either returns bytes or stops the import with an error.
- `GltfUtils.NormalizeBoneWeights` models a zero weight sum as no result, where the source divides by zero and gets NaN weights.
- `ImportTasks.PrefabBasename` states the name chosen for each scene name but not injectivity. Two scene names that clean to the same string give the same prefab, and the empty name collides with a scene called "scene".
- `Importer.GltfImporter.LoadSkin` uses the corrected skin lookup from the Findings table. A valid skin that no node references is skipped, where the code as written (GltfImporter.cs:1276) throws `KeyNotFoundException` and aborts the import. The as-written lookup is `ImporterSpec.SkinTargets`.
- `Importer.GltfImporter.LoadSkins` runs the corrected `LoadSkin`, so an unused valid skin does not end the phase.
- `DeformSpec.LoadSkinSpec` specifies the corrected `LoadSkin`. It reads the back-references through `ImporterSpec.SkinTargetsOrEmpty`, not the throwing `ImporterSpec.SkinTargets`.
- `UndoRedoSystems.Write` treats a game object's world position and local transform as independent fields. A Position write sets the world position only. In Unity it also changes `localPosition` and moves the object's descendants; deriving one from the other needs the transform matrices, which are not modelled.
- `UndoRedoSystems.Perform` writes through `UndoRedoSystems.Write`, so a Position action leaves the local transform and the descendants as they were.
- `UndoRedoSystems.UndoRedoSystem.Redo` writes through `UndoRedoSystems.Write`, so it has the same limit for Position actions.
- `UndoRedoSystems.UndoRedoSystem.Undo` has the same limit as `Redo` for Position actions.
- `ObjectStates.ApplyState` writes the local transform without updating the model's world-position field. In Unity the object's world position, and its descendants', follow the new local transform.
- `UndoableChanges.ApplyAllUncaptured` states that name, parent, components, mesh and bones are unchanged. It does not cover the world position, which Unity recomputes from the written local transform.
- `UndoableChanges.ApplyAllKeepsPositionField` is a fact about the model's separate world-position field, not a Unity guarantee. `UndoableChanges.RedoAfterUndoRestores` uses it. Its conclusion still holds in Unity, because every object's local transform and parent are restored, and the world position is a function of those.
- `EditorImportCache.EditorGltfImportCache.SerializeTexture` takes the shader blit of `TextureUtil.FlipTexture` as a parameter. It gives the returned texture the sampling settings of a new texture, which are Unity's defaults. The real reloaded asset takes its settings from Unity's texture importer, which is not modelled.
- `SceneSpec.MeshNodesRecorded` states, for the final state of the loop, each list's length, its entry 0 and the range of its later entries. The mesh, material, name and transform on each entry are stated for the step that places them (`SceneSpec.MeshNodeStepBuilds`), not carried to the end of the loop.
- Time, frame pacing and the network are not modelled. All reads are values supplied by `ImportEnv.Env`.

## Findings

| source | as written | input that shows it | evidently intended | confidence | as-written member | corrected member |
|---|---|---|---|---|---|---|
| eSpace3D_SivaKrishna/Assets/Piglet/Scripts/Importer/GltfImporter.cs:1276 | `LoadSkin` looks up `_imported.SkinToNodes[skinIndex]` unconditionally. For a skin that passes `isValidSkin` but that no node references, the key is missing, so the lookup throws `KeyNotFoundException` and aborts the whole import. | A document with one node and no skinned mesh, and a skin with `joints = [0]` and one inverse bind matrix. | An unused skin is skipped, as the glTF specification allows skins no node uses. | not executed | ImporterSpec.SkinTargets (the failure is exhibited by ImporterSpec.UnusedSkinAborts) | ImporterSpec.SkinTargetsOrEmpty (used by DeformSpec.LoadSkinSpec and Importer.GltfImporter.LoadSkin; DeformSpec.UnusedSkinSkipped proves the skin changes nothing) |
