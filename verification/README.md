# OpenGL engine core in Dafny

This project models the CPU-side bookkeeping of a small deferred-rendering OpenGL engine. That is the logic between asset import and the GL calls:

- **Uniform-buffer writer** (`Code/BufferManagement.h`). A mapped byte buffer with a write cursor (`head`). `IsPowerOf2` and `Align` do the alignment arithmetic. `MapBuffer`, `AlignHead`, `PushAlignedData` and `BindBufferRange` move the cursor. The `Push*` macros fix the alignment of each GLSL type.
- **Vertex layout builder** (`Code/VertexBufferLayout.h`). `AddAttribute` gives each attribute an offset and grows an `unsigned char` stride. `Bound` rounds the stride to a multiple of 4.
- **Model import** (`Code/AssimpLoading.h`):
  - `ProcessAssimpMesh` interleaves the vertex channels, concatenates the face indices, picks the vertex layout and records one material index per submesh.
  - `ProcessAssimpNode` walks the node tree in pre-order.
  - `ProcessAssimpMaterial` loads a material's five textures through the texture cache and stores their indices.
  - `LoadModel` appends the materials and the model, and packs every submesh into one shared vertex buffer and one shared index buffer.
- **Engine registries and frame logic** (`Code/engine.cpp`):
  - The four-piece shader source of each stage in `CreateProgramFromSource`.
  - The program registry (`LoadProgram`).
  - The texture cache, which deduplicates by file path and returns `UINT32_MAX` on failure (`LoadTexture2D`).
  - Timestamp-driven `App::HotReload`.
  - `Render`: the two matrices packed into the uniform block, and the draw calls each object issues.
- **Debug render-target selector** (`Code/engine.h`). `App::CurrentRenderTarget` and the `renderTargets` label table.

## How the model is built

Immutable datatypes and pure functions throughout. The loops of the source are methods with loop invariants, each proved equal to a functional definition. The one exception is the search loop of `LoadTexture2D` (Code/engine.cpp:155-157), which is the recursive function `Engine.FindTexture`.

- C's `unsigned char` and `u32` are bounded subsets of `int` (`Bits.uint8`, `Bits.uint32`). Every wrap-around the C code relies on is written out with `Wrap8` or `Wrap32`.
- Bitwise `&` and `~` are defined bit by bit (`Bits.And`, `Bits.Not`). That way the meaning of `IsPowerOf2` and `Align` is proved, not assumed.
- Floats are opaque IEEE-754 bit patterns (`Values.Float`). Negation flips the sign bit. A float's bytes are its bit pattern in little-endian order.
- Opaque inputs, each a parameter of the operation that consumes it:
  - GL object names (buffer, program, texture and VAO handles) and file timestamps.
  - What the image decoder returns (`Option<uint32>`: the texture handle, or failure). When a model loads, the decoder is a function from paths to that result.
  - What the importer returns (`Option<Scene>`).
- `Render` is split into two parts. The uniform block it fills is `Engine.PackUniforms`. The GL calls it would issue are a sequence of `DrawCall` records.

Modules:

- `Bits`: fixed-width integers and bitwise operators.
- `Results`: `Option` and `Result`.
- `Values`: floats, vectors, matrices and byte encodings.
- `Sequences`: generic sequence lemmas.
- `BufferManagement`, `VertexBufferLayout`, `AppState` (the `App` registries and `Object`, `Mesh`, `Program`, `Texture`, `Material`), `AssimpLoading`, `Engine` and `RenderTargets`: these follow the source files.

## Model

| member | source | states |
|---|---|---|
| Bits.AndU32 | Code/BufferManagement.h:5 | `x & y` on two `u32`s is no larger than either operand |
| Bits.NotU32 | Code/BufferManagement.h:10 | `~x` on a `u32` is `UINT32_MAX - x`: every bit flipped |
| Bits.Wrap32Add | Code/AssimpLoading.h:240 | adding in `u32` after reducing the operands gives the same result as reducing the exact sum |
| Bits.AndHighMask | Code/BufferManagement.h:10 | AND with a mask whose low k bits are clear rounds down to a multiple of 2^k |
| Bits.PowerOfTwoFromAnd | Code/BufferManagement.h:5 | a nonzero value that shares no bit with its predecessor is 2^k for some k below the width |
| BufferManagement.IsPowerOf2Iff | Code/BufferManagement.h:3-6 | `IsPowerOf2(v)` holds exactly when v is 2^k for some k < 32, so it is false for 0 |
| BufferManagement.AlignClearsLowBits | Code/BufferManagement.h:8-11 | `Align(v, a)` rounds the wrapped `v + a - 1` down to a multiple of a |
| BufferManagement.AlignIsMultiple | Code/BufferManagement.h:8-11 | for a power-of-two alignment the result is always a multiple of it, even after wrap-around |
| BufferManagement.AlignBounds | Code/BufferManagement.h:8-11 | without `u32` overflow, `Align(v, a)` is a multiple of a with v <= result < v + a |
| BufferManagement.AlignWrapsToZero | Code/BufferManagement.h:8-11 | when `v + a - 1` overflows `u32`, `Align` returns 0 |
| BufferManagement.AlignOfMultiple | Code/BufferManagement.h:8-11 | a value that is already a multiple of the alignment is unchanged |
| BufferManagement.AlignIdempotent | Code/BufferManagement.h:8-11 | aligning twice equals aligning once |
| BufferManagement.AlignByOne | Code/BufferManagement.h:8-11 | alignment 1 leaves every value unchanged |
| BufferManagement.MapBuffer | Code/BufferManagement.h:41-46 | mapping resets `head` to 0, keeps the contents, and is mapped exactly when GL returned a pointer |
| BufferManagement.UnmapBuffer | Code/BufferManagement.h:48-52 | as written: unmapping leaves the mapped state (the data pointer) as it was and changes nothing else |
| BufferManagement.UnmapBufferCleared | Code/BufferManagement.h:48-52 | corrected: unmapping clears the mapped state and changes nothing else |
| BufferManagement.BindBufferRange | Code/BufferManagement.h:54-59 | binds exactly (kind, binding, handle, offset, size) and returns `offset + size` reduced modulo 2^32 |
| BufferManagement.BindBufferRangeChains | Code/BufferManagement.h:54-59 | feeding the returned offset to the next bind places the blocks back to back |
| BufferManagement.AlignHead | Code/BufferManagement.h:61-65 | fails with `AlignmentNotPowerOf2` exactly when the assert would fire; otherwise only the head changes, to `Align(head, a)`: a multiple of a, in [head, head + a) when nothing overflows, and 0 when the sum wraps (`AlignWrapsToZero`) |
| BufferManagement.Write | Code/BufferManagement.h:71 | `memcpy`: the copied range holds the data and every other byte is unchanged |
| BufferManagement.WriteKeepsBefore | Code/BufferManagement.h:71 | bytes before the copied range are unchanged |
| BufferManagement.PushAlignedData | Code/BufferManagement.h:67-73 | fails exactly when unmapped or the alignment is not a power of two; otherwise writes exactly the data at `Align(head, a)`, leaves every other byte, and sets head to that offset plus the size |
| BufferManagement.PushAlignedDataRoundTrip | Code/BufferManagement.h:67-73 | the bytes just behind the new head read back as the pushed data |
| BufferManagement.MapThenPushLandsAtZero | Code/BufferManagement.h:41-46 | the first push after mapping lands at offset 0 |
| BufferManagement.PushData | Code/BufferManagement.h:137 | byte data uses alignment 1: it lands exactly at head, every other byte is kept, and the buffer stays mapped with the same handle and kind |
| BufferManagement.PushUInt | Code/BufferManagement.h:138 | a `u32` lands at a 4-aligned offset, reads back as the same value, and nothing else is written |
| BufferManagement.PushFloat | Code/BufferManagement.h:139 | a float lands at a 4-aligned offset, reads back as the same float, and nothing else is written |
| BufferManagement.PushFloats | Code/BufferManagement.h:140-143 | a float vector lands at a 16-aligned offset, reads back unchanged, and nothing else is written |
| BufferManagement.PushVec3 | Code/BufferManagement.h:140 | a vec3 lands as its 12 bytes at a 16-aligned offset, reads back unchanged, advances the head by 12, and nothing else is written |
| BufferManagement.PushVec4 | Code/BufferManagement.h:141 | a vec4 lands as its 16 bytes at a 16-aligned offset, reads back unchanged, advances the head by 16, and nothing else is written |
| BufferManagement.PushMat3 | Code/BufferManagement.h:142 | as written: a mat3 is copied as 36 packed bytes at a 16-aligned offset and nothing else is written |
| BufferManagement.PushMat4 | Code/BufferManagement.h:143 | a mat4 is written as its 64 bytes at a 16-aligned offset and nothing else changes |
| BufferManagement.FloatAfterVec3 | Code/BufferManagement.h:139-140 | a float pushed right after a vec3 lands at the vec3's offset + 12 |
| BufferManagement.PushMat3Std140 | Code/BufferManagement.h:142 | corrected: the three columns land 16 bytes apart, each as 12 bytes, the matrix takes 48 bytes so the head ends at offset + 48, and no byte outside the matrix changes (section 7.6.2.2 of the OpenGL 4.5 core specification) |
| BufferManagement.PushColumns | Code/BufferManagement.h:142 | pushing three columns as vec3s places column c at offset + 16c, and aligning afterwards leaves the head at offset + 48 |
| BufferManagement.ThreeColumns | Code/BufferManagement.h:140 | three vec3 pushes 16 bytes apart end 12 bytes into the last column's 16-byte slot, at offset + 44 |
| BufferManagement.FloatAfterMat3Std140 | Code/BufferManagement.h:139 | a float pushed right after the corrected mat3 lands at offset + 48, past the matrix's padding |
| BufferManagement.PushMat3MisplacesColumns | Code/BufferManagement.h:142 | with the packed copy, the bytes a std140 reader takes as the second column are not the second column |
| BufferManagement.PushAfterUnmapAccepted | Code/BufferManagement.h:48-52 | as written, a push after `UnmapBuffer` passes the mapped-buffer assert |
| BufferManagement.PushAfterUnmapRejected | Code/BufferManagement.h:48-52 | with the corrected unmap, a push after unmapping fails with `NotMapped` |
| VertexBufferLayout.AddAttribute | Code/VertexBufferLayout.h:10-16 | appends the attribute and keeps the earlier ones; its offset is the old stride; the stride grows by componentCount * sizeof(T) modulo 256 |
| VertexBufferLayout.BuildOffsets | Code/VertexBufferLayout.h:14-15 | from stride 0, attribute i's offset is the byte size of the attributes before it, modulo 256 |
| VertexBufferLayout.BuildStride | Code/VertexBufferLayout.h:8 | the final stride is the total byte size modulo 256 |
| VertexBufferLayout.OffsetsWithoutOverflow | Code/VertexBufferLayout.h:14-15 | below 256 bytes, the offsets are exact prefix sums and the stride is the total |
| VertexBufferLayout.Bound | Code/VertexBufferLayout.h:18-23 | as written: the stride becomes a multiple of 4 no larger than before (rounded down); a multiple of 4 is left alone |
| VertexBufferLayout.BoundUp | Code/VertexBufferLayout.h:18-23 | corrected: rounds the stride up to the next multiple of 4, wrapping to 0 past 252 |
| VertexBufferLayout.BoundIdempotent | Code/VertexBufferLayout.h:18-23 | `Bound` applied twice equals `Bound` applied once |
| VertexBufferLayout.BoundUpIdempotent | Code/VertexBufferLayout.h:18-23 | the corrected rounding is idempotent too |
| VertexBufferLayout.BoundAgreesOnlyOnMultiples | Code/VertexBufferLayout.h:20-22 | as-written and corrected rounding agree exactly when the stride is already a multiple of 4 |
| VertexBufferLayout.BoundRoundsDown | Code/VertexBufferLayout.h:21 | stride 6 becomes 4 as written and 8 when rounded up |
| VertexBufferLayout.FloatStrideIsMultipleOf4 | Code/VertexBufferLayout.h:15 | with only float attributes the stride is a multiple of 4 |
| VertexBufferLayout.FloatLayoutIsBound | Code/VertexBufferLayout.h:15 | with only float attributes neither rounding changes the layout |
| Values.Negate | Code/AssimpLoading.h:48-50 | negation keeps the magnitude bits and flips the sign bit |
| Values.NegateInvolutive | Code/AssimpLoading.h:48-50 | negating twice gives back the float |
| Values.UInt32RoundTrip | Code/BufferManagement.h:71 | a `u32` copied as its four bytes reads back unchanged |
| Values.UInt32BytesInjective | Code/BufferManagement.h:71 | distinct `u32`s have distinct byte images |
| Values.FloatsRoundTrip | Code/BufferManagement.h:71 | floats copied as bytes read back unchanged |
| Values.FloatsBytesAt | Code/BufferManagement.h:71 | float i occupies bytes 4i to 4i + 4 |
| Values.FloatsBytesAppend | Code/BufferManagement.h:71 | the bytes of two float sequences are the concatenation of their bytes |
| AssimpLoading.NegateAll | Code/AssimpLoading.h:48-50 | every bitangent component is negated |
| AssimpLoading.VertexChannels | Code/AssimpLoading.h:17-52 | one vertex is position, normal, uv if present, tangent, and the negated bitangent if present, in that order |
| AssimpLoading.InterleaveLength | Code/AssimpLoading.h:17-52 | n vertices give n * (6 + 2·uv + 6·tangents) floats |
| AssimpLoading.InterleaveAt | Code/AssimpLoading.h:17-52 | vertex i occupies floats i·k to i·k + k |
| AssimpLoading.InterleaveSlots | Code/AssimpLoading.h:17-52 | every vertex of the mesh sits in its own slot of the interleaved array |
| AssimpLoading.ProcessVertices | Code/AssimpLoading.h:17-52 | the vertex loop produces exactly the interleaved array, slot by slot |
| AssimpLoading.FlattenAppend | Code/AssimpLoading.h:55-62 | flattening distributes over concatenation of the face lists |
| AssimpLoading.FlattenTriangles | Code/AssimpLoading.h:55-62 | for triangulated faces, face f occupies indices 3f to 3f + 3 |
| AssimpLoading.ProcessIndices | Code/AssimpLoading.h:55-62 | the index loop produces the face indices concatenated in face order |
| AssimpLoading.MeshLayoutMatchesVertex | Code/AssimpLoading.h:68-78 | locations 0 and 1 always, 2 exactly with uv, 3 and 4 exactly with tangents; offsets match the vertex slots; stride is 4 * floats per vertex; `Bound` leaves it unchanged |
| AssimpLoading.ProcessMeshContents | Code/AssimpLoading.h:8-87 | for every mesh, including one without vertices: the submesh holds vertices-times-k floats, the flattened indices, the matching layout and zero offsets; its material index is `base + mMaterialIndex` wrapped to `u32` |
| AssimpLoading.ProcessMeshVertex | Code/AssimpLoading.h:17-52 | vertex i of the mesh sits in its own k-float slot of the submesh's vertex array |
| AssimpLoading.PreOrderValid | Code/AssimpLoading.h:153-167 | every mesh index the walk visits is in range for a valid scene |
| AssimpLoading.PreOrderLeaf | Code/AssimpLoading.h:153-167 | a node without children contributes its own meshes in order |
| AssimpLoading.MeshesFor | Code/AssimpLoading.h:65 | one mesh per visited index |
| AssimpLoading.MaterialsFor | Code/AssimpLoading.h:65 | one material index per visited index, so meshes and materials stay equal in length |
| AssimpLoading.ProcessAssimpNode | Code/AssimpLoading.h:153-167 | appends the meshes and material indices of the node's own meshes first, then each child's subtree left to right (pre-order) |
| AssimpLoading.ProcessChildren | Code/AssimpLoading.h:163-166 | the child loop appends each child's subtree in order |
| AssimpLoading.ProcessNodeMeshes | Code/AssimpLoading.h:156-160 | the mesh loop appends one processed mesh and one material index per listed mesh |
| AssimpLoading.ProcessWholeNode | Code/AssimpLoading.h:153-167 | a node's output is its own meshes' output followed by its children's |
| AssimpLoading.MeshesForAppend | Code/AssimpLoading.h:153-167 | processing two visit orders back to back equals processing their concatenation |
| AssimpLoading.PrefixSumStep | Code/AssimpLoading.h:218-219 | one more `u32 +=` keeps the running total equal to the wrapped prefix sum |
| AssimpLoading.BufferSizes | Code/AssimpLoading.h:212-220 | the two buffer sizes are the `u32`-wrapped sums of 4·|vertexs| and 4·|indexs| |
| AssimpLoading.AssignOffsets | Code/AssimpLoading.h:230-247 | mesh i's offsets are the `u32`-wrapped sums of the sizes of the meshes before it |
| AssimpLoading.PrefixSumMonotone | Code/AssimpLoading.h:230-247 | offsets never decrease along the mesh list |
| AssimpLoading.FirstRangeAtZero | Code/AssimpLoading.h:230-231 | the first mesh's offsets are 0 |
| AssimpLoading.RangesAdjacent | Code/AssimpLoading.h:230-247 | without overflow every range, the only one of a one-mesh model included, ends where the next begins, and the last ends at the total buffer size |
| AssimpLoading.RangesDisjoint | Code/AssimpLoading.h:230-247 | without overflow an earlier mesh's range ends before a later one's begins |
| AssimpLoading.PackingKeepsContents | Code/AssimpLoading.h:239 | packing only sets the offsets: layout, vertices and indices are unchanged |
| AssimpLoading.LoadSlot | Code/AssimpLoading.h:108-115 | a slot without a texture keeps 0; otherwise it holds `LoadTexture2D`'s result: `UINT32_MAX` exactly when the path was not cached and its image fails, else the index of a texture with that path; at most one texture, from that path, is appended |
| AssimpLoading.LoadSlots | Code/AssimpLoading.h:108-150 | loading the slots in order: every slot holds its loaded result against the final texture list, which only grows by decoded textures from those paths, and stays free of duplicate paths |
| AssimpLoading.ProcessMaterial | Code/AssimpLoading.h:89-151 | the diffuse, specular, emissive, normals and height textures are loaded in that order and their indices (failure sentinel included) stored in the material; only the texture list changes, by at most five textures from the material's own paths |
| AssimpLoading.CachedSlotsLoadNothing | Code/AssimpLoading.h:108-150 | when every slot's path is already in the texture list, loading the slots changes nothing |
| AssimpLoading.ProcessCachedMaterial | Code/AssimpLoading.h:89-151 | a material whose textures are all cached already changes nothing |
| AssimpLoading.LoadMaterials | Code/AssimpLoading.h:201-206 | one engine material per scene material, in order, each with its slots loaded against the final texture list; textures only grow, by decoded images, without duplicate paths |
| AssimpLoading.ProcessMaterials | Code/AssimpLoading.h:201-206 | the material loop computes exactly `LoadMaterials` |
| AssimpLoading.LoadModel | Code/AssimpLoading.h:169-253 | a failed import changes nothing and returns null; otherwise one model object is appended, the textures grow as the material loop loads them and the new materials are appended after the base index taken before; the model's meshes are the walk's meshes, packed; the buffer sizes are the wrapped totals |
| AssimpLoading.MaterialIndexLands | Code/AssimpLoading.h:65 | a submesh's stored material index points at the engine material made from the material the scene gave it |
| Engine.StrLen | Code/engine.cpp:31-33 | `strlen` returns the position of the first NUL, or the whole length |
| Engine.DefinesHaveNoNul | Code/engine.cpp:18-22 | the version string and both stage defines contain no NUL, and neither does the name define for a NUL-free name |
| Engine.ShaderStageSource | Code/engine.cpp:18-47 | each stage has four pieces (version, name define, stage define, program text), and each length is its piece's length |
| Engine.StageSourceCompiles | Code/engine.cpp:24-47 | the source GL sees is the version line, the name define, the stage define and the program text, in that order |
| Engine.StagesDifferOnlyInDefine | Code/engine.cpp:24-29 | vertex and fragment sources share pieces 0, 1 and 3 and differ in piece 2 |
| Engine.LoadProgram | Code/engine.cpp:90-102 | appends one program holding the handle, path, name and timestamp, leaves earlier entries and the other registries unchanged, and returns the new index |
| Engine.LoadProgramConsecutive | Code/engine.cpp:90-102 | two loads return consecutive indices |
| Engine.FindTexture | Code/engine.cpp:155-157 | finds a match exactly when the path is cached, and returns the first matching index |
| Engine.LoadTexture2D | Code/engine.cpp:153-177 | a cached path returns its first index and changes nothing; a successful load appends and returns the old size; a failed load returns `UINT32_MAX` and changes nothing |
| Engine.LoadTextureTwice | Code/engine.cpp:153-177 | loading a path again returns the same index and changes nothing |
| Engine.LoadTexturePreservesUniquePaths | Code/engine.cpp:153-177 | the texture list never holds one path twice |
| Engine.ReloadProgram | Code/engine.cpp:477-483 | a program is unchanged exactly when its file is not newer; otherwise it gets the new handle and the current timestamp; path and name are kept |
| Engine.HotReload | Code/engine.cpp:473-485 | the loop reloads every program in place and changes nothing else in the app |
| Engine.ReloadedPreserves | Code/engine.cpp:473-485 | length, paths and names are kept, timestamps never decrease, and programs that are not newer are untouched |
| Engine.ReloadedIdempotent | Code/engine.cpp:473-485 | a second reload with unchanged files changes nothing |
| Engine.PackUniforms | Code/engine.cpp:382-396 | the world matrix is at bytes 0-64 and the WVP matrix at 64-128; the bytes after 128 are kept; the head ends at 128; range (0, 128) is bound at binding 1 |
| Engine.PackUniformsAsPushes | Code/engine.cpp:382-396 | the two `memcpy`s equal mapping the buffer and pushing the two matrices with `PushMat4` |
| Engine.MatrixPush | Code/BufferManagement.h:143 | at a 16-aligned head, a mat4 push writes its bytes at the head and advances by 64 |
| Engine.MeshDraw | Code/engine.cpp:446-461 | mesh i of a model is drawn with `|indexs|` unsigned-int indices at `indexsOffset` |
| Engine.ObjectDraws | Code/engine.cpp:400-470 | an object issues as many draw calls as `DrawCount` says |
| Engine.ObjectDrawsContents | Code/engine.cpp:407-466 | a quad issues one 6-index unsigned-short draw with its program, VAO and texture; a model issues one unsigned-int draw per mesh with its material's albedo texture |
| Engine.Render | Code/engine.cpp:369-471 | writes the two matrices at bytes 0-64 and 64-128 and keeps every byte after 128, binds the matrices range, and issues exactly the draw calls of the visible objects in order |
| Engine.FailedTextureNotRenderable | Code/engine.cpp:264 | a drawn quad whose texture failed to load holds `UINT32_MAX`, an index outside the texture list |
| Engine.DrawObject | Code/engine.cpp:402-469 | one loop iteration appends that object's draw calls |
| Engine.DrawModel | Code/engine.cpp:440-466 | the mesh loop appends one draw per mesh |
| Engine.DrawCountMatches | Code/engine.cpp:400-470 | the number of draw calls is the sum of the objects' draw counts |
| Engine.DrawCallsAppend | Code/engine.cpp:400-470 | the draws of two object lists back to back are the concatenation of their draws |
| Engine.HiddenObjectDrawsNothing | Code/engine.cpp:403 | setting `draw` to false on one object removes exactly its draw calls |
| RenderTargets.AttachmentNamed | Code/engine.h:111 | a label names an attachment exactly when it is in the table |
| RenderTargets.CurrentRenderTarget | Code/engine.h:115-132 | indices 1-4 select the lighting framebuffer's specular, normals, position and albedo; index 5 selects the depth of the geometry buffer or of the framebuffer, by the flag; every other index selects the final image |
| RenderTargets.SelectionMatchesName | Code/engine.h:111 | every table index selects the attachment its label names |
| RenderTargets.NamesDistinct | Code/engine.h:111 | the six labels name six different attachments |
| RenderTargets.DefaultShowsFinal | Code/engine.h:110-111 | the default index 0 is labelled "FINAL" and shows the final image |
| RenderTargets.OnlyDepthViewUsesFlag | Code/engine.h:119 | toggling `geometryDepth` changes the result exactly for index 5, when the two depth attachments differ |
| RenderTargets.SelectionIsAttachment | Code/engine.h:115-132 | the result is always some attachment of one of the two framebuffers |

## Left out

- GL calls are not modelled: buffer, texture, VAO and framebuffer creation, binding, uploads, blending and draw submission. Their observable inputs (handles) are parameters and their effects are the returned records. `CreateBuffer` (Code/BufferManagement.h:13-25) only creates a GL object.
- Framebuffer creation (Code/BufferManagement.h:75-135) is GL plumbing and not modelled. Its handles are the fields of `RenderTargets.FrameBuffer`.
- `Model::FindVAO` (called at Code/engine.cpp:448) is not part of this model. Its body is not available, so draw calls carry the program handle rather than a VAO for model meshes.
- `ProcessAssimpMaterial` (Code/AssimpLoading.h:89-151) is modelled for its texture loads only. The material's name, colours and shininess are floats and strings read from the importer and are not modelled.
- `ProcessAssimpMaterial` writes fields that Code/Material.h does not declare: `diffuseTex`, `diffuse`, `shininess` and `properties`. The model stores the diffuse texture in `albedoTex`, the field `Render` binds. The `properties` flags are not modelled; the specular block sets the `aiTextureType_EMISSIVE` flag (Code/AssimpLoading.h:122), which looks like a slip for `aiTextureType_SPECULAR`.
- `MakeString`, `MakePath`, `GetDirectoryPart` and `GetFileName` are not part of this model. The imported material carries each texture's path already joined to the model's directory, and the model's name is not kept.
- AssimpLoading.ImportedMesh: the normals channel is always present, with one normal per vertex (`Valid`). The source reads `mNormals[i]` without a null check (Code/AssimpLoading.h:22-24). The uv, tangent and bitangent channels are checked (Code/AssimpLoading.h:26, 33). `aiProcess_SortByPType` (Code/AssimpLoading.h:179) splits point and line primitives into meshes of their own, and `aiProcess_GenSmoothNormals` gives such meshes no normals. So for a model with point or line elements, the source dereferences a null pointer, which is undefined behaviour the model does not describe.
- AssimpLoading.LoadModel: requires the texture list to stay below `UINT32_MAX` entries with five loads per material (`|textures| + 5 * |materials| <= UINT32_MAX`), the bound `Engine.LoadTexture2D` needs.
- AssimpLoading.LoadModel: the image decoder is a function of the path, so the file system does not change during a load, and two textures appended from different paths may share a handle value.
- The Assimp importer, stb image decoding, file reads and file timestamps are not modelled. They are parameters: `Option<Scene>`, `Option<uint32>`, program text and `uint64` timestamps.
- ImGui (`Update`), the glm matrix and vector math, the camera and the lights are not modelled. Matrices are opaque sequences of float bit patterns.
- The model object created by `LoadModel` gets program 0 and texture uniform 0. The source sets those fields afterwards in `App::InitMesh` (Code/engine.cpp:289-292), outside the modelled code.
- `size_t` arithmetic is treated as unbounded. That covers `vertexs.size() * sizeof(float)` before its cast to `u32`, and the indices returned by `LoadProgram`/`LoadTexture2D`. Wrap-around is modelled at every `u32` and `unsigned char` store.
- Engine.ShaderStageSource: requires the program text to fit a `GLint` (`|text| <= GLINT_MAX`). The source casts the length without a check, and a longer file would give GL a negative length.
- Engine.ShaderStageSource: requires a shader name with no NUL whose `#define` line, with its terminator, fits the 128-byte `shaderNameDefine` buffer (Code/engine.cpp:19-20). `sprintf` writes past the buffer for a longer name, which is undefined behaviour the model does not describe.
- Engine.LoadTexture2D: requires at most `UINT32_MAX` textures. The search loop counts with a `u32` (Code/engine.cpp:155), which wraps before it reaches the end of a longer list, so it never ends. At exactly `UINT32_MAX` textures a successful load returns index `UINT32_MAX`, which looks like the failure sentinel; this holds in the source and in the model alike.
- BufferManagement.PushAlignedData: requires the aligned write to fit the buffer. The source has no capacity check, and an overflowing `memcpy` is undefined behaviour that the model does not describe.
- AssimpLoading.MeshLayout uses the corrected `BoundUp`. `AssimpLoading.MeshLayoutMatchesVertex` proves that the as-written `Bound` gives the same layout there, because the stride is always a multiple of 4.
- Engine.Render: the texture uniform and texture bindings are recorded per draw call. The order of the individual GL state calls within one draw is not modelled.
- Engine.Render: requires every drawn object's program, material and texture indices to be in range (`CanRender`). The source does not check them. A failed `LoadTexture2D` stores `UINT32_MAX` as a quad's texture (Code/engine.cpp:264) or a material's texture (Code/AssimpLoading.h:113), and `Render` then indexes `textures` with it (Code/engine.cpp:427, 454), which is undefined behaviour. `Engine.FailedTextureNotRenderable` shows such an app falls outside `CanRender`.

## Findings

| source | as written | input that shows it | evidently intended | confidence | as-written member | corrected member |
|---|---|---|---|---|---|---|
| Code/VertexBufferLayout.h:21 | `ceil(stride / 4)` divides integers before `ceil`, so a stride is rounded down | stride 6 becomes 4 | round the stride up to the next multiple of 4 (6 becomes 8) | not executed | VertexBufferLayout.Bound, VertexBufferLayout.BoundRoundsDown | VertexBufferLayout.BoundUp |
| Code/BufferManagement.h:48-52 | `UnmapBuffer` leaves `buffer.data` set, so the "must be mapped" assert of `PushAlignedData` (line 69) still passes after unmapping | map a buffer, unmap it, then `PushUInt` | unmapping clears the data pointer, so a later push is rejected | not executed | BufferManagement.UnmapBuffer, BufferManagement.PushAfterUnmapAccepted | BufferManagement.UnmapBufferCleared, BufferManagement.PushAfterUnmapRejected |
| Code/BufferManagement.h:142 | `PushMat3` copies the 36 packed bytes of a `mat3`, but std140 places each column of a `mat3` 16 bytes apart | a matrix whose 4th and 5th floats differ: a std140 reader finds the 4th float misplaced in the second column | push three 16-aligned vec3 columns and take 48 bytes in all, so the next member starts 48 bytes after the matrix (section 7.6.2.2 of the OpenGL 4.5 core specification) | not executed | BufferManagement.PushMat3, BufferManagement.PushMat3MisplacesColumns | BufferManagement.PushMat3Std140 |
