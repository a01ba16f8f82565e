/**
 * The engine's CPU-side registries (`App` in Code/engine.h) and the objects
 * they hold. GL names (program, texture, VAO handles) are opaque `u32`s
 * supplied from outside; everything the CPU code computes is kept.
 */
module AppState {
  import opened Bits
  import opened Values
  import opened VertexBufferLayout

  /** `Texture`: the GL handle and the path it was loaded from. */
  datatype Texture = Texture(handle: uint32, filepath: string)

  /** `Program`: the GL handle, source path, `#define` name and the file's last write time when compiled. */
  datatype Program = Program(handle: uint32, filepath: string, programName: string, lastWriteTimestamp: uint64)

  /**
   * `Material`: the indices into `App::textures` of its five textures. A slot
   * the importer leaves unset keeps the 0 that `new Material()` stores; a
   * slot whose image failed to load holds `UINT32_MAX`.
   */
  datatype Material = Material(albedoTex: uint32, specularTex: uint32, emissiveTex: uint32, normalsTex: uint32, bumpTex: uint32)

  /**
   * `Mesh`: its vertex layout, interleaved vertex floats, indices, and the
   * byte offsets of both inside the model's shared vertex and index buffers.
   */
  datatype Mesh = Mesh(layout: Layout, vertexs: seq<Float>, indexs: seq<uint32>, vertexOffset: uint32, indexsOffset: uint32)

  /**
   * The kinds of `Object` (`ObjectType`). A textured quad keeps its VAO's
   * program index and handle and its texture index; a model keeps its meshes
   * and one material index per mesh.
   */
  datatype ObjectKind =
    | EmptyObject
    | TexturedQuad(vaoProgram: uint32, vaoHandle: uint32, texture: uint32)
    | Model(meshes: seq<Mesh>, materials: seq<uint32>)

  /** `Object`: the fields the render loop reads, and its kind. */
  datatype Object = Object(draw: bool, program: uint32, texUniform: uint32, kind: ObjectKind)

  /** The registries of `App`: `textures`, `programs`, `objects` and `materials`, in insertion order. */
  datatype App = App(textures: seq<Texture>, programs: seq<Program>, objects: seq<Object>, materials: seq<Material>)
}
