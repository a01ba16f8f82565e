/**
 * The CPU-side logic of Code/engine.cpp: assembling each shader stage's
 * source from four pieces, the program registry, the texture cache with
 * its `UINT32_MAX` failure sentinel, shader hot-reload, and `Render`'s
 * uniform packing and draw-call dispatch.
 *
 * GL object names, file contents, file timestamps and decoded images come
 * from outside and are parameters: a compiled program's handle, a file's
 * current write time, `Some(handle)` for an image that loaded.
 */
module Engine {
  import opened Bits
  import opened Values
  import opened Results
  import opened BufferManagement
  import opened AppState
  import opened Sequences

  // ---------------------------------------------------------------------------
  // CreateProgramFromSource: the four source pieces of each stage
  // ---------------------------------------------------------------------------

  const VERSION_STRING: string := "#version 430\n"
  const VERTEX_SHADER_DEFINE: string := "#define VERTEX\n"
  const FRAGMENT_SHADER_DEFINE: string := "#define FRAGMENT\n"

  /** `char shaderNameDefine[128]`, the buffer `sprintf` formats the name define into. */
  const SHADER_NAME_DEFINE_CAPACITY: nat := 128

  /** `GLint` is a signed 32-bit integer. */
  const GLINT_MAX: nat := 0x7FFF_FFFF

  datatype Stage = VertexStage | FragmentStage

  predicate NoNul(s: string)
  {
    forall i :: 0 <= i < |s| ==> s[i] != '\0'
  }

  /** `sprintf(shaderNameDefine, "#define %s\n", shaderName)`. */
  function ShaderNameDefine(name: string): string
  {
    "#define " + name + "\n"
  }

  /**
   * What `CreateProgramFromSource` demands of `shaderName`: a C string (no
   * NUL inside) whose define line, with its terminating NUL, fits in the
   * 128-byte buffer.
   */
  predicate ValidShaderName(name: string)
  {
    NoNul(name) && |ShaderNameDefine(name)| + 1 <= SHADER_NAME_DEFINE_CAPACITY
  }

  function StageDefine(stage: Stage): string
  {
    match stage
    case VertexStage => VERTEX_SHADER_DEFINE
    case FragmentStage => FRAGMENT_SHADER_DEFINE
  }

  /** The strings handed to `glShaderSource` for one stage, in order. */
  function StagePieces(text: string, name: string, stage: Stage): (r: seq<string>)
    ensures |r| == 4
  {
    [VERSION_STRING, ShaderNameDefine(name), StageDefine(stage), text]
  }

  /** `strlen`: counts characters up to the first NUL. */
  method StrLen(s: string) returns (n: nat)
    ensures n <= |s|
    ensures n < |s| ==> s[n] == '\0'
    ensures forall i :: 0 <= i < n ==> s[i] != '\0'
  {
    n := 0;
    while n < |s| && s[n] != '\0'
      invariant n <= |s|
      invariant forall i :: 0 <= i < n ==> s[i] != '\0'
    {
      n := n + 1;
    }
  }

  /** The three defines contain no NUL. */
  lemma DefinesHaveNoNul(name: string, stage: Stage)
    requires NoNul(name)
    ensures NoNul(VERSION_STRING) && NoNul(StageDefine(stage)) && NoNul(ShaderNameDefine(name))
  {
    assert NoNul(VERSION_STRING);
    assert NoNul(VERTEX_SHADER_DEFINE) && NoNul(FRAGMENT_SHADER_DEFINE);
    var define := ShaderNameDefine(name);
    forall i | 0 <= i < |define|
      ensures define[i] != '\0'
    {
      if i < 8 {
        assert define[i] == "#define "[i];
      } else if i < 8 + |name| {
        assert define[i] == name[i - 8];
      }
    }
  }

  /**
   * The pieces of one stage and their `GLint` lengths, as the source's arrays
   * hold them: the three defines measured with `strlen`, the program text by
   * its own `len`. Every length is the full length of its piece.
   */
  method ShaderStageSource(text: string, name: string, stage: Stage) returns (pieces: seq<string>, lengths: seq<int>)
    requires ValidShaderName(name) && |text| <= GLINT_MAX
    ensures pieces == StagePieces(text, name, stage)
    ensures |lengths| == 4
    ensures forall k :: 0 <= k < 4 ==> lengths[k] == |pieces[k]|
  {
    DefinesHaveNoNul(name, stage);
    pieces := StagePieces(text, name, stage);
    var versionLength := StrLen(pieces[0]);
    var nameLength := StrLen(pieces[1]);
    var defineLength := StrLen(pieces[2]);
    lengths := [versionLength, nameLength, defineLength, |text|];
  }

  /** The text `glShaderSource` compiles: each piece cut to its length, all concatenated. */
  function Joined(pieces: seq<string>, lengths: seq<int>): string
    requires |pieces| == |lengths|
    requires forall k :: 0 <= k < |pieces| ==> 0 <= lengths[k] <= |pieces[k]|
  {
    if pieces == [] then ""
    else Joined(pieces[..|pieces| - 1], lengths[..|lengths| - 1]) + pieces[|pieces| - 1][..lengths[|lengths| - 1]]
  }

  /**
   * With every length the full length of its piece, each stage compiles the
   * version line, the `#define <name>` line, its stage define and the
   * program text, in that order and nothing else.
   */
  lemma StageSourceCompiles(text: string, name: string, stage: Stage, lengths: seq<int>)
    requires |lengths| == 4
    requires forall k :: 0 <= k < 4 ==> lengths[k] == |StagePieces(text, name, stage)[k]|
    ensures Joined(StagePieces(text, name, stage), lengths) == VERSION_STRING + ShaderNameDefine(name) + StageDefine(stage) + text
  {
    var p := StagePieces(text, name, stage);
    assert lengths[0] == |p[0]| && lengths[1] == |p[1]| && lengths[2] == |p[2]| && lengths[3] == |p[3]|;
    JoinedFour(VERSION_STRING, ShaderNameDefine(name), StageDefine(stage), text, lengths);
  }

  /** Four pieces, each taken whole, join to their concatenation. */
  lemma JoinedFour(a: string, b: string, c: string, d: string, l: seq<int>)
    requires |l| == 4 && l[0] == |a| && l[1] == |b| && l[2] == |c| && l[3] == |d|
    ensures Joined([a, b, c, d], l) == a + b + c + d
  {
    var p := [a, b, c, d];
    assert Joined(p[..1], l[..1]) == a by {
      assert p[..1][..0] == [] && l[..1][..0] == [];
    }
    assert Joined(p[..2], l[..2]) == a + b by {
      assert p[..2][..1] == p[..1] && l[..2][..1] == l[..1];
    }
    assert Joined(p[..3], l[..3]) == a + b + c by {
      assert p[..3][..2] == p[..2] && l[..3][..2] == l[..2];
    }
    assert p[..4] == p && l[..4] == l;
    assert p[3][..l[3]] == d;
  }

  /** The two stages share the version, name and text pieces and differ only in the stage define. */
  lemma StagesDifferOnlyInDefine(text: string, name: string)
    ensures var vertex := StagePieces(text, name, VertexStage);
            var fragment := StagePieces(text, name, FragmentStage);
            && (forall k :: 0 <= k < 4 && k != 2 ==> vertex[k] == fragment[k])
            && vertex[2] == VERTEX_SHADER_DEFINE
            && fragment[2] == FRAGMENT_SHADER_DEFINE
            && vertex[2] != fragment[2]
  {
    assert |VERTEX_SHADER_DEFINE| != |FRAGMENT_SHADER_DEFINE|;
  }

  // ---------------------------------------------------------------------------
  // LoadProgram
  // ---------------------------------------------------------------------------

  /**
   * `LoadProgram`: appends a program holding the compiled handle, the path,
   * the name and the file's write time, and returns `programs.size() - 1`
   * as a `u32`.
   */
  function LoadProgram(app: App, filepath: string, programName: string, handle: uint32, timestamp: uint64): (r: (App, uint32))
    ensures |r.0.programs| == |app.programs| + 1
    ensures r.0.programs[..|app.programs|] == app.programs
    ensures r.0.programs[|app.programs|] == Program(handle, filepath, programName, timestamp)
    ensures r.0.textures == app.textures && r.0.objects == app.objects && r.0.materials == app.materials
    ensures |app.programs| < U32_MODULUS ==> r.1 == |app.programs| && r.0.programs[r.1].filepath == filepath
  {
    var programs := app.programs + [Program(handle, filepath, programName, timestamp)];
    (app.(programs := programs), Wrap32(|programs| - 1))
  }

  /** Two loads in a row get consecutive indices, and the first program stays where it was put. */
  lemma LoadProgramConsecutive(app: App, path1: string, name1: string, path2: string, name2: string,
                               handle1: uint32, handle2: uint32, time1: uint64, time2: uint64)
    requires |app.programs| + 1 < U32_MODULUS
    ensures var (app1, index1) := LoadProgram(app, path1, name1, handle1, time1);
            var (app2, index2) := LoadProgram(app1, path2, name2, handle2, time2);
            && index2 == index1 + 1
            && app2.programs[index1] == Program(handle1, path1, name1, time1)
  {
  }

  // ---------------------------------------------------------------------------
  // LoadTexture2D
  // ---------------------------------------------------------------------------

  predicate HasTexture(textures: seq<Texture>, filepath: string)
  {
    exists k :: 0 <= k < |textures| && textures[k].filepath == filepath
  }

  /** The search loop of `LoadTexture2D`: the first index whose path matches. */
  function FindTexture(textures: seq<Texture>, filepath: string): (r: Option<nat>)
    ensures r.Some? <==> HasTexture(textures, filepath)
    ensures r.Some? ==> r.value < |textures| && textures[r.value].filepath == filepath
    ensures r.Some? ==> forall k :: 0 <= k < r.value ==> textures[k].filepath != filepath
  {
    if textures == [] then None
    else if textures[0].filepath == filepath then Some(0)
    else match FindTexture(textures[1..], filepath)
      case None => None
      case Some(k) => Some(k + 1)
  }

  /**
   * `LoadTexture2D`: a path already in the cache returns its first index and
   * changes nothing. Otherwise, if the image loaded (`image` is the handle
   * made from it) a texture is appended and its index, the old size, is
   * returned; if not, `UINT32_MAX` is returned and nothing changes. The `u32`
   * search loop ends only while the cache holds at most `UINT32_MAX`
   * textures.
   */
  function LoadTexture2D(app: App, filepath: string, image: Option<uint32>): (r: (App, uint32))
    requires |app.textures| <= UINT32_MAX
    ensures r.0.programs == app.programs && r.0.objects == app.objects && r.0.materials == app.materials
    ensures HasTexture(app.textures, filepath) ==>
              && r.0 == app
              && r.1 < |app.textures| && app.textures[r.1].filepath == filepath
              && forall k :: 0 <= k < r.1 ==> app.textures[k].filepath != filepath
    ensures !HasTexture(app.textures, filepath) && image.Some? ==>
              && r.0.textures == app.textures + [Texture(image.value, filepath)]
              && r.1 == |app.textures|
    ensures !HasTexture(app.textures, filepath) && image.None? ==> r.0 == app && r.1 == UINT32_MAX
  {
    match FindTexture(app.textures, filepath)
    case Some(k) => (app, k)
    case None =>
      if image.Some? then
        (app.(textures := app.textures + [Texture(image.value, filepath)]), |app.textures|)
      else
        (app, UINT32_MAX)
  }

  /** Loading a path a second time returns the same index and changes nothing, whatever the image. */
  lemma LoadTextureTwice(app: App, filepath: string, image1: Option<uint32>, image2: Option<uint32>)
    requires |app.textures| < UINT32_MAX
    ensures var (app1, index1) := LoadTexture2D(app, filepath, image1);
            index1 != UINT32_MAX ==> LoadTexture2D(app1, filepath, image2) == (app1, index1)
  {
    var (app1, index1) := LoadTexture2D(app, filepath, image1);
    if index1 != UINT32_MAX {
      assert app1.textures[index1].filepath == filepath;
    }
  }

  predicate UniquePaths(textures: seq<Texture>)
  {
    forall i, j :: 0 <= i < j < |textures| ==> textures[i].filepath != textures[j].filepath
  }

  /** The cache never holds two textures with the same path. */
  lemma LoadTexturePreservesUniquePaths(app: App, filepath: string, image: Option<uint32>)
    requires |app.textures| <= UINT32_MAX && UniquePaths(app.textures)
    ensures UniquePaths(LoadTexture2D(app, filepath, image).0.textures)
  {
  }

  // ---------------------------------------------------------------------------
  // App::HotReload
  // ---------------------------------------------------------------------------

  /**
   * One iteration of `HotReload`: a program whose file is not newer than its
   * stored write time is left alone; otherwise it gets the newly compiled
   * handle and the file's current write time.
   */
  function ReloadProgram(p: Program, currentTimestamp: uint64, newHandle: uint32): (r: Program)
    ensures r.filepath == p.filepath && r.programName == p.programName
    ensures r == p <==> currentTimestamp <= p.lastWriteTimestamp
    ensures r.lastWriteTimestamp == if currentTimestamp <= p.lastWriteTimestamp then p.lastWriteTimestamp else currentTimestamp
    ensures currentTimestamp > p.lastWriteTimestamp ==> r.handle == newHandle
  {
    if currentTimestamp <= p.lastWriteTimestamp then p
    else p.(handle := newHandle, lastWriteTimestamp := currentTimestamp)
  }

  /** Every program reloaded against the current write time of its file. */
  function Reloaded(programs: seq<Program>, currentTimestamps: seq<uint64>, newHandles: seq<uint32>): (r: seq<Program>)
    requires |currentTimestamps| == |programs| == |newHandles|
    ensures |r| == |programs|
  {
    seq(|programs|, k requires 0 <= k < |programs| => ReloadProgram(programs[k], currentTimestamps[k], newHandles[k]))
  }

  /**
   * `App::HotReload`: walks the programs in order, reloading each in place.
   * `currentTimestamps[k]` is the write time of program `k`'s file and
   * `newHandles[k]` the handle compiling it would give.
   */
  method HotReload(app: App, currentTimestamps: seq<uint64>, newHandles: seq<uint32>) returns (r: App)
    requires |currentTimestamps| == |app.programs| == |newHandles|
    ensures r == app.(programs := Reloaded(app.programs, currentTimestamps, newHandles))
  {
    var programs := app.programs;
    var k := 0;
    while k < |programs|
      invariant 0 <= k <= |programs| && |programs| == |app.programs|
      invariant forall j :: 0 <= j < k ==> programs[j] == ReloadProgram(app.programs[j], currentTimestamps[j], newHandles[j])
      invariant forall j :: k <= j < |programs| ==> programs[j] == app.programs[j]
    {
      var p := programs[k];
      if currentTimestamps[k] > p.lastWriteTimestamp {
        p := p.(handle := newHandles[k], lastWriteTimestamp := currentTimestamps[k]);
      }
      programs := programs[k := p];
      k := k + 1;
    }
    r := app.(programs := programs);
  }

  /**
   * Hot-reload keeps the list's length, order, paths and names, never moves
   * a write time backwards, and leaves up-to-date programs untouched.
   */
  lemma ReloadedPreserves(programs: seq<Program>, currentTimestamps: seq<uint64>, newHandles: seq<uint32>, k: nat)
    requires |currentTimestamps| == |programs| == |newHandles| && k < |programs|
    ensures var r := Reloaded(programs, currentTimestamps, newHandles);
            && |r| == |programs|
            && r[k].filepath == programs[k].filepath && r[k].programName == programs[k].programName
            && r[k].lastWriteTimestamp >= programs[k].lastWriteTimestamp
            && r[k].lastWriteTimestamp >= currentTimestamps[k]
            && (currentTimestamps[k] <= programs[k].lastWriteTimestamp ==> r[k] == programs[k])
  {
  }

  /** A second reload with the files unchanged changes nothing, whatever handles it would compile. */
  lemma ReloadedIdempotent(programs: seq<Program>, currentTimestamps: seq<uint64>, handles1: seq<uint32>, handles2: seq<uint32>)
    requires |currentTimestamps| == |programs| == |handles1| == |handles2|
    ensures var once := Reloaded(programs, currentTimestamps, handles1);
            Reloaded(once, currentTimestamps, handles2) == once
  {
  }

  // ---------------------------------------------------------------------------
  // Render: the per-frame uniform block
  // ---------------------------------------------------------------------------

  /** The uniform block binding point the shaders read the two matrices from. */
  const MATRICES_BINDING: uint32 := 1

  /** `sizeof(glm::mat4) * 2`. */
  const MATRICES_BLOCK_SIZE: uint32 := 128

  /**
   * The start of `Render`: the world matrix is copied to offset 0 of the
   * mapped uniform buffer and the world-view-projection matrix right after
   * it, the local head ends at 128, and `[0, 128)` is bound to binding 1.
   * The buffer must hold 128 bytes, as `memcpy` does not check.
   */
  function PackUniforms(uniformBuffer: Buffer, world: Mat4, worldViewProjection: Mat4): (r: (seq<byte>, uint32, RangeBinding))
    requires |uniformBuffer.bytes| >= MATRICES_BLOCK_SIZE
    ensures |r.0| == |uniformBuffer.bytes|
    ensures r.0[0 .. SIZE_OF_MAT4] == FloatsBytes(world)
    ensures r.0[SIZE_OF_MAT4 .. 2 * SIZE_OF_MAT4] == FloatsBytes(worldViewProjection)
    ensures r.0[MATRICES_BLOCK_SIZE..] == uniformBuffer.bytes[MATRICES_BLOCK_SIZE..]
    ensures r.1 == MATRICES_BLOCK_SIZE
    ensures r.2 == RangeBinding(UniformBuffer, MATRICES_BINDING, uniformBuffer.handle, 0, MATRICES_BLOCK_SIZE)
  {
    var head := 0;
    var bytes := Write(uniformBuffer.bytes, head, FloatsBytes(world));
    var head := head + SIZE_OF_MAT4;
    var bytes' := Write(bytes, head, FloatsBytes(worldViewProjection));
    WriteKeepsBefore(bytes, head, FloatsBytes(worldViewProjection), 0, SIZE_OF_MAT4);
    var head := head + SIZE_OF_MAT4;
    var blockOffset := 0;
    (bytes', head, RangeBinding(UniformBuffer, MATRICES_BINDING, uniformBuffer.handle, blockOffset, 2 * SIZE_OF_MAT4))
  }

  /**
   * The hand-written copies land where the std140 writer would put them:
   * mapping the buffer and pushing the two matrices with `PushMat4` yields
   * the same bytes and the same head.
   */
  lemma PackUniformsAsPushes(b: Buffer, world: Mat4, worldViewProjection: Mat4)
    requires b.Valid() && |b.bytes| >= MATRICES_BLOCK_SIZE
    ensures HasRoom(MapBuffer(b, true), SIZE_OF_MAT4, VEC4_ALIGNMENT)
    ensures var first := PushMat4(MapBuffer(b, true), world);
            && first.Success?
            && HasRoom(first.value, SIZE_OF_MAT4, VEC4_ALIGNMENT)
            && var second := PushMat4(first.value, worldViewProjection);
               && second.Success?
               && second.value.bytes == PackUniforms(b, world, worldViewProjection).0
               && second.value.head == PackUniforms(b, world, worldViewProjection).1
  {
    var first := MatrixPush(MapBuffer(b, true), world);
    var second := MatrixPush(first, worldViewProjection);
    assert PackUniforms(b, world, worldViewProjection).0
           == Write(Write(b.bytes, 0, FloatsBytes(world)), SIZE_OF_MAT4, FloatsBytes(worldViewProjection));
  }

  /** One `PushMat4` from a head that is already 16-aligned: the matrix lands at the head. */
  lemma MatrixPush(b: Buffer, m: Mat4) returns (r: Buffer)
    requires b.Valid() && b.mapped && b.head % 16 == 0 && b.head + SIZE_OF_MAT4 <= |b.bytes|
    ensures HasRoom(b, SIZE_OF_MAT4, VEC4_ALIGNMENT)
    ensures PushMat4(b, m) == Success(r)
    ensures r.Valid() && r.mapped && r.head == b.head + SIZE_OF_MAT4 && |r.bytes| == |b.bytes|
    ensures r.bytes == Write(b.bytes, b.head, FloatsBytes(m))
  {
    PowersOf2InUse();
    AlignOfMultiple(b.head, VEC4_ALIGNMENT);
    r := PushMat4(b, m).value;
  }

  // ---------------------------------------------------------------------------
  // Render: the draw calls
  // ---------------------------------------------------------------------------

  /** The index type passed to `glDrawElements`. */
  datatype IndexType = UnsignedShort | UnsignedInt

  /**
   * One `glDrawElements` with the state bound for it: the program's handle,
   * the vertex array (`None` where the model's VAO lookup, not part of this
   * model, picks it), the albedo texture's handle on unit 0, the sampler
   * uniform set to 0, and the index count, type and byte offset.
   */
  datatype DrawCall = DrawCall(
    program: uint32,
    vertexArray: Option<uint32>,
    texture: uint32,
    texUniform: uint32,
    count: nat,
    indexType: IndexType,
    byteOffset: nat)

  /** The indices `Render` dereferences for a drawn object are in range. */
  predicate Renderable(app: App, o: Object)
  {
    o.draw ==>
      match o.kind
      case EmptyObject => true
      case TexturedQuad(vaoProgram, _, texture) => vaoProgram < |app.programs| && texture < |app.textures|
      case Model(meshes, materials) =>
        && o.program < |app.programs|
        && |meshes| < U32_MODULUS
        && |materials| >= |meshes|
        && forall i :: 0 <= i < |meshes| ==>
             materials[i] < |app.materials| && app.materials[materials[i]].albedoTex < |app.textures|
  }

  predicate CanRender(app: App, objects: seq<Object>)
  {
    forall o :: o in objects ==> Renderable(app, o)
  }

  /**
   * A drawn textured quad whose `LoadTexture2D` failed holds the `UINT32_MAX`
   * sentinel, which is past the end of any texture list `LoadTexture2D`
   * accepts: `Render` would index `textures` out of range, so such an app is
   * outside what `Render` is defined on.
   */
  lemma FailedTextureNotRenderable(app: App, filepath: string, o: Object)
    requires |app.textures| <= UINT32_MAX && !HasTexture(app.textures, filepath)
    requires o.draw && o.kind.TexturedQuad? && o.kind.texture == LoadTexture2D(app, filepath, None).1
    ensures !Renderable(LoadTexture2D(app, filepath, None).0, o)
  {
  }

  /** How many draws an object contributes: none if hidden, one for a quad, one per mesh for a model. */
  function DrawCount(o: Object): nat
  {
    if !o.draw then 0
    else match o.kind
      case EmptyObject => 0
      case TexturedQuad(_, _, _) => 1
      case Model(meshes, _) => |meshes|
  }

  /** The draw a model issues for mesh `i`. */
  function MeshDraw(app: App, o: Object, i: nat): (r: DrawCall)
    requires o.kind.Model? && Renderable(app, o) && o.draw && i < |o.kind.meshes|
    ensures r.count == |o.kind.meshes[i].indexs| && r.byteOffset == o.kind.meshes[i].indexsOffset
    ensures r.indexType == UnsignedInt
  {
    var material := app.materials[o.kind.materials[i]];
    DrawCall(app.programs[o.program].handle, None, app.textures[material.albedoTex].handle, o.texUniform,
             |o.kind.meshes[i].indexs|, UnsignedInt, o.kind.meshes[i].indexsOffset)
  }

  /** The draws one iteration of `Render`'s object loop issues. */
  function ObjectDraws(app: App, o: Object): (r: seq<DrawCall>)
    requires Renderable(app, o)
    ensures |r| == DrawCount(o)
  {
    if !o.draw then []
    else match o.kind
      case EmptyObject => []
      case TexturedQuad(vaoProgram, vaoHandle, texture) =>
        [DrawCall(app.programs[vaoProgram].handle, Some(vaoHandle), app.textures[texture].handle, o.texUniform, 6, UnsignedShort, 0)]
      case Model(meshes, _) =>
        seq(|meshes|, i requires 0 <= i < |meshes| => MeshDraw(app, o, i))
  }

  /**
   * A textured quad draws 6 `unsigned short` indices from offset 0 with its
   * VAO's program and its own texture; a model draws each mesh in order with
   * the model's program, the albedo texture of that mesh's material, and
   * `|indexs|` indices of type `unsigned int` from `indexsOffset`.
   */
  lemma ObjectDrawsContents(app: App, o: Object, i: nat)
    requires Renderable(app, o) && o.draw && i < DrawCount(o)
    ensures o.kind.TexturedQuad? ==>
              ObjectDraws(app, o)[i] == DrawCall(app.programs[o.kind.vaoProgram].handle, Some(o.kind.vaoHandle),
                                                 app.textures[o.kind.texture].handle, o.texUniform, 6, UnsignedShort, 0)
    ensures o.kind.Model? ==>
              var d := ObjectDraws(app, o)[i];
              && d.program == app.programs[o.program].handle
              && d.texture == app.textures[app.materials[o.kind.materials[i]].albedoTex].handle
              && d.texUniform == o.texUniform
              && d.count == |o.kind.meshes[i].indexs|
              && d.indexType == UnsignedInt
              && d.byteOffset == o.kind.meshes[i].indexsOffset
  {
  }

  /** The draws of a run of objects, in order. */
  function DrawCalls(app: App, objects: seq<Object>): seq<DrawCall>
    requires CanRender(app, objects)
  {
    if objects == [] then []
    else DrawCalls(app, objects[..|objects| - 1]) + ObjectDraws(app, objects[|objects| - 1])
  }

  /** The total number of draws of a run of objects. */
  function TotalDrawCount(objects: seq<Object>): nat
  {
    if objects == [] then 0 else TotalDrawCount(objects[..|objects| - 1]) + DrawCount(objects[|objects| - 1])
  }

  /**
   * `Render`: packs the matrices, then walks the objects in order, skipping
   * hidden ones, and issues each object's draws.
   */
  method Render(app: App, uniformBuffer: Buffer, world: Mat4, worldViewProjection: Mat4)
    returns (uniforms: seq<byte>, range: RangeBinding, draws: seq<DrawCall>)
    requires |uniformBuffer.bytes| >= MATRICES_BLOCK_SIZE
    requires CanRender(app, app.objects)
    ensures |uniforms| == |uniformBuffer.bytes|
    ensures uniforms[0 .. SIZE_OF_MAT4] == FloatsBytes(world)
    ensures uniforms[SIZE_OF_MAT4 .. 2 * SIZE_OF_MAT4] == FloatsBytes(worldViewProjection)
    ensures uniforms[MATRICES_BLOCK_SIZE..] == uniformBuffer.bytes[MATRICES_BLOCK_SIZE..]
    ensures range == RangeBinding(UniformBuffer, MATRICES_BINDING, uniformBuffer.handle, 0, MATRICES_BLOCK_SIZE)
    ensures draws == DrawCalls(app, app.objects)
    ensures |draws| == TotalDrawCount(app.objects)
  {
    var packed := PackUniforms(uniformBuffer, world, worldViewProjection);
    uniforms, range := packed.0, packed.2;
    draws := [];
    var j := 0;
    while j < |app.objects|
      invariant 0 <= j <= |app.objects|
      invariant CanRender(app, app.objects[..j])
      invariant draws == DrawCalls(app, app.objects[..j])
    {
      var o := app.objects[j];
      assert Renderable(app, o);
      ghost var before := draws;
      draws := DrawObject(app, o, draws);
      RenderStep(app, app.objects, j, before, draws);
      j := j + 1;
    }
    assert app.objects[..j] == app.objects;
    DrawCountMatches(app, app.objects);
  }

  /** The body of the object loop: nothing for a hidden object, then dispatch on its kind. */
  method DrawObject(app: App, o: Object, drawsIn: seq<DrawCall>) returns (draws: seq<DrawCall>)
    requires Renderable(app, o)
    ensures draws == drawsIn + ObjectDraws(app, o)
  {
    draws := drawsIn;
    if o.draw {
      match o.kind {
        case TexturedQuad(vaoProgram, vaoHandle, texture) =>
          draws := draws + [DrawCall(app.programs[vaoProgram].handle, Some(vaoHandle), app.textures[texture].handle,
                                     o.texUniform, 6, UnsignedShort, 0)];
        case Model(meshes, materials) =>
          draws := DrawModel(app, o, draws);
        case EmptyObject =>
      }
    }
  }

  /** One iteration of the object loop extends the draws by that object's draws. */
  lemma RenderStep(app: App, objects: seq<Object>, j: nat, before: seq<DrawCall>, after: seq<DrawCall>)
    requires CanRender(app, objects) && j < |objects|
    requires CanRender(app, objects[..j]) && before == DrawCalls(app, objects[..j])
    requires after == before + ObjectDraws(app, objects[j])
    ensures CanRender(app, objects[..j + 1]) && after == DrawCalls(app, objects[..j + 1])
  {
    assert objects[..j + 1][..j] == objects[..j];
  }

  /** The inner loop of the model case: one draw per mesh, in mesh order. */
  method DrawModel(app: App, o: Object, drawsIn: seq<DrawCall>) returns (draws: seq<DrawCall>)
    requires o.kind.Model? && o.draw && Renderable(app, o)
    ensures draws == drawsIn + ObjectDraws(app, o)
  {
    var meshes := o.kind.meshes;
    draws := drawsIn;
    var i := 0;
    while i < |meshes|
      invariant 0 <= i <= |meshes|
      invariant draws == drawsIn + ObjectDraws(app, o)[..i]
    {
      var material := app.materials[o.kind.materials[i]];
      var mesh := meshes[i];
      draws := draws + [DrawCall(app.programs[o.program].handle, None, app.textures[material.albedoTex].handle,
                                 o.texUniform, |mesh.indexs|, UnsignedInt, mesh.indexsOffset)];
      assert ObjectDraws(app, o)[..i + 1] == ObjectDraws(app, o)[..i] + [MeshDraw(app, o, i)];
      i := i + 1;
    }
    assert ObjectDraws(app, o)[..i] == ObjectDraws(app, o);
  }

  lemma {:induction false} DrawCountMatches(app: App, objects: seq<Object>)
    requires CanRender(app, objects)
    ensures |DrawCalls(app, objects)| == TotalDrawCount(objects)
  {
    if objects != [] {
      DrawCountMatches(app, objects[..|objects| - 1]);
    }
  }

  lemma CanRenderAppend(app: App, a: seq<Object>, b: seq<Object>)
    requires CanRender(app, a) && CanRender(app, b)
    ensures CanRender(app, a + b)
  {
    var ab := a + b;
    forall j | 0 <= j < |ab|
      ensures Renderable(app, ab[j])
    {
      if j < |a| {
        assert ab[j] == a[j];
      } else {
        assert ab[j] == b[j - |a|];
      }
    }
  }

  /** The draws of two runs of objects are the draws of each, one after the other. */
  lemma {:induction false} DrawCallsAppend(app: App, a: seq<Object>, b: seq<Object>)
    requires CanRender(app, a) && CanRender(app, b)
    ensures CanRender(app, a + b)
    ensures DrawCalls(app, a + b) == DrawCalls(app, a) + DrawCalls(app, b)
    decreases |b|
  {
    CanRenderAppend(app, a, b);
    if b == [] {
      assert a + b == a;
    } else {
      var init := b[..|b| - 1];
      DrawCallsStep(app, a, b);
      DrawCallsAppend(app, a, init);
      ConcatAssociates(DrawCalls(app, a), DrawCalls(app, init), ObjectDraws(app, b[|b| - 1]));
    }
  }

  /** Unfolding `DrawCalls` once at the end of `a + b`. */
  lemma DrawCallsStep(app: App, a: seq<Object>, b: seq<Object>)
    requires CanRender(app, a + b) && CanRender(app, a) && CanRender(app, b) && b != []
    ensures CanRender(app, b[..|b| - 1]) && CanRender(app, a + b[..|b| - 1])
    ensures DrawCalls(app, a + b) == DrawCalls(app, a + b[..|b| - 1]) + ObjectDraws(app, b[|b| - 1])
    ensures DrawCalls(app, b) == DrawCalls(app, b[..|b| - 1]) + ObjectDraws(app, b[|b| - 1])
  {
    AppendDropLast(a, b);
  }

  /** Hiding an object removes exactly its draws and keeps every other draw in order. */
  lemma HiddenObjectDrawsNothing(app: App, objects: seq<Object>, j: nat)
    requires CanRender(app, objects) && j < |objects|
    ensures CanRender(app, objects[j := objects[j].(draw := false)])
    ensures DrawCalls(app, objects[j := objects[j].(draw := false)])
            == DrawCalls(app, objects[..j]) + DrawCalls(app, objects[j + 1..])
  {
    var x := objects[j].(draw := false);
    var before, after := objects[..j], objects[j + 1..];
    UpdateSplits(objects, j, x);
    CanRenderSlices(app, objects, j);
    DrawCallsAroundHidden(app, before, x, after);
  }

  lemma DrawCallsAroundHidden(app: App, before: seq<Object>, x: Object, after: seq<Object>)
    requires CanRender(app, before) && CanRender(app, after) && !x.draw
    ensures CanRender(app, before + [x] + after)
    ensures DrawCalls(app, before + [x] + after) == DrawCalls(app, before) + DrawCalls(app, after)
  {
    var withX := before + [x];
    HiddenDrawsNothing(app, x);
    DrawCallsAppend(app, before, [x]);
    DrawCallsAppend(app, withX, after);
    DropEmptyMiddle(DrawCalls(app, before), DrawCalls(app, [x]), DrawCalls(app, after),
                    DrawCalls(app, withX), DrawCalls(app, withX + after));
  }

  lemma CanRenderSlices(app: App, objects: seq<Object>, j: nat)
    requires CanRender(app, objects) && j < |objects|
    ensures CanRender(app, objects[..j]) && CanRender(app, objects[j + 1..])
  {
    assert forall o :: o in objects[..j] ==> o in objects;
    assert forall o :: o in objects[j + 1..] ==> o in objects;
  }

  /** A hidden object is renderable and draws nothing. */
  lemma HiddenDrawsNothing(app: App, x: Object)
    requires !x.draw
    ensures CanRender(app, [x]) && DrawCalls(app, [x]) == []
  {
    assert [x][..0] == [];
  }

}
