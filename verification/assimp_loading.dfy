/**
 * Turning an imported scene into a `Model` (Code/AssimpLoading.h): each
 * submesh's vertices are interleaved into one float array, its faces are
 * concatenated into one index list, a vertex layout is chosen from the
 * channels present, the scene tree is walked in pre-order, and the
 * submeshes are packed back to back into one vertex and one index buffer.
 *
 * Assimp itself is abstracted as the `Scene` datatype: what `aiImportFile`
 * returns (or `None` for a failed import).
 */
module AssimpLoading {
  import opened Bits
  import opened Values
  import opened Results
  import opened VertexBufferLayout
  import opened AppState
  import opened Sequences
  import Engine

  // ---------------------------------------------------------------------------
  // The imported scene
  // ---------------------------------------------------------------------------

  /**
   * An `aiMesh`, restricted to what `ProcessAssimpMesh` reads: positions and
   * normals for `mNumVertices` vertices, the x and y of the first texture
   * coordinate channel, tangents and bitangents (each channel possibly
   * absent), the faces' index lists and the material index. The normals
   * are always present, because the source reads them without a check.
   */
  datatype ImportedMesh = ImportedMesh(
    positions: seq<Vec3>,
    normals: seq<Vec3>,
    texCoords: Option<seq<Vec2>>,
    tangents: Option<seq<Vec3>>,
    bitangents: Option<seq<Vec3>>,
    faces: seq<seq<uint32>>,
    materialIndex: uint32)
  {
    /** Every channel that is present has one entry per vertex. */
    predicate Valid()
    {
      && |normals| == |positions|
      && (texCoords.Some? ==> |texCoords.value| == |positions|)
      && (tangents.Some? ==> |tangents.value| == |positions|)
      && (bitangents.Some? ==> |bitangents.value| == |positions|)
    }
  }

  /** An `aiNode`: indices into the scene's meshes, and child nodes in order. */
  datatype Node = Node(meshes: seq<uint32>, children: seq<Node>)

  /**
   * An `aiMaterial`, restricted to the textures `ProcessAssimpMaterial`
   * loads: for each of the diffuse, specular, emissive, normals and height
   * types, the path of its first texture (already joined to the model's
   * directory), or `None` when the material has no texture of that type.
   */
  datatype ImportedMaterial = ImportedMaterial(
    diffuse: Option<string>,
    specular: Option<string>,
    emissive: Option<string>,
    normals: Option<string>,
    height: Option<string>)

  /** An `aiScene`: its meshes, its materials and the root node. */
  datatype Scene = Scene(meshes: seq<ImportedMesh>, materials: seq<ImportedMaterial>, root: Node)

  predicate MeshesValid(scene: Scene)
  {
    forall k :: 0 <= k < |scene.meshes| ==> scene.meshes[k].Valid()
  }

  /** Every mesh index in the tree below `node` names one of the scene's meshes. */
  predicate NodeValid(scene: Scene, node: Node)
    decreases node
  {
    && IndicesIn(scene, node.meshes)
    && (forall c :: 0 <= c < |node.children| ==> NodeValid(scene, node.children[c]))
  }

  /** Every index in `order` names one of the scene's meshes. */
  predicate IndicesIn(scene: Scene, order: seq<uint32>)
  {
    forall k :: 0 <= k < |order| ==> order[k] < |scene.meshes|
  }

  predicate SceneValid(scene: Scene)
  {
    MeshesValid(scene) && NodeValid(scene, scene.root)
  }

  // ---------------------------------------------------------------------------
  // ProcessAssimpMesh: vertices
  // ---------------------------------------------------------------------------

  /** `hasTexCoords`: set inside the vertex loop, so a mesh without vertices never sets it. */
  predicate HasTexCoords(m: ImportedMesh)
  {
    m.texCoords.Some? && |m.positions| > 0
  }

  /** `hasTangentSpace`: both tangents and bitangents present, and at least one vertex. */
  predicate HasTangentSpace(m: ImportedMesh)
  {
    m.tangents.Some? && m.bitangents.Some? && |m.positions| > 0
  }

  /** The floats emitted per vertex: position and normal, then uv, then tangent and bitangent. */
  function FloatsPerVertex(m: ImportedMesh): nat
  {
    6 + (if HasTexCoords(m) then 2 else 0) + (if HasTangentSpace(m) then 6 else 0)
  }

  /** Where the tangent starts within a vertex: after position, normal and (if present) uv. */
  function TangentStart(m: ImportedMesh): nat
  {
    6 + (if HasTexCoords(m) then 2 else 0)
  }

  function NegateAll(v: Vec3): (r: Vec3)
    ensures forall c :: 0 <= c < 3 ==> r[c] == Negate(v[c])
  {
    [Negate(v[0]), Negate(v[1]), Negate(v[2])]
  }

  /** The floats one iteration of the vertex loop appends for vertex `i`. */
  function VertexFloats(m: ImportedMesh, i: nat): (r: seq<Float>)
    requires m.Valid() && i < |m.positions|
    ensures |r| == FloatsPerVertex(m)
  {
    var position: seq<Float> := m.positions[i];
    var uv: seq<Float> := if m.texCoords.Some? then m.texCoords.value[i] else [];
    var tangentSpace: seq<Float> :=
      if m.tangents.Some? && m.bitangents.Some? then m.tangents.value[i] + NegateAll(m.bitangents.value[i]) else [];
    position + m.normals[i] + uv + tangentSpace
  }

  /**
   * Where each channel sits inside one vertex: position at 0, normal at 3, uv
   * at 6, and the tangent followed by the NEGATED bitangent after them.
   */
  lemma VertexChannels(m: ImportedMesh, i: nat)
    requires m.Valid() && i < |m.positions|
    ensures var v := VertexFloats(m, i);
            && v[0..3] == m.positions[i]
            && v[3..6] == m.normals[i]
            && (HasTexCoords(m) ==> v[6..8] == m.texCoords.value[i])
            && (HasTangentSpace(m) ==>
                  && v[TangentStart(m) .. TangentStart(m) + 3] == m.tangents.value[i]
                  && forall c :: 0 <= c < 3 ==> v[TangentStart(m) + 3 + c] == Negate(m.bitangents.value[i][c]))
  {
  }

  /** The vertex array after the first `n` iterations of the vertex loop. */
  function Interleave(m: ImportedMesh, n: nat): (r: seq<Float>)
    requires m.Valid() && n <= |m.positions|
  {
    if n == 0 then [] else Interleave(m, n - 1) + VertexFloats(m, n - 1)
  }

  lemma {:induction false} InterleaveLength(m: ImportedMesh, n: nat)
    requires m.Valid() && n <= |m.positions|
    ensures |Interleave(m, n)| == n * FloatsPerVertex(m)
  {
    if n > 0 {
      InterleaveLength(m, n - 1);
      MulStep(n - 1, FloatsPerVertex(m));
    }
  }

  lemma MulStep(n: nat, k: nat)
    ensures n * k + k == (n + 1) * k
  {
  }

  lemma MulMonotoneLeft(i: nat, n: nat, k: nat)
    requires i < n
    ensures i * k + k <= n * k
  {
    MulStep(i, k);
    var d := n - (i + 1);
    assert n * k == (i + 1) * k + d * k;
  }

  /** Vertex `i` occupies floats `i * k .. i * k + k`, where `k` is the number of floats per vertex. */
  lemma {:induction false} InterleaveAt(m: ImportedMesh, n: nat, i: nat)
    requires m.Valid() && i < n <= |m.positions|
    ensures var k := FloatsPerVertex(m);
            |Interleave(m, n)| == n * k && Interleave(m, n)[i * k .. i * k + k] == VertexFloats(m, i)
  {
    var k := FloatsPerVertex(m);
    var previous, last := Interleave(m, n - 1), VertexFloats(m, n - 1);
    assert Interleave(m, n) == previous + last;
    InterleaveLength(m, n);
    InterleaveLength(m, n - 1);
    if i < n - 1 {
      InterleaveAt(m, n - 1, i);
      MulMonotoneLeft(i, n - 1, k);
      SliceOfFront(previous, last, i * k, i * k + k);
    } else {
      SliceOfBack(previous, last);
    }
  }

  /** Every vertex in its own slot of the full interleaved array. */
  lemma InterleaveSlots(m: ImportedMesh)
    requires m.Valid()
    ensures var k := FloatsPerVertex(m);
            && |Interleave(m, |m.positions|)| == |m.positions| * k
            && forall i :: 0 <= i < |m.positions| ==> Interleave(m, |m.positions|)[i * k .. i * k + k] == VertexFloats(m, i)
  {
    var k, n := FloatsPerVertex(m), |m.positions|;
    var whole := Interleave(m, n);
    InterleaveLength(m, n);
    assert |whole| == n * k;
    forall i | 0 <= i < n
      ensures i * k + k <= |whole| && whole[i * k .. i * k + k] == VertexFloats(m, i)
    {
      InterleaveAt(m, n, i);
      MulMonotoneLeft(i, n, k);
    }
  }

  /**
   * The vertex loop of `ProcessAssimpMesh`: `mNumVertices` iterations, each
   * appending one vertex's floats.
   */
  method ProcessVertices(m: ImportedMesh) returns (vertices: seq<Float>)
    requires m.Valid()
    ensures |vertices| == |m.positions| * FloatsPerVertex(m)
    ensures forall i :: 0 <= i < |m.positions| ==>
              vertices[i * FloatsPerVertex(m) .. i * FloatsPerVertex(m) + FloatsPerVertex(m)] == VertexFloats(m, i)
  {
    vertices := [];
    var i := 0;
    while i < |m.positions|
      invariant 0 <= i <= |m.positions|
      invariant vertices == Interleave(m, i)
    {
      var vertex: seq<Float> := m.positions[i];
      vertex := vertex + m.normals[i];
      if m.texCoords.Some? {
        vertex := vertex + m.texCoords.value[i];
      }
      if m.tangents.Some? && m.bitangents.Some? {
        vertex := vertex + m.tangents.value[i];
        vertex := vertex + NegateAll(m.bitangents.value[i]);
      }
      assert vertex == VertexFloats(m, i);
      vertices := vertices + vertex;
      i := i + 1;
    }
    InterleaveSlots(m);
  }

  // ---------------------------------------------------------------------------
  // ProcessAssimpMesh: indices
  // ---------------------------------------------------------------------------

  /** The faces' index lists, concatenated in face order. */
  function Flatten(faces: seq<seq<uint32>>): seq<uint32>
  {
    if faces == [] then [] else Flatten(faces[..|faces| - 1]) + faces[|faces| - 1]
  }

  lemma {:induction false} FlattenAppend(a: seq<seq<uint32>>, b: seq<seq<uint32>>)
    ensures Flatten(a + b) == Flatten(a) + Flatten(b)
    decreases |b|
  {
    if b == [] {
      assert a + b == a;
    } else {
      AppendDropLast(a, b);
      FlattenAppend(a, b[..|b| - 1]);
      ConcatAssociates(Flatten(a), Flatten(b[..|b| - 1]), b[|b| - 1]);
    }
  }

  /** With every face a triangle (`aiProcess_Triangulate`), face `f` is indices `3f .. 3f + 3`. */
  lemma {:induction false} FlattenTriangles(faces: seq<seq<uint32>>, f: nat)
    requires forall g :: 0 <= g < |faces| ==> |faces[g]| == 3
    requires f < |faces|
    ensures |Flatten(faces)| == 3 * |faces|
    ensures Flatten(faces)[3 * f .. 3 * f + 3] == faces[f]
  {
    var init := faces[..|faces| - 1];
    if f < |faces| - 1 {
      FlattenTriangles(init, f);
    } else if init != [] {
      FlattenTriangles(init, 0);
    }
  }

  /** The index loops of `ProcessAssimpMesh`: every face's indices, in order. */
  method ProcessIndices(faces: seq<seq<uint32>>) returns (indices: seq<uint32>)
    ensures indices == Flatten(faces)
  {
    indices := [];
    var i := 0;
    while i < |faces|
      invariant 0 <= i <= |faces|
      invariant indices == Flatten(faces[..i])
    {
      var face := faces[i];
      var j := 0;
      while j < |face|
        invariant 0 <= j <= |face|
        invariant indices == Flatten(faces[..i]) + face[..j]
      {
        indices := indices + [face[j]];
        j := j + 1;
      }
      assert faces[..i + 1][..i] == faces[..i];
      i := i + 1;
    }
    assert faces[..|faces|] == faces;
  }

  // ---------------------------------------------------------------------------
  // ProcessAssimpMesh: layout and result
  // ---------------------------------------------------------------------------

  /**
   * The `AddAttribute<float>` calls, on a value-initialised layout: locations
   * 0 and 1, then 2 if the mesh has uv, then 3 and 4 if it has tangent space.
   */
  function UnboundedMeshLayout(hasTexCoords: bool, hasTangentSpace: bool): Layout
  {
    var base := AddAttribute(AddAttribute(EMPTY_LAYOUT, 0, 3, FLOAT_SIZE), 1, 3, FLOAT_SIZE);
    var withUv := if hasTexCoords then AddAttribute(base, 2, 2, FLOAT_SIZE) else base;
    if hasTangentSpace then AddAttribute(AddAttribute(withUv, 3, 3, FLOAT_SIZE), 4, 3, FLOAT_SIZE) else withUv
  }

  /** The layout after the final `Bound()` call (with the stride rounded up, as intended). */
  function MeshLayout(hasTexCoords: bool, hasTangentSpace: bool): Layout
  {
    BoundUp(UnboundedMeshLayout(hasTexCoords, hasTangentSpace))
  }

  /**
   * The layout describes the interleaved vertex exactly: locations 0 and 1
   * hold 3 floats at bytes 0 and 12; location 2 (2 floats at byte 24) is there
   * iff uv is; locations 3 and 4 (3 floats each, right after uv) are there iff
   * tangent space is; the stride is 4 bytes per float of a vertex. Bounding
   * the stride, as written or as intended, changes nothing.
   */
  lemma MeshLayoutMatchesVertex(m: ImportedMesh)
    ensures var layout := MeshLayout(HasTexCoords(m), HasTangentSpace(m));
            var attributes := layout.attributes;
            var t := TangentStart(m);
            && layout.stride == 4 * FloatsPerVertex(m)
            && |attributes| == 2 + (if HasTexCoords(m) then 1 else 0) + (if HasTangentSpace(m) then 2 else 0)
            && attributes[0] == Attribute(0, 3, 0)
            && attributes[1] == Attribute(1, 3, 12)
            && (HasTexCoords(m) ==> attributes[2] == Attribute(2, 2, 24))
            && (HasTangentSpace(m) ==>
                  && attributes[|attributes| - 2] == Attribute(3, 3, 4 * t)
                  && attributes[|attributes| - 1] == Attribute(4, 3, 4 * t + 12))
            && Bound(UnboundedMeshLayout(HasTexCoords(m), HasTangentSpace(m))) == layout
  {
  }

  /**
   * `ProcessAssimpMesh` for one mesh: the new `Mesh` (its buffer offsets are
   * still 0, as `new Mesh()` leaves them) and the material index it appends,
   * `baseMeshMaterialIndex + mMaterialIndex` in `unsigned int` arithmetic.
   */
  function ProcessMesh(m: ImportedMesh, base: uint32): (r: (Mesh, uint32))
    requires m.Valid()
  {
    (Mesh(MeshLayout(HasTexCoords(m), HasTangentSpace(m)), Interleave(m, |m.positions|), Flatten(m.faces), 0, 0),
     Wrap32(base + m.materialIndex))
  }

  /**
   * What `ProcessAssimpMesh` produces for any mesh, even one without
   * vertices: `numVertices * floatsPerVertex` floats, the concatenated faces,
   * the layout matching the mesh's channels, offsets still 0, and the offset
   * material index.
   */
  lemma ProcessMeshContents(m: ImportedMesh, base: uint32)
    requires m.Valid()
    ensures var (mesh, material) := ProcessMesh(m, base);
            var k := FloatsPerVertex(m);
            && |mesh.vertexs| == |m.positions| * k
            && mesh.indexs == Flatten(m.faces)
            && mesh.layout == MeshLayout(HasTexCoords(m), HasTangentSpace(m))
            && mesh.layout.stride == 4 * k
            && mesh.vertexOffset == 0 && mesh.indexsOffset == 0
            && (base + m.materialIndex < U32_MODULUS ==> material == base + m.materialIndex)
            && (base + m.materialIndex >= U32_MODULUS ==> material == base + m.materialIndex - U32_MODULUS)
  {
    InterleaveLength(m, |m.positions|);
    MeshLayoutMatchesVertex(m);
  }

  /** Vertex `i` of the mesh sits in its own `k`-float slot of the submesh's vertex array. */
  lemma ProcessMeshVertex(m: ImportedMesh, base: uint32, i: nat)
    requires m.Valid() && i < |m.positions|
    ensures var mesh := ProcessMesh(m, base).0;
            var k := FloatsPerVertex(m);
            && i * k + k <= |mesh.vertexs|
            && mesh.vertexs[i * k .. i * k + k] == VertexFloats(m, i)
  {
    InterleaveAt(m, |m.positions|, i);
    MulMonotoneLeft(i, |m.positions|, FloatsPerVertex(m));
  }

  // ---------------------------------------------------------------------------
  // ProcessAssimpNode: the tree walk
  // ---------------------------------------------------------------------------

  /** Reference order: the node's own meshes, then each child's subtree, left to right. */
  function PreOrder(node: Node): seq<uint32>
    decreases node, |node.children| + 1
  {
    node.meshes + ChildrenPreOrder(node, |node.children|)
  }

  /** The pre-orders of the first `c` children, concatenated. */
  function ChildrenPreOrder(node: Node, c: nat): seq<uint32>
    requires c <= |node.children|
    decreases node, c
  {
    if c == 0 then [] else ChildrenPreOrder(node, c - 1) + PreOrder(node.children[c - 1])
  }

  /** Every mesh index the walk visits names one of the scene's meshes. */
  lemma {:induction false} PreOrderValid(scene: Scene, node: Node)
    requires NodeValid(scene, node)
    ensures IndicesIn(scene, PreOrder(node))
    decreases node, |node.children| + 1
  {
    ChildrenPreOrderValid(scene, node, |node.children|);
  }

  lemma {:induction false} ChildrenPreOrderValid(scene: Scene, node: Node, c: nat)
    requires NodeValid(scene, node) && c <= |node.children|
    ensures IndicesIn(scene, ChildrenPreOrder(node, c))
    decreases node, c
  {
    if c > 0 {
      ChildrenPreOrderValid(scene, node, c - 1);
      PreOrderValid(scene, node.children[c - 1]);
    }
  }

  /** A leaf visits exactly its own meshes. */
  lemma PreOrderLeaf(node: Node)
    requires node.children == []
    ensures PreOrder(node) == node.meshes
  {
  }

  /** The meshes processed for a sequence of scene mesh indices. */
  function MeshesFor(scene: Scene, order: seq<uint32>, base: uint32): (r: seq<Mesh>)
    requires MeshesValid(scene)
    requires IndicesIn(scene, order)
    ensures |r| == |order|
  {
    seq(|order|, k requires 0 <= k < |order| => ProcessMesh(scene.meshes[order[k]], base).0)
  }

  /** The material indices appended for a sequence of scene mesh indices. */
  function MaterialsFor(scene: Scene, order: seq<uint32>, base: uint32): (r: seq<uint32>)
    requires MeshesValid(scene)
    requires IndicesIn(scene, order)
    ensures |r| == |order|
  {
    seq(|order|, k requires 0 <= k < |order| => ProcessMesh(scene.meshes[order[k]], base).1)
  }

  /**
   * `ProcessAssimpNode`: processes the node's meshes in order, then recurses
   * into each child in order. The result extends the model's mesh and
   * material lists by exactly the pre-order of the subtree, one material
   * index per mesh.
   */
  method ProcessAssimpNode(scene: Scene, node: Node, base: uint32, meshesIn: seq<Mesh>, materialsIn: seq<uint32>)
    returns (meshes: seq<Mesh>, materials: seq<uint32>)
    requires MeshesValid(scene) && NodeValid(scene, node)
    ensures IndicesIn(scene, PreOrder(node))
    ensures meshes == meshesIn + MeshesFor(scene, PreOrder(node), base)
    ensures materials == materialsIn + MaterialsFor(scene, PreOrder(node), base)
    decreases node, 1
  {
    ghost var own := node.meshes;
    ghost var below := ChildrenPreOrder(node, |node.children|);
    ProcessWholeNode(scene, node, base);
    var meshesMid, materialsMid := ProcessNodeMeshes(scene, node.meshes, base, meshesIn, materialsIn);
    meshes, materials := ProcessChildren(scene, node, base, meshesMid, materialsMid);
    ExtendedBy(meshesIn, MeshesFor(scene, own, base), MeshesFor(scene, below, base),
               MeshesFor(scene, PreOrder(node), base), meshesMid, meshes);
    ExtendedBy(materialsIn, MaterialsFor(scene, own, base), MaterialsFor(scene, below, base),
               MaterialsFor(scene, PreOrder(node), base), materialsMid, materials);
  }

  /** The second loop of `ProcessAssimpNode`: the recursive call for each child, in order. */
  method ProcessChildren(scene: Scene, node: Node, base: uint32, meshesIn: seq<Mesh>, materialsIn: seq<uint32>)
    returns (meshes: seq<Mesh>, materials: seq<uint32>)
    requires MeshesValid(scene) && NodeValid(scene, node)
    ensures IndicesIn(scene, ChildrenPreOrder(node, |node.children|))
    ensures meshes == meshesIn + MeshesFor(scene, ChildrenPreOrder(node, |node.children|), base)
    ensures materials == materialsIn + MaterialsFor(scene, ChildrenPreOrder(node, |node.children|), base)
    decreases node, 0
  {
    meshes, materials := meshesIn, materialsIn;
    var c := 0;
    while c < |node.children|
      invariant 0 <= c <= |node.children|
      invariant IndicesIn(scene, ChildrenPreOrder(node, c))
      invariant meshes == meshesIn + MeshesFor(scene, ChildrenPreOrder(node, c), base)
      invariant materials == materialsIn + MaterialsFor(scene, ChildrenPreOrder(node, c), base)
    {
      ghost var meshesBefore, materialsBefore := meshes, materials;
      meshes, materials := ProcessAssimpNode(scene, node.children[c], base, meshes, materials);
      ChildLoopStep(scene, node, c, base, meshesIn, materialsIn, meshesBefore, materialsBefore, meshes, materials);
      c := c + 1;
    }
  }

  /** The invariant of the child loop survives processing child `c`. */
  lemma ChildLoopStep(scene: Scene, node: Node, c: nat, base: uint32,
                      meshesIn: seq<Mesh>, materialsIn: seq<uint32>,
                      meshesBefore: seq<Mesh>, materialsBefore: seq<uint32>,
                      meshes: seq<Mesh>, materials: seq<uint32>)
    requires MeshesValid(scene) && NodeValid(scene, node) && c < |node.children|
    requires IndicesIn(scene, ChildrenPreOrder(node, c)) && IndicesIn(scene, PreOrder(node.children[c]))
    requires meshesBefore == meshesIn + MeshesFor(scene, ChildrenPreOrder(node, c), base)
    requires materialsBefore == materialsIn + MaterialsFor(scene, ChildrenPreOrder(node, c), base)
    requires meshes == meshesBefore + MeshesFor(scene, PreOrder(node.children[c]), base)
    requires materials == materialsBefore + MaterialsFor(scene, PreOrder(node.children[c]), base)
    ensures IndicesIn(scene, ChildrenPreOrder(node, c + 1))
    ensures meshes == meshesIn + MeshesFor(scene, ChildrenPreOrder(node, c + 1), base)
    ensures materials == materialsIn + MaterialsFor(scene, ChildrenPreOrder(node, c + 1), base)
  {
    ProcessOneChild(scene, node, c, base);
    var child := PreOrder(node.children[c]);
    ExtendedBy(meshesIn, MeshesFor(scene, ChildrenPreOrder(node, c), base), MeshesFor(scene, child, base),
               MeshesFor(scene, ChildrenPreOrder(node, c + 1), base), meshesBefore, meshes);
    ExtendedBy(materialsIn, MaterialsFor(scene, ChildrenPreOrder(node, c), base), MaterialsFor(scene, child, base),
               MaterialsFor(scene, ChildrenPreOrder(node, c + 1), base), materialsBefore, materials);
  }

  /** A node's pre-order is its own meshes followed by its children's. */
  lemma ProcessWholeNode(scene: Scene, node: Node, base: uint32)
    requires MeshesValid(scene) && NodeValid(scene, node)
    ensures IndicesIn(scene, node.meshes) && IndicesIn(scene, ChildrenPreOrder(node, |node.children|))
    ensures IndicesIn(scene, PreOrder(node))
    ensures MeshesFor(scene, PreOrder(node), base)
            == MeshesFor(scene, node.meshes, base) + MeshesFor(scene, ChildrenPreOrder(node, |node.children|), base)
    ensures MaterialsFor(scene, PreOrder(node), base)
            == MaterialsFor(scene, node.meshes, base) + MaterialsFor(scene, ChildrenPreOrder(node, |node.children|), base)
  {
    PreOrderValid(scene, node);
    ChildrenPreOrderValid(scene, node, |node.children|);
    MeshesForAppend(scene, node.meshes, ChildrenPreOrder(node, |node.children|), base);
  }

  /** The first loop of `ProcessAssimpNode`: `ProcessAssimpMesh` for each of the node's meshes, in order. */
  method ProcessNodeMeshes(scene: Scene, order: seq<uint32>, base: uint32, meshesIn: seq<Mesh>, materialsIn: seq<uint32>)
    returns (meshes: seq<Mesh>, materials: seq<uint32>)
    requires MeshesValid(scene) && IndicesIn(scene, order)
    ensures meshes == meshesIn + MeshesFor(scene, order, base)
    ensures materials == materialsIn + MaterialsFor(scene, order, base)
  {
    meshes, materials := meshesIn, materialsIn;
    var i := 0;
    while i < |order|
      invariant 0 <= i <= |order|
      invariant IndicesIn(scene, order[..i])
      invariant meshes == meshesIn + MeshesFor(scene, order[..i], base)
      invariant materials == materialsIn + MaterialsFor(scene, order[..i], base)
    {
      var (mesh, material) := ProcessMesh(scene.meshes[order[i]], base);
      ProcessOneMore(scene, order, i, base);
      meshes := meshes + [mesh];
      materials := materials + [material];
      i := i + 1;
    }
    assert order[..i] == order;
  }

  /** One more iteration of the mesh loop extends the processed prefix by one mesh. */
  lemma ProcessOneMore(scene: Scene, order: seq<uint32>, i: nat, base: uint32)
    requires MeshesValid(scene) && IndicesIn(scene, order) && i < |order|
    ensures IndicesIn(scene, order[..i]) && IndicesIn(scene, order[..i + 1])
    ensures var (mesh, material) := ProcessMesh(scene.meshes[order[i]], base);
            && MeshesFor(scene, order[..i + 1], base) == MeshesFor(scene, order[..i], base) + [mesh]
            && MaterialsFor(scene, order[..i + 1], base) == MaterialsFor(scene, order[..i], base) + [material]
  {
  }

  /** One more iteration of the child loop extends the processed order by that child's pre-order. */
  lemma ProcessOneChild(scene: Scene, node: Node, c: nat, base: uint32)
    requires MeshesValid(scene) && NodeValid(scene, node) && c < |node.children|
    ensures IndicesIn(scene, ChildrenPreOrder(node, c))
    ensures IndicesIn(scene, PreOrder(node.children[c]))
    ensures IndicesIn(scene, ChildrenPreOrder(node, c + 1))
    ensures MeshesFor(scene, ChildrenPreOrder(node, c + 1), base)
            == MeshesFor(scene, ChildrenPreOrder(node, c), base) + MeshesFor(scene, PreOrder(node.children[c]), base)
    ensures MaterialsFor(scene, ChildrenPreOrder(node, c + 1), base)
            == MaterialsFor(scene, ChildrenPreOrder(node, c), base) + MaterialsFor(scene, PreOrder(node.children[c]), base)
  {
    ChildrenPreOrderValid(scene, node, c + 1);
    ChildrenPreOrderValid(scene, node, c);
    PreOrderValid(scene, node.children[c]);
    MeshesForAppend(scene, ChildrenPreOrder(node, c), PreOrder(node.children[c]), base);
  }

  lemma MeshesForAppend(scene: Scene, a: seq<uint32>, b: seq<uint32>, base: uint32)
    requires MeshesValid(scene)
    requires IndicesIn(scene, a) && IndicesIn(scene, b)
    ensures MeshesFor(scene, a + b, base) == MeshesFor(scene, a, base) + MeshesFor(scene, b, base)
    ensures MaterialsFor(scene, a + b, base) == MaterialsFor(scene, a, base) + MaterialsFor(scene, b, base)
  {
    assert IndicesIn(scene, a + b);
    MaterialsForAppend(scene, a, b, base);
  }

  lemma MaterialsForAppend(scene: Scene, a: seq<uint32>, b: seq<uint32>, base: uint32)
    requires MeshesValid(scene)
    requires IndicesIn(scene, a) && IndicesIn(scene, b) && IndicesIn(scene, a + b)
    ensures MaterialsFor(scene, a + b, base) == MaterialsFor(scene, a, base) + MaterialsFor(scene, b, base)
  {
  }

  // ---------------------------------------------------------------------------
  // LoadModel: packing the submeshes into shared buffers
  // ---------------------------------------------------------------------------

  /** The sum of the first `i` sizes. */
  function PrefixSum(sizes: seq<nat>, i: nat): nat
    requires i <= |sizes|
  {
    if i == 0 then 0 else PrefixSum(sizes, i - 1) + sizes[i - 1]
  }

  /** `vertexs.size() * sizeof(float)` for each mesh. */
  function VertexByteSizes(meshes: seq<Mesh>): (r: seq<nat>)
    ensures |r| == |meshes|
  {
    seq(|meshes|, j requires 0 <= j < |meshes| => |meshes[j].vertexs| * 4)
  }

  /** `indexs.size() * sizeof(u32)` for each mesh. */
  function IndexByteSizes(meshes: seq<Mesh>): (r: seq<nat>)
    ensures |r| == |meshes|
  {
    seq(|meshes|, j requires 0 <= j < |meshes| => |meshes[j].indexs| * 4)
  }

  /** Each mesh with its `vertexOffset` and `indexsOffset` set to the `u32` prefix sums of the sizes before it. */
  function PackedMeshes(meshes: seq<Mesh>): (r: seq<Mesh>)
    ensures |r| == |meshes|
  {
    seq(|meshes|, i requires 0 <= i < |meshes| =>
      meshes[i].(vertexOffset := Wrap32(PrefixSum(VertexByteSizes(meshes), i)),
                 indexsOffset := Wrap32(PrefixSum(IndexByteSizes(meshes), i))))
  }

  /** One more `u32 +=` keeps the running value equal to the wrapped prefix sum. */
  lemma PrefixSumStep(sizes: seq<nat>, i: nat)
    requires i < |sizes|
    ensures Wrap32(Wrap32(PrefixSum(sizes, i)) + sizes[i]) == Wrap32(PrefixSum(sizes, i + 1))
    ensures Wrap32(Wrap32(PrefixSum(sizes, i)) + Wrap32(sizes[i])) == Wrap32(PrefixSum(sizes, i + 1))
  {
    Wrap32Add(PrefixSum(sizes, i), sizes[i]);
    Wrap32Add(Wrap32(PrefixSum(sizes, i)), sizes[i]);
  }

  lemma OffsetStep(sizes: seq<nat>, i: nat, offset: uint32, size: uint32)
    requires i < |sizes| && offset == Wrap32(PrefixSum(sizes, i)) && size == Wrap32(sizes[i])
    ensures Wrap32(offset + size) == Wrap32(PrefixSum(sizes, i + 1))
  {
    PrefixSumStep(sizes, i);
  }

  lemma SizeStep(sizes: seq<nat>, i: nat, total: uint32, size: nat)
    requires i < |sizes| && total == Wrap32(PrefixSum(sizes, i)) && size == sizes[i]
    ensures Wrap32(total + size) == Wrap32(PrefixSum(sizes, i + 1))
  {
    PrefixSumStep(sizes, i);
  }

  /**
   * The first loop of `LoadModel` after the tree walk: the buffer sizes are
   * summed in `u32`, so both wrap modulo 2^32.
   */
  method BufferSizes(meshes: seq<Mesh>) returns (vertexBufferSize: uint32, indexBufferSize: uint32)
    ensures vertexBufferSize == Wrap32(PrefixSum(VertexByteSizes(meshes), |meshes|))
    ensures indexBufferSize == Wrap32(PrefixSum(IndexByteSizes(meshes), |meshes|))
  {
    ghost var vertexSizes, indexSizes := VertexByteSizes(meshes), IndexByteSizes(meshes);
    vertexBufferSize, indexBufferSize := 0, 0;
    var i := 0;
    while i < |meshes|
      invariant 0 <= i <= |meshes|
      invariant vertexBufferSize == Wrap32(PrefixSum(vertexSizes, i))
      invariant indexBufferSize == Wrap32(PrefixSum(indexSizes, i))
    {
      var vertexSize, indexSize := |meshes[i].vertexs| * 4, |meshes[i].indexs| * 4;
      SizeStep(vertexSizes, i, vertexBufferSize, vertexSize);
      SizeStep(indexSizes, i, indexBufferSize, indexSize);
      vertexBufferSize := Wrap32(vertexBufferSize + vertexSize);
      indexBufferSize := Wrap32(indexBufferSize + indexSize);
      i := i + 1;
    }
  }

  /**
   * The second loop: each mesh gets the running offsets (sizes truncated to
   * `u32`, offsets advanced with `u32 +=`), so its data goes right after the
   * previous mesh's.
   */
  method AssignOffsets(meshes: seq<Mesh>) returns (packed: seq<Mesh>)
    ensures packed == PackedMeshes(meshes)
  {
    ghost var vertexSizes, indexSizes := VertexByteSizes(meshes), IndexByteSizes(meshes);
    packed := meshes;
    var verticesOffset: uint32, indicesOffset: uint32 := 0, 0;
    var i := 0;
    while i < |meshes|
      invariant 0 <= i <= |meshes| && |packed| == |meshes|
      invariant verticesOffset == Wrap32(PrefixSum(vertexSizes, i))
      invariant indicesOffset == Wrap32(PrefixSum(indexSizes, i))
      invariant PackedUpTo(meshes, packed, i)
    {
      var verticesSize := Wrap32(|packed[i].vertexs| * 4);
      var indicesSize := Wrap32(|packed[i].indexs| * 4);
      OffsetStep(vertexSizes, i, verticesOffset, verticesSize);
      OffsetStep(indexSizes, i, indicesOffset, indicesSize);
      ghost var before := packed;
      packed := packed[i := packed[i].(vertexOffset := verticesOffset, indexsOffset := indicesOffset)];
      PackStep(meshes, before, i, packed);
      verticesOffset := Wrap32(verticesOffset + verticesSize);
      indicesOffset := Wrap32(indicesOffset + indicesSize);
      i := i + 1;
    }
    PackedAll(meshes, packed);
  }

  /** The first `i` meshes already carry their packed offsets and the rest are untouched. */
  ghost predicate PackedUpTo(meshes: seq<Mesh>, packed: seq<Mesh>, i: nat)
    requires |packed| == |meshes| && i <= |meshes|
  {
    && (forall j :: 0 <= j < i ==> packed[j] == PackedMeshes(meshes)[j])
    && (forall j :: i <= j < |meshes| ==> packed[j] == meshes[j])
  }

  /** One iteration of the offset loop packs one more mesh. */
  lemma PackStep(meshes: seq<Mesh>, before: seq<Mesh>, i: nat, after: seq<Mesh>)
    requires i < |meshes| == |before| && PackedUpTo(meshes, before, i)
    requires after == before[i := before[i].(vertexOffset := Wrap32(PrefixSum(VertexByteSizes(meshes), i)),
                                             indexsOffset := Wrap32(PrefixSum(IndexByteSizes(meshes), i)))]
    ensures |after| == |meshes| && PackedUpTo(meshes, after, i + 1)
  {
  }

  /** Once every mesh is packed, the list is the packed list. */
  lemma PackedAll(meshes: seq<Mesh>, packed: seq<Mesh>)
    requires |packed| == |meshes| && PackedUpTo(meshes, packed, |meshes|)
    ensures packed == PackedMeshes(meshes)
  {
  }

  lemma {:induction false} PrefixSumMonotone(sizes: seq<nat>, i: nat, j: nat)
    requires i <= j <= |sizes|
    ensures PrefixSum(sizes, i) <= PrefixSum(sizes, j)
    decreases j
  {
    if i < j {
      PrefixSumMonotone(sizes, i, j - 1);
    }
  }

  /** The first mesh's range starts at offset 0, whatever the sizes. */
  lemma FirstRangeAtZero(sizes: seq<nat>)
    ensures Wrap32(PrefixSum(sizes, 0)) == 0
  {
  }

  /**
   * Without `u32` overflow each byte range `[offset_i, offset_i + size_i)`
   * ends where the next one starts, and the offsets are the exact sums, so
   * the last range ends at the total size.
   */
  lemma {:induction false} RangesAdjacent(sizes: seq<nat>, i: nat)
    requires PrefixSum(sizes, |sizes|) < U32_MODULUS
    requires i < |sizes|
    ensures Wrap32(PrefixSum(sizes, i)) + sizes[i] == Wrap32(PrefixSum(sizes, i + 1))
    ensures Wrap32(PrefixSum(sizes, |sizes|)) == PrefixSum(sizes, |sizes|)
    ensures i == |sizes| - 1 ==> Wrap32(PrefixSum(sizes, i)) + sizes[i] == PrefixSum(sizes, |sizes|)
  {
    PrefixSumMonotone(sizes, i + 1, |sizes|);
  }

  /** Without `u32` overflow an earlier range ends at or before a later one starts: the ranges are disjoint. */
  lemma {:induction false} RangesDisjoint(sizes: seq<nat>, i: nat, j: nat)
    requires PrefixSum(sizes, |sizes|) < U32_MODULUS
    requires i < j < |sizes|
    ensures Wrap32(PrefixSum(sizes, i)) + sizes[i] <= Wrap32(PrefixSum(sizes, j))
  {
    var total := PrefixSum(sizes, |sizes|);
    PrefixSumMonotone(sizes, i + 1, j);
    PrefixSumMonotone(sizes, j, |sizes|);
    PrefixSumMonotone(sizes, i, |sizes|);
    assert PrefixSum(sizes, i) < U32_MODULUS && PrefixSum(sizes, j) < U32_MODULUS;
    assert PrefixSum(sizes, i) + sizes[i] == PrefixSum(sizes, i + 1) <= PrefixSum(sizes, j);
  }

  // ---------------------------------------------------------------------------
  // ProcessAssimpMaterial
  // ---------------------------------------------------------------------------

  /** The texture paths of a material, in the order `ProcessAssimpMaterial` loads them. */
  function SlotPaths(mat: ImportedMaterial): (r: seq<Option<string>>)
    ensures |r| == 5
  {
    [mat.diffuse, mat.specular, mat.emissive, mat.normals, mat.height]
  }

  /**
   * The texture indices of an engine material, in the same order. The
   * diffuse texture is stored as the albedo texture, the one `Render` binds.
   */
  function MaterialSlots(m: Material): (r: seq<uint32>)
    ensures |r| == 5
  {
    [m.albedoTex, m.specularTex, m.emissiveTex, m.normalsTex, m.bumpTex]
  }

  /**
   * `after` is `before` with textures appended, and every appended texture
   * comes from a path `before` did not hold, and its image decoded. `images`
   * stands for `LoadImage` followed by
   * `CreateTexture2DFromImage`: the handle made from the file at a path, or
   * `None` when the file does not decode.
   */
  predicate Extends(before: seq<Texture>, after: seq<Texture>, images: string -> Option<uint32>)
  {
    && |before| <= |after|
    && after[..|before|] == before
    && forall k :: |before| <= k < |after| ==>
         images(after[k].filepath).Some? && !Engine.HasTexture(before, after[k].filepath)
  }

  /**
   * What a texture slot holds once its load is done: 0 when the material
   * has no texture of that type; `UINT32_MAX` exactly when the path was not
   * cached beforehand and its image does not decode; otherwise the index of
   * a texture loaded from that path.
   */
  predicate SlotLoaded(before: seq<Texture>, after: seq<Texture>, path: Option<string>, index: uint32,
                       images: string -> Option<uint32>)
  {
    match path
    case None => index == 0
    case Some(p) =>
      && (index == UINT32_MAX <==> !Engine.HasTexture(before, p) && images(p).None?)
      && (index != UINT32_MAX ==> index < |after| && after[index].filepath == p)
  }

  /** Every slot of `m` holds what loading the corresponding path of `mat` gives. */
  predicate MaterialLoaded(before: seq<Texture>, after: seq<Texture>, mat: ImportedMaterial, m: Material,
                           images: string -> Option<uint32>)
  {
    forall i :: 0 <= i < 5 ==> SlotLoaded(before, after, SlotPaths(mat)[i], MaterialSlots(m)[i], images)
  }

  /**
   * One `if (material->GetTextureCount(type) > 0)` block: `LoadTexture2D`
   * on the path, or nothing (and the slot keeps 0) without a texture.
   */
  function LoadSlot(app: App, path: Option<string>, images: string -> Option<uint32>): (r: (App, uint32))
    requires |app.textures| < UINT32_MAX
    ensures r.0 == app.(textures := r.0.textures)
    ensures Extends(app.textures, r.0.textures, images) && |r.0.textures| <= |app.textures| + 1
    ensures SlotLoaded(app.textures, r.0.textures, path, r.1, images)
    ensures forall k :: |app.textures| <= k < |r.0.textures| ==> Some(r.0.textures[k].filepath) == path
    ensures Engine.UniquePaths(app.textures) ==> Engine.UniquePaths(r.0.textures)
  {
    match path
    case None => (app, 0)
    case Some(p) =>
      assert Engine.UniquePaths(app.textures) ==> Engine.UniquePaths(Engine.LoadTexture2D(app, p, images(p)).0.textures) by {
        if Engine.UniquePaths(app.textures) {
          Engine.LoadTexturePreservesUniquePaths(app, p, images(p));
        }
      }
      Engine.LoadTexture2D(app, p, images(p))
  }

  /** A slot result stays valid while the list keeps growing by decoded textures. */
  lemma SlotLoadedKept(before: seq<Texture>, mid: seq<Texture>, after: seq<Texture>, path: Option<string>,
                       index: uint32, images: string -> Option<uint32>)
    requires Extends(before, mid, images) && Extends(mid, after, images)
    requires SlotLoaded(before, mid, path, index, images)
    ensures Extends(before, after, images) && SlotLoaded(before, after, path, index, images)
  {
    assert after[..|mid|][..|before|] == after[..|before|];
    forall k | |before| <= k < |after|
      ensures images(after[k].filepath).Some? && !Engine.HasTexture(before, after[k].filepath)
    {
      if k < |mid| {
        assert after[k] == after[..|mid|][k];
      }
    }
    if path.Some? && index != UINT32_MAX {
      assert after[index] == after[..|mid|][index];
    }
  }

  /**
   * A slot loaded against `mid` is loaded against the earlier `before` too:
   * the textures `mid` adds all decoded, so a path missing from `before`
   * whose image does not decode is missing from `mid` as well.
   */
  lemma SlotLoadedRebased(before: seq<Texture>, mid: seq<Texture>, after: seq<Texture>, path: Option<string>,
                          index: uint32, images: string -> Option<uint32>)
    requires Extends(before, mid, images) && Extends(mid, after, images)
    requires SlotLoaded(mid, after, path, index, images)
    ensures SlotLoaded(before, after, path, index, images)
  {
    if path.Some? {
      var p := path.value;
      if Engine.HasTexture(before, p) {
        var k :| 0 <= k < |before| && before[k].filepath == p;
        assert mid[k] == mid[..|before|][k];
      }
      if Engine.HasTexture(mid, p) && images(p).None? {
        var k :| 0 <= k < |mid| && mid[k].filepath == p;
        if k < |before| {
          assert before[k] == mid[..|before|][k];
        }
      }
    }
  }

  /** The slot loads of one material, first to last, each seeing the textures the earlier ones added. */
  function LoadSlots(app: App, paths: seq<Option<string>>, images: string -> Option<uint32>): (r: (App, seq<uint32>))
    requires |app.textures| + |paths| <= UINT32_MAX
    ensures |r.1| == |paths|
    ensures r.0 == app.(textures := r.0.textures)
    ensures Extends(app.textures, r.0.textures, images) && |r.0.textures| <= |app.textures| + |paths|
    ensures forall i :: 0 <= i < |paths| ==> SlotLoaded(app.textures, r.0.textures, paths[i], r.1[i], images)
    ensures forall k :: |app.textures| <= k < |r.0.textures| ==> Some(r.0.textures[k].filepath) in paths
    ensures Engine.UniquePaths(app.textures) ==> Engine.UniquePaths(r.0.textures)
    decreases |paths|
  {
    if paths == [] then (app, [])
    else
      var front := paths[..|paths| - 1];
      var (mid, indices) := LoadSlots(app, front, images);
      var (after, index) := LoadSlot(mid, paths[|paths| - 1], images);
      LoadSlotsStep(app.textures, mid.textures, after.textures, paths, indices, index, images);
      (after, indices + [index])
  }

  /** Extending the slot loads by one more load keeps every earlier slot and adds the new one. */
  lemma LoadSlotsStep(before: seq<Texture>, mid: seq<Texture>, after: seq<Texture>, paths: seq<Option<string>>,
                      indices: seq<uint32>, index: uint32, images: string -> Option<uint32>)
    requires |paths| > 0 && |indices| == |paths| - 1
    requires Extends(before, mid, images) && Extends(mid, after, images)
    requires forall i :: 0 <= i < |indices| ==> SlotLoaded(before, mid, paths[i], indices[i], images)
    requires SlotLoaded(mid, after, paths[|paths| - 1], index, images)
    requires forall k :: |before| <= k < |mid| ==> Some(mid[k].filepath) in paths[..|paths| - 1]
    requires forall k :: |mid| <= k < |after| ==> Some(after[k].filepath) == paths[|paths| - 1]
    ensures Extends(before, after, images)
    ensures forall i :: 0 <= i < |paths| ==> SlotLoaded(before, after, paths[i], (indices + [index])[i], images)
    ensures forall k :: |before| <= k < |after| ==> Some(after[k].filepath) in paths
  {
    forall i | 0 <= i < |indices|
      ensures SlotLoaded(before, after, paths[i], (indices + [index])[i], images)
    {
      SlotLoadedKept(before, mid, after, paths[i], indices[i], images);
    }
    SlotLoadedRebased(before, mid, after, paths[|paths| - 1], index, images);
    assert after[..|mid|][..|before|] == after[..|before|];
    forall k | |before| <= k < |after|
      ensures Some(after[k].filepath) in paths
    {
      if k < |mid| {
        assert after[k] == after[..|mid|][k];
        assert Some(mid[k].filepath) in paths[..|paths| - 1];
      } else {
        assert paths[|paths| - 1] in paths;
      }
    }
  }

  /**
   * `ProcessAssimpMaterial`: `LoadTexture2D` for each texture type present,
   * in the order diffuse, specular, emissive, normals, height, storing each
   * returned index (the failure sentinel included) in the material. Only the
   * texture list changes, and only by textures loaded from the material's
   * own paths.
   */
  function ProcessMaterial(app: App, mat: ImportedMaterial, images: string -> Option<uint32>): (r: (App, Material))
    requires |app.textures| + 5 <= UINT32_MAX
    ensures r.0 == app.(textures := r.0.textures)
    ensures Extends(app.textures, r.0.textures, images) && |r.0.textures| <= |app.textures| + 5
    ensures MaterialLoaded(app.textures, r.0.textures, mat, r.1, images)
    ensures forall k :: |app.textures| <= k < |r.0.textures| ==> Some(r.0.textures[k].filepath) in SlotPaths(mat)
    ensures Engine.UniquePaths(app.textures) ==> Engine.UniquePaths(r.0.textures)
  {
    var (loaded, indices) := LoadSlots(app, SlotPaths(mat), images);
    SlotsMakeMaterial(app.textures, loaded.textures, mat, indices, images);
    (loaded, Material(indices[0], indices[1], indices[2], indices[3], indices[4]))
  }

  /** Five loaded slot indices, stored in the material's fields in load order, make a loaded material. */
  lemma SlotsMakeMaterial(before: seq<Texture>, after: seq<Texture>, mat: ImportedMaterial, indices: seq<uint32>,
                          images: string -> Option<uint32>)
    requires |indices| == 5
    requires forall i :: 0 <= i < 5 ==> SlotLoaded(before, after, SlotPaths(mat)[i], indices[i], images)
    ensures MaterialLoaded(before, after, mat, Material(indices[0], indices[1], indices[2], indices[3], indices[4]), images)
  {
    assert MaterialSlots(Material(indices[0], indices[1], indices[2], indices[3], indices[4])) == indices;
  }

  /** Slots whose textures are all cached already load nothing: every lookup hits the cache. */
  lemma {:induction false} CachedSlotsLoadNothing(app: App, paths: seq<Option<string>>, images: string -> Option<uint32>)
    requires |app.textures| + |paths| <= UINT32_MAX
    requires forall i :: 0 <= i < |paths| && paths[i].Some? ==> Engine.HasTexture(app.textures, paths[i].value)
    ensures LoadSlots(app, paths, images).0 == app
    decreases |paths|
  {
    if paths != [] {
      CachedSlotsLoadNothing(app, paths[..|paths| - 1], images);
    }
  }

  /** A material whose textures are all cached already loads nothing and changes nothing. */
  lemma ProcessCachedMaterial(app: App, mat: ImportedMaterial, images: string -> Option<uint32>)
    requires |app.textures| + 5 <= UINT32_MAX
    requires forall i :: 0 <= i < 5 && SlotPaths(mat)[i].Some? ==> Engine.HasTexture(app.textures, SlotPaths(mat)[i].value)
    ensures ProcessMaterial(app, mat, images).0 == app
  {
    CachedSlotsLoadNothing(app, SlotPaths(mat), images);
  }

  // ---------------------------------------------------------------------------
  // LoadModel
  // ---------------------------------------------------------------------------

  /** The submeshes of a scene, in the order the walk visits them. */
  function SceneMeshes(s: Scene, base: uint32): (r: seq<Mesh>)
    requires SceneValid(s)
    ensures |r| == |PreOrder(s.root)|
  {
    PreOrderValid(s, s.root);
    MeshesFor(s, PreOrder(s.root), base)
  }

  /** The material index appended for each of those submeshes. */
  function SceneMaterialIndices(s: Scene, base: uint32): (r: seq<uint32>)
    requires SceneValid(s)
    ensures |r| == |PreOrder(s.root)|
  {
    PreOrderValid(s, s.root);
    MaterialsFor(s, PreOrder(s.root), base)
  }

  /**
   * The material loop of `LoadModel`: each scene material in order becomes
   * an engine material, loading its textures into the app's texture list.
   */
  function LoadMaterials(app: App, mats: seq<ImportedMaterial>, images: string -> Option<uint32>): (r: (App, seq<Material>))
    requires |app.textures| + 5 * |mats| <= UINT32_MAX
    ensures |r.1| == |mats|
    ensures r.0 == app.(textures := r.0.textures)
    ensures Extends(app.textures, r.0.textures, images) && |r.0.textures| <= |app.textures| + 5 * |mats|
    ensures forall i :: 0 <= i < |mats| ==> MaterialLoaded(app.textures, r.0.textures, mats[i], r.1[i], images)
    ensures Engine.UniquePaths(app.textures) ==> Engine.UniquePaths(r.0.textures)
    decreases |mats|
  {
    if mats == [] then (app, [])
    else
      var (mid, materials) := LoadMaterials(app, mats[..|mats| - 1], images);
      var (after, material) := ProcessMaterial(mid, mats[|mats| - 1], images);
      LoadMaterialsStep(app.textures, mid.textures, after.textures, mats, materials, material, images);
      (after, materials + [material])
  }

  /** One more material keeps every earlier material's slots and adds its own. */
  lemma LoadMaterialsStep(before: seq<Texture>, mid: seq<Texture>, after: seq<Texture>, mats: seq<ImportedMaterial>,
                          materials: seq<Material>, material: Material, images: string -> Option<uint32>)
    requires |mats| > 0 && |materials| == |mats| - 1
    requires Extends(before, mid, images) && Extends(mid, after, images)
    requires forall i :: 0 <= i < |materials| ==> MaterialLoaded(before, mid, mats[i], materials[i], images)
    requires MaterialLoaded(mid, after, mats[|mats| - 1], material, images)
    ensures Extends(before, after, images)
    ensures forall i :: 0 <= i < |mats| ==> MaterialLoaded(before, after, mats[i], (materials + [material])[i], images)
  {
    forall i | 0 <= i < |mats|
      ensures MaterialLoaded(before, after, mats[i], (materials + [material])[i], images)
    {
      var m := (materials + [material])[i];
      forall s | 0 <= s < 5
        ensures SlotLoaded(before, after, SlotPaths(mats[i])[s], MaterialSlots(m)[s], images)
      {
        if i < |materials| {
          SlotLoadedKept(before, mid, after, SlotPaths(mats[i])[s], MaterialSlots(m)[s], images);
        } else {
          SlotLoadedRebased(before, mid, after, SlotPaths(mats[i])[s], MaterialSlots(m)[s], images);
        }
      }
    }
    SlotLoadedKept(before, mid, after, None, 0, images);
  }

  /** The loop over `scene->mMaterials` in `LoadModel`. */
  method ProcessMaterials(app: App, mats: seq<ImportedMaterial>, images: string -> Option<uint32>)
    returns (loaded: App, materials: seq<Material>)
    requires |app.textures| + 5 * |mats| <= UINT32_MAX
    ensures (loaded, materials) == LoadMaterials(app, mats, images)
  {
    loaded, materials := app, [];
    var i := 0;
    while i < |mats|
      invariant 0 <= i <= |mats|
      invariant (loaded, materials) == LoadMaterials(app, mats[..i], images)
    {
      assert mats[..i + 1][..i] == mats[..i];
      var (next, material) := ProcessMaterial(loaded, mats[i], images);
      loaded, materials := next, materials + [material];
      i := i + 1;
    }
    assert mats[..i] == mats;
  }

  /**
   * `LoadModel`: a failed import (`None`) returns null and changes nothing.
   * Otherwise a model object is appended to `objects`; each scene material
   * is appended to `materials` (the base index taken before) after its
   * textures are loaded into `textures`; the tree is walked; and the meshes
   * are packed. The returned index stands for the returned pointer.
   * `program` and `texUniform` are left at 0: the caller (`App::InitMesh`)
   * sets them.
   */
  method LoadModel(app: App, scene: Option<Scene>, images: string -> Option<uint32>)
    returns (r: App, model: Option<nat>, vertexBufferSize: uint32, indexBufferSize: uint32)
    requires scene.Some? ==> SceneValid(scene.value) && |app.textures| + 5 * |scene.value.materials| <= UINT32_MAX
    ensures scene.None? ==> r == app && model.None?
    ensures scene.Some? ==>
              var s := scene.value;
              var base := Wrap32(|app.materials|);
              && model == Some(|app.objects|)
              && r.programs == app.programs
              && Extends(app.textures, r.textures, images)
              && (Engine.UniquePaths(app.textures) ==> Engine.UniquePaths(r.textures))
              && r.textures == LoadMaterials(app, s.materials, images).0.textures
              && r.materials == app.materials + LoadMaterials(app, s.materials, images).1
              && |r.objects| == |app.objects| + 1 && r.objects[..|app.objects|] == app.objects
              && r.objects[|app.objects|] == Object(true, 0, 0, Model(PackedMeshes(SceneMeshes(s, base)), SceneMaterialIndices(s, base)))
              && vertexBufferSize == Wrap32(PrefixSum(VertexByteSizes(SceneMeshes(s, base)), |SceneMeshes(s, base)|))
              && indexBufferSize == Wrap32(PrefixSum(IndexByteSizes(SceneMeshes(s, base)), |SceneMeshes(s, base)|))
  {
    if scene.None? {
      return app, None, 0, 0;
    }
    var s := scene.value;
    var base := Wrap32(|app.materials|);
    var loaded, materials := ProcessMaterials(app, s.materials, images);
    var meshes, materialIndices := ProcessAssimpNode(s, s.root, base, [], []);
    assert meshes == SceneMeshes(s, base) && materialIndices == SceneMaterialIndices(s, base);
    vertexBufferSize, indexBufferSize := BufferSizes(meshes);
    var packed := AssignOffsets(meshes);
    var modelObject := Object(true, 0, 0, Model(packed, materialIndices));
    r := loaded.(objects := app.objects + [modelObject], materials := app.materials + materials);
    model := Some(|app.objects|);
  }

  /**
   * One material index per mesh, and each points at the engine material made
   * from the material the scene assigned to that mesh, provided the material
   * list stays below 2^32 entries and the scene's own indices are in range.
   */
  lemma MaterialIndexLands(appMaterials: seq<Material>, s: Scene, loaded: seq<Material>, k: nat)
    requires SceneValid(s)
    requires |loaded| == |s.materials|
    requires |appMaterials| + |s.materials| < U32_MODULUS
    requires k < |PreOrder(s.root)|
    ensures PreOrder(s.root)[k] < |s.meshes|
    ensures var imported := s.meshes[PreOrder(s.root)[k]];
            var index := SceneMaterialIndices(s, Wrap32(|appMaterials|))[k];
            var all := appMaterials + loaded;
            imported.materialIndex < |s.materials| ==>
              index < |all| && all[index] == loaded[imported.materialIndex]
  {
    PreOrderValid(s, s.root);
  }

  /** Packing only sets the two offsets: layouts, vertices and indices are kept. */
  lemma PackingKeepsContents(meshes: seq<Mesh>, i: nat)
    requires i < |meshes|
    ensures var p := PackedMeshes(meshes)[i];
            p.layout == meshes[i].layout && p.vertexs == meshes[i].vertexs && p.indexs == meshes[i].indexs
  {
  }
}
