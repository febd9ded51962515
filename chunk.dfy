/** The Chunk class of Chunk.hpp: a 16x16x16 grid of blocks, the mesh buffers
    that Rebuild fills from it, and the mesh object the renderer draws. The
    two closures a chunk queues on the main thread are the methods
    RunAttachAtlas and RunUploadMesh, which the main-thread drain runs. The chunk
    mutex is not modelled. */
module Chunks {
  import opened Vectors
  import Hash
  import opened StdMap
  import opened Textures
  import opened NameIDTag
  import opened BlockManager
  import opened TextureManager
  import opened ShaderManager
  import opened Transforms
  import opened MainThreadExecutor
  import opened Renderables
  import opened Renderer
  import opened ChunkMesh

  /** The block Initialize lays down at height y: nothing but air when
      generateNothing is set, otherwise stone below 12, dirt up to 14 and
      grass on the top layer. */
  function TerrainBlock(generateNothing: bool, y: int): BlockType {
    if generateNothing then Air else if y < 12 then Stone else if y < 15 then Dirt else Grass
  }

  /** Every cell holds the terrain block of its height. */
  ghost predicate IsTerrain(g: seq<BlockType>, generateNothing: bool)
    requires |g| == CellCount
  {
    forall x, y, z :: InChunk(x, y, z) ==> g[Index(x, y, z)] == TerrainBlock(generateNothing, y)
  }

  /** The terrain grid itself, cell by cell. */
  ghost function Terrain(generateNothing: bool): (g: seq<BlockType>)
    ensures |g| == CellCount
  {
    seq(CellCount, n requires 0 <= n < CellCount => TerrainBlock(generateNothing, CellOf(n).y))
  }

  /** A grid is terrain exactly when it is the terrain grid. */
  lemma TerrainGrid(g: seq<BlockType>, generateNothing: bool)
    requires |g| == CellCount
    ensures IsTerrain(g, generateNothing) <==> g == Terrain(generateNothing)
  {
    var t := Terrain(generateNothing);
    if IsTerrain(g, generateNothing) {
      forall n | 0 <= n < CellCount
        ensures g[n] == t[n]
      {
        var c := CellOf(n);
        assert g[Index(c.x, c.y, c.z)] == TerrainBlock(generateNothing, c.y);
      }
    }
    if g == t {
      forall x, y, z | InChunk(x, y, z)
        ensures g[Index(x, y, z)] == TerrainBlock(generateNothing, y)
      {
        CellOfIndex(x, y, z);
      }
    }
  }

  /** The terrain in layers: air throughout for an empty chunk; otherwise
      twelve layers of stone, three of dirt and one of grass. */
  lemma TerrainLayers(y: int)
    requires 0 <= y < ChunkSize
    ensures TerrainBlock(true, y) == Air
    ensures TerrainBlock(false, y) == Stone <==> y < 12
    ensures TerrainBlock(false, y) == Dirt <==> 12 <= y < 15
    ensures TerrainBlock(false, y) == Grass <==> y == 15
    ensures TerrainBlock(false, y) != Air
  {
  }

  function DecimalDigit(d: int): (c: char)
    requires 0 <= d < 10
    ensures Hash.IsDigit(c, 10) && Hash.DigitValue(c) == d
  {
    ('0' as int + d) as char
  }

  /** std::format("{}", n) for a non-negative n. */
  function NatToString(n: nat): (s: string)
    ensures |s| >= 1 && forall k :: 0 <= k < |s| ==> Hash.IsDigit(s[k], 10)
    decreases n
  {
    if n < 10 then [DecimalDigit(n)] else NatToString(n / 10) + [DecimalDigit(n % 10)]
  }

  /** Reading the digits back gives the number. */
  lemma {:induction false} NatToStringValue(n: nat)
    ensures Hash.DigitsValue(NatToString(n), 10) == n
  {
    if n >= 10 {
      NatToStringValue(n / 10);
      var s := NatToString(n);
      assert s[..|s| - 1] == NatToString(n / 10);
    }
  }

  /** std::format("{}", i): decimal, with a leading '-' when negative. */
  function IntToString(i: int): (s: string)
    ensures |s| >= 1 && (s[0] == '-' <==> i < 0)
    ensures forall k :: 1 <= k < |s| ==> Hash.IsDigit(s[k], 10)
    ensures '_' !in s
  {
    if i < 0 then "-" + NatToString(-i) else NatToString(i)
  }

  /** Distinct integers print differently. */
  lemma IntToStringInjective(i: int, j: int)
    requires IntToString(i) == IntToString(j)
    ensures i == j
  {
    var s := IntToString(i);
    NatToStringValue(if i < 0 then -i else i);
    NatToStringValue(if j < 0 then -j else j);
    if i < 0 {
      assert NatToString(-i) == s[1..] == NatToString(-j);
    }
  }

  /** The first '_' of a + "_" + b is the one after a. */
  lemma SeparatorAt(a: string, b: string)
    requires '_' !in a
    ensures (a + "_" + b)[|a|] == '_'
    ensures forall k :: 0 <= k < |a| ==> (a + "_" + b)[k] != '_'
  {
  }

  lemma SplitAtSeparator(a: string, b: string, c: string, d: string)
    requires '_' !in a && '_' !in c
    requires a + "_" + b == c + "_" + d
    ensures a == c && b == d
  {
    SeparatorAt(a, b);
    SeparatorAt(c, d);
    assert |a| == |c|;
    assert a == (a + "_" + b)[..|a|];
    assert c == (c + "_" + d)[..|c|];
    assert b == (a + "_" + b)[|a| + 1..];
    assert d == (c + "_" + d)[|c| + 1..];
  }

  /** The name Initialize gives a chunk's mesh tag. */
  function ChunkName(p: IVec3): (r: string)
    ensures |r| > 6 && r[..6] == "Chunk_"
  {
    "Chunk_" + IntToString(p.x) + "_" + IntToString(p.y) + "_" + IntToString(p.z)
  }

  /** What follows "Chunk_" in a chunk's name: x, then y and z, each after a '_'. */
  lemma ChunkNameTail(p: IVec3)
    ensures ChunkName(p)[6..] == IntToString(p.x) + "_" + (IntToString(p.y) + "_" + IntToString(p.z))
  {
    var x, y, z := IntToString(p.x), IntToString(p.y), IntToString(p.z);
    assert ChunkName(p) == "Chunk_" + (x + "_" + (y + "_" + z));
  }

  /** Chunks at distinct positions get distinct mesh names. */
  lemma ChunkNameInjective(p: IVec3, q: IVec3)
    requires ChunkName(p) == ChunkName(q)
    ensures p == q
  {
    ChunkNameTail(p);
    ChunkNameTail(q);
    var px, py, pz := IntToString(p.x), IntToString(p.y), IntToString(p.z);
    var qx, qy, qz := IntToString(q.x), IntToString(q.y), IntToString(q.z);
    SplitAtSeparator(px, py + "_" + pz, qx, qy + "_" + qz);
    SplitAtSeparator(py, pz, qy, qz);
    IntToStringInjective(p.x, q.x);
    IntToStringInjective(p.y, q.y);
    IntToStringInjective(p.z, q.z);
  }

  lemma AppendAssociates(a: seq<Face>, b: seq<Face>, c: seq<Face>)
    ensures a + b + c == a + (b + c)
  {
  }

  /** The mesh object of Chunk::Initialize: tagged "Chunk_x_y_z" after the
      chunk's transform, empty, with the "default" shader, placed by the
      chunk's transform. */
  method NewMesh(t: TransformI, shaders: ShaderRegistry) returns (m: Renderable)
    ensures fresh(m) && fresh(m.name) && fresh(m.transform) && m.name.name == ChunkName(t.position)
    ensures m.vertices == [] && m.indices == [] && m.textures == map[] && m.buffers == InitialBuffers
    ensures m.shader == shaders.GetShader("default")
    ensures m.transform.position == ToReal(t.position)
    ensures t.pivot == SentinelI ==> m.transform.pivot == ToReal(t.position)
    ensures t.pivot != SentinelI ==> m.transform.pivot == ToReal(t.pivot)
    ensures m.transform.rotation == ToReal(t.rotation) && m.transform.scale == ToReal(t.scale)
    ensures m.transform.right == Zero && m.transform.up == Up
  {
    var tag := new Tag.Register(ChunkName(t.position));
    m := new Renderable.Register(tag, [], [], "default", shaders);
    m.transform := t.ToTransform();
  }

  class Chunk {
    /** The chunk's place in the engine's chunk arena; queued tasks name the chunk by it. */
    const id: nat
    const blocks: array<BlockType>
    const mesh: Renderable
    const transform: TransformI
    var vertices: seq<Vertex>
    var indices: seq<int>
    var indicesIndex: int
    var firstRebuild: bool
    /** The faces behind the current buffers. */
    ghost var faces: seq<Face>

    ghost predicate Valid()
      reads this
    {
      blocks.Length == CellCount
    }

    /** The buffers are those of `faces`, and indicesIndex counts their vertices. */
    ghost predicate MeshBuffers()
      reads this
    {
      vertices == VerticesOf(faces) && indices == IndicesOf(faces) && indicesIndex == |vertices|
    }

    /** Chunk::Initialize (after `new Chunk()`): terrain fill, the mesh
        object, the atlas task and a first Rebuild. */
    constructor Initialize(id: nat, position: IVec3, generateNothing: bool, q: TaskQueue, shaders: ShaderRegistry)
      modifies q
      ensures this.id == id && Valid() && fresh(blocks) && fresh(transform)
      ensures transform.position == position && transform.up == UpI && transform.pivot == ZeroI
      ensures transform.rotation == ZeroI && transform.scale == ZeroI && transform.right == ZeroI
      ensures IsTerrain(blocks[..], generateNothing)
      ensures faces == Faces(blocks[..]) && MeshBuffers() && firstRebuild
      ensures fresh(mesh) && fresh(mesh.name) && fresh(mesh.transform) && mesh.name.name == ChunkName(position)
      ensures mesh.vertices == [] && mesh.indices == [] && mesh.textures == map[] && mesh.buffers == InitialBuffers
      ensures mesh.shader == shaders.GetShader("default")
      ensures mesh.transform.position == ToReal(position) && mesh.transform.pivot == Zero
      ensures mesh.transform.rotation == Zero && mesh.transform.scale == Zero
      ensures mesh.transform.right == Zero && mesh.transform.up == Up
      ensures q.tasks == old(q.tasks) + [AttachAtlas(id), UploadMesh(id)]
    {
      this.id := id;
      blocks := new BlockType[CellCount];
      var t := new TransformI.Default();
      t.position := position;
      transform := t;
      var m := NewMesh(t, shaders);
      mesh := m;
      vertices, indices, indicesIndex, firstRebuild := [], [], 0, true;
      faces := [];
      new;
      FillAndBuild(generateNothing, q);
    }

    /** What Initialize does once the mesh exists: the terrain fill, the
        queued atlas attachment and the first Rebuild. */
    method FillAndBuild(generateNothing: bool, q: TaskQueue)
      requires Valid()
      modifies this, blocks, q
      ensures IsTerrain(blocks[..], generateNothing)
      ensures faces == Faces(blocks[..]) && MeshBuffers() && firstRebuild == old(firstRebuild)
      ensures q.tasks == old(q.tasks) + [AttachAtlas(id), UploadMesh(id)]
    {
      Fill(generateNothing);
      q.QueueTask(AttachAtlas(id));
      Rebuild(q);
    }

    /** The fill loops of Initialize: slab by slab along x. */
    method Fill(generateNothing: bool)
      requires Valid()
      modifies blocks
      ensures IsTerrain(blocks[..], generateNothing)
    {
      for x := 0 to 16
        invariant forall i, j, k :: 0 <= i < x && 0 <= j < 16 && 0 <= k < 16 ==>
          blocks[Index(i, j, k)] == TerrainBlock(generateNothing, j)
      {
        FillSlab(generateNothing, x);
      }
    }

    /** The middle fill loop, over y, for the slab x. Every iteration of the
        second branch rewrites the grass row (x, 15, _), so once the loop has
        begun that row is grass. */
    method FillSlab(generateNothing: bool, x: int)
      requires Valid() && 0 <= x < 16
      modifies blocks
      ensures forall j, k :: 0 <= j < 16 && 0 <= k < 16 ==> blocks[Index(x, j, k)] == TerrainBlock(generateNothing, j)
      ensures forall i, j, k :: InChunk(i, j, k) && i != x ==> blocks[Index(i, j, k)] == old(blocks[Index(i, j, k)])
    {
      for y := 0 to 16
        invariant forall i, j, k :: InChunk(i, j, k) && i != x ==> blocks[Index(i, j, k)] == old(blocks[Index(i, j, k)])
        invariant forall j, k :: 0 <= j < y && 0 <= k < 16 ==> blocks[Index(x, j, k)] == TerrainBlock(generateNothing, j)
        invariant !generateNothing && y > 0 ==> forall k :: 0 <= k < 16 ==> blocks[Index(x, 15, k)] == Grass
      {
        FillRow(generateNothing, x, y);
      }
    }

    /** The innermost fill loop, over z, for the row (x, y): with
        generateNothing every cell becomes air; otherwise the cell gets dirt
        below 15, then stone below 12, and the grass cell (x, 15, z) is
        written as well. */
    method FillRow(generateNothing: bool, x: int, y: int)
      requires Valid() && 0 <= x < 16 && 0 <= y < 16
      modifies blocks
      ensures forall k :: 0 <= k < 16 && (generateNothing || y < 15) ==>
        blocks[Index(x, y, k)] == TerrainBlock(generateNothing, y)
      ensures !generateNothing ==> forall k :: 0 <= k < 16 ==> blocks[Index(x, 15, k)] == Grass
      ensures forall i, j, k :: InChunk(i, j, k) && (i != x || (j != y && j != 15)) ==>
        blocks[Index(i, j, k)] == old(blocks[Index(i, j, k)])
    {
      for z := 0 to 16
        invariant forall k :: 0 <= k < z && (generateNothing || y < 15) ==>
          blocks[Index(x, y, k)] == TerrainBlock(generateNothing, y)
        invariant !generateNothing ==> forall k :: 0 <= k < z ==> blocks[Index(x, 15, k)] == Grass
        invariant forall i, j, k :: InChunk(i, j, k) && (i != x || (j != y && j != 15) || k >= z) ==>
          blocks[Index(i, j, k)] == old(blocks[Index(i, j, k)])
      {
        if generateNothing {
          blocks[Index(x, y, z)] := Air;
        } else {
          if y < 15 {
            blocks[Index(x, y, z)] := Dirt;
          }
          if y < 12 {
            blocks[Index(x, y, z)] := Stone;
          }
          blocks[Index(x, 15, z)] := Grass;
        }
      }
    }

    /** Generate*Face: pushes the four vertices and six indices of one face
        and advances indicesIndex by four. */
    method GenerateFace(f: Face)
      requires MeshBuffers()
      modifies this
      ensures faces == old(faces) + [f] && MeshBuffers()
      ensures firstRebuild == old(firstRebuild)
    {
      VerticesOfAppend(faces, f);
      IndicesOfAppend(faces, f);
      vertices := vertices + FaceVertices(f);
      indices := indices + FaceIndices(indicesIndex, f.dir);
      indicesIndex := indicesIndex + 4;
      faces := faces + [f];
    }

    /** One of Rebuild's ShouldRenderFace tests and the Generate*Face call it guards. */
    method GenerateFaceIfExposed(ghost g: Grid, x: int, y: int, z: int, d: Dir)
      requires Valid() && blocks[..] == g && InChunk(x, y, z) && MeshBuffers()
      modifies this
      ensures blocks[..] == g
      ensures MeshBuffers() && firstRebuild == old(firstRebuild)
      ensures faces == old(faces) + Exposed(g, x, y, z, d)
    {
      if ShouldRenderFace(blocks[..], x, y, z, d) {
        GenerateFace(Face(IVec3(x, y, z), d, blocks[Index(x, y, z)]));
      }
    }

    /** The six tests of Rebuild for a solid cell, in the order top, bottom,
        front, back, right, left. */
    method GenerateCell(ghost g: Grid, x: int, y: int, z: int)
      requires Valid() && blocks[..] == g && InChunk(x, y, z) && MeshBuffers()
      modifies this
      ensures blocks[..] == g
      ensures faces == old(faces) + SolidCellFaces(g, x, y, z) && MeshBuffers()
      ensures firstRebuild == old(firstRebuild)
    {
      ghost var before := faces;
      GenerateFaceIfExposed(g, x, y, z, Top);
      ghost var emitted := Exposed(g, x, y, z, Top);
      GenerateFaceIfExposed(g, x, y, z, Bottom);
      AppendAssociates(before, emitted, Exposed(g, x, y, z, Bottom));
      emitted := emitted + Exposed(g, x, y, z, Bottom);
      GenerateFaceIfExposed(g, x, y, z, Front);
      AppendAssociates(before, emitted, Exposed(g, x, y, z, Front));
      emitted := emitted + Exposed(g, x, y, z, Front);
      GenerateFaceIfExposed(g, x, y, z, Back);
      AppendAssociates(before, emitted, Exposed(g, x, y, z, Back));
      emitted := emitted + Exposed(g, x, y, z, Back);
      GenerateFaceIfExposed(g, x, y, z, Right);
      AppendAssociates(before, emitted, Exposed(g, x, y, z, Right));
      emitted := emitted + Exposed(g, x, y, z, Right);
      GenerateFaceIfExposed(g, x, y, z, Left);
      AppendAssociates(before, emitted, Exposed(g, x, y, z, Left));
    }

    /** One iteration of Rebuild's innermost loop: air is skipped. */
    method GenerateCellIfSolid(ghost g: Grid, x: int, y: int, z: int)
      requires Valid() && blocks[..] == g && InChunk(x, y, z) && MeshBuffers()
      modifies this
      ensures blocks[..] == g
      ensures faces == old(faces) + CellFaces(g, x, y, z) && MeshBuffers()
      ensures firstRebuild == old(firstRebuild)
    {
      if blocks[Index(x, y, z)] != Air {
        GenerateCell(g, x, y, z);
        DirFacesInOrder(g, x, y, z);
      }
    }

    /** Rebuild's state after the first n cells of grid g, which the array holds. */
    ghost predicate BuiltUpTo(g: Grid, n: int)
      reads this, blocks
    {
      0 <= n <= CellCount && blocks[..] == g && faces == FacesUpTo(g, n) && MeshBuffers()
    }

    /** Cell z of row (x, y), as a step of the loop order: n is its flat index. */
    method GenerateRowCell(ghost g: Grid, x: int, y: int, z: int, ghost n: int)
      requires Valid() && InChunk(x, y, z) && n == Index(x, y, 0) + z && BuiltUpTo(g, n)
      modifies this
      ensures BuiltUpTo(g, n + 1) && firstRebuild == old(firstRebuild)
    {
      ghost var start := faces;
      GenerateCellIfSolid(g, x, y, z);
      RowStep(g, x, y, z, n, start, faces);
    }

    /** The innermost loop of Rebuild: the cells (x, y, 0) .. (x, y, 15). */
    method GenerateRow(ghost g: Grid, x: int, y: int, ghost n: int)
      requires Valid() && 0 <= x < 16 && 0 <= y < 16 && n == Index(x, y, 0) && BuiltUpTo(g, n)
      modifies this
      ensures BuiltUpTo(g, n + 16) && firstRebuild == old(firstRebuild)
    {
      ghost var first, m := firstRebuild, n;
      for z := 0 to 16
        invariant m == n + z && BuiltUpTo(g, m) && firstRebuild == first
      {
        GenerateRowCell(g, x, y, z, m);
        m := m + 1;
      }
      assert m == n + 16;
    }

    /** The middle loop of Rebuild: the rows (x, 0) .. (x, 15). */
    method GenerateSlab(ghost g: Grid, x: int, ghost n: int)
      requires Valid() && 0 <= x < 16 && n == Index(x, 0, 0) && BuiltUpTo(g, n)
      modifies this
      ensures BuiltUpTo(g, n + 256) && firstRebuild == old(firstRebuild)
    {
      ghost var first, m := firstRebuild, n;
      for y := 0 to 16
        invariant m == n + 16 * y && BuiltUpTo(g, m) && firstRebuild == first
      {
        GenerateRow(g, x, y, m);
        m := m + 16;
      }
      assert m == n + 256;
    }

    /** The start of Rebuild: the vertex and index buffers are emptied and
        the index counter reset. */
    method ClearBuffers(ghost g: Grid)
      requires blocks[..] == g
      modifies this
      ensures BuiltUpTo(g, 0) && vertices == [] && indices == []
      ensures firstRebuild == old(firstRebuild)
    {
      vertices, indices, indicesIndex := [], [], 0;
      faces := [];
    }

    /** The loops of Rebuild, from empty buffers: the faces of every solid
        cell of g, in x, y, z order. */
    method BuildFaces(ghost g: Grid)
      requires Valid() && blocks[..] == g
      modifies this
      ensures BuiltUpTo(g, CellCount) && firstRebuild == old(firstRebuild)
    {
      ghost var first, n := firstRebuild, 0;
      ClearBuffers(g);
      for x := 0 to 16
        invariant n == 256 * x && BuiltUpTo(g, n) && firstRebuild == first
      {
        GenerateSlab(g, x, n);
        n := n + 256;
      }
      assert n == CellCount;
    }

    /** Chunk::Rebuild: empties the buffers, emits the faces of every solid
        cell in x, y, z order, and queues the upload of the result. */
    method Rebuild(q: TaskQueue)
      requires Valid()
      modifies this, q
      ensures faces == Faces(blocks[..]) && MeshBuffers()
      ensures vertices == MeshVertices(blocks[..]) && indices == MeshIndices(blocks[..])
      ensures q.tasks == old(q.tasks) + [UploadMesh(id)]
      ensures firstRebuild == old(firstRebuild)
    {
      ghost var g: Grid := blocks[..];
      BuildFaces(g);
      assert faces == Faces(g) && MeshBuffers();
      q.QueueTask(UploadMesh(id));
    }

    /** Chunk::SetBlock: a position outside the chunk on any axis changes
        nothing; otherwise that one cell is written and the chunk rebuilt. */
    method SetBlock(p: IVec3, block: BlockType, q: TaskQueue)
      requires Valid()
      modifies this, blocks, q
      ensures !InChunk(p.x, p.y, p.z) ==>
        blocks[..] == old(blocks[..]) && q.tasks == old(q.tasks) && faces == old(faces)
        && vertices == old(vertices) && indices == old(indices) && indicesIndex == old(indicesIndex)
      ensures InChunk(p.x, p.y, p.z) ==>
        blocks[..] == old(blocks[..])[Index(p.x, p.y, p.z) := block]
        && faces == Faces(blocks[..]) && MeshBuffers()
        && q.tasks == old(q.tasks) + [UploadMesh(id)]
      ensures firstRebuild == old(firstRebuild)
    {
      if p.x < 0 || p.x >= ChunkSize {
        return;
      }
      if p.y < 0 || p.y >= ChunkSize {
        return;
      }
      if p.z < 0 || p.z >= ChunkSize {
        return;
      }
      blocks[Index(p.x, p.y, p.z)] := block;
      Rebuild(q);
    }

    /** Chunk::CleanUp: asks the renderer to remove the mesh. */
    method CleanUp(renderer: ObjectRegistry, q: TaskQueue)
      requires mesh.name in renderer.registeredObjects ==> renderer.registeredObjects[mesh.name] != null
      modifies renderer, q,
        if mesh.name in renderer.registeredObjects then {renderer.registeredObjects[mesh.name]} else {}
      ensures renderer.registeredObjects == old(renderer.registeredObjects)
      ensures mesh.name in renderer.registeredObjects ==>
        var registered := renderer.registeredObjects[mesh.name];
        q.tasks == old(q.tasks) + [ReleaseMesh(registered.name), EraseObject(mesh.name)]
        && Cleared(registered) && renderer.errorLog == old(renderer.errorLog)
      ensures mesh.name !in renderer.registeredObjects ==>
        q.tasks == old(q.tasks)
        && renderer.errorLog == old(renderer.errorLog) + [MissingObjectMessage(mesh.name.name)]
    {
      renderer.RemoveObject(mesh.name, q);
    }

    /** The closure Initialize queues: the mesh takes the "atlas" texture. */
    method RunAttachAtlas(textures: TextureRegistry)
      modifies mesh, textures
      ensures mesh.textures == Insert(old(mesh.textures), "atlas",
        Subscript(old(textures.registeredTextures), "atlas", DefaultTexture).0)
      ensures textures.registeredTextures == Subscript(old(textures.registeredTextures), "atlas", DefaultTexture).1
      ensures mesh.vertices == old(mesh.vertices) && mesh.indices == old(mesh.indices)
      ensures mesh.shader == old(mesh.shader) && mesh.transform == old(mesh.transform) && mesh.buffers == old(mesh.buffers)
      ensures "atlas" in old(textures.registeredTextures) ==> textures.errorLog == old(textures.errorLog)
      ensures "atlas" !in old(textures.registeredTextures) ==>
        textures.errorLog == old(textures.errorLog) + [MissingTextureMessage("atlas")]
    {
      mesh.RegisterTexture("atlas", textures);
    }

    /** The closure Rebuild queues. It reads the chunk's buffers when it runs,
        not when it was queued; the first run generates the mesh, later ones
        regenerate it; every run registers the mesh with the renderer. */
    method RunUploadMesh(renderer: ObjectRegistry, gpu: Gpu)
      modifies this, mesh, renderer, gpu
      ensures mesh.vertices == vertices && mesh.indices == indices
      ensures vertices == old(vertices) && indices == old(indices) && faces == old(faces)
      ensures indicesIndex == old(indicesIndex) && !firstRebuild
      ensures old(firstRebuild) ==> gpu.calls == old(gpu.calls) + [Generated(mesh.name, vertices, indices)]
      ensures !old(firstRebuild) ==> gpu.calls == old(gpu.calls) + [Regenerated(mesh.name, vertices, indices)]
      ensures renderer.registeredObjects == old(renderer.registeredObjects)[mesh.name := mesh]
      ensures renderer.errorLog == old(renderer.errorLog)
      ensures mesh.textures == old(mesh.textures) && mesh.shader == old(mesh.shader)
      ensures mesh.transform == old(mesh.transform) && mesh.buffers == old(mesh.buffers)
    {
      mesh.RegisterData(vertices, indices);
      if firstRebuild {
        mesh.Generate(gpu);
        firstRebuild := false;
      } else {
        mesh.ReGenerate(gpu);
      }
      renderer.RegisterObject(mesh);
    }
  }
}
