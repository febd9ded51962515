/** The pure part of Chunk.hpp: the 16x16x16 grid layout, the face-culling
    rule, the geometry of the six Generate*Face functions, the mesh that one
    Rebuild emits as a function of the grid, and the integer world-to-block
    coordinate wrap. */
module ChunkMesh {
  import opened Vectors
  import opened BlockManager
  import opened Renderables

  const ChunkSize := 16

  /** The number of cells in a chunk. */
  const CellCount := 4096

  predicate InChunk(x: int, y: int, z: int) {
    0 <= x < ChunkSize && 0 <= y < ChunkSize && 0 <= z < ChunkSize
  }

  /** The cell blocks[x][y][z] of the source's row-major array, flattened:
      increasing index is the x, then y, then z loop order of Initialize and Rebuild. */
  function Index(x: int, y: int, z: int): (i: int)
    ensures InChunk(x, y, z) ==> 0 <= i < CellCount
  {
    (x * 16 + y) * 16 + z
  }

  /** Distinct cells have distinct indices. */
  lemma IndexInjective(x: int, y: int, z: int, x': int, y': int, z': int)
    requires InChunk(x, y, z) && InChunk(x', y', z')
    ensures Index(x, y, z) == Index(x', y', z') <==> x == x' && y == y' && z == z'
  {
    var i, i' := Index(x, y, z), Index(x', y', z');
    assert i == 256 * x + 16 * y + z && i' == 256 * x' + 16 * y' + z';
    if x < x' {
      assert i < 256 * (x + 1) <= i';
    } else if x' < x {
      assert i' < 256 * (x' + 1) <= i;
    } else if y < y' {
      assert i < 256 * x + 16 * (y + 1) <= i';
    } else if y' < y {
      assert i' < 256 * x + 16 * (y' + 1) <= i;
    }
  }

  /** A chunk's cells: blocks[x][y][z] is g[Index(x, y, z)]. */
  type Grid = g: seq<BlockType> | |g| == CellCount witness seq(CellCount, _ => Air)

  /** The six faces; the source names them "top", "bottom", "front", "back",
      "right" and "left". */
  datatype Dir = Top | Bottom | Front | Back | Right | Left

  /** The order in which Rebuild tries the faces of a cell. */
  const Dirs: seq<Dir> := [Top, Bottom, Front, Back, Right, Left]

  /** The position of a face in Dirs, which is also its slot in GetBlockTexture's table. */
  function Slot(d: Dir): (k: nat)
    ensures k < 6 && Dirs[k] == d
  {
    match d
    case Top => 0
    case Bottom => 1
    case Front => 2
    case Back => 3
    case Right => 4
    case Left => 5
  }

  /** The unit step from a cell across one of its faces. */
  function Normal(d: Dir): IVec3 {
    match d
    case Top => IVec3(0, 1, 0)
    case Bottom => IVec3(0, -1, 0)
    case Front => IVec3(0, 0, 1)
    case Back => IVec3(0, 0, -1)
    case Right => IVec3(1, 0, 0)
    case Left => IVec3(-1, 0, 0)
  }

  /** Chunk::ShouldRenderFace: a face is drawn when it lies on the chunk's
      boundary or the cell across it holds air; for all six faces alike, when
      the neighbouring cell across it lies outside the chunk or holds air. */
  predicate ShouldRenderFace(g: Grid, x: int, y: int, z: int, d: Dir): (b: bool)
    requires InChunk(x, y, z)
    ensures var n := AddI(IVec3(x, y, z), Normal(d));
      b <==> !InChunk(n.x, n.y, n.z) || g[Index(n.x, n.y, n.z)] == Air
  {
    match d
    case Top => y == ChunkSize - 1 || g[Index(x, y + 1, z)] == Air
    case Bottom => y == 0 || g[Index(x, y - 1, z)] == Air
    case Front => z == ChunkSize - 1 || g[Index(x, y, z + 1)] == Air
    case Back => z == 0 || g[Index(x, y, z - 1)] == Air
    case Right => x == ChunkSize - 1 || g[Index(x + 1, y, z)] == Air
    case Left => x == 0 || g[Index(x - 1, y, z)] == Air
  }

  /** One emitted face: the cell, the face and the cell's block. */
  datatype Face = Face(cell: IVec3, dir: Dir, block: BlockType)

  /** Corner c of the unit cube lies on the cube's face d. */
  predicate OnFace(c: IVec3, d: Dir) {
    match d
    case Top => c.y == 1
    case Bottom => c.y == 0
    case Front => c.z == 1
    case Back => c.z == 0
    case Right => c.x == 1
    case Left => c.x == 0
  }

  /** Two corners of the unit cube share an edge: they differ on one axis only. */
  predicate EdgeAdjacent(a: IVec3, b: IVec3) {
    (if a.x == b.x then 0 else 1) + (if a.y == b.y then 0 else 1) + (if a.z == b.z then 0 else 1) == 1
  }

  /** The corner offsets of each Generate*Face, in emission order: the four
      distinct corners of the unit cube on face d, each sharing an edge with
      the next, so that the quad goes round the face's boundary. */
  function Corners(d: Dir): (r: seq<IVec3>)
    ensures |r| == 4
    ensures forall k :: 0 <= k < 4 ==>
      0 <= r[k].x <= 1 && 0 <= r[k].y <= 1 && 0 <= r[k].z <= 1 && OnFace(r[k], d)
    ensures forall i, j :: 0 <= i < j < 4 ==> r[i] != r[j]
    ensures EdgeAdjacent(r[0], r[1]) && EdgeAdjacent(r[1], r[2])
    ensures EdgeAdjacent(r[2], r[3]) && EdgeAdjacent(r[3], r[0])
  {
    match d
    case Top => [IVec3(0, 1, 1), IVec3(0, 1, 0), IVec3(1, 1, 0), IVec3(1, 1, 1)]
    case Bottom => [IVec3(0, 0, 0), IVec3(1, 0, 0), IVec3(1, 0, 1), IVec3(0, 0, 1)]
    case Front => [IVec3(0, 0, 1), IVec3(1, 0, 1), IVec3(1, 1, 1), IVec3(0, 1, 1)]
    case Back => [IVec3(1, 0, 0), IVec3(0, 0, 0), IVec3(0, 1, 0), IVec3(1, 1, 0)]
    case Right => [IVec3(1, 0, 1), IVec3(1, 0, 0), IVec3(1, 1, 0), IVec3(1, 1, 1)]
    case Left => [IVec3(0, 0, 0), IVec3(0, 0, 1), IVec3(0, 1, 1), IVec3(0, 1, 0)]
  }

  /** The two triangles of a face, as offsets from its first vertex: the top
      face is wound 0,2,1 / 0,3,2, the other five 0,1,2 / 0,2,3. */
  function Winding(d: Dir): (r: seq<int>)
    ensures |r| == 6
    ensures forall j :: 0 <= j < 6 ==> 0 <= r[j] < 4
  {
    if d == Top then [0, 2, 1, 0, 3, 2] else [0, 1, 2, 0, 2, 3]
  }

  /** The UV rectangle a face of a block shows. */
  function FaceUVs(f: Face): (r: seq<Vec2>)
    ensures |r| == 4
  {
    GetTextureCoordinates(GetBlockTexture(f.block)[Slot(f.dir)])
  }

  /** Vertex k of a face: corner k of the face, offset by the cell, with UV k. */
  function FaceVertex(f: Face, k: int): Vertex
    requires 0 <= k < 4
  {
    RegisterVertex(ToReal(AddI(f.cell, Corners(f.dir)[k])), FaceUVs(f)[k])
  }

  /** The four vertices Generate*Face pushes for a face. */
  function FaceVertices(f: Face): (r: seq<Vertex>)
    ensures |r| == 4
  {
    seq(4, k requires 0 <= k < 4 => FaceVertex(f, k))
  }

  /** The six indices Generate*Face pushes when `base` vertices precede the face. */
  function FaceIndices(base: int, d: Dir): (r: seq<int>)
    ensures |r| == 6
  {
    seq(6, j requires 0 <= j < 6 => base + Winding(d)[j])
  }

  /** The vertex buffer of a sequence of faces. */
  function VerticesOf(fs: seq<Face>): (r: seq<Vertex>)
    ensures |r| == 4 * |fs|
  {
    if fs == [] then [] else VerticesOf(fs[..|fs| - 1]) + FaceVertices(fs[|fs| - 1])
  }

  /** The index buffer of a sequence of faces: face k refers to vertices 4k .. 4k+3. */
  function IndicesOf(fs: seq<Face>): (r: seq<int>)
    ensures |r| == 6 * |fs|
  {
    if fs == [] then [] else IndicesOf(fs[..|fs| - 1]) + FaceIndices(4 * (|fs| - 1), fs[|fs| - 1].dir)
  }

  lemma VerticesOfAppend(fs: seq<Face>, f: Face)
    ensures VerticesOf(fs + [f]) == VerticesOf(fs) + FaceVertices(f)
  {
    assert (fs + [f])[..|fs|] == fs;
  }

  lemma IndicesOfAppend(fs: seq<Face>, f: Face)
    ensures IndicesOf(fs + [f]) == IndicesOf(fs) + FaceIndices(4 * |fs|, f.dir)
  {
    assert (fs + [f])[..|fs|] == fs;
  }

  /** Vertices 4k .. 4k+3 are those of face k. */
  lemma {:induction false} VerticesOfAt(fs: seq<Face>, k: int, j: int)
    requires 0 <= k < |fs| && 0 <= j < 4
    ensures VerticesOf(fs)[4 * k + j] == FaceVertices(fs[k])[j]
    decreases |fs|
  {
    var n := |fs| - 1;
    var earlier := fs[..n];
    assert VerticesOf(fs) == VerticesOf(earlier) + FaceVertices(fs[n]);
    if k < n {
      assert earlier[k] == fs[k];
      VerticesOfAt(earlier, k, j);
      assert 4 * k + j < |VerticesOf(earlier)|;
    } else {
      assert 4 * k + j == |VerticesOf(earlier)| + j;
    }
  }

  /** Indices 6k .. 6k+5 are 4k plus the winding of face k. */
  lemma {:induction false} IndicesOfAt(fs: seq<Face>, k: int, j: int)
    requires 0 <= k < |fs| && 0 <= j < 6
    ensures IndicesOf(fs)[6 * k + j] == 4 * k + Winding(fs[k].dir)[j]
    decreases |fs|
  {
    var n := |fs| - 1;
    var earlier := fs[..n];
    assert IndicesOf(fs) == IndicesOf(earlier) + FaceIndices(4 * n, fs[n].dir);
    if k < n {
      assert earlier[k] == fs[k];
      IndicesOfAt(earlier, k, j);
      assert 6 * k + j < |IndicesOf(earlier)|;
    } else {
      assert 6 * k + j == |IndicesOf(earlier)| + j;
    }
  }

  /** Every index names one of the emitted vertices. */
  lemma {:induction false} IndicesInBounds(fs: seq<Face>)
    ensures forall i :: 0 <= i < |IndicesOf(fs)| ==> 0 <= IndicesOf(fs)[i] < |VerticesOf(fs)|
    decreases |fs|
  {
    if fs != [] {
      var n := |fs| - 1;
      IndicesInBounds(fs[..n]);
      var last := FaceIndices(4 * n, fs[n].dir);
      forall j | 0 <= j < 6
        ensures 4 * n <= last[j] < 4 * n + 4
      {
        assert last[j] == 4 * n + Winding(fs[n].dir)[j];
      }
    }
  }

  /** The four vertices of a face lie in the face's plane, are white, and
      carry the corners of the block's tile for that face. */
  lemma FaceVertexPlacement(f: Face, k: int)
    requires 0 <= k < 4
    ensures var v := FaceVertices(f)[k];
      && v.color == One
      && v.textureCoordinates == GetTextureCoordinates(GetBlockTexture(f.block)[Slot(f.dir)])[k]
      && (f.dir == Top ==> v.position.y == (f.cell.y + 1) as real)
      && (f.dir == Bottom ==> v.position.y == f.cell.y as real)
      && (f.dir == Front ==> v.position.z == (f.cell.z + 1) as real)
      && (f.dir == Back ==> v.position.z == f.cell.z as real)
      && (f.dir == Right ==> v.position.x == (f.cell.x + 1) as real)
      && (f.dir == Left ==> v.position.x == f.cell.x as real)
  {
  }

  /** Every vertex of a face sits on a corner of the face's cell. */
  lemma FaceVertexOnCell(f: Face, k: int)
    requires 0 <= k < 4
    ensures var p := FaceVertices(f)[k].position;
      && f.cell.x as real <= p.x <= (f.cell.x + 1) as real
      && f.cell.y as real <= p.y <= (f.cell.y + 1) as real
      && f.cell.z as real <= p.z <= (f.cell.z + 1) as real
  {
  }

  /** The face that one of Rebuild's ShouldRenderFace tests emits for a solid
      cell, if any. */
  function Exposed(g: Grid, x: int, y: int, z: int, d: Dir): seq<Face>
    requires InChunk(x, y, z)
  {
    if ShouldRenderFace(g, x, y, z, d) then [Face(IVec3(x, y, z), d, g[Index(x, y, z)])] else []
  }

  /** The faces that Rebuild's six tests emit for a solid cell, in its order:
      top, bottom, front, back, right, left. */
  function SolidCellFaces(g: Grid, x: int, y: int, z: int): seq<Face>
    requires InChunk(x, y, z)
  {
    Exposed(g, x, y, z, Top) + Exposed(g, x, y, z, Bottom) + Exposed(g, x, y, z, Front)
    + Exposed(g, x, y, z, Back) + Exposed(g, x, y, z, Right) + Exposed(g, x, y, z, Left)
  }

  function DirFaces(g: Grid, x: int, y: int, z: int, k: nat): seq<Face>
    requires InChunk(x, y, z) && k <= 6
  {
    if k == 0 then [] else DirFaces(g, x, y, z, k - 1) + Exposed(g, x, y, z, Dirs[k - 1])
  }

  lemma DirFacesInOrder(g: Grid, x: int, y: int, z: int)
    requires InChunk(x, y, z)
    ensures DirFaces(g, x, y, z, 6) == SolidCellFaces(g, x, y, z)
  {
    var top, bottom, front := Exposed(g, x, y, z, Top), Exposed(g, x, y, z, Bottom), Exposed(g, x, y, z, Front);
    var back, right, left := Exposed(g, x, y, z, Back), Exposed(g, x, y, z, Right), Exposed(g, x, y, z, Left);
    assert Dirs[0] == Top && Dirs[1] == Bottom && Dirs[2] == Front;
    assert Dirs[3] == Back && Dirs[4] == Right && Dirs[5] == Left;
    calc {
      DirFaces(g, x, y, z, 6);
      DirFaces(g, x, y, z, 5) + left;
      DirFaces(g, x, y, z, 4) + right + left;
      DirFaces(g, x, y, z, 3) + back + right + left;
      DirFaces(g, x, y, z, 2) + front + back + right + left;
      DirFaces(g, x, y, z, 1) + bottom + front + back + right + left;
      DirFaces(g, x, y, z, 0) + top + bottom + front + back + right + left;
      { assert DirFaces(g, x, y, z, 0) == []; }
      top + bottom + front + back + right + left;
    }
  }

  /** The faces Rebuild emits for cell (x, y, z): none for air. */
  function CellFaces(g: Grid, x: int, y: int, z: int): seq<Face>
    requires InChunk(x, y, z)
  {
    if g[Index(x, y, z)] == Air then [] else DirFaces(g, x, y, z, 6)
  }

  /** Every flat index names a cell: x = n / 256, y = (n / 16) % 16, z = n % 16. */
  lemma CellExists(n: int)
    requires 0 <= n < CellCount
    ensures exists x, y, z :: InChunk(x, y, z) && Index(x, y, z) == n
  {
    var x, y, z := n / 256, (n / 16) % 16, n % 16;
    assert n == 256 * x + 16 * y + z;
    assert InChunk(x, y, z) && Index(x, y, z) == n;
  }

  /** The cell at flat index n: the inverse of Index. */
  ghost function CellOf(n: int): (c: IVec3)
    requires 0 <= n < CellCount
    ensures InChunk(c.x, c.y, c.z) && Index(c.x, c.y, c.z) == n
  {
    CellExists(n);
    var x, y, z :| InChunk(x, y, z) && Index(x, y, z) == n;
    IVec3(x, y, z)
  }

  lemma CellOfIndex(x: int, y: int, z: int)
    requires InChunk(x, y, z)
    ensures CellOf(Index(x, y, z)) == IVec3(x, y, z)
  {
    var c := CellOf(Index(x, y, z));
    IndexInjective(c.x, c.y, c.z, x, y, z);
  }

  /** The faces of the first n cells in Rebuild's x, y, z loop order. */
  ghost function FacesUpTo(g: Grid, n: int): seq<Face>
    requires 0 <= n <= CellCount
  {
    if n == 0 then []
    else
      var c := CellOf(n - 1);
      FacesUpTo(g, n - 1) + CellFaces(g, c.x, c.y, c.z)
  }

  /** One more cell of the loops. */
  lemma FacesUpToStep(g: Grid, x: int, y: int, z: int)
    requires InChunk(x, y, z)
    ensures FacesUpTo(g, Index(x, y, z) + 1) == FacesUpTo(g, Index(x, y, z)) + CellFaces(g, x, y, z)
  {
    CellOfIndex(x, y, z);
  }

  /** One cell further along a row of the loop order: n is the flat index of (x, y, z). */
  lemma RowStep(g: Grid, x: int, y: int, z: int, n: int, start: seq<Face>, faces: seq<Face>)
    requires 0 <= x < ChunkSize && 0 <= y < ChunkSize && 0 <= z < ChunkSize && n == Index(x, y, 0) + z
    requires start == FacesUpTo(g, n) && faces == start + CellFaces(g, x, y, z)
    ensures faces == FacesUpTo(g, n + 1)
  {
    assert n == Index(x, y, z);
    FacesUpToStep(g, x, y, z);
  }

  /** The faces one Rebuild emits, in its loop order. */
  ghost function Faces(g: Grid): seq<Face> {
    FacesUpTo(g, CellCount)
  }

  /** The mesh buffers one Rebuild leaves behind. */
  ghost function MeshVertices(g: Grid): seq<Vertex> {
    VerticesOf(Faces(g))
  }

  ghost function MeshIndices(g: Grid): seq<int> {
    IndicesOf(Faces(g))
  }

  /** A face is emitted for face d of a cell iff the cell is solid and the
      face is exposed; the face carries the cell's block. */
  ghost predicate Emitted(g: Grid, f: Face) {
    InChunk(f.cell.x, f.cell.y, f.cell.z)
    && f.block == g[Index(f.cell.x, f.cell.y, f.cell.z)] && f.block != Air
    && ShouldRenderFace(g, f.cell.x, f.cell.y, f.cell.z, f.dir)
  }

  lemma ExposedMembers(g: Grid, x: int, y: int, z: int, d: Dir, f: Face)
    requires InChunk(x, y, z)
    ensures f in Exposed(g, x, y, z, d) <==>
      f == Face(IVec3(x, y, z), d, g[Index(x, y, z)]) && ShouldRenderFace(g, x, y, z, d)
  {
  }

  /** Each of the six faces of a solid cell is emitted exactly when it is exposed. */
  lemma SolidCellFacesMembers(g: Grid, x: int, y: int, z: int, f: Face)
    requires InChunk(x, y, z)
    ensures f in SolidCellFaces(g, x, y, z) <==>
      f.cell == IVec3(x, y, z) && f.block == g[Index(x, y, z)] && ShouldRenderFace(g, x, y, z, f.dir)
  {
    ExposedMembers(g, x, y, z, Top, f);
    ExposedMembers(g, x, y, z, Bottom, f);
    ExposedMembers(g, x, y, z, Front, f);
    ExposedMembers(g, x, y, z, Back, f);
    ExposedMembers(g, x, y, z, Right, f);
    ExposedMembers(g, x, y, z, Left, f);
  }

  lemma CellFacesMembers(g: Grid, x: int, y: int, z: int, f: Face)
    requires InChunk(x, y, z)
    ensures f in CellFaces(g, x, y, z) <==> f.cell == IVec3(x, y, z) && Emitted(g, f)
  {
    DirFacesInOrder(g, x, y, z);
    SolidCellFacesMembers(g, x, y, z, f);
  }

  /** Membership in a concatenation, for parts whose members are known. */
  lemma MembersOfAppend(a: seq<Face>, b: seq<Face>, f: Face, inA: bool, inB: bool)
    requires f in a <==> inA
    requires f in b <==> inB
    ensures f in a + b <==> inA || inB
  {
  }

  lemma {:induction false} FacesUpToMembers(g: Grid, n: int, f: Face)
    requires 0 <= n <= CellCount
    ensures f in FacesUpTo(g, n) <==> Emitted(g, f) && Index(f.cell.x, f.cell.y, f.cell.z) < n
  {
    if n > 0 {
      var c := CellOf(n - 1);
      FacesUpToMembers(g, n - 1, f);
      CellFacesMembers(g, c.x, c.y, c.z, f);
      var emitted := Emitted(g, f);
      if emitted {
        IndexInjective(f.cell.x, f.cell.y, f.cell.z, c.x, c.y, c.z);
      }
      MembersOfAppend(FacesUpTo(g, n - 1), CellFaces(g, c.x, c.y, c.z), f,
        emitted && Index(f.cell.x, f.cell.y, f.cell.z) < n - 1,
        emitted && Index(f.cell.x, f.cell.y, f.cell.z) == n - 1);
    }
  }

  /** The culling rule: Rebuild emits a face exactly for the exposed faces of
      solid cells, with the cell's block. */
  lemma FaceEmittedIff(g: Grid, f: Face)
    ensures f in Faces(g) <==> Emitted(g, f)
  {
    FacesUpToMembers(g, CellCount, f);
  }

  /** Air cells emit nothing. */
  lemma AirEmitsNothing(g: Grid, x: int, y: int, z: int, d: Dir, b: BlockType)
    requires InChunk(x, y, z) && g[Index(x, y, z)] == Air
    ensures Face(IVec3(x, y, z), d, b) !in Faces(g)
  {
    FaceEmittedIff(g, Face(IVec3(x, y, z), d, b));
  }

  /** A face between two solid cells of the chunk is never emitted. */
  lemma HiddenFaceNotEmitted(g: Grid, x: int, y: int, z: int, d: Dir, b: BlockType)
    requires InChunk(x, y, z)
    requires var n := AddI(IVec3(x, y, z), Normal(d)); InChunk(n.x, n.y, n.z) && g[Index(n.x, n.y, n.z)] != Air
    ensures Face(IVec3(x, y, z), d, b) !in Faces(g)
  {
    FaceEmittedIff(g, Face(IVec3(x, y, z), d, b));
  }

  /** An exposed face of a solid cell is emitted. */
  lemma ExposedFaceEmitted(g: Grid, x: int, y: int, z: int, d: Dir)
    requires InChunk(x, y, z) && g[Index(x, y, z)] != Air
    requires ShouldRenderFace(g, x, y, z, d)
    ensures Face(IVec3(x, y, z), d, g[Index(x, y, z)]) in Faces(g)
  {
    FaceEmittedIff(g, Face(IVec3(x, y, z), d, g[Index(x, y, z)]));
  }

  /** The mesh of a grid: 4 vertices and 6 indices per emitted face, every
      index in range, face k wound from vertex 4k. */
  lemma MeshShape(g: Grid, k: int, j: int)
    requires 0 <= k < |Faces(g)| && 0 <= j < 6
    ensures |MeshVertices(g)| == 4 * |Faces(g)| && |MeshIndices(g)| == 6 * |Faces(g)|
    ensures forall i :: 0 <= i < |MeshIndices(g)| ==> 0 <= MeshIndices(g)[i] < |MeshVertices(g)|
    ensures MeshIndices(g)[6 * k + j] == 4 * k + Winding(Faces(g)[k].dir)[j]
    ensures j < 4 ==> MeshVertices(g)[4 * k + j] == FaceVertices(Faces(g)[k])[j]
  {
    IndicesInBounds(Faces(g));
    IndicesOfAt(Faces(g), k, j);
    if j < 4 {
      VerticesOfAt(Faces(g), k, j);
    }
  }

  lemma MulAtLeast(n: int, d: int)
    requires n > 0
    ensures d >= 1 ==> n * d >= n
  {
    if d >= 1 {
      assert n * d == n * (d - 1) + n;
    }
  }

  /** Euclidean division is unique: a remainder in [0, n) is the remainder. */
  lemma ModUnique(x: int, n: int, q: int, r: int)
    requires n > 0 && 0 <= r < n && x == n * q + r
    ensures x % n == r
  {
    var d := q - x / n;
    assert n * d == x % n - r;
    MulAtLeast(n, d);
    MulAtLeast(n, -d);
  }

  /** The C++ `%` on int: the remainder takes the sign of the dividend and is
      congruent to it modulo n, so it is either the Euclidean remainder or that
      remainder less n. */
  function TruncatedRemainder(a: int, n: int): (r: int)
    requires n > 0
    ensures -n < r < n
    ensures a >= 0 ==> r >= 0
    ensures a < 0 ==> r <= 0
    ensures r == a % n || r == a % n - n
  {
    if a >= 0 then a % n
    else
      var m := -a;
      var s := m % n;
      assert m == n * (m / n) + s;
      if s == 0 then
        ModUnique(a, n, -(m / n), 0);
        -s
      else
        ModUnique(a, n, -(m / n) - 1, n - s);
        -s
  }

  /** One component of the integer Chunk::WorldToBlockCoordinates. */
  function BlockCoordinate(p: int): (b: int)
    ensures 0 <= b < ChunkSize
    ensures b == p % ChunkSize
  {
    var r := TruncatedRemainder(p, ChunkSize);
    if r < 0 then ChunkSize + r else r
  }

  /** Chunk::WorldToBlockCoordinates (integer overload), componentwise. */
  function WorldToBlockCoordinates(p: IVec3): (b: IVec3)
    ensures InChunk(b.x, b.y, b.z)
  {
    IVec3(BlockCoordinate(p.x), BlockCoordinate(p.y), BlockCoordinate(p.z))
  }
}
