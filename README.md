# CubeCrafters world core, modelled in Dafny

CubeCrafters is a small voxel engine. The world is made of chunks of
16 x 16 x 16 blocks, kept in a map from chunk coordinates to chunks that
the world thread and the main thread share. The world thread runs the
streaming tick `World::Update`. It loads a fresh terrain chunk at every
missing coordinate within the view distance of the player. It then cleans
up every chunk that is far from the player on both the x and the z axis,
and queues that chunk's removal. Each chunk builds its own mesh: one quad
for each face of a solid block that borders air or the chunk's edge. The
mesh is uploaded later. OpenGL work and the mesh's registration with the
renderer are wrapped in closures and queued on the `MainThreadExecutor`.
Removing an object is split: Renderer::RemoveObject looks the object up in
the renderer's registry and cleans it up at once, and only the erase from
the registry is queued. The main thread drains that queue in FIFO order.
The drain re-checks the queue after every task, so tasks queued while it
runs (by the world thread; no closure queues tasks itself) run in the same
drain; the model places such tasks with a `Spawn` task.

This project models that core in Dafny:

- block and atlas tables (`BlockManager`);
- the chunk grid, the culling rule, the face geometry and the mesh that a
  rebuild emits (`ChunkMesh`, `Chunks`);
- the chunk store (`ChunkStore`);
- the deferred-task queue and the order a drain runs it in
  (`MainThreadExecutor`);
- the renderer's object registry and the renderable objects (`Renderer`,
  `Renderables`);
- the texture and shader registries, and their std::map `insert` /
  `operator[]` semantics (`TextureManager`, `ShaderManager`, `StdMap`);
- transforms, bounding boxes and keyboard edge detection (`Transforms`,
  `BoundingBox`, `Input`);
- the hex, split and compare helpers of password validation (`Hash`);
- the streaming tick together with the main-thread drain (`World`).

Some source behaviour is easy to lose, and the model keeps it:

- every queued closure is a `Task` value, so what is deferred and what
  happens at once stays visible;
- registries keep the first entry under `insert` and create an entry on a
  missed `operator[]`;
- the terrain fill writes its cells in the order the source does;
- the eviction rule needs both axes to be far;
- `stoi` has its own edge cases: leading white space, a sign, a base, the
  32-bit range, and the exceptions that become `Err` values;
- `getline` drops a trailing empty token.

Stateful source classes are Dafny classes with `modifies` frames. Their
loops are methods with invariants, proved against specification functions:

- `Faces(g)` is the faces one rebuild emits;
- `Schedule(q)` is the tasks one drain runs;
- `ViewOrder(pc)` is the coordinates the load loops visit;
- `Split` and `Bytes` specify the splitting and hex-decoding loops.

Lemmas then prove what the source promises about those functions.

## Model

| member | source | states |
|---|---|---|
| BoundingBox.AABB.Update | CubeCrafters/include/math/AABB.hpp:20-37 | the box is centred on the anchor in x and z and stands on it in y; the dimensions are kept, so max - min equals them |
| BoundingBox.AABB.GetHalfSize | CubeCrafters/include/math/AABB.hpp:39-42 | two half sizes add up to the dimensions |
| BoundingBox.AABB.RegisterAtOrigin | CubeCrafters/include/math/AABB.hpp:44-47 | the box of the given dimensions, anchored at the origin |
| BoundingBox.AABB.Register | CubeCrafters/include/math/AABB.hpp:49-57 | the box of the given dimensions, anchored at the given position |
| BoundingBox.AABB.IsColliding | CubeCrafters/include/math/AABB.hpp:13-18 | two boxes collide when their closed intervals overlap on x, y and z; CollidingIffCommonPoint gives its meaning |
| BoundingBox.CollidingIffCommonPoint | CubeCrafters/include/math/AABB.hpp:13-18 | two boxes that are not inverted collide exactly when some point lies in both |
| BoundingBox.CollidingIsSymmetric | CubeCrafters/include/math/AABB.hpp:13-18 | collision does not depend on argument order |
| BoundingBox.AnchoredBoxCollidesWithItself | CubeCrafters/include/math/AABB.hpp:13-18 | a placed box with non-negative dimensions collides with itself |
| BoundingBox.TouchingBoxesCollide | CubeCrafters/include/math/AABB.hpp:13-18 | boxes that only share a face still collide, because the test is closed |
| BlockManager.Id | CubeCrafters/include/world/BlockManager.hpp:9-16 | every block's enum value is below 5, and the value is 0 exactly for air |
| BlockManager.IdInjective | CubeCrafters/include/world/BlockManager.hpp:9-16 | no two block types share an enum value |
| BlockManager.GetBlockTexture | CubeCrafters/include/world/BlockManager.hpp:78-141 | every block type has six tiles, one per face |
| BlockManager.DirtAndStoneAreUniform | CubeCrafters/include/world/BlockManager.hpp:117-137 | dirt shows tile (2,15) on all six faces and stone shows (1,15) |
| BlockManager.AirAndTestShareTile | CubeCrafters/include/world/BlockManager.hpp:84-104 | air and the test block both show tile (9,2) everywhere |
| BlockManager.GrassFaces | CubeCrafters/include/world/BlockManager.hpp:106-115 | grass has its own top tile, dirt's tile underneath, and one side tile on all four sides |
| BlockManager.GetTextureCoordinates | CubeCrafters/include/world/BlockManager.hpp:20-39 | four corners of an axis-aligned rectangle, strictly inside the tile's 1/16 cell; the first corner is the cell's lower corner and the third its upper corner, each moved inwards by the padding; width and height are 1/16 less two paddings |
| ChunkMesh.Index | CubeCrafters/include/world/Chunk.hpp:173 | every cell of the 16^3 array has a flat index below 4096 |
| ChunkMesh.IndexInjective | CubeCrafters/include/world/Chunk.hpp:173 | distinct cells have distinct flat indices, and equal cells equal ones |
| ChunkMesh.Slot | CubeCrafters/include/world/Chunk.hpp:73-91 | each face has a position in the test order, and that is the slot of its tile in GetBlockTexture |
| ChunkMesh.ShouldRenderFace | CubeCrafters/include/world/Chunk.hpp:175-196 | a face is drawn exactly when the cell across it lies outside the chunk or holds air, the same rule for all six faces |
| ChunkMesh.Corners | CubeCrafters/include/world/Chunk.hpp:198-304 | each face's four corner offsets are the four distinct corners of the unit cube on that face, in an order that goes round the face's edges |
| ChunkMesh.Winding | CubeCrafters/include/world/Chunk.hpp:198-304 | each face has six indices, and each names one of its own four vertices |
| ChunkMesh.VerticesOfAt | CubeCrafters/include/world/Chunk.hpp:198-304 | vertices 4k to 4k+3 of the buffer are the four vertices of face k |
| ChunkMesh.IndicesOfAt | CubeCrafters/include/world/Chunk.hpp:198-304 | indices 6k to 6k+5 are 4k plus the winding of face k, because indicesIndex grows by four per face |
| ChunkMesh.IndicesInBounds | CubeCrafters/include/world/Chunk.hpp:198-304 | every index names a vertex that is in the buffer |
| ChunkMesh.FaceVertexPlacement | CubeCrafters/include/world/Chunk.hpp:198-304 | every vertex of a face is white and lies in the face's plane; vertex k carries corner k of the block's tile for that face |
| ChunkMesh.FaceVertexOnCell | CubeCrafters/include/world/Chunk.hpp:198-304 | every vertex of a face is a corner of the face's unit cell |
| ChunkMesh.SolidCellFacesMembers | CubeCrafters/include/world/Chunk.hpp:73-91 | the six tests on a solid cell emit exactly its exposed faces, each with the cell's block |
| ChunkMesh.CellFacesMembers | CubeCrafters/include/world/Chunk.hpp:70-91 | a cell emits exactly the faces that are emitted for it: none for air, the exposed faces otherwise |
| ChunkMesh.FacesUpToMembers | CubeCrafters/include/world/Chunk.hpp:64-94 | the first n cells in loop order emit exactly the emitted faces of the cells with index below n |
| ChunkMesh.FaceEmittedIff | CubeCrafters/include/world/Chunk.hpp:64-94 | one rebuild emits a face exactly when the cell is solid, the face is exposed and the face carries the cell's block |
| ChunkMesh.AirEmitsNothing | CubeCrafters/include/world/Chunk.hpp:70-71 | an air cell contributes no face |
| ChunkMesh.HiddenFaceNotEmitted | CubeCrafters/include/world/Chunk.hpp:175-196 | a face between two solid cells of the chunk is never emitted |
| ChunkMesh.ExposedFaceEmitted | CubeCrafters/include/world/Chunk.hpp:64-94 | every exposed face of a solid cell is in the mesh |
| ChunkMesh.MeshShape | CubeCrafters/include/world/Chunk.hpp:198-304 | the mesh has 4 vertices and 6 indices per face and every index is in range; face k is wound from vertex 4k and its vertices are its own |
| ChunkMesh.TruncatedRemainder | CubeCrafters/include/world/Chunk.hpp:145-147 | C++'s `%` has the sign of the dividend, magnitude below the divisor, and is the Euclidean remainder or that remainder less the divisor |
| ChunkMesh.BlockCoordinate | CubeCrafters/include/world/Chunk.hpp:143-154 | after the negative fix-up, the block coordinate lies in 0..15 and is the Euclidean remainder mod 16 |
| ChunkMesh.WorldToBlockCoordinates | CubeCrafters/include/world/Chunk.hpp:143-154 | every world position maps to a cell inside the chunk |
| Chunks.TerrainGrid | CubeCrafters/include/world/Chunk.hpp:23-43 | a grid is the terrain exactly when every cell holds the terrain block of its height |
| Chunks.TerrainLayers | CubeCrafters/include/world/Chunk.hpp:29-39 | generateNothing leaves only air; otherwise the layers are stone below 12, dirt from 12 to 14 and grass at 15 |
| Chunks.NatToString | CubeCrafters/include/world/Chunk.hpp:45 | std::format of a non-negative number: a non-empty run of decimal digits |
| Chunks.NatToStringValue | CubeCrafters/include/world/Chunk.hpp:45 | the printed digits read back as the number |
| Chunks.IntToString | CubeCrafters/include/world/Chunk.hpp:45 | std::format of an int: a leading '-' exactly when negative, digits after it, never a '_' |
| Chunks.IntToStringInjective | CubeCrafters/include/world/Chunk.hpp:45 | distinct integers print differently |
| Chunks.ChunkName | CubeCrafters/include/world/Chunk.hpp:45 | a chunk's mesh name starts with "Chunk_" |
| Chunks.ChunkNameInjective | CubeCrafters/include/world/Chunk.hpp:45 | chunks at distinct positions get distinct mesh names |
| Chunks.NewMesh | CubeCrafters/include/world/Chunk.hpp:45-46 | the mesh has a fresh tag "Chunk_x_y_z", no buffers, the "default" shader looked up by name, and the chunk's transform converted: position, rotation and scale carried over as reals, the pivot sentinel resolved to the position, right zero and up (0,1,0) |
| Chunks.Chunk.Initialize | CubeCrafters/include/world/Chunk.hpp:19-54 | the grid is the terrain and the buffers are the mesh of that grid; the chunk's transform is value-initialised except for its position, so the mesh's transform has zero rotation, zero scale and zero pivot; the mesh object is otherwise as above; the atlas task and then the upload task are queued |
| Chunks.Chunk.FillAndBuild | CubeCrafters/include/world/Chunk.hpp:23-53 | terrain fill, the atlas task, and a rebuild of the filled grid |
| Chunks.Chunk.Fill | CubeCrafters/include/world/Chunk.hpp:23-43 | after the three fill loops, every cell holds the terrain block of its height |
| Chunks.Chunk.FillSlab | CubeCrafters/include/world/Chunk.hpp:25-42 | slab x becomes terrain and no other slab changes |
| Chunks.Chunk.FillRow | CubeCrafters/include/world/Chunk.hpp:27-41 | row (x, y) gets its layer, except that row 15 of a filled chunk gets grass through the grass write; only that row and the grass row change |
| Chunks.Chunk.GenerateFace | CubeCrafters/include/world/Chunk.hpp:198-304 | one Generate*Face appends the face's four vertices and six indices and moves indicesIndex on by four |
| Chunks.Chunk.GenerateFaceIfExposed | CubeCrafters/include/world/Chunk.hpp:75-91 | a face is appended exactly when ShouldRenderFace holds |
| Chunks.Chunk.GenerateCell | CubeCrafters/include/world/Chunk.hpp:73-91 | a solid cell appends its exposed faces in the order top, bottom, front, back, right, left |
| Chunks.Chunk.GenerateCellIfSolid | CubeCrafters/include/world/Chunk.hpp:70-91 | an air cell is skipped; a solid cell appends its exposed faces |
| Chunks.Chunk.GenerateRowCell | CubeCrafters/include/world/Chunk.hpp:68-91 | after this cell, the buffers hold the faces of every cell up to it in loop order |
| Chunks.Chunk.GenerateRow | CubeCrafters/include/world/Chunk.hpp:68-92 | the z loop adds the faces of the next 16 cells in loop order |
| Chunks.Chunk.GenerateSlab | CubeCrafters/include/world/Chunk.hpp:66-93 | the y loop adds the faces of the next 256 cells in loop order |
| Chunks.Chunk.ClearBuffers | CubeCrafters/include/world/Chunk.hpp:60-62 | clearing the buffers and resetting indicesIndex gives the mesh of zero cells |
| Chunks.Chunk.BuildFaces | CubeCrafters/include/world/Chunk.hpp:60-94 | after clearing and the three loops, the buffers are the mesh of all 4096 cells |
| Chunks.Chunk.Rebuild | CubeCrafters/include/world/Chunk.hpp:56-112 | the vertex and index buffers are exactly the mesh of the current grid, one upload task is queued, and the upload flag is unchanged |
| Chunks.Chunk.SetBlock | CubeCrafters/include/world/Chunk.hpp:114-128 | a position outside the chunk on any axis changes nothing; otherwise that one cell changes and the buffers become the new grid's mesh, with one upload queued |
| Chunks.Chunk.CleanUp | CubeCrafters/include/world/Chunk.hpp:156-159 | a registered mesh is cleared and its release and erase are queued; an unknown mesh is logged and nothing is queued |
| Chunks.Chunk.RunAttachAtlas | CubeCrafters/include/world/Chunk.hpp:48-51 | the mesh takes the registry's "atlas" texture under insert semantics, and the registry is looked up through operator[]; the mesh's buffers, shader and transform stay as they were; a missing "atlas" is logged once, and nothing else is |
| Chunks.Chunk.RunUploadMesh | CubeCrafters/include/world/Chunk.hpp:96-111 | the mesh takes the chunk's buffers as they are when the task runs; the first run is recorded as Generate and later runs as ReGenerate; the mesh is registered; the attached atlas, the shader and the transform survive the upload, and the GL names Generate writes are not modelled |
| Renderables.RegisterVertex | CubeCrafters/include/render/RenderableObject.hpp:19-22 | the vertex keeps its position and UV, and its colour is white |
| Renderables.Renderable.Register | CubeCrafters/include/render/RenderableObject.hpp:218-228 | the object holds the tag, the buffers and the shader found by name (none when missing); it has no textures, zero handles and the default transform |
| Renderables.Renderable.RegisterTexture | CubeCrafters/include/render/RenderableObject.hpp:119-122 | the texture is always fetched from the registry; a miss is logged and inserts the default; the mesh keeps a texture it already had under that name |
| Renderables.Renderable.RegisterData | CubeCrafters/include/render/RenderableObject.hpp:124-128 | the two buffers are replaced and nothing else changes |
| Renderables.Renderable.Generate | CubeCrafters/include/render/RenderableObject.hpp:130-168 | the current buffers are recorded as a first upload |
| Renderables.Renderable.ReGenerate | CubeCrafters/include/render/RenderableObject.hpp:170-200 | the current buffers are recorded as a re-upload |
| Renderables.Renderable.CleanUp | CubeCrafters/include/render/RenderableObject.hpp:202-216 | the GPU release is queued, and the CPU-side vertices, indices and buffer table are emptied at once |
| Renderer.Release | CubeCrafters/include/render/Renderer.hpp:118-119 | a present, non-null entry queues its release; any other entry queues nothing |
| Renderer.ReleasesLength | CubeCrafters/include/render/Renderer.hpp:118-119 | with every entry present, the loop queues one release per key |
| Renderer.ReleasesAt | CubeCrafters/include/render/Renderer.hpp:118-119 | the i-th queued release belongs to the object under the i-th visited key |
| Renderer.CleanUpEach | CubeCrafters/include/render/Renderer.hpp:118-119 | every key is visited once; the queue gains one release per object in visiting order, and every object is cleared |
| Renderer.CleanUpEntry | CubeCrafters/include/render/Renderer.hpp:119 | one iteration clears its object, queues its release, and leaves earlier objects cleared |
| Renderer.ObjectRegistry.RegisterObject | CubeCrafters/include/render/Renderer.hpp:20-31 | the tag maps to this object afterwards, whether it was present or not |
| Renderer.ObjectRegistry.GetRenderableObject | CubeCrafters/include/render/Renderer.hpp:33-38 | operator[]: the stored object, or null inserted under the tag on a miss |
| Renderer.ObjectRegistry.RemoveObject | CubeCrafters/include/render/Renderer.hpp:40-55 | a registered object is cleared at once and its release and erase are queued, in that order, with the registry unchanged; an unknown tag is logged and nothing else happens |
| Renderer.ObjectRegistry.Erase | CubeCrafters/include/render/Renderer.hpp:48-51 | the deferred erase removes exactly the tag |
| Renderer.ObjectRegistry.CleanUp | CubeCrafters/include/render/Renderer.hpp:114-122 | every registered object is cleaned up once, in some key order; its releases are queued in that order and the registry is emptied |
| Textures.TextureType2String | CubeCrafters/include/render/Texture.hpp:28-44 | each type has its own uniform name, in both directions |
| Textures.String2TextureType | CubeCrafters/include/render/Texture.hpp:46-54 | exactly the diffuse and specular names map to those types; every other string is Normal |
| Textures.TextureTypeRoundTrip | CubeCrafters/include/render/Texture.hpp:28-54 | a type's name maps back to the type |
| Textures.StringRoundTrip | CubeCrafters/include/render/Texture.hpp:28-54 | a string survives the round trip exactly when it is one of the three names |
| Textures.RegisterProperties | CubeCrafters/include/render/Texture.hpp:62-72 | the record holds the four arguments |
| Textures.DefaultProperties | CubeCrafters/include/render/Texture.hpp:14 | the default is GL_REPEAT, GL_NEAREST, flipped, diffuse |
| Textures.Register | CubeCrafters/include/render/Texture.hpp:132-140 | the path is assets/domain/localPath, with no size and no handle |
| Textures.RegisterGlobalPath | CubeCrafters/include/render/Texture.hpp:142-150 | a default texture with only its name and verbatim path set |
| Textures.RegisterPathShape | CubeCrafters/include/render/Texture.hpp:132-140 | the asset path is "assets/", the domain, '/', and the local path, in that order |
| Textures.RegisterIsGlobalPathUnderAssets | CubeCrafters/include/render/Texture.hpp:132-150 | registering under a domain equals registering the assembled path globally |
| StdMap.Insert | CubeCrafters/include/render/TextureManager.hpp:11-20 | std::map::insert adds the key, keeps an existing value and changes no other key |
| StdMap.Subscript | CubeCrafters/include/render/TextureManager.hpp:22-28 | operator[] returns the stored value, or inserts and returns the default on a miss |
| StdMap.InsertKeepsFirst | CubeCrafters/include/render/ShaderManager.hpp:12-21 | a second insert under a key is a no-op, and the first value stays |
| StdMap.SubscriptIsStable | CubeCrafters/include/render/TextureManager.hpp:22-28 | after a lookup the key is present, and a second lookup sees the same value and leaves the map as it is |
| TextureManager.TextureRegistry.RegisterTexture | CubeCrafters/include/render/TextureManager.hpp:11-20 | the first texture under a name wins; the name is registered afterwards |
| TextureManager.TextureRegistry.GetTexture | CubeCrafters/include/render/TextureManager.hpp:22-28 | a hit returns the texture and changes nothing; a miss is logged, then the default is returned and left in the registry |
| ShaderManager.ShaderRegistry.RegisterShader | CubeCrafters/include/render/ShaderManager.hpp:12-21 | the first shader under a name wins |
| ShaderManager.ShaderRegistry.GetShader | CubeCrafters/include/render/ShaderManager.hpp:23-31 | a copy of the stored shader exactly when the name is registered, null otherwise |
| ShaderManager.RegisterTwiceKeepsFirst | CubeCrafters/include/render/ShaderManager.hpp:12-31 | after two registrations under one name, the lookup yields the first shader |
| Transforms.Transform.Register | CubeCrafters/include/math/Transform.hpp:27-41 | the fields are copied; the pivot sentinel (-1,-1,-1) becomes the position; up is (0,1,0) |
| Transforms.Transform.Default | CubeCrafters/include/math/Transform.hpp:6 | the default transform: zero position, rotation and pivot, unit scale |
| Transforms.Transform.Translate | CubeCrafters/include/math/Transform.hpp:17-20 | only the position moves, by the translation |
| Transforms.Transform.Rotate | CubeCrafters/include/math/Transform.hpp:22-25 | only the rotation changes, by the given amount |
| Transforms.TransformI.Default | CubeCrafters/include/math/TransformI.hpp:11-16 | a value-initialised TransformI: every field zero, up (0,1,0) |
| Transforms.TransformI.Register | CubeCrafters/include/math/TransformI.hpp:33-47 | the fields are copied and the pivot sentinel becomes the position |
| Transforms.TransformI.Translate | CubeCrafters/include/math/TransformI.hpp:18-21 | only the position moves, by the translation |
| Transforms.TransformI.Rotate | CubeCrafters/include/math/TransformI.hpp:23-26 | only the rotation changes |
| Transforms.TransformI.TranslateThereAndBack | CubeCrafters/include/math/TransformI.hpp:18-21 | translating by t and then by -t restores every field |
| Transforms.TransformI.ToTransform | CubeCrafters/include/math/TransformI.hpp:28-31 | the real transform has the converted fields, and a stored sentinel pivot becomes the position |
| Input.Advance | CubeCrafters/include/core/Input.hpp:27-35 | every known key moves its current state to last and takes the polled state; the key set is unchanged |
| Input.AdvanceIgnoresUnseenKeys | CubeCrafters/include/core/Input.hpp:27-35 | only keys with an entry are polled |
| Input.PressEdgeLastsOneUpdate | CubeCrafters/include/core/Input.hpp:45-48 | a held key reads as just pressed for exactly one update |
| Input.JustPressedAfterAdvance | CubeCrafters/include/core/Input.hpp:45-48 | after an update, a key is just pressed exactly when it is down now and was up before |
| Input.InputState.UpdateInput | CubeCrafters/include/core/Input.hpp:27-35 | the loop over the keys performs Advance |
| Input.InputState.GetKey | CubeCrafters/include/core/Input.hpp:37-43 | operator[] creates a released entry for a new key; the answer is the key's current state compared with the asked state |
| Input.InputState.GetKeyJustPressed | CubeCrafters/include/core/Input.hpp:45-48 | operator[] as above; the answer is the press edge |
| Input.FirstQueryThenHold | CubeCrafters/include/core/Input.hpp:27-48 | a newly queried key reads as up; held down, it is just pressed after one update and no longer after the next |
| NameIDTag.Tag.Register | CubeCrafters/include/record/NameIDTag.hpp:37-47 | a new tag with the given name and description "<any>" |
| Hash.HexAt | CubeCrafters/include/record/Hash.hpp:19-28 | byte i is written as its two lower-case hex digits at positions 2i and 2i+1 |
| Hash.HexLength | CubeCrafters/include/record/Hash.hpp:19-28 | the hex string is twice as long as the digest |
| Hash.HexIsLowerHex | CubeCrafters/include/record/Hash.hpp:19-28 | every character of the output is 0-9 or a-f |
| Hash.ConvertToHex | CubeCrafters/include/record/Hash.hpp:19-28 | the loop's output is Hex(digest): twice the length, with digits at 2i and 2i+1, all lower-case hex |
| Hash.Stoi | CubeCrafters/include/record/Hash.hpp:138 | a value that stoi returns is in the 32-bit int range |
| Hash.StoiOfHexPair | CubeCrafters/include/record/Hash.hpp:138 | stoi with base 16 reads back the two digits of a byte as that byte |
| Hash.StoiOfTwoHexDigits | CubeCrafters/include/record/Hash.hpp:138 | two hex digits read as 16a + b, below 256 |
| Hash.Bytes | CubeCrafters/include/record/Hash.hpp:131-143 | a decoded string has half its length in bytes, rounded up |
| Hash.ConvertToBytes | CubeCrafters/include/record/Hash.hpp:131-143 | the loop's output is Bytes(hex), and the first stoi exception becomes the error |
| Hash.HexRoundTrip | CubeCrafters/include/record/Hash.hpp:131-143 | ConvertToBytes undoes ConvertToHex for every byte sequence |
| Hash.BytesOfHexString | CubeCrafters/include/record/Hash.hpp:131-143 | a string of hex digits always decodes, and byte i comes from digits 2i and 2i+1 |
| Hash.BytesOfOddTail | CubeCrafters/include/record/Hash.hpp:135-139 | on any hex string of odd length the last digit is decoded alone, as the last of ⌈m/2⌉ bytes |
| Hash.OddTailExample | CubeCrafters/include/record/Hash.hpp:135-139 | an odd last digit is decoded alone: "abc" gives 0xab, 0x0c |
| Hash.SplitString | CubeCrafters/include/record/Hash.hpp:145-155 | the getline loop produces Split(str, delimiter) |
| Hash.NextDelimiter | CubeCrafters/include/record/Hash.hpp:151 | the scan stops at the first delimiter at or after i, or at the end |
| Hash.SplitAt | CubeCrafters/include/record/Hash.hpp:151-152 | one getline takes the token up to the next delimiter and resumes after it |
| Hash.TokensHaveNoDelimiter | CubeCrafters/include/record/Hash.hpp:145-155 | no token contains the delimiter |
| Hash.JoinSplit | CubeCrafters/include/record/Hash.hpp:145-155 | joining the tokens gives the input back, unless it ends in the delimiter |
| Hash.SplitEmptyToken | CubeCrafters/include/record/Hash.hpp:145-155 | two adjacent delimiters give an empty token |
| Hash.SplitTrailingDelimiter | CubeCrafters/include/record/Hash.hpp:145-155 | a trailing delimiter adds no token, a lone delimiter is one empty token, and the empty string has none |
| Hash.SplitThree | CubeCrafters/include/record/Hash.hpp:106-108 | three delimiter-free fields with a non-empty last field split back into themselves |
| Hash.CompareHashes | CubeCrafters/include/record/Hash.hpp:157-169 | true exactly when the two byte sequences are equal |
| Hash.ValidatePassword | CubeCrafters/include/record/Hash.hpp:104-118 | the result follows the source's steps; the format error is raised exactly when the record does not split into three parts |
| Hash.ValidationOfWellFormedRecord | CubeCrafters/include/record/Hash.hpp:104-118 | a record "n:hex(salt):hex(hash)" with a non-empty hash validates to whether the derived key equals the hash, or fails with the derivation |
| Hash.EmptyHashIsMalformed | CubeCrafters/include/record/Hash.hpp:104-118 | a record whose hash is empty is rejected as malformed |
| MainThreadExecutor.Size | CubeCrafters/include/thread/MainThreadExecutor.hpp:19-36 | every task weighs at least one, so each pop lowers the measure |
| MainThreadExecutor.ScheduleStep | CubeCrafters/include/thread/MainThreadExecutor.hpp:26-34 | one pop: an empty task is dropped; any other runs first, and a spawning one appends its tasks at the back |
| MainThreadExecutor.ScheduleAppend | CubeCrafters/include/thread/MainThreadExecutor.hpp:19-36 | FIFO: the tasks already queued run first, in order, and what they queue runs after everything queued before it |
| MainThreadExecutor.QueuedTasksRunFirst | CubeCrafters/include/thread/MainThreadExecutor.hpp:19-36 | a drain first runs the non-empty tasks queued before it, and then what those queued |
| MainThreadExecutor.ScheduleHasNoEmpty | CubeCrafters/include/thread/MainThreadExecutor.hpp:33-34 | a drain never invokes an empty task |
| MainThreadExecutor.SpawnedTasksRun | CubeCrafters/include/thread/MainThreadExecutor.hpp:21-34 | a non-empty task queued while the drain runs is invoked by the same drain |
| MainThreadExecutor.EmptyTasksAreSkipped | CubeCrafters/include/thread/MainThreadExecutor.hpp:33-34 | an empty task anywhere in the queue is popped and has no effect on what runs |
| MainThreadExecutor.NonEmptyMembers | CubeCrafters/include/thread/MainThreadExecutor.hpp:33-34 | the tasks a drain invokes from the queue are exactly its non-empty tasks |
| MainThreadExecutor.ScheduleWithoutSpawn | CubeCrafters/include/thread/MainThreadExecutor.hpp:19-36 | when no task spawns, a drain runs the non-empty tasks in queue order and nothing else |
| MainThreadExecutor.DrainStep | CubeCrafters/include/thread/MainThreadExecutor.hpp:26-34 | one pop keeps "invoked so far + still to run = the whole schedule" and lowers the measure |
| MainThreadExecutor.TaskQueue.QueueTask | CubeCrafters/include/thread/MainThreadExecutor.hpp:13-17 | QueueTask pushes at the back |
| MainThreadExecutor.TaskQueue.QueueAll | CubeCrafters/include/thread/MainThreadExecutor.hpp:13-17 | several QueueTask calls push the tasks in order |
| MainThreadExecutor.TaskQueue.Pop | CubeCrafters/include/thread/MainThreadExecutor.hpp:24-31 | an empty queue yields nothing; otherwise the front is returned and removed |
| ChunkStore.VisitLength | CubeCrafters/include/thread/ThreadedChunkMap.hpp:47-54 | a visit that sees each entry once takes as many steps as there are entries |
| ChunkStore.ThreadedChunkMap.AddChunk | CubeCrafters/include/thread/ThreadedChunkMap.hpp:29-33 | the key maps to the chunk, and an earlier chunk under it is replaced |
| ChunkStore.ThreadedChunkMap.Contains | CubeCrafters/include/thread/ThreadedChunkMap.hpp:35-39 | true exactly when the key is loaded |
| ChunkStore.ThreadedChunkMap.Copy | CubeCrafters/include/thread/ThreadedChunkMap.hpp:41-45 | the entries as they are |
| ChunkStore.ThreadedChunkMap.ForEach | CubeCrafters/include/thread/ThreadedChunkMap.hpp:47-54 | every entry is handed to the visitor exactly once |
| ChunkStore.ThreadedChunkMap.RemoveChunk | CubeCrafters/include/thread/ThreadedChunkMap.hpp:66-74 | the map is left as it is and only the erase is queued |
| ChunkStore.ThreadedChunkMap.Erase | CubeCrafters/include/thread/ThreadedChunkMap.hpp:70-73 | the deferred erase removes the key; an absent key changes nothing |
| ChunkStore.ThreadedChunkMap.GetChunk | CubeCrafters/include/thread/ThreadedChunkMap.hpp:76-85 | the stored chunk, or null on a miss |
| World.ChunkCoordinate | CubeCrafters/include/world/World.hpp:36 | the chunk coordinate c satisfies 16c <= p < 16c + 16, also for negative p |
| World.WorldToChunkCoordinates | CubeCrafters/include/world/World.hpp:33-40 | each component is the floor of the position over 16 |
| World.ChunkCoordinateUnique | CubeCrafters/include/world/World.hpp:33-40 | no other c satisfies those bounds |
| World.ChunkPlusBlock | CubeCrafters/include/world/World.hpp:33-40 | a world position is its chunk's origin plus its block coordinate from the Chunk.hpp conversion |
| World.Row | CubeCrafters/include/world/World.hpp:48-50 | row dx of the z loop visits (pc.x + dx, 0, pc.z + j - 1) at step j |
| World.RowsBeforeMembers | CubeCrafters/include/world/World.hpp:46-50 | the rows before dx visit exactly the height-0 coordinates left of dx within the view on z |
| World.InView | CubeCrafters/include/world/World.hpp:46-50 | the coordinates the load loops cover: height 0 and within the view distance on x and z; ViewOrderMembers ties it to the loops |
| World.Evicts | CubeCrafters/include/world/World.hpp:78 | the eviction test: farther than the view distance on x and on z at once |
| World.ViewOrderMembers | CubeCrafters/include/world/World.hpp:46-50 | the load loops visit exactly the in-view coordinates |
| World.MissingMembers | CubeCrafters/include/world/World.hpp:52 | the coordinates loaded are exactly the visited ones the store lacked |
| World.InViewIsKept | CubeCrafters/include/world/World.hpp:78 | no in-view coordinate is evicted, so nothing is loaded and evicted in the same tick |
| World.OneFarAxisIsKept | CubeCrafters/include/world/World.hpp:78 | a chunk near on x or on z is kept, however far it is on the other axis |
| World.HeightIsIgnored | CubeCrafters/include/world/World.hpp:50 | the observer's height changes neither the load order nor either rule |
| World.LoadTasks | CubeCrafters/include/world/World.hpp:60 | loading n chunks queues two tasks each |
| World.PlacedMembers | CubeCrafters/include/world/World.hpp:62 | after the AddChunk calls, the store holds the old keys and the new ones; an untouched old key keeps its chunk |
| World.NumberedMembers | CubeCrafters/include/world/World.hpp:54 | the chunks created get consecutive ids, and older ids keep their chunks |
| World.ErasedKeysMembers | CubeCrafters/include/thread/ThreadedChunkMap.hpp:70-73 | a key is erased by a run of tasks exactly when its erase task is among them |
| World.ProgressStep | CubeCrafters/include/world/World.hpp:50-64 | one visit keeps the load-pass accounting: a present coordinate changes nothing, and a missing one gets its chunk and two tasks |
| World.PassLoadsView | CubeCrafters/include/world/World.hpp:46-66 | after the pass, the store holds its old entries unchanged plus every in-view coordinate, each new one a chunk with a new id; the queue gained their tasks |
| World.EvictProgressStep | CubeCrafters/include/world/World.hpp:76-84 | the set of visited coordinates that the rule evicts, listed once each, is kept |
| World.LoadTasksErase | CubeCrafters/include/world/World.hpp:46-66 | the load pass queues no erase and no spawning closure |
| World.EvictionTasksErase | CubeCrafters/include/world/World.hpp:76-84 | the eviction pass queues an erase for exactly the evicted coordinates, and nothing that spawns |
| World.DrainErasesEvicted | CubeCrafters/include/world/World.hpp:76-84 | draining what one Update queued erases exactly the evicted coordinates |
| World.TickKeepsView | CubeCrafters/include/world/World.hpp:42-85 | Update and then a drain leave exactly the coordinates that were held or are in view, minus those the rule evicts |
| World.NewTerrainChunk | CubeCrafters/include/world/World.hpp:54-60 | a new terrain chunk at world position (16x, 0, 16z), with its two tasks queued |
| World.WorldState.LoadAt | CubeCrafters/include/world/World.hpp:50-64 | a present coordinate changes nothing; a missing one gets a new terrain chunk that is stored and numbered, and its tasks are queued |
| World.WorldState.LoadStep | CubeCrafters/include/world/World.hpp:50-64 | one iteration as a step of the load-pass accounting; existing entries are kept and new ones are fresh terrain |
| World.WorldState.LoadRow | CubeCrafters/include/world/World.hpp:48-65 | the z loop performs the accounting for its row |
| World.WorldState.LoadPass | CubeCrafters/include/world/World.hpp:46-66 | the x loop performs the accounting for the whole view order |
| World.WorldState.CollectChunkSet | CubeCrafters/include/world/World.hpp:68-74 | chunkSet is exactly the store's keys |
| World.WorldState.EvictOne | CubeCrafters/include/world/World.hpp:80-82 | GetChunk, CleanUp, RemoveChunk: the mesh is cleared, and the release, erase-object and erase-chunk tasks are queued in that order |
| World.WorldState.EvictStep | CubeCrafters/include/world/World.hpp:80-82 | one eviction keeps the accounting of queue, log and cleared meshes |
| World.WorldState.EvictVisit | CubeCrafters/include/world/World.hpp:78-83 | a visited coordinate is evicted exactly when the rule holds for it |
| World.WorldState.EvictPass | CubeCrafters/include/world/World.hpp:76-84 | every coordinate of chunkSet is visited once; exactly those the rule evicts are cleaned up, each once |
| World.WorldState.LoadView | CubeCrafters/include/world/World.hpp:46-66 | the load pass read as a whole (PassLoadsView) |
| World.WorldState.EvictView | CubeCrafters/include/world/World.hpp:68-84 | the eviction pass over the store's keys read as a whole |
| World.WorldState.Update | CubeCrafters/include/world/World.hpp:42-85 | the store keeps its entries and gains the missing in-view coordinates; exactly the coordinates the rule evicts are cleaned up, each once, all of them old; their erases are only queued, after the load tasks |
| World.WorldState.Run | CubeCrafters/include/thread/MainThreadExecutor.hpp:33-34 | invoking each kind of task: registry erase, store erase, the atlas texture lookup and attachment, mesh upload with its Generate or ReGenerate call and registration, GPU release, or queuing the spawned tasks; a chunk task changes only its own chunk and mesh, and only the fields its closure writes, GL names aside; the renderer's log never changes and the texture log gains a line only when "atlas" is missing |
| World.WorldState.UpdateTasks | CubeCrafters/include/thread/MainThreadExecutor.hpp:19-36 | the drain empties the queue, invokes exactly Schedule of the starting queue, and the store loses exactly the keys whose erase ran |

## Left out

- The executors: the world thread, its 100 ms sleep and its crash handler
  are left out, and so are the mutexes in ThreadedChunkMap, Chunk,
  Renderer and MainThreadExecutor. The model runs one sequential
  interleaving: an Update, then a drain of the main-thread queue.
- Floating point: glm::vec3 is modelled with reals. The float overloads of
  the two coordinate conversions are left out. World.WorldState.Update
  takes the observer's position as integers and uses the integer overload
  (World.hpp:33-40).
- Player, Camera, Raycast and Window are left out, and so is the rotated
  GetTextureCoordinates overload (trigonometry). CubeCrafters.cpp, the
  program's set-up and main loop, is not part of this model either.
- OpenGL, GLFW and stb_image are left out. Generate, ReGenerate and the
  deferred buffer release are recorded as calls on a `Gpu` log, with the
  buffers they hand over. Texture loading, shader compilation,
  ShaderManager::CleanUp and Renderer::RenderObjects (drawing) are left
  out.
- Chunks.Chunk.RunUploadMesh: Generate and ReGenerate write fresh GL names
  into the mesh's `buffers` (RenderableObject.hpp:134-136, 172-174), set the
  shader's program (ShaderObject.hpp:166) and each attached texture's id and
  size (Texture.hpp:85, 100). The model does not track GL names, so the
  buffer handles, the shader and the textures read as unchanged after an
  upload; only the buffer contents handed over are recorded on the `Gpu` log.
- World.WorldState.Run: the same holds for the UploadMesh task, whose
  clauses repeat those of Chunks.Chunk.RunUploadMesh.
- RenderableObject::GenerateSquare is left out: nothing in the chunk
  pipeline calls it.
- Renderables.Renderable.CleanUp: the GPU release is a `ReleaseMesh` task
  naming the mesh. The queued closure reads `buffers["VAO"]` and the other
  handles only when it runs, after `buffers.clear()`. The model does not
  track buffer handles, so it does not show that the deletion then reaches
  zero handles.
- MD5, SHA-256, PBKDF2 and RAND_bytes are left out. Hash.ValidatePassword
  takes key derivation as a function parameter, and GeneratePBEHash is
  that parameter. A PBKDF2 failure becomes `None`. GenerateMD5Hash,
  GenerateSHAHash, GenerateChecksum, GenerateSalt and the salted-hash
  builders are left out. Each of them is only a digest call followed by
  ConvertToHex.
- NameIDTag: the MD5 hash and the back-pointer a tag stores are left out.
  A tag is an object identity, which is how the registries compare
  shared pointers.
- The Logger is a ghost `errorLog` of the messages it would print.
- Faces are the `Dir` values Top to Left. The source names them with
  strings, and a string other than the six returns false; no caller passes
  one.
- Queued closures capture `this`. Here they are `Task` values that refer
  to a chunk by an arena id. World.WorldState.Run does nothing for an id
  that is not in the arena, a case that no chunk created by Update can
  produce.
- World.hpp's `chunk != nullptr` test after `new Chunk()` can never fail.
  The model always initialises and adds the chunk.
- ThreadedChunkMap's begin()/end() iterate over a temporary copy and are
  left out. The std::hash<glm::ivec3> specialisation is left out because
  maps are keyed by value.
- Renderer.ObjectRegistry.RemoveObject and Renderer.ObjectRegistry.CleanUp
  require registered entries to be non-null. A null entry is what a missed
  GetRenderableObject leaves behind, and the source would dereference it.
- Renderer.ObjectRegistry.CleanUp visits the entries in some order. The
  source's registry is a std::map keyed by shared_ptr, so it visits them in
  pointer order (Renderer.hpp:13), which the model does not fix.
- World.WorldState.UpdateTasks states the queue, the invoked schedule and
  the store's keys. What each invoked task does to the renderer, the
  textures, the chunk meshes and the GPU log is stated per task by
  World.WorldState.Run, not summed over the whole drain.
- World.WorldState.Update: chunk coordinates are unbounded integers. The
  source computes `playerChunkCoordinates.x + x` (World.hpp:50) and
  `chunkCoordinate.x * CHUNK_SIZE` (World.hpp:56) in 32-bit int, which
  overflows for a player about 2^27 chunks from the origin; the model has
  no such overflow.
- Hash.Bytes: a Dafny string is a sequence of characters, a std::string a
  sequence of bytes. ConvertToBytes pairs bytes with `substr`
  (Hash.hpp:137-138), so non-ASCII input is split differently. For "aé"
  the source reads the pairs "a\xC3" and "\xA9", and the second stoi throws;
  Hash.Bytes reads the one pair "aé" and gives [10].
- Renderables.Renderable.Generate records the upload whether or not the
  object has a shader. The source calls `shader->Generate()` and would
  dereference a null shader; the chunk meshes always have one.
- World.TickKeepsView: a whole tick is stated as this lemma about
  Schedule, for an Update that starts from a drained queue. It is not
  stated as one method that calls Update and then UpdateTasks.
- Input: window polling is a function parameter of UpdateInput. Mouse
  buttons and the cursor mode are left out.
