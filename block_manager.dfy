/** Block types and the texture-atlas tables of BlockManager. */
module BlockManager {
  import opened Vectors

  datatype BlockType = Air | Test | Grass | Dirt | Stone

  /** The enum's underlying value, the number a chunk cell holds. */
  function Id(b: BlockType): (n: nat)
    ensures n < 5
    ensures n == 0 <==> b == Air
  {
    match b
    case Air => 0
    case Test => 1
    case Grass => 2
    case Dirt => 3
    case Stone => 4
  }

  lemma IdInjective(a: BlockType, b: BlockType)
    ensures Id(a) == Id(b) ==> a == b
  {
  }

  /** An atlas tile, addressed by column and row. */
  datatype Tile = Tile(x: int, y: int)

  const AtlasSize := 256
  const TilePixelSize := 16

  /** Fraction of the atlas one tile spans: 16 / 256. */
  const PerTextureSize: real := TilePixelSize as real / AtlasSize as real

  /** PADDING_RATIO * perTextureSize, the inset on each side of a tile. */
  const Padding: real := (1.0 / AtlasSize as real) * PerTextureSize

  /** Uniform table for a block that shows the same tile on all six faces. */
  function Uniform(t: Tile): seq<Tile> {
    [t, t, t, t, t, t]
  }

  /** The six tiles of a block in face order top, bottom, front, back, right, left. */
  function GetBlockTexture(b: BlockType): (r: seq<Tile>)
    ensures |r| == 6
  {
    match b
    case Air => Uniform(Tile(9, 2))
    case Test => Uniform(Tile(9, 2))
    case Grass => [Tile(0, 15), Tile(2, 15), Tile(3, 15), Tile(3, 15), Tile(3, 15), Tile(3, 15)]
    case Dirt => Uniform(Tile(2, 15))
    case Stone => Uniform(Tile(1, 15))
  }

  lemma DirtAndStoneAreUniform(i: int)
    requires 0 <= i < 6
    ensures GetBlockTexture(Dirt)[i] == Tile(2, 15)
    ensures GetBlockTexture(Stone)[i] == Tile(1, 15)
  {
  }

  lemma AirAndTestShareTile(i: int)
    requires 0 <= i < 6
    ensures GetBlockTexture(Air)[i] == GetBlockTexture(Test)[i] == Tile(9, 2)
  {
  }

  /** Grass has its own top, a dirt bottom and the same side tile on all four sides. */
  lemma GrassFaces(i: int)
    requires 2 <= i < 6
    ensures GetBlockTexture(Grass)[0] == Tile(0, 15)
    ensures GetBlockTexture(Grass)[1] == GetBlockTexture(Dirt)[1]
    ensures GetBlockTexture(Grass)[i] == Tile(3, 15)
  {
  }

  /** The unrotated UV rectangle of a tile, corners (u0,v0), (u1,v0), (u1,v1), (u0,v1). */
  function GetTextureCoordinates(t: Tile): (r: seq<Vec2>)
    ensures |r| == 4
    ensures r[0].x == r[3].x && r[1].x == r[2].x && r[0].y == r[1].y && r[2].y == r[3].y
    ensures t.x as real / 16.0 < r[0].x < r[1].x < (t.x + 1) as real / 16.0
    ensures t.y as real / 16.0 < r[0].y < r[2].y < (t.y + 1) as real / 16.0
    ensures r[1].x - r[0].x == r[2].y - r[1].y == PerTextureSize - 2.0 * Padding
    ensures r[0] == Vec2(t.x as real / 16.0 + Padding, t.y as real / 16.0 + Padding)
    ensures r[2] == Vec2((t.x + 1) as real / 16.0 - Padding, (t.y + 1) as real / 16.0 - Padding)
  {
    var u0 := t.x as real * PerTextureSize + Padding;
    var v0 := t.y as real * PerTextureSize + Padding;
    var u1 := (t.x + 1) as real * PerTextureSize - Padding;
    var v1 := (t.y + 1) as real * PerTextureSize - Padding;
    [Vec2(u0, v0), Vec2(u1, v0), Vec2(u1, v1), Vec2(u0, v1)]
  }
}
