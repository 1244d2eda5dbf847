/**
 * Chunk identifiers and the finished chunk: the grid of tiles a chunk builder
 * produces, addressed by local (x, y, z) coordinates.
 */
module Chunks {
  import opened Tiles
  import opened Grid

  newtype i32 = n: int | -0x8000_0000 <= n < 0x8000_0000

  predicate FitsI32(n: int) {
    -0x8000_0000 <= n < 0x8000_0000
  }

  /** The integer grid position of a chunk in the world, on the x and z axes. */
  datatype ChunkId = ChunkId(x: i32, z: i32) {

    /** The id `offset` chunks further along x; i32 overflow panics in a debug build and wraps in a release build. */
    function XOffset(offset: i32): (r: ChunkId)
      requires FitsI32(x as int + offset as int)
      ensures r.x as int - x as int == offset as int && r.z == z
    {
      ChunkId(x + offset, z)
    }

    /** The id `offset` chunks further along z. */
    function ZOffset(offset: i32): (r: ChunkId)
      requires FitsI32(z as int + offset as int)
      ensures r.z as int - z as int == offset as int && r.x == x
    {
      ChunkId(x, z + offset)
    }
  }

  /** A generated chunk: its id and one tile per cell in the flat layout of `Grid`. */
  datatype Chunk = Chunk(id: ChunkId, tiles: seq<Tile>) {

    /** The tile at (x, y, z); indexing past the tile vector panics in Rust. */
    function GetTile(x: nat, y: nat, z: nat): (t: Tile)
      requires GetIndex(x, y, z) < |tiles|
      ensures t in tiles
    {
      tiles[GetIndex(x, y, z)]
    }
  }

  /** The default chunk: a layer of ground at y = 0 and air above it. */
  method NewChunk(id: ChunkId) returns (c: Chunk)
    ensures c.id == id && |c.tiles| == CHUNK_VOLUME
    ensures forall x: nat, y: nat, z: nat | InBounds(x, y, z) ::
      c.GetTile(x, y, z) == if y == 0 then Ground else Air
  {
    var tiles := seq(CHUNK_VOLUME, _ => Air);
    for x := 0 to CHUNK_SIZE
      invariant |tiles| == CHUNK_VOLUME
      invariant forall i | 0 <= i < CHUNK_VOLUME :: tiles[i] == if i < x * CHUNK_SIZE then Ground else Air
    {
      for z := 0 to CHUNK_SIZE
        invariant |tiles| == CHUNK_VOLUME
        invariant forall i | 0 <= i < CHUNK_VOLUME ::
          tiles[i] == if i < x * CHUNK_SIZE + z then Ground else Air
      {
        tiles := tiles[GetIndex(x, 0, z) := Ground];
      }
    }
    c := Chunk(id, tiles);
    forall x: nat, y: nat, z: nat | InBounds(x, y, z)
      ensures c.GetTile(x, y, z) == if y == 0 then Ground else Air
    {
      FromGetIndex(x, y, z);
    }
  }

  /**
   * Every cell of a full chunk is read back by the coordinates its index
   * decodes to, so `GetTile` reaches each stored tile.
   */
  lemma GetTileAt(c: Chunk, i: nat)
    requires |c.tiles| == CHUNK_VOLUME && i < CHUNK_VOLUME
    ensures var (x, y, z) := FromIndex(i);
      InBounds(x, y, z) && c.GetTile(x, y, z) == c.tiles[i]
  {
    GetFromIndex(i);
  }

  /** Moving by an offset and back returns the same id, and moves along x and z commute. */
  lemma OffsetsInverse(id: ChunkId, a: i32, b: i32)
    requires FitsI32(id.x as int + a as int) && FitsI32(-(a as int))
    requires FitsI32(id.z as int + b as int)
    ensures id.XOffset(a).XOffset(-a) == id
    ensures id.XOffset(a).ZOffset(b) == id.ZOffset(b).XOffset(a)
    ensures id.XOffset(a).z == id.z && id.ZOffset(b).x == id.x
  {
  }
}
