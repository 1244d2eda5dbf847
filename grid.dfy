/**
 * Chunk dimensions and the flat layout of a chunk's cells.
 *
 * A chunk is CHUNK_SIZE cells wide along x and z and CHUNK_HIGHT cells tall
 * along y. Its cells live in one flat vector: z varies fastest, then x, and
 * y slowest, so each horizontal layer is a contiguous block of CHUNK_AREA cells.
 */
module Grid {

  const CHUNK_SIZE: nat := 16
  const CHUNK_AREA: nat := CHUNK_SIZE * CHUNK_SIZE
  const CHUNK_HIGHT: nat := 4
  const CHUNK_VOLUME: nat := CHUNK_AREA * CHUNK_HIGHT

  /** True when (x, y, z) names a cell of the chunk. */
  predicate InBounds(x: int, y: int, z: int) {
    0 <= x < CHUNK_SIZE && 0 <= y < CHUNK_HIGHT && 0 <= z < CHUNK_SIZE
  }

  /** Flat index of the cell at (x, y, z). */
  function GetIndex(x: nat, y: nat, z: nat): (i: nat)
    ensures InBounds(x, y, z) ==> i < CHUNK_VOLUME
  {
    y * CHUNK_AREA + x * CHUNK_SIZE + z
  }

  /** Coordinates (x, y, z) of the cell at flat index `index`. */
  function FromIndex(index: nat): (c: (nat, nat, nat))
    ensures c.0 < CHUNK_SIZE && c.2 < CHUNK_SIZE
    ensures index < CHUNK_VOLUME ==> c.1 < CHUNK_HIGHT
  {
    var z := index % CHUNK_SIZE;
    var x := index / CHUNK_SIZE % CHUNK_SIZE;
    var y := index / CHUNK_AREA;
    (x, y, z)
  }

  /** Decoding an encoded in-bounds coordinate gives the coordinate back. */
  lemma FromGetIndex(x: nat, y: nat, z: nat)
    requires InBounds(x, y, z)
    ensures FromIndex(GetIndex(x, y, z)) == (x, y, z)
  {
    var i := GetIndex(x, y, z);
    assert i == (y * CHUNK_SIZE + x) * CHUNK_SIZE + z;
    DivModSize(i, y * CHUNK_SIZE + x, z);
    DivModSize(y * CHUNK_SIZE + x, y, x);
    DivModArea(i, y, x * CHUNK_SIZE + z);
  }

  /** Encoding the decoded coordinate of an index inside the chunk gives the index back. */
  lemma GetFromIndex(i: nat)
    requires i < CHUNK_VOLUME
    ensures InBounds(FromIndex(i).0, FromIndex(i).1, FromIndex(i).2)
    ensures GetIndex(FromIndex(i).0, FromIndex(i).1, FromIndex(i).2) == i
  {
    var (x, y, z) := FromIndex(i);
    var q := i / CHUNK_SIZE;
    assert i == q * CHUNK_SIZE + z;
    assert q == (q / CHUNK_SIZE) * CHUNK_SIZE + x;
    DivDiv(i);
  }

  /** Together the two round trips make the layout a bijection between cells and indices. */
  lemma IndexInjective(x1: nat, y1: nat, z1: nat, x2: nat, y2: nat, z2: nat)
    requires InBounds(x1, y1, z1) && InBounds(x2, y2, z2)
    requires GetIndex(x1, y1, z1) == GetIndex(x2, y2, z2)
    ensures x1 == x2 && y1 == y2 && z1 == z2
  {
    FromGetIndex(x1, y1, z1);
    FromGetIndex(x2, y2, z2);
  }

  /** z varies fastest, then x, then y. */
  lemma IndexStrides(x: nat, y: nat, z: nat)
    ensures GetIndex(x, y, z + 1) == GetIndex(x, y, z) + 1
    ensures GetIndex(x + 1, y, z) == GetIndex(x, y, z) + CHUNK_SIZE
    ensures GetIndex(x, y + 1, z) == GetIndex(x, y, z) + CHUNK_AREA
  {
  }

  // Division facts used above.

  lemma DivModSize(n: nat, q: nat, r: nat)
    requires r < CHUNK_SIZE && n == q * CHUNK_SIZE + r
    ensures n / CHUNK_SIZE == q && n % CHUNK_SIZE == r
  {
  }

  lemma DivModArea(n: nat, q: nat, r: nat)
    requires r < CHUNK_AREA && n == q * CHUNK_AREA + r
    ensures n / CHUNK_AREA == q && n % CHUNK_AREA == r
  {
  }

  lemma DivDiv(i: nat)
    ensures i / CHUNK_AREA == i / CHUNK_SIZE / CHUNK_SIZE
  {
    var q := i / CHUNK_SIZE;
    var y := q / CHUNK_SIZE;
    assert i == (y * CHUNK_SIZE + q % CHUNK_SIZE) * CHUNK_SIZE + i % CHUNK_SIZE;
    assert i == y * CHUNK_AREA + ((q % CHUNK_SIZE) * CHUNK_SIZE + i % CHUNK_SIZE);
    DivModArea(i, y, (q % CHUNK_SIZE) * CHUNK_SIZE + i % CHUNK_SIZE);
  }
}
