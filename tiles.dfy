/** The kinds of tile a chunk cell can hold (the `Tile` enum of the world generator). */
module Tiles {

  /** `Dbg` marks a cell the solver could not resolve; the others are placeable tiles. */
  datatype Tile =
    | Dbg
    | Air
    | Solid
    | Ground
    | CliffLow
    | CliffLowCorner
    | CliffUpper
    | CliffUpperCorner
}
