# 3d-wfc chunk generator, modelled in Dafny

This project models the chunk generator of the 3d-wfc terrain generator. A
world is split into chunks. Each chunk is 16 × 4 × 16 cells, stored as one flat
vector in which z varies fastest, then x, then y.

A `ChunkBuilder` fills one chunk with tiles using wave function collapse:
- Every cell starts in superposition over all tiles that have adjacency rules.
- Cell (0, 0, 0) is pinned to `Ground`.
- The builder then repeats two steps:
  1. it collapses the first cell with the fewest remaining candidates to one of them, chosen at random;
  2. it filters the candidate lists of that cell's six neighbours against what the cell allows on each side.
- It stops once every cell is collapsed, or once no cell with a non-empty candidate list is left.
- Cells that never collapsed come out as the debug tile `Dbg`.

Modules, one per concern of the source:

- `Tiles`: the tile kinds.
- `Grid`: the chunk dimensions and the index layout, from `util.rs` and the constants in `mod.rs`.
- `Directions`: the six directions, their unit vectors, opposites and quarter turns about y, from `dir.rs`.
- `Chunks`: chunk ids and finished chunks.
- `Wave`: the per-cell state and the specification functions of one propagation step.
  - `Propagated`, `Filter` and `Allowed` describe the step.
  - `IsLowestEntropy` describes the choice of cell.
  - `Refines` and `SuperposCount` describe the solver's progress.
- `Builder`: the `ChunkBuilder` class.
  - Its fields `wave` and `rules` are updated in place by methods, as in the source.
  - Each method is proved against the functions of `Wave`.

Behaviour kept exactly as the code has it:

- Propagation runs one pass.
  - The builder's work stack starts as `[pos]`, and a neighbour is pushed back only when it is *already* on the stack.
  - Once `pos` is popped, the stack is empty, so the six neighbours of the collapsed cell are filtered once and nothing further is propagated.
  - Propagation therefore does not continue to the cells that changed.
  - `Propagated` and the lemmas about it state the one-pass behaviour.
- The removal loop removes the first occurrence of each disallowed entry of the neighbour's original list. `RemoveStep` proves that this leaves exactly `Filter(list, allowed)`.
- Entropy is the plain count of candidates. There is no weighting and no backtracking.
- The random draw is a parameter.
  - `Collapse` takes `roll` and picks `tiles[roll % |tiles|]`.
  - `Build` takes the sequence of draws `roll(0), roll(1), …`.
  - Any draw is allowed, so every contract holds for every outcome of the random generator.

## Model

| member | source | states |
|---|---|---|
| Grid.GetIndex | src/world_generation/util.rs:5-7 | an in-bounds coordinate has an index inside the chunk volume |
| Grid.FromIndex | src/world_generation/util.rs:10-16 | decoded x and z are below CHUNK_SIZE; for an index inside the volume y is below CHUNK_HIGHT |
| Grid.FromGetIndex | src/world_generation/util.rs:22-35 | decoding the index of any in-bounds (x, y, z) gives (x, y, z) back, the round trip the test checks |
| Grid.GetFromIndex | src/world_generation/util.rs:5-16 | every index inside the volume decodes to an in-bounds coordinate that encodes back to the same index |
| Grid.IndexInjective | src/world_generation/util.rs:5-7 | distinct in-bounds coordinates get distinct indices |
| Grid.IndexStrides | src/world_generation/util.rs:5-7 | stepping z, x or y by one moves the index by 1, CHUNK_SIZE or CHUNK_AREA |
| Directions.ToVec3 | src/world_generation/dir.rs:18-27 | the integer form of to_vec3's match, one unit vector per direction, each of length 1; ToVec3IsUnit and ToVec3Injective carry the rest |
| Directions.Opposite | src/world_generation/dir.rs:29-38 | the match at dir.rs:30-37: never the direction itself, and on the same (horizontal or vertical) axis kind; OppositeInvolution and OppositeVector carry the rest |
| Directions.RotateY | src/world_generation/dir.rs:40-61 | the rotation table entry for entry: horizontal stays horizontal and Up/Down are fixed; RotateCompose, RotateInverse and RotatePermutesHorizontal carry the group structure |
| Directions.ToVec3IsUnit | src/world_generation/dir.rs:18-27 | every direction's vector has exactly one non-zero component, equal to 1 or -1 |
| Directions.ToVec3Injective | src/world_generation/dir.rs:18-27 | distinct directions have distinct vectors |
| Directions.OppositeInvolution | src/world_generation/dir.rs:29-38 | opposite is an involution without fixed points |
| Directions.OppositeVector | src/world_generation/dir.rs:18-38 | the opposite direction's vector is the negated vector |
| Directions.RotateZeroIsIdentity | src/world_generation/dir.rs:40-61 | the zero rotation leaves every direction unchanged |
| Directions.RotateFixesVertical | src/world_generation/dir.rs:58-59 | Up and Down are fixed by every rotation |
| Directions.RotatePermutesHorizontal | src/world_generation/dir.rs:40-61 | each rotation keeps horizontal directions horizontal, is injective, and maps the four horizontal directions onto themselves |
| Directions.QuarterPowers | src/world_generation/dir.rs:40-61 | two quarter turns are a half turn, three are a three-quarter turn, four are the identity |
| Directions.RotateCompose | src/world_generation/dir.rs:40-70 | rotating by r1 then r2 is rotating by their composition, so the rotations form a group of order 4 |
| Directions.RotateCommutesWithOpposite | src/world_generation/dir.rs:29-61 | rotating the opposite direction gives the opposite of the rotated direction |
| Directions.RotateInverse | src/world_generation/dir.rs:40-70 | every rotation is undone by its inverse |
| Directions.ToQuatTurn | src/world_generation/dir.rs:73-80 | the rounded effect of to_quat on a vector, -90 degrees per quarter about y: y is kept and the horizontal length is preserved; RotationTestAsWritten compares it with the table |
| Directions.RotationTestAsWritten | src/world_generation/dir.rs:73-98 | the table and the rounded quaternion turn agree exactly for the zero and half turns and for vertical directions; quarter and three-quarter turns of horizontal directions point the opposite way |
| Directions.RotationTestCounterexample | src/world_generation/dir.rs:43 | Forward turned a quarter is Left in the table and +x (Right) by the quaternion |
| Directions.RotateYMatchesFixedTurn | src/world_generation/dir.rs:40-80 | with the quaternion's angle sign reversed, the table agrees with the turn for every direction and rotation |
| Chunks.Chunk.GetTile | src/world_generation/chunk.rs:71-73 | the tile read is one of the chunk's tiles |
| Chunks.GetTileAt | src/world_generation/chunk.rs:71-73 | in a full chunk, every index inside the volume decodes to in-bounds coordinates at which GetTile reads exactly that index's tile |
| Chunks.NewChunk | src/world_generation/chunk.rs:57-65 | a new chunk has the given id, CHUNK_VOLUME tiles, Ground on every cell of layer y = 0 and Air on every cell above |
| Chunks.ChunkId.XOffset | src/world_generation/chunk.rs:40-43 | i32 add on x, overflow excluded (see Left out): x moves by exactly the offset and z is kept; OffsetsInverse carries inversion and commutation |
| Chunks.ChunkId.ZOffset | src/world_generation/chunk.rs:45-48 | i32 add on z, overflow excluded (see Left out): z moves by exactly the offset and x is kept |
| Chunks.OffsetsInverse | src/world_generation/chunk.rs:40-48 | moving an id by an offset and back restores it; x and z moves commute and leave the other axis alone |
| Wave.AdjacencyRules.FromDir | src/world_generation/chunk.rs:105-114 | the match at chunk.rs:106-113: each direction reads the list of the axis and sign of its unit vector; FromDirMatchesVector adds the opposite side |
| Wave.FromDirMatchesVector | src/world_generation/chunk.rs:95-114 | each direction reads the rule list of its own axis and sign, and its opposite reads the other list of that axis |
| Wave.Neighbor | src/world_generation/chunk.rs:281-310 | from a cell inside the chunk a neighbour index is inside the chunk |
| Wave.NeighborSpec | src/world_generation/chunk.rs:281-310 | the neighbour is None exactly when stepping by the direction's unit vector leaves the chunk, and is otherwise that cell's index (no wrap-around) |
| Wave.NeighborAt | src/world_generation/chunk.rs:281-310 | the same, for a cell given by its coordinates |
| Wave.NeighborNotSelf | src/world_generation/chunk.rs:281-310 | no cell is its own neighbour |
| Wave.NeighborDistinct | src/world_generation/chunk.rs:281-310 | different directions give different neighbours |
| Wave.NeighborSymmetric | src/world_generation/chunk.rs:281-310 | stepping back in the opposite direction returns to the start |
| Wave.Filter | src/world_generation/chunk.rs:249-258 | a tile survives filtering exactly when it was in the list and is allowed; the list never grows |
| Wave.FilterIsSubsequence | src/world_generation/chunk.rs:249-258 | filtering keeps the surviving tiles in their original order |
| Wave.FilterNoDup | src/world_generation/chunk.rs:249-258 | filtering a duplicate-free list gives a duplicate-free list |
| Wave.Position | src/world_generation/chunk.rs:256 | the position found holds the tile, and no earlier position does |
| Wave.RemoveStep | src/world_generation/chunk.rs:249-258 | removing the first occurrence of each disallowed tile, one by one, builds exactly the filtered list |
| Wave.Gather | src/world_generation/chunk.rs:240-246 | a tile is in the union exactly when some listed tile allows it in that direction |
| Wave.AllowedIsUnion | src/world_generation/chunk.rs:238-247 | a tile is allowed next to a cell exactly when one of the cell's tiles allows it on that side |
| Wave.FilterToward | src/world_generation/chunk.rs:231-263 | filtering toward one direction leaves the wave's length and the source cell unchanged |
| Wave.PassAtNeighbor | src/world_generation/chunk.rs:231-263 | after the first k directions, a neighbour visited among them holds its old candidates filtered by what the source cell allows on that side |
| Wave.PassElsewhere | src/world_generation/chunk.rs:231-263 | cells that are not among the visited neighbours are unchanged |
| Wave.PropagatedNeighbor | src/world_generation/chunk.rs:226-266 | after propagation, each in-chunk neighbour holds its old candidates filtered by what the source cell allows toward it |
| Wave.PropagatedFrame | src/world_generation/chunk.rs:226-266 | every cell that is not a neighbour of the source is unchanged |
| Wave.PropagatedNarrows | src/world_generation/chunk.rs:226-266 | propagation never adds a candidate and never changes a collapsed cell |
| Wave.PropagatedWellFormed | src/world_generation/chunk.rs:226-266 | propagation keeps every candidate a tile that has rules |
| Wave.SubsequenceTransitive | src/world_generation/chunk.rs:249-258 | narrowing twice is narrowing |
| Wave.SubsequenceMembers | src/world_generation/chunk.rs:249-258 | narrowing never introduces a tile |
| Wave.SubsequenceLength | src/world_generation/chunk.rs:249-258 | narrowing never lengthens a list |
| Wave.LowestEntropyUnique | src/world_generation/chunk.rs:194-207 | at most one cell is the first cell with the fewest candidates |
| Wave.Pick | src/world_generation/chunk.rs:216-218 | the drawn tile is one of the candidates |
| Wave.SuperposCount | src/world_generation/chunk.rs:312-319 | the count of uncollapsed cells is at most the wave's length and is zero exactly when every cell is collapsed |
| Wave.SuperposCountCollapse | src/world_generation/chunk.rs:268-279 | collapsing one cell while no other cell changes kind lowers the count by one |
| Wave.RefinesTransitive | src/world_generation/chunk.rs:161-168 | refinement across solver steps composes |
| Wave.InitialWave | src/world_generation/chunk.rs:186-191 | after initialisation cell (0, 0, 0) is Ground; every other cell lists each tile that has rules once, and a neighbour of the ground cell keeps only the tiles ground allows on that side |
| Builder.TileSetSize | src/world_generation/tile.rs:9-19 | a set of tiles has at most eight elements, so the candidate lists are far below the vector length limit |
| Builder.ChunkBuilder.constructor | src/world_generation/chunk.rs:152-154 | a new builder has the id, an empty wave and no rules |
| Builder.ChunkBuilder.AddTile | src/world_generation/chunk.rs:156-159 | the rules map gains or replaces the tile's entry and nothing else changes |
| Builder.ChunkBuilder.RuleKeys | src/world_generation/chunk.rs:187 | the keys are every tile that has rules, each once |
| Builder.ChunkBuilder.Init | src/world_generation/chunk.rs:186-191 | the new wave is the seeded wave propagated from (0, 0, 0) |
| Builder.ChunkBuilder.LowestEntropy | src/world_generation/chunk.rs:194-207 | Some(k) exactly names the first cell with the fewest non-zero candidates; None exactly when no superposed cell has a candidate |
| Builder.ChunkBuilder.Collapse | src/world_generation/chunk.rs:211-223 | a collapsed cell is an error and the wave is unchanged; otherwise the cell becomes the drawn candidate and nothing else changes |
| Builder.ChunkBuilder.AllowedNeighbors | src/world_generation/chunk.rs:238-247 | the allowed list is the specification's Allowed set for the cell and direction |
| Builder.ChunkBuilder.FilterNeighbor | src/world_generation/chunk.rs:231-263 | the neighbour toward the direction, if it is in superposition, is filtered by what the current cell allows, and no other cell changes |
| Builder.ChunkBuilder.RemoveDisallowed | src/world_generation/chunk.rs:249-263 | the neighbour's candidates become exactly the filtered list; the stack grows only if the neighbour was already on it |
| Builder.ChunkBuilder.RemoveTile | src/world_generation/chunk.rs:255-258 | the first occurrence of the tile is removed from a superposed cell; a collapsed cell is left alone |
| Builder.ChunkBuilder.Propagate | src/world_generation/chunk.rs:226-266 | the new wave is Propagated(rules, old wave, pos) and stays well-formed |
| Builder.ChunkBuilder.Iterate | src/world_generation/chunk.rs:268-279 | an error exactly when no cell can be collapsed, with the wave unchanged; otherwise the lowest-entropy cell is collapsed to the drawn tile and propagated, one fewer cell is in superposition, and every cell refines its old state |
| Builder.ChunkBuilder.IsCollapsed | src/world_generation/chunk.rs:312-319 | true exactly when every cell is collapsed |
| Builder.ChunkBuilder.Solve | src/world_generation/chunk.rs:163-168 | the loop ends with every cell collapsed or with an empty candidate list, every cell refining where it started |
| Builder.ChunkBuilder.OutputTiles | src/world_generation/chunk.rs:172-181 | one tile per cell: the collapsed tile, or Dbg; every tile is Dbg or has rules |
| Builder.ChunkBuilder.Build | src/world_generation/chunk.rs:161-184 | the chunk has the builder's id and one tile per cell; (0, 0, 0) is Ground; each output tile comes from its cell's candidates after initialisation; every tile is Dbg or has rules |

## Findings

| source | as written | input that shows it | evidently intended | confidence | as-written member | corrected member |
|---|---|---|---|---|---|---|
| src/world_generation/dir.rs:73-98 | `to_quat` turns by -90° per quarter about y. The `rotate_y` table turns the other way, so the test comparing them fails. | `Dir::Forward` with `Rotation::Quarter`: the quaternion gives +x (Right) but the table gives Left. | The table and the quaternion agree, as the test asserts. Reversing the sign of the quaternion's angle does that. | high by hand reasoning; not executed | Directions.RotationTestAsWritten, Directions.RotationTestCounterexample | Directions.RotateYMatchesFixedTurn |

## Left out

- Randomness: `rand::thread_rng` becomes the `roll` parameter. The model does not capture that the draw is uniform.
- Logging: the `eprint!`/`eprintln!` calls in `build` and `iterate`.
- Floating point:
  - `ChunkId::from_position` and `Chunk::pos` are left out.
  - `Rotation::to_quat` appears only as its rounded integer effect on axis vectors, in `ToQuatTurn`.
- `Chunk::id`, `ChunkId::new`, `x` and `z` are the datatype constructor and its fields. They have no contracts of their own.
- Chunks.ChunkId.XOffset: i32 overflow is excluded by a precondition. A debug build panics on it and a release build wraps, and the model has neither.
- Chunks.ChunkId.ZOffset: the same, for the z axis.
- Grid.GetIndex: indices are unbounded integers. A `usize` overflow is only possible for coordinates far outside the chunk, which no caller passes.
- Hash map key order: `init` lists the rule keys in the map's unspecified order. `RuleKeys` picks them in an arbitrary order, and every contract holds for any order.
- Builder.ChunkBuilder.Build: requires `Ground in rules`. `init` pins cell (0, 0, 0) to `Ground`, and `propagate` then looks up `rules[Ground]` (chunk.rs:189 and 239). A builder without rules for `Ground` panics there, and the model does not capture that panic.
- Builder.ChunkBuilder.Init: requires `Ground in rules`, for the same panic.
- Chunks.Chunk.GetTile: requires the index to be inside the tile vector. Reading outside it is an out-of-range panic, which the model does not capture.
- Builder.ChunkBuilder.Collapse: requires a non-empty candidate list for a superposed cell, because `gen_range(0..0)` panics. The only caller, `Iterate`, always passes a cell with candidates.
- `superpos.clear()` in `collapse` is not modelled, because the cell is overwritten right after.
- `WaveState::is_collapsed` is the datatype's `Collapsed?` test.
- `ChunkBuilder::default` is folded into the constructor.
- chunk.rs declares a private copy of `Dir` that is identical to the one in dir.rs. Both are modelled by the single `Directions.Dir`.
- `Rules` stays a finite map, and `Known` states which tiles have rules. A lookup of a tile without rules would panic. Every candidate in a superposed cell comes from the map's keys, so no candidate triggers this lookup. The pinned `Ground` cell is the one exception, above.
- `ISIZE_MAX` bounds candidate lists in `WellFormed`. This bound is what keeps the `usize::MAX` starting minimum of `lowest_entropy` out of reach.
- Outside this model: the Bevy plugin, chunk spawning and the world map in mod.rs, the viewers, the camera, the glTF exporter, prototype.rs, and the commented-out tile asset loading in tile.rs.
