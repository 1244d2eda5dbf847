/**
 * The chunk builder: a wave function collapse solver that fills one chunk.
 *
 * The builder holds one `WaveState` per cell and the adjacency rules of every
 * tile it may place. `Build` seeds the wave, then repeatedly collapses the
 * cell with the fewest remaining candidates and filters its neighbours, until
 * no cell can be collapsed any more; cells left unresolved come out as `Dbg`.
 */
module Builder {
  import opened Options
  import opened Tiles
  import opened Grid
  import opened Directions
  import opened Chunks
  import opened Wave

  datatype WaveError = WaveError

  datatype Result<T> = Ok(value: T) | Err(error: WaveError)

  /** The largest `usize`, the starting minimum of the entropy search. */
  const USIZE_MAX: nat := 0xFFFF_FFFF_FFFF_FFFF

  /** A set whose elements all occur in `l` has at most |l| elements. */
  lemma {:induction false} CoveredSize(s: set<Tile>, l: seq<Tile>)
    requires forall t | t in s :: t in l
    ensures |s| <= |l|
    decreases |l|
  {
    if l != [] {
      var rest := s - {l[0]};
      forall t | t in rest
        ensures t in l[1..]
      {
        assert t in l && t != l[0];
      }
      CoveredSize(rest, l[1..]);
    }
  }

  /** A set of tiles has at most as many elements as there are kinds of tile. */
  lemma TileSetSize(s: set<Tile>)
    ensures |s| <= 8
  {
    var all := [Dbg, Air, Solid, Ground, CliffLow, CliffLowCorner, CliffUpper, CliffUpperCorner];
    forall t | t in s
      ensures t in all
    {
      match t
      case Dbg =>
      case Air =>
      case Solid =>
      case Ground =>
      case CliffLow =>
      case CliffLowCorner =>
      case CliffUpper =>
      case CliffUpperCorner =>
    }
    CoveredSize(s, all);
  }

  /** A second update of the same index overwrites the first. */
  lemma UpdateTwice(s: seq<WaveState>, q: nat, a: WaveState, b: WaveState)
    requires q < |s|
    ensures s[q := a][q := b] == s[q := b]
  {
  }

  class ChunkBuilder {
    var id: ChunkId
    var wave: seq<WaveState>
    var rules: Rules

    ghost predicate Valid()
      reads this
    {
      WellFormed(rules, wave)
    }

    constructor (id: ChunkId)
      ensures Valid()
      ensures this.id == id && wave == [] && rules == map[]
    {
      this.id := id;
      wave := [];
      rules := map[];
    }

    /** Registers the adjacency rules of `tile`, replacing any it had. */
    method AddTile(tile: Tile, r: AdjacencyRules)
      requires Valid()
      modifies this`rules
      ensures Valid()
      ensures rules == old(rules)[tile := r]
    {
      rules := rules[tile := r];
    }

    /** Runs the solver and returns the chunk it produced. */
    method Build(roll: nat -> nat) returns (c: Chunk)
      requires Valid() && Ground in rules
      modifies this`wave
      ensures Valid() && |wave| == CHUNK_VOLUME
      ensures exists keys ::
        && IsKeyList(keys, rules)
        && forall i | 0 <= i < CHUNK_VOLUME :: Refines(Propagated(rules, Seeded(keys), 0)[i], wave[i])
      ensures wave[GetIndex(0, 0, 0)] == Collapsed(Ground)
      ensures forall i | 0 <= i < |wave| :: wave[i].Collapsed? || wave[i] == Superpos([])
      ensures c.id == id && |c.tiles| == CHUNK_VOLUME
      ensures forall i | 0 <= i < |wave| :: c.tiles[i] == OutputTile(wave[i])
      ensures forall i | 0 <= i < |c.tiles| :: c.tiles[i] == Dbg || c.tiles[i] in rules
    {
      Init();
      ghost var keys :| IsKeyList(keys, rules) && wave == Propagated(rules, Seeded(keys), 0);
      InitialWave(rules, keys, 1);
      Solve(roll);
      var tiles := OutputTiles();
      c := Chunk(id, tiles);
    }

    /**
     * The solving loop of `Build`: iterates until every cell is collapsed or
     * no cell is left that could be collapsed. The i-th iteration draws
     * `roll(i)`.
     */
    method Solve(roll: nat -> nat)
      requires Valid() && |wave| == CHUNK_VOLUME
      modifies this`wave
      ensures Valid() && |wave| == CHUNK_VOLUME
      ensures forall i | 0 <= i < |wave| :: Refines(old(wave)[i], wave[i])
      ensures forall i | 0 <= i < |wave| :: wave[i].Collapsed? || wave[i] == Superpos([])
    {
      ghost var start := wave;
      forall i | 0 <= i < |wave|
        ensures Refines(start[i], wave[i])
      {
        RefinesReflexive(wave[i]);
      }
      var steps: nat := 0;
      var done := IsCollapsed();
      while !done
        invariant Valid() && |wave| == CHUNK_VOLUME
        invariant done <==> forall i | 0 <= i < |wave| :: wave[i].Collapsed?
        invariant forall i | 0 <= i < |wave| :: Refines(start[i], wave[i])
        decreases SuperposCount(wave)
      {
        ghost var before := wave;
        var r := Iterate(roll(steps));
        forall i | 0 <= i < |wave|
          ensures Refines(start[i], wave[i])
        {
          RefinesTransitive(start[i], before[i], wave[i]);
        }
        if r.Err? {
          break;
        }
        steps := steps + 1;
        done := IsCollapsed();
      }
    }

    /** The tiles of the finished chunk: each collapsed cell's tile, `Dbg` for any other cell. */
    method OutputTiles() returns (tiles: seq<Tile>)
      requires Valid()
      ensures |tiles| == |wave|
      ensures forall i | 0 <= i < |wave| :: tiles[i] == OutputTile(wave[i])
      ensures forall i | 0 <= i < |tiles| :: tiles[i] == Dbg || tiles[i] in rules
    {
      tiles := [];
      for i := 0 to |wave|
        invariant |tiles| == i
        invariant forall j | 0 <= j < i :: tiles[j] == OutputTile(wave[j])
      {
        match wave[i]
        case Collapsed(tile) => tiles := tiles + [tile];
        case Superpos(_) => tiles := tiles + [Dbg];
      }
      forall i | 0 <= i < |tiles|
        ensures tiles[i] == Dbg || tiles[i] in rules
      {
        assert Known(rules, wave[i]);
        if wave[i].Collapsed? {
          assert wave[i].tile in CellTiles(wave[i]);
        }
      }
    }

    /** The tiles that have rules, each once, in an unspecified order (a hash map's key order). */
    method RuleKeys() returns (keys: seq<Tile>)
      ensures IsKeyList(keys, rules)
      ensures |keys| == |rules|
    {
      keys := [];
      var rest := rules.Keys;
      while rest != {}
        invariant NoDup(keys)
        invariant forall t :: t in rules <==> t in keys || t in rest
        invariant forall t | t in keys :: t !in rest
        invariant |keys| + |rest| == |rules|
        decreases rest
      {
        var t :| t in rest;
        keys := keys + [t];
        rest := rest - {t};
      }
    }

    /** Seeds every cell with all tiles that have rules, pins (0, 0, 0) to ground and propagates. */
    method Init()
      requires Valid() && Ground in rules
      modifies this`wave
      ensures Valid() && |wave| == CHUNK_VOLUME
      ensures exists keys :: IsKeyList(keys, rules) && wave == Propagated(rules, Seeded(keys), 0)
    {
      var tiles := RuleKeys();
      TileSetSize(rules.Keys);
      wave := seq(CHUNK_VOLUME, _ => Superpos(tiles));
      wave := wave[GetIndex(0, 0, 0) := Collapsed(Ground)];
      assert wave == Seeded(tiles);
      Propagate(GetIndex(0, 0, 0));
    }

    /** The first cell with the fewest candidates among the cells that have some. */
    method LowestEntropy() returns (r: Option<nat>)
      requires Valid()
      ensures r.Some? ==> IsLowestEntropy(wave, r.value)
      ensures r.None? <==> !HasCandidate(wave)
    {
      var pos: Option<nat> := None;
      var min: nat := USIZE_MAX;
      for i := 0 to |wave|
        invariant pos.None? ==> min == USIZE_MAX
        invariant pos.None? ==> forall j | 0 <= j < i :: !IsCandidate(wave[j])
        invariant pos.Some? ==> pos.value < i && IsCandidate(wave[pos.value])
        invariant pos.Some? ==> min == |wave[pos.value].tiles|
        invariant pos.Some? ==> forall j | 0 <= j < i && IsCandidate(wave[j]) :: min <= |wave[j].tiles|
        invariant pos.Some? ==> forall j | 0 <= j < pos.value && IsCandidate(wave[j]) :: min < |wave[j].tiles|
      {
        match wave[i]
        case Collapsed(_) =>
        case Superpos(p) =>
          var entropy := |p|;
          if entropy != 0 && entropy < min {
            min := entropy;
            pos := Some(i);
          }
      }
      r := pos;
    }

    /** Collapses the cell at `pos` to one of its candidates, the one the draw `roll` selects. */
    method Collapse(pos: nat, roll: nat) returns (r: Result<Tile>)
      requires Valid() && pos < |wave|
      requires wave[pos].Superpos? ==> wave[pos].tiles != []
      modifies this`wave
      ensures Valid() && |wave| == |old(wave)|
      ensures old(wave[pos]).Collapsed? ==> r == Err(WaveError) && wave == old(wave)
      ensures old(wave[pos]).Superpos? ==>
        && r == Ok(Pick(old(wave[pos]).tiles, roll))
        && wave == old(wave)[pos := Collapsed(r.value)]
    {
      match wave[pos]
      case Collapsed(_) =>
        return Err(WaveError);
      case Superpos(superpos) =>
        var len := |superpos|;
        var index := roll % len;
        var tile := superpos[index];
        wave := wave[pos := Collapsed(tile)];
        return Ok(tile);
    }

    /** The tiles the cell `current` allows as its neighbour in direction `d`. */
    method AllowedNeighbors(current: WaveState, d: Dir) returns (res: seq<Tile>)
      requires Known(rules, current)
      ensures res == Allowed(rules, current, d)
    {
      match current
      case Collapsed(tile) =>
        res := rules[tile].FromDir(d);
      case Superpos(list) =>
        res := [];
        for i := 0 to |list|
          invariant res == Gather(rules, list[..i], d)
        {
          assert list[..i + 1][..i] == list[..i];
          res := res + rules[list[i]].FromDir(d);
        }
        assert list[..|list|] == list;
    }

    /**
     * Filters the candidates of the neighbours of `pos` against what the cell
     * at `pos` allows. The work stack starts as [pos]; a neighbour is pushed
     * only when it is already on the stack, which it never is once `pos` has
     * been popped, so exactly one pass over the six neighbours of `pos` runs.
     */
    method Propagate(pos: nat)
      requires Valid() && |wave| == CHUNK_VOLUME && pos < CHUNK_VOLUME
      modifies this`wave
      ensures Valid()
      ensures wave == Propagated(rules, old(wave), pos)
    {
      ghost var w0 := wave;
      var stack: seq<nat> := [pos];
      while stack != []
        invariant |wave| == CHUNK_VOLUME
        invariant (stack == [pos] && wave == w0) || (stack == [] && wave == Propagated(rules, w0, pos))
        decreases |stack|
      {
        var currentPos := stack[|stack| - 1];
        stack := stack[..|stack| - 1];
        for k := 0 to |ALL_DIRS|
          invariant stack == [] && currentPos == pos
          invariant wave == Pass(rules, w0, pos, k)
        {
          var dir := ALL_DIRS[k];
          stack := FilterNeighbor(pos, currentPos, dir, stack);
        }
      }
      PropagatedWellFormed(rules, w0, pos);
    }

    /**
     * One direction of a propagation step: the neighbour of `pos` toward
     * `dir`, when it exists and is in superposition, keeps only the tiles
     * that the cell at `currentPos` allows on that side.
     */
    method FilterNeighbor(pos: nat, currentPos: nat, dir: Dir, stack: seq<nat>) returns (stack': seq<nat>)
      requires |wave| == CHUNK_VOLUME && pos < CHUNK_VOLUME && currentPos < CHUNK_VOLUME
      requires Known(rules, wave[currentPos])
      modifies this`wave
      ensures var n := Neighbor(pos, dir);
        if n.Some? && old(wave)[n.value].Superpos? then
          wave == old(wave)[n.value := Narrowed(old(wave)[n.value], Allowed(rules, old(wave)[currentPos], dir))]
        else wave == old(wave)
      ensures currentPos == pos ==> wave == FilterToward(rules, old(wave), pos, dir)
      ensures Neighbor(pos, dir).None? || Neighbor(pos, dir).value !in stack ==> stack' == stack
    {
      stack' := stack;
      NeighborNotSelf(pos, dir);
      var neighborPos := Neighbor(pos, dir);
      if neighborPos.Some? && wave[neighborPos.value].Superpos? {
        var q := neighborPos.value;
        var allowed := AllowedNeighbors(wave[currentPos], dir);
        stack' := RemoveDisallowed(q, allowed, stack);
      }
    }

    /**
     * Removes from the candidates of cell `q` every tile that `allowed` does
     * not contain, one first occurrence per disallowed entry of the original
     * list. The cell `q` is pushed on `stack` only when it is already there.
     */
    method RemoveDisallowed(q: nat, allowed: seq<Tile>, stack: seq<nat>) returns (stack': seq<nat>)
      requires q < |wave| && wave[q].Superpos?
      modifies this`wave
      ensures wave == old(wave)[q := Superpos(Filter(old(wave)[q].tiles, allowed))]
      ensures q !in stack ==> stack' == stack
    {
      stack' := stack;
      var neighbor := wave[q].tiles;
      ghost var before := wave;
      PartialEnds(neighbor, allowed);
      assert before[q := Superpos(neighbor)] == before;
      for i := 0 to |neighbor|
        invariant q !in stack ==> stack' == stack
        invariant wave == before[q := Superpos(Partial(neighbor, allowed, i))]
      {
        var tile := neighbor[i];
        if tile !in allowed {
          RemoveStep(neighbor, allowed, i);
          ghost var cur := Partial(neighbor, allowed, i);
          ghost var next := Partial(neighbor, allowed, i + 1);
          assert wave[q] == Superpos(cur);
          RemoveTile(q, tile);
          assert wave == before[q := Superpos(cur)][q := Superpos(next)];
          UpdateTwice(before, q, Superpos(cur), Superpos(next));
          if q in stack' {
            stack' := stack' + [q];
          }
        } else {
          PartialKeep(neighbor, allowed, i);
        }
      }
    }

    /** Removes the first occurrence of `tile` from the candidates of cell `q`, if it is in superposition. */
    method RemoveTile(q: nat, tile: Tile)
      requires q < |wave| && (wave[q].Superpos? ==> tile in wave[q].tiles)
      modifies this`wave
      ensures old(wave[q]).Superpos? ==> wave == old(wave)[q := Superpos(RemoveFirst(old(wave[q]).tiles, tile))]
      ensures old(wave[q]).Collapsed? ==> wave == old(wave)
    {
      if wave[q].Superpos? {
        var n := wave[q].tiles;
        var index := Position(n, tile);
        wave := wave[q := Superpos(n[..index] + n[index + 1..])];
      }
    }

    /** One solver step: collapse the lowest-entropy cell and propagate from it. */
    method Iterate(roll: nat) returns (r: Result<()>)
      requires Valid() && |wave| == CHUNK_VOLUME
      modifies this`wave
      ensures Valid() && |wave| == CHUNK_VOLUME
      ensures r.Err? <==> !HasCandidate(old(wave))
      ensures r.Err? ==> wave == old(wave)
      ensures r.Ok? ==> exists k: nat ::
        && IsLowestEntropy(old(wave), k)
        && wave == Propagated(rules, old(wave)[k := Collapsed(Pick(old(wave)[k].tiles, roll))], k)
      ensures r.Ok? ==> SuperposCount(wave) == SuperposCount(old(wave)) - 1
      ensures forall i | 0 <= i < |wave| :: Refines(old(wave)[i], wave[i])
    {
      ghost var w0 := wave;
      var pos := LowestEntropy();
      if pos.None? {
        forall i | 0 <= i < |wave|
          ensures Refines(w0[i], wave[i])
        {
          RefinesReflexive(wave[i]);
        }
        return Err(WaveError);
      }
      var k := pos.value;
      var tile := Collapse(k, roll);
      // The `?` on this call in the source never fires: cell k is in superposition.
      assert tile.Ok?;
      ghost var w1 := wave;
      Propagate(k);
      forall i | 0 <= i < |wave|
        ensures Refines(w0[i], wave[i])
        ensures i != k ==> w0[i].Superpos? == wave[i].Superpos?
      {
        PropagatedNarrows(rules, w1, k, i);
      }
      SuperposCountCollapse(w0, wave, k);
      r := Ok(());
    }

    /** True when no cell is left in superposition. */
    method IsCollapsed() returns (r: bool)
      ensures r <==> forall i | 0 <= i < |wave| :: wave[i].Collapsed?
    {
      for i := 0 to |wave|
        invariant forall j | 0 <= j < i :: wave[j].Collapsed?
      {
        if !wave[i].Collapsed? {
          return false;
        }
      }
      return true;
    }
  }
}
