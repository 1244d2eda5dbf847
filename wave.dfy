/**
 * The solver's per-cell state and the specification of one propagation pass.
 *
 * A wave is one `WaveState` per chunk cell. A rule set maps each tile to its
 * adjacency rules: for every direction, the tiles allowed as the neighbour on
 * that side. `Propagated` is the wave that one call of the builder's
 * propagation produces, and the lemmas below state what it does to each cell.
 */
module Wave {
  import opened Options
  import opened Tiles
  import opened Grid
  import opened Directions

  /** For one tile: the tiles allowed next to it on the +x, -x, +y, -y, +z and -z sides. */
  datatype AdjacencyRules = AdjacencyRules(
    pX: seq<Tile>, nX: seq<Tile>,
    pY: seq<Tile>, nY: seq<Tile>,
    pZ: seq<Tile>, nZ: seq<Tile>)
  {
    /** The tiles allowed as the neighbour in direction `d`. */
    function FromDir(d: Dir): (l: seq<Tile>)
      ensures l == ListFor(this, ToVec3(d))
    {
      match d
      case Forward => nZ
      case Backward => pZ
      case Left => nX
      case Right => pX
      case Up => pY
      case Down => nY
    }
  }

  /** The rule list of `r` for the side that the unit vector `v` points to. */
  function ListFor(r: AdjacencyRules, v: IVec3): seq<Tile> {
    if v.x == 1 then r.pX else if v.x == -1 then r.nX
    else if v.y == 1 then r.pY else if v.y == -1 then r.nY
    else if v.z == 1 then r.pZ else r.nZ
  }

  /**
   * Looking rules up by direction agrees with looking them up by the
   * direction's unit vector: each direction reads the list of its own axis
   * and sign, and the opposite direction reads the other list of that axis.
   */
  lemma FromDirMatchesVector(r: AdjacencyRules, d: Dir)
    ensures r.FromDir(d) == ListFor(r, ToVec3(d))
    ensures r.FromDir(Opposite(d)) == ListFor(r, Neg(ToVec3(d)))
  {
    OppositeVector(d);
  }

  type Rules = map<Tile, AdjacencyRules>

  /** A cell is either resolved to one tile or still holds its candidate tiles. */
  datatype WaveState = Collapsed(tile: Tile) | Superpos(tiles: seq<Tile>)

  /** The directions in the order the solver visits them. */
  const ALL_DIRS: seq<Dir> := [Forward, Backward, Left, Right, Up, Down]

  /** The tiles a cell still admits. */
  function CellTiles(c: WaveState): seq<Tile> {
    match c
    case Collapsed(t) => [t]
    case Superpos(ts) => ts
  }

  /** The tile a cell becomes in the finished chunk: its tile when collapsed, `Dbg` otherwise. */
  function OutputTile(c: WaveState): Tile {
    match c
    case Collapsed(t) => t
    case Superpos(_) => Dbg
  }

  /** Every tile of the cell has an entry in the rules (looking up any other tile panics). */
  predicate Known(rules: Rules, c: WaveState) {
    forall t | t in CellTiles(c) :: t in rules
  }

  predicate NoDup(s: seq<Tile>) {
    forall i, j | 0 <= i < j < |s| :: s[i] != s[j]
  }

  // ---------------------------------------------------------------------------
  // Neighbours

  /**
   * The index of the cell one step from `pos` in direction `d`, or None when
   * that step leaves the chunk.
   */
  function Neighbor(pos: nat, d: Dir): (r: Option<nat>)
    ensures pos < CHUNK_VOLUME && r.Some? ==> r.value < CHUNK_VOLUME
  {
    var (x, y, z) := FromIndex(pos);
    var (xOff, yOff, zOff) := match d
      case Forward => (0, 0, -1)
      case Backward => (0, 0, 1)
      case Left => (-1, 0, 0)
      case Right => (1, 0, 0)
      case Up => (0, 1, 0)
      case Down => (0, -1, 0);
    if (x == 0 && xOff == -1) || (x == CHUNK_SIZE - 1 && xOff == 1) then None
    else if (y == 0 && yOff == -1) || (y == CHUNK_HIGHT - 1 && yOff == 1) then None
    else if (z == 0 && zOff == -1) || (z == CHUNK_SIZE - 1 && zOff == 1) then None
    else Some(GetIndex(x + xOff, y + yOff, z + zOff))
  }

  /** Adding the unit vector of `d` to the coordinates of `pos`. */
  function Step(pos: nat, d: Dir): (int, int, int) {
    var (x, y, z) := FromIndex(pos);
    var v := ToVec3(d);
    (x + v.x, y + v.y, z + v.z)
  }

  /**
   * From a cell of the chunk, the neighbour is None exactly when the step by
   * the direction's unit vector leaves the chunk, and is otherwise the index
   * of the stepped coordinate: there is no wrap-around.
   */
  lemma NeighborSpec(pos: nat, d: Dir)
    requires pos < CHUNK_VOLUME
    ensures var (x, y, z) := Step(pos, d);
      && (Neighbor(pos, d).None? <==> !InBounds(x, y, z))
      && (Neighbor(pos, d).Some? ==> Neighbor(pos, d).value == GetIndex(x, y, z))
  {
  }

  lemma NeighborNotSelf(pos: nat, d: Dir)
    requires pos < CHUNK_VOLUME
    ensures Neighbor(pos, d) != Some(pos)
  {
    if Neighbor(pos, d) == Some(pos) {
      NeighborSpec(pos, d);
      var (x, y, z) := Step(pos, d);
      GetFromIndex(pos);
      IndexInjective(x, y, z, FromIndex(pos).0, FromIndex(pos).1, FromIndex(pos).2);
      ToVec3IsUnit(d);
      assert false;
    }
  }

  /** Different directions lead to different neighbours. */
  lemma NeighborDistinct(pos: nat, d1: Dir, d2: Dir)
    requires pos < CHUNK_VOLUME
    requires Neighbor(pos, d1).Some? && Neighbor(pos, d1) == Neighbor(pos, d2)
    ensures d1 == d2
  {
    NeighborSpec(pos, d1);
    NeighborSpec(pos, d2);
    var (x1, y1, z1) := Step(pos, d1);
    var (x2, y2, z2) := Step(pos, d2);
    IndexInjective(x1, y1, z1, x2, y2, z2);
    ToVec3Injective(d1, d2);
  }

  /** Neighbour of a cell given by its coordinates. */
  lemma NeighborAt(x: nat, y: nat, z: nat, d: Dir)
    requires InBounds(x, y, z)
    ensures var v := ToVec3(d);
      && (Neighbor(GetIndex(x, y, z), d).None? <==> !InBounds(x + v.x, y + v.y, z + v.z))
      && (Neighbor(GetIndex(x, y, z), d).Some? ==>
            Neighbor(GetIndex(x, y, z), d).value == GetIndex(x + v.x, y + v.y, z + v.z))
  {
    FromGetIndex(x, y, z);
    NeighborSpec(GetIndex(x, y, z), d);
  }

  /** Stepping back in the opposite direction returns to the start. */
  lemma NeighborSymmetric(pos: nat, d: Dir)
    requires pos < CHUNK_VOLUME && Neighbor(pos, d).Some?
    ensures Neighbor(Neighbor(pos, d).value, Opposite(d)) == Some(pos)
  {
    var q := Neighbor(pos, d).value;
    var (x, y, z) := FromIndex(pos);
    GetFromIndex(pos);
    var v := ToVec3(d);
    var x', y', z' := x + v.x, y + v.y, z + v.z;
    StepThere(x, y, z, d);
    assert q == GetIndex(x', y', z');
    StepBack(x', y', z', d);
    assert Neighbor(q, Opposite(d)) == Some(GetIndex(x, y, z));
  }

  lemma StepThere(x: nat, y: nat, z: nat, d: Dir)
    requires InBounds(x, y, z) && Neighbor(GetIndex(x, y, z), d).Some?
    ensures var v := ToVec3(d);
      InBounds(x + v.x, y + v.y, z + v.z) &&
      Neighbor(GetIndex(x, y, z), d).value == GetIndex(x + v.x, y + v.y, z + v.z)
  {
    NeighborAt(x, y, z, d);
  }

  lemma StepBack(x': nat, y': nat, z': nat, d: Dir)
    requires var v := ToVec3(d); InBounds(x', y', z') && InBounds(x' - v.x, y' - v.y, z' - v.z)
    ensures var v := ToVec3(d);
      Neighbor(GetIndex(x', y', z'), Opposite(d)) == Some(GetIndex(x' - v.x, y' - v.y, z' - v.z))
  {
    NeighborAt(x', y', z', Opposite(d));
    match d
    case Forward =>
    case Backward =>
    case Left =>
    case Right =>
    case Up =>
    case Down =>
  }

  predicate Adjacent(pos: nat, i: nat) {
    exists d: Dir :: Neighbor(pos, d) == Some(i)
  }

  // ---------------------------------------------------------------------------
  // Filtering candidate lists

  /** The tiles of `s` that occur in `allowed`, in their order in `s`. */
  function Filter(s: seq<Tile>, allowed: seq<Tile>): (r: seq<Tile>)
    ensures forall t :: t in r <==> t in s && t in allowed
    ensures |r| <= |s|
  {
    if s == [] then []
    else
      var last := s[|s| - 1];
      assert s == s[..|s| - 1] + [last];
      Filter(s[..|s| - 1], allowed) + (if last in allowed then [last] else [])
  }

  /** `a` is `b` with some elements left out. */
  predicate IsSubsequence(a: seq<Tile>, b: seq<Tile>)
    decreases |b|
  {
    if a == [] then true
    else if b == [] then false
    else
      || (a[|a| - 1] == b[|b| - 1] && IsSubsequence(a[..|a| - 1], b[..|b| - 1]))
      || IsSubsequence(a, b[..|b| - 1])
  }

  lemma {:induction false} FilterIsSubsequence(s: seq<Tile>, allowed: seq<Tile>)
    ensures IsSubsequence(Filter(s, allowed), s)
    decreases |s|
  {
    if s != [] {
      var init := s[..|s| - 1];
      FilterIsSubsequence(init, allowed);
      if s[|s| - 1] in allowed {
        assert Filter(s, allowed)[..|Filter(s, allowed)| - 1] == Filter(init, allowed);
      } else {
        assert Filter(s, allowed) == Filter(init, allowed);
        SubsequenceOfPrefix(Filter(init, allowed), init, s);
      }
    }
  }

  lemma SubsequenceOfPrefix(a: seq<Tile>, b: seq<Tile>, c: seq<Tile>)
    requires c != [] && b == c[..|c| - 1] && IsSubsequence(a, b)
    ensures IsSubsequence(a, c)
  {
  }

  lemma {:induction false} SubsequenceMembers(a: seq<Tile>, b: seq<Tile>, t: Tile)
    requires IsSubsequence(a, b) && t in a
    ensures t in b
    decreases |b|
  {
    var a', b' := a[..|a| - 1], b[..|b| - 1];
    assert a == a' + [a[|a| - 1]] && b == b' + [b[|b| - 1]];
    if a[|a| - 1] == b[|b| - 1] && IsSubsequence(a', b') {
      if t != a[|a| - 1] {
        SubsequenceMembers(a', b', t);
      }
    } else {
      SubsequenceMembers(a, b', t);
    }
  }

  lemma {:induction false} SubsequenceTransitive(a: seq<Tile>, b: seq<Tile>, c: seq<Tile>)
    requires IsSubsequence(a, b) && IsSubsequence(b, c)
    ensures IsSubsequence(a, c)
    decreases |c|
  {
    if a != [] {
      var c' := c[..|c| - 1];
      if b[|b| - 1] == c[|c| - 1] && IsSubsequence(b[..|b| - 1], c') {
        var b' := b[..|b| - 1];
        if a[|a| - 1] == b[|b| - 1] && IsSubsequence(a[..|a| - 1], b') {
          SubsequenceTransitive(a[..|a| - 1], b', c');
        } else {
          SubsequenceTransitive(a, b', c');
          SubsequenceOfPrefix(a, c', c);
        }
      } else {
        SubsequenceTransitive(a, b, c');
        SubsequenceOfPrefix(a, c', c);
      }
    }
  }

  lemma {:induction false} SubsequenceReflexive(s: seq<Tile>)
    ensures IsSubsequence(s, s)
    decreases |s|
  {
    if s != [] {
      SubsequenceReflexive(s[..|s| - 1]);
    }
  }

  lemma {:induction false} FilterNoDup(s: seq<Tile>, allowed: seq<Tile>)
    requires NoDup(s)
    ensures NoDup(Filter(s, allowed))
    decreases |s|
  {
    if s != [] {
      var init := s[..|s| - 1];
      assert NoDup(init);
      FilterNoDup(init, allowed);
    }
  }

  /** The first index of `t` in `s` (Rust's `position`). */
  function Position(s: seq<Tile>, t: Tile): (k: nat)
    requires t in s
    ensures k < |s| && s[k] == t && t !in s[..k]
  {
    if s[0] == t then 0 else 1 + Position(s[1..], t)
  }

  /** The candidate list after the removal loop has looked at the first `i` tiles of `nb`. */
  function Partial(nb: seq<Tile>, allowed: seq<Tile>, i: nat): seq<Tile>
    requires i <= |nb|
  {
    Filter(nb[..i], allowed) + nb[i..]
  }

  lemma PartialEnds(nb: seq<Tile>, allowed: seq<Tile>)
    ensures Partial(nb, allowed, 0) == nb
    ensures Partial(nb, allowed, |nb|) == Filter(nb, allowed)
  {
    assert nb[..0] == [] && nb[0..] == nb;
    assert nb[..|nb|] == nb && nb[|nb|..] == [];
  }

  /** An allowed tile is kept: the loop moves past it without changing the list. */
  lemma PartialKeep(nb: seq<Tile>, allowed: seq<Tile>, i: nat)
    requires i < |nb| && nb[i] in allowed
    ensures Partial(nb, allowed, i + 1) == Partial(nb, allowed, i)
  {
    assert nb[..i + 1][..i] == nb[..i];
    assert Filter(nb[..i + 1], allowed) == Filter(nb[..i], allowed) + [nb[i]];
    assert nb[i..] == [nb[i]] + nb[i + 1..];
  }

  /** `s` without the first occurrence of `t` (Rust's `remove` at the `position` of `t`). */
  function RemoveFirst(s: seq<Tile>, t: Tile): seq<Tile>
    requires t in s
  {
    var k := Position(s, t);
    s[..k] + s[k + 1..]
  }

  /**
   * A disallowed tile is dropped: removing its first occurrence from the
   * partly filtered list extends the filtered prefix by one element.
   */
  lemma RemoveStep(nb: seq<Tile>, allowed: seq<Tile>, i: nat)
    requires i < |nb| && nb[i] !in allowed
    ensures nb[i] in Partial(nb, allowed, i)
    ensures RemoveFirst(Partial(nb, allowed, i), nb[i]) == Partial(nb, allowed, i + 1)
  {
    var f := Filter(nb[..i], allowed);
    var n := f + nb[i..];
    PositionAfter(f, nb[i..], nb[i]);
    assert n[..|f|] == f;
    assert n[|f| + 1..] == nb[i + 1..];
    assert nb[..i + 1][..i] == nb[..i];
    assert Filter(nb[..i + 1], allowed) == f;
  }

  /** The first occurrence of `t` in `f + rest` is the head of `rest` when `f` has none. */
  lemma PositionAfter(f: seq<Tile>, rest: seq<Tile>, t: Tile)
    requires t !in f && rest != [] && rest[0] == t
    ensures t in f + rest && Position(f + rest, t) == |f|
  {
    var n := f + rest;
    assert n[|f|] == t;
    var k := Position(n, t);
    assert forall m | 0 <= m < |f| :: n[m] == f[m];
    assert forall m | |f| < m <= |n| :: n[..m][|f|] == t;
  }

  // ---------------------------------------------------------------------------
  // Allowed neighbours

  /** Concatenation of the rule lists in direction `d` of every tile of `list`. */
  function Gather(rules: Rules, list: seq<Tile>, d: Dir): (r: seq<Tile>)
    requires forall t | t in list :: t in rules
    ensures forall t :: t in r <==> exists s :: s in list && t in rules[s].FromDir(d)
  {
    if list == [] then []
    else
      var last := list[|list| - 1];
      assert list == list[..|list| - 1] + [last];
      Gather(rules, list[..|list| - 1], d) + rules[last].FromDir(d)
  }

  /** The tiles a cell allows as its neighbour in direction `d`. */
  function Allowed(rules: Rules, c: WaveState, d: Dir): seq<Tile>
    requires Known(rules, c)
  {
    match c
    case Collapsed(t) => rules[t].FromDir(d)
    case Superpos(ts) => Gather(rules, ts, d)
  }

  /** The allowed set is the union of the rule lists of the tiles the cell admits. */
  lemma AllowedIsUnion(rules: Rules, c: WaveState, d: Dir, t: Tile)
    requires Known(rules, c)
    ensures t in Allowed(rules, c, d) <==> exists s :: s in CellTiles(c) && t in rules[s].FromDir(d)
  {
  }

  // ---------------------------------------------------------------------------
  // One propagation pass

  /** Where `d` stands in ALL_DIRS. */
  function DirIndex(d: Dir): (j: nat)
    ensures j < |ALL_DIRS| && ALL_DIRS[j] == d
  {
    match d
    case Forward => 0
    case Backward => 1
    case Left => 2
    case Right => 3
    case Up => 4
    case Down => 5
  }

  /** ALL_DIRS lists each direction once. */
  lemma DirIndexOf(j: nat)
    requires j < |ALL_DIRS|
    ensures DirIndex(ALL_DIRS[j]) == j
  {
  }

  /** Filter the neighbour of `pos` in direction `d`, if it is in the chunk and not collapsed. */
  function FilterToward(rules: Rules, w: seq<WaveState>, pos: nat, d: Dir): (r: seq<WaveState>)
    requires |w| == CHUNK_VOLUME && pos < CHUNK_VOLUME && Known(rules, w[pos])
    ensures |r| == |w| && r[pos] == w[pos]
  {
    match Neighbor(pos, d)
    case None => w
    case Some(q) =>
      NeighborNotSelf(pos, d);
      if w[q].Superpos? then w[q := Superpos(Filter(w[q].tiles, Allowed(rules, w[pos], d)))]
      else w
  }

  /** Filtering toward `d` changes only the neighbour in direction `d`. */
  lemma FilterTowardCell(rules: Rules, w: seq<WaveState>, pos: nat, d: Dir, i: nat)
    requires |w| == CHUNK_VOLUME && pos < CHUNK_VOLUME && Known(rules, w[pos]) && i < CHUNK_VOLUME
    ensures FilterToward(rules, w, pos, d)[i] ==
      if Neighbor(pos, d) == Some(i) then Narrowed(w[i], Allowed(rules, w[pos], d)) else w[i]
  {
  }

  /** The wave after the pass has visited the first `k` directions of ALL_DIRS. */
  function Pass(rules: Rules, w: seq<WaveState>, pos: nat, k: nat): (r: seq<WaveState>)
    requires k <= |ALL_DIRS|
    requires |w| == CHUNK_VOLUME && pos < CHUNK_VOLUME && Known(rules, w[pos])
    ensures |r| == |w| && r[pos] == w[pos]
    decreases k
  {
    if k == 0 then w
    else FilterToward(rules, Pass(rules, w, pos, k - 1), pos, ALL_DIRS[k - 1])
  }

  /** The wave after one propagation from `pos`. */
  function Propagated(rules: Rules, w: seq<WaveState>, pos: nat): seq<WaveState>
    requires |w| == CHUNK_VOLUME && pos < CHUNK_VOLUME && Known(rules, w[pos])
  {
    Pass(rules, w, pos, |ALL_DIRS|)
  }

  /** What filtering a cell against an allowed list leaves of it. */
  function Narrowed(c: WaveState, allowed: seq<Tile>): WaveState {
    match c
    case Collapsed(_) => c
    case Superpos(ts) => Superpos(Filter(ts, allowed))
  }

  lemma {:induction false} PassAtNeighbor(rules: Rules, w: seq<WaveState>, pos: nat, k: nat, j: nat)
    requires k <= |ALL_DIRS| && j < k
    requires |w| == CHUNK_VOLUME && pos < CHUNK_VOLUME && Known(rules, w[pos])
    requires Neighbor(pos, ALL_DIRS[j]).Some?
    ensures var q := Neighbor(pos, ALL_DIRS[j]).value;
      Pass(rules, w, pos, k)[q] == Narrowed(w[q], Allowed(rules, w[pos], ALL_DIRS[j]))
    decreases k
  {
    var q := Neighbor(pos, ALL_DIRS[j]).value;
    var prev := Pass(rules, w, pos, k - 1);
    FilterTowardCell(rules, prev, pos, ALL_DIRS[k - 1], q);
    if j == k - 1 {
      PassAtLast(rules, w, pos, k);
    } else {
      PassAtNeighbor(rules, w, pos, k - 1, j);
      var d, e := ALL_DIRS[j], ALL_DIRS[k - 1];
      DirIndexOf(j);
      DirIndexOf(k - 1);
      if Neighbor(pos, e) == Some(q) {
        NeighborDistinct(pos, d, e);
      }
      assert Pass(rules, w, pos, k)[q] == prev[q];
    }
  }

  /** The direction visited last filters its neighbour, which no earlier direction reached. */
  lemma PassAtLast(rules: Rules, w: seq<WaveState>, pos: nat, k: nat)
    requires 0 < k <= |ALL_DIRS|
    requires |w| == CHUNK_VOLUME && pos < CHUNK_VOLUME && Known(rules, w[pos])
    requires Neighbor(pos, ALL_DIRS[k - 1]).Some?
    ensures var q := Neighbor(pos, ALL_DIRS[k - 1]).value;
      Pass(rules, w, pos, k)[q] == Narrowed(w[q], Allowed(rules, w[pos], ALL_DIRS[k - 1]))
  {
    var q := Neighbor(pos, ALL_DIRS[k - 1]).value;
    forall j' | 0 <= j' < k - 1
      ensures Neighbor(pos, ALL_DIRS[j']) != Some(q)
    {
      if Neighbor(pos, ALL_DIRS[j']) == Some(q) {
        NeighborDistinct(pos, ALL_DIRS[k - 1], ALL_DIRS[j']);
      }
    }
    PassElsewhere(rules, w, pos, k - 1, q);
    FilterTowardCell(rules, Pass(rules, w, pos, k - 1), pos, ALL_DIRS[k - 1], q);
  }

  lemma {:induction false} PassElsewhere(rules: Rules, w: seq<WaveState>, pos: nat, k: nat, i: nat)
    requires k <= |ALL_DIRS| && i < CHUNK_VOLUME
    requires |w| == CHUNK_VOLUME && pos < CHUNK_VOLUME && Known(rules, w[pos])
    requires forall j | 0 <= j < k :: Neighbor(pos, ALL_DIRS[j]) != Some(i)
    ensures Pass(rules, w, pos, k)[i] == w[i]
    decreases k
  {
    if k > 0 {
      PassElsewhere(rules, w, pos, k - 1, i);
      FilterTowardCell(rules, Pass(rules, w, pos, k - 1), pos, ALL_DIRS[k - 1], i);
    }
  }

  /**
   * A neighbour of `pos` in direction `d` that is still in superposition keeps
   * exactly its former tiles that some tile admitted at `pos` allows in `d`; a
   * collapsed neighbour is left alone.
   */
  lemma PropagatedNeighbor(rules: Rules, w: seq<WaveState>, pos: nat, d: Dir)
    requires |w| == CHUNK_VOLUME && pos < CHUNK_VOLUME && Known(rules, w[pos])
    requires Neighbor(pos, d).Some?
    ensures var q := Neighbor(pos, d).value;
      Propagated(rules, w, pos)[q] == Narrowed(w[q], Allowed(rules, w[pos], d))
  {
    PassAtNeighbor(rules, w, pos, |ALL_DIRS|, DirIndex(d));
  }

  /** Only the in-chunk neighbours of `pos` can change. */
  lemma PropagatedFrame(rules: Rules, w: seq<WaveState>, pos: nat, i: nat)
    requires |w| == CHUNK_VOLUME && pos < CHUNK_VOLUME && Known(rules, w[pos])
    requires i < CHUNK_VOLUME && !Adjacent(pos, i)
    ensures Propagated(rules, w, pos)[i] == w[i]
  {
    PassElsewhere(rules, w, pos, |ALL_DIRS|, i);
  }

  /** `b` is `a` with possibly fewer candidates; a collapsed cell stays as it is. */
  predicate Narrows(a: WaveState, b: WaveState) {
    match a
    case Collapsed(_) => b == a
    case Superpos(ts) => b.Superpos? && IsSubsequence(b.tiles, ts)
  }

  /**
   * Propagation never adds candidates and never touches a collapsed cell: each
   * cell afterwards narrows the cell before.
   */
  lemma PropagatedNarrows(rules: Rules, w: seq<WaveState>, pos: nat, i: nat)
    requires |w| == CHUNK_VOLUME && pos < CHUNK_VOLUME && Known(rules, w[pos])
    requires i < CHUNK_VOLUME
    ensures Narrows(w[i], Propagated(rules, w, pos)[i])
  {
    if Adjacent(pos, i) {
      var d :| Neighbor(pos, d) == Some(i);
      PropagatedNeighbor(rules, w, pos, d);
      if w[i].Superpos? {
        FilterIsSubsequence(w[i].tiles, Allowed(rules, w[pos], d));
      }
    } else {
      PropagatedFrame(rules, w, pos, i);
      if w[i].Superpos? {
        SubsequenceReflexive(w[i].tiles);
      }
    }
  }

  lemma {:induction false} SubsequenceLength(a: seq<Tile>, b: seq<Tile>)
    requires IsSubsequence(a, b)
    ensures |a| <= |b|
    decreases |b|
  {
    if a != [] {
      if a[|a| - 1] == b[|b| - 1] && IsSubsequence(a[..|a| - 1], b[..|b| - 1]) {
        SubsequenceLength(a[..|a| - 1], b[..|b| - 1]);
      } else {
        SubsequenceLength(a, b[..|b| - 1]);
      }
    }
  }

  // ---------------------------------------------------------------------------
  // Well-formed waves

  /** A Rust `Vec` never holds more than isize::MAX elements. */
  const ISIZE_MAX: nat := 0x7FFF_FFFF_FFFF_FFFF

  /** Every tile in the wave has rules, and no candidate list is longer than a `Vec` can be. */
  predicate WellFormed(rules: Rules, w: seq<WaveState>) {
    forall i | 0 <= i < |w| :: Known(rules, w[i]) && |CellTiles(w[i])| <= ISIZE_MAX
  }

  /** Narrowing a cell keeps it well-formed. */
  lemma NarrowsKeepsKnown(rules: Rules, a: WaveState, b: WaveState)
    requires Narrows(a, b) && Known(rules, a) && |CellTiles(a)| <= ISIZE_MAX
    ensures Known(rules, b) && |CellTiles(b)| <= ISIZE_MAX
  {
    if a.Superpos? {
      SubsequenceLength(b.tiles, a.tiles);
      forall t | t in b.tiles
        ensures t in rules
      {
        SubsequenceMembers(b.tiles, a.tiles, t);
      }
    }
  }

  lemma PropagatedWellFormed(rules: Rules, w: seq<WaveState>, pos: nat)
    requires |w| == CHUNK_VOLUME && pos < CHUNK_VOLUME && WellFormed(rules, w)
    ensures WellFormed(rules, Propagated(rules, w, pos))
  {
    var p := Propagated(rules, w, pos);
    forall i | 0 <= i < |p|
      ensures Known(rules, p[i]) && |CellTiles(p[i])| <= ISIZE_MAX
    {
      PropagatedNarrows(rules, w, pos, i);
      NarrowsKeepsKnown(rules, w[i], p[i]);
    }
  }

  // ---------------------------------------------------------------------------
  // Choosing and collapsing a cell

  /** A cell in superposition with a nonzero number of candidates. */
  predicate IsCandidate(c: WaveState) {
    c.Superpos? && |c.tiles| != 0
  }

  predicate HasCandidate(w: seq<WaveState>) {
    exists i | 0 <= i < |w| :: IsCandidate(w[i])
  }

  /**
   * Cell `k` has the fewest candidates among the candidate cells, and every
   * earlier candidate cell has strictly more.
   */
  predicate IsLowestEntropy(w: seq<WaveState>, k: nat) {
    && k < |w|
    && IsCandidate(w[k])
    && (forall j | 0 <= j < |w| && IsCandidate(w[j]) :: |w[k].tiles| <= |w[j].tiles|)
    && (forall j | 0 <= j < k && IsCandidate(w[j]) :: |w[k].tiles| < |w[j].tiles|)
  }

  /** The choice is unique: ties go to the earliest cell. */
  lemma LowestEntropyUnique(w: seq<WaveState>, k1: nat, k2: nat)
    requires IsLowestEntropy(w, k1) && IsLowestEntropy(w, k2)
    ensures k1 == k2
  {
  }

  /** The tile a collapse picks from a nonempty list, given the random draw `roll`. */
  function Pick(ts: seq<Tile>, roll: nat): (t: Tile)
    requires ts != []
    ensures t in ts
  {
    ts[roll % |ts|]
  }

  /** Number of cells still in superposition. */
  function SuperposCount(w: seq<WaveState>): (n: nat)
    ensures n <= |w|
    ensures n == 0 <==> forall i | 0 <= i < |w| :: w[i].Collapsed?
  {
    if w == [] then 0
    else SuperposCount(w[..|w| - 1]) + (if w[|w| - 1].Superpos? then 1 else 0)
  }

  /**
   * If one cell goes from superposition to collapsed and every other cell
   * keeps its kind, one fewer cell is in superposition.
   */
  lemma {:induction false} SuperposCountCollapse(a: seq<WaveState>, b: seq<WaveState>, k: nat)
    requires |a| == |b| && k < |a|
    requires a[k].Superpos? && b[k].Collapsed?
    requires forall i | 0 <= i < |a| && i != k :: a[i].Superpos? == b[i].Superpos?
    ensures SuperposCount(b) == SuperposCount(a) - 1
    decreases |a|
  {
    var n := |a| - 1;
    var a', b' := a[..n], b[..n];
    assert SuperposCount(a) == SuperposCount(a') + (if a[n].Superpos? then 1 else 0);
    assert SuperposCount(b) == SuperposCount(b') + (if b[n].Superpos? then 1 else 0);
    assert forall i | 0 <= i < n :: a'[i] == a[i] && b'[i] == b[i];
    if k < n {
      SuperposCountCollapse(a', b', k);
    } else {
      SuperposCountSameKinds(a', b');
    }
  }

  lemma {:induction false} SuperposCountSameKinds(a: seq<WaveState>, b: seq<WaveState>)
    requires |a| == |b|
    requires forall i | 0 <= i < |a| :: a[i].Superpos? == b[i].Superpos?
    ensures SuperposCount(b) == SuperposCount(a)
    decreases |a|
  {
    if a != [] {
      SuperposCountSameKinds(a[..|a| - 1], b[..|b| - 1]);
    }
  }

  /**
   * `b` is a later state of cell `a`: a collapsed cell stays as it is, and a
   * cell in superposition loses candidates or collapses to one of them.
   */
  predicate Refines(a: WaveState, b: WaveState) {
    match a
    case Collapsed(_) => b == a
    case Superpos(ts) =>
      match b
      case Superpos(us) => IsSubsequence(us, ts)
      case Collapsed(t) => t in ts
  }

  lemma RefinesTransitive(a: WaveState, b: WaveState, c: WaveState)
    requires Refines(a, b) && Refines(b, c)
    ensures Refines(a, c)
  {
    if a.Superpos? && b.Superpos? {
      if c.Superpos? {
        SubsequenceTransitive(c.tiles, b.tiles, a.tiles);
      } else {
        SubsequenceMembers(b.tiles, a.tiles, c.tile);
      }
    }
  }

  lemma RefinesReflexive(a: WaveState)
    ensures Refines(a, a)
  {
    if a.Superpos? {
      SubsequenceReflexive(a.tiles);
    }
  }

  // ---------------------------------------------------------------------------
  // The initial wave

  /** Every cell holds all of `keys`, except cell (0, 0, 0), which is ground. */
  function Seeded(keys: seq<Tile>): (w: seq<WaveState>)
    ensures |w| == CHUNK_VOLUME
  {
    seq(CHUNK_VOLUME, _ => Superpos(keys))[GetIndex(0, 0, 0) := Collapsed(Ground)]
  }

  /** `keys` lists every tile that has rules, each once. */
  predicate IsKeyList(keys: seq<Tile>, rules: Rules) {
    NoDup(keys) && forall t :: t in keys <==> t in rules
  }

  /**
   * After seeding and propagating from the ground cell, cell (0, 0, 0) is
   * ground and every other cell is in superposition over the tiles that have
   * rules, cut down, for a neighbour of the ground cell, to the tiles ground
   * allows on that side.
   */
  lemma InitialWave(rules: Rules, keys: seq<Tile>, i: nat)
    requires IsKeyList(keys, rules) && Ground in rules
    requires 0 < i < CHUNK_VOLUME
    ensures var w := Propagated(rules, Seeded(keys), 0);
      && w[0] == Collapsed(Ground)
      && w[i].Superpos? && NoDup(w[i].tiles)
      && forall t :: t in w[i].tiles <==>
           t in rules && forall d :: Neighbor(0, d) == Some(i) ==> t in rules[Ground].FromDir(d)
  {
    var s := Seeded(keys);
    assert s[0] == Collapsed(Ground);
    assert s[i] == Superpos(keys);
    if Adjacent(0, i) {
      var d :| Neighbor(0, d) == Some(i);
      PropagatedNeighbor(rules, s, 0, d);
      FilterNoDup(keys, rules[Ground].FromDir(d));
      forall e | Neighbor(0, e) == Some(i)
        ensures e == d
      {
        NeighborDistinct(0, d, e);
      }
    } else {
      PropagatedFrame(rules, s, 0, i);
    }
  }
}
