/**
 * The six axis-aligned directions a cell can have a neighbour in, and the four
 * quarter-turn rotations about the vertical (y) axis.
 */
module Directions {

  /** Forward is -z, Backward +z, Left -x, Right +x, Up +y, Down -y. */
  datatype Dir = Forward | Backward | Left | Right | Up | Down

  datatype Rotation = Zero | Quarter | Half | ThreeQuarter

  /** An integer 3D vector (the unit vectors of `to_vec3`, without the floats). */
  datatype IVec3 = IVec3(x: int, y: int, z: int)

  function Neg(v: IVec3): IVec3 {
    IVec3(-v.x, -v.y, -v.z)
  }

  /** The unit vector pointing in direction `d`. */
  function ToVec3(d: Dir): (v: IVec3)
    ensures v.x * v.x + v.y * v.y + v.z * v.z == 1
  {
    match d
    case Forward => IVec3(0, 0, -1)
    case Backward => IVec3(0, 0, 1)
    case Left => IVec3(-1, 0, 0)
    case Right => IVec3(1, 0, 0)
    case Up => IVec3(0, 1, 0)
    case Down => IVec3(0, -1, 0)
  }

  /** The direction pointing the other way along the same axis. */
  function Opposite(d: Dir): (o: Dir)
    ensures o != d && IsHorizontal(o) == IsHorizontal(d)
  {
    match d
    case Forward => Backward
    case Backward => Forward
    case Left => Right
    case Right => Left
    case Up => Down
    case Down => Up
  }

  /** The direction `d` is turned into by the yaw rotation `r`. */
  function RotateY(d: Dir, r: Rotation): (e: Dir)
    ensures IsHorizontal(e) == IsHorizontal(d)
    ensures !IsHorizontal(d) ==> e == d
  {
    match (d, r)
    case (Forward, Zero) => Forward
    case (Forward, Quarter) => Left
    case (Forward, Half) => Backward
    case (Forward, ThreeQuarter) => Right
    case (Backward, Zero) => Backward
    case (Backward, Quarter) => Right
    case (Backward, Half) => Forward
    case (Backward, ThreeQuarter) => Left
    case (Left, Zero) => Left
    case (Left, Quarter) => Backward
    case (Left, Half) => Right
    case (Left, ThreeQuarter) => Forward
    case (Right, Zero) => Right
    case (Right, Quarter) => Forward
    case (Right, Half) => Left
    case (Right, ThreeQuarter) => Backward
    case (Up, _) => Up
    case (Down, _) => Down
  }

  predicate IsHorizontal(d: Dir) {
    d != Up && d != Down
  }

  /** The rotation one quarter turn further. */
  function Next(r: Rotation): Rotation {
    match r
    case Zero => Quarter
    case Quarter => Half
    case Half => ThreeQuarter
    case ThreeQuarter => Zero
  }

  /** Rotating by `r1` and then by `r2`: the rotations form a cyclic group of order 4. */
  function Compose(r1: Rotation, r2: Rotation): Rotation {
    match r2
    case Zero => r1
    case Quarter => Next(r1)
    case Half => Next(Next(r1))
    case ThreeQuarter => Next(Next(Next(r1)))
  }

  /** The rotation that undoes `r`. */
  function Inverse(r: Rotation): Rotation {
    match r
    case Zero => Zero
    case Quarter => ThreeQuarter
    case Half => Half
    case ThreeQuarter => Quarter
  }

  /** The unit vector of a direction has exactly one non-zero component, which is 1 or -1. */
  lemma ToVec3IsUnit(d: Dir)
    ensures var v := ToVec3(d);
      (v.x != 0 && v.y == 0 && v.z == 0 && (v.x == 1 || v.x == -1)) ||
      (v.x == 0 && v.y != 0 && v.z == 0 && (v.y == 1 || v.y == -1)) ||
      (v.x == 0 && v.y == 0 && v.z != 0 && (v.z == 1 || v.z == -1))
  {
  }

  /** Distinct directions have distinct vectors. */
  lemma ToVec3Injective(d1: Dir, d2: Dir)
    ensures ToVec3(d1) == ToVec3(d2) ==> d1 == d2
  {
  }

  lemma OppositeInvolution(d: Dir)
    ensures Opposite(Opposite(d)) == d
    ensures Opposite(d) != d
  {
  }

  lemma OppositeVector(d: Dir)
    ensures ToVec3(Opposite(d)) == Neg(ToVec3(d))
  {
    match d
    case Forward =>
    case Backward =>
    case Left =>
    case Right =>
    case Up =>
    case Down =>
  }

  lemma RotateZeroIsIdentity(d: Dir)
    ensures RotateY(d, Zero) == d
  {
  }

  lemma RotateFixesVertical(r: Rotation)
    ensures RotateY(Up, r) == Up && RotateY(Down, r) == Down
  {
  }

  /** Each rotation permutes the four horizontal directions. */
  lemma RotatePermutesHorizontal(r: Rotation, d1: Dir, d2: Dir)
    ensures IsHorizontal(d1) <==> IsHorizontal(RotateY(d1, r))
    ensures RotateY(d1, r) == RotateY(d2, r) ==> d1 == d2
    ensures {RotateY(Forward, r), RotateY(Backward, r), RotateY(Left, r), RotateY(Right, r)}
         == {Forward, Backward, Left, Right}
  {
  }

  lemma QuarterPowers(d: Dir)
    ensures RotateY(RotateY(d, Quarter), Quarter) == RotateY(d, Half)
    ensures RotateY(RotateY(RotateY(d, Quarter), Quarter), Quarter) == RotateY(d, ThreeQuarter)
    ensures RotateY(RotateY(RotateY(RotateY(d, Quarter), Quarter), Quarter), Quarter) == d
  {
  }

  /** Rotating twice is rotating once by the composed rotation. */
  lemma RotateCompose(d: Dir, r1: Rotation, r2: Rotation)
    ensures RotateY(RotateY(d, r1), r2) == RotateY(d, Compose(r1, r2))
  {
  }

  lemma RotateCommutesWithOpposite(d: Dir, r: Rotation)
    ensures RotateY(Opposite(d), r) == Opposite(RotateY(d, r))
  {
  }

  /** A rotation by `r` is undone by its inverse, which composes with it to the identity. */
  lemma RotateInverse(d: Dir, r: Rotation)
    ensures Compose(r, Inverse(r)) == Zero
    ensures RotateY(RotateY(d, r), Inverse(r)) == d
  {
  }

  // ---------------------------------------------------------------------------
  // The quaternion of a rotation, applied to an axis vector
  // ---------------------------------------------------------------------------

  /**
   * What `to_quat` does to a vector, rounded: a turn about y by -90 degrees
   * per quarter. A turn by angle a maps (x, y, z) to
   * (x cos a + z sin a, y, z cos a - x sin a); at these angles cos and sin
   * are 0, 1 or -1 up to rounding, which these cases write out.
   */
  function ToQuatTurn(r: Rotation, v: IVec3): (u: IVec3)
    ensures u.y == v.y && u.x * u.x + u.z * u.z == v.x * v.x + v.z * v.z
  {
    match r
    case Zero => v
    case Quarter => IVec3(-v.z, v.y, v.x)
    case Half => IVec3(-v.x, v.y, -v.z)
    case ThreeQuarter => IVec3(v.z, v.y, -v.x)
  }

  /** The turn with the sign of the angle reversed: +90 degrees per quarter about y. */
  function ToQuatTurnFixed(r: Rotation, v: IVec3): IVec3 {
    match r
    case Zero => v
    case Quarter => IVec3(v.z, v.y, -v.x)
    case Half => IVec3(-v.x, v.y, -v.z)
    case ThreeQuarter => IVec3(-v.z, v.y, v.x)
  }

  /** A turn of the quaternion as written undoes the corrected one by the inverse rotation; on the y axis both keep the vector. */
  lemma TurnSign(r: Rotation, v: IVec3)
    ensures ToQuatTurnFixed(r, v) == ToQuatTurn(Inverse(r), v)
    ensures (r == Zero || r == Half) ==> ToQuatTurn(r, v) == ToQuatTurnFixed(r, v)
    ensures (r == Quarter || r == ThreeQuarter) && v.x == 0 && v.z == 0 ==> ToQuatTurn(r, v) == ToQuatTurnFixed(r, v) == v
    ensures (r == Quarter || r == ThreeQuarter) && v.y == 0 && (v.x != 0 || v.z != 0) ==>
      ToQuatTurn(r, v) == Neg(ToQuatTurnFixed(r, v)) != ToQuatTurnFixed(r, v)
  {
    match r {
      case Zero =>
      case Quarter =>
      case Half =>
      case ThreeQuarter =>
    }
  }

  /**
   * The rotation test as written: the rotation table and the quaternion agree
   * exactly on the identity, the half turn and the vertical directions; for a
   * quarter or three-quarter turn of a horizontal direction they point
   * opposite ways, starting with Forward turned a quarter.
   */
  lemma RotationTestAsWritten(d: Dir, r: Rotation)
    ensures ToVec3(RotateY(d, r)) == ToQuatTurn(r, ToVec3(d)) <==> (r == Zero || r == Half || !IsHorizontal(d))
    ensures (r == Quarter || r == ThreeQuarter) && IsHorizontal(d) ==> ToVec3(RotateY(d, r)) == Neg(ToQuatTurn(r, ToVec3(d)))
  {
    var v := ToVec3(d);
    var f := ToQuatTurnFixed(r, v);
    TurnTable(d, r);
    TurnSign(r, v);
    HorizontalVector(d);
    if r == Zero || r == Half {
      assert ToQuatTurn(r, v) == f;
    } else if IsHorizontal(d) {
      assert ToQuatTurn(r, v) == Neg(f) != f;
      NegInvolution(f);
    } else {
      assert ToQuatTurn(r, v) == f;
    }
  }

  /** The first case the rotation test meets that fails: the table turns Forward to Left, the quaternion to +x (Right). */
  lemma RotationTestCounterexample()
    ensures ToVec3(RotateY(Forward, Quarter)) == ToVec3(Left) == IVec3(-1, 0, 0)
    ensures ToQuatTurn(Quarter, ToVec3(Forward)) == ToVec3(Right) == IVec3(1, 0, 0)
  {
  }

  lemma NegInvolution(v: IVec3)
    ensures Neg(Neg(v)) == v
  {
  }

  /** A direction is horizontal exactly when its vector lies in the x-z plane. */
  lemma HorizontalVector(d: Dir)
    ensures IsHorizontal(d) ==> ToVec3(d).y == 0 && (ToVec3(d).x != 0 || ToVec3(d).z != 0)
    ensures !IsHorizontal(d) ==> ToVec3(d).x == 0 && ToVec3(d).z == 0
  {
  }

  /** With the angle's sign reversed, the table and the quaternion agree for every direction and rotation. */
  lemma RotateYMatchesFixedTurn(d: Dir, r: Rotation)
    ensures ToVec3(RotateY(d, r)) == ToQuatTurnFixed(r, ToVec3(d))
  {
    TurnTable(d, r);
  }

  /** The corrected turn, entry by entry of the rotation table. */
  lemma TurnTable(d: Dir, r: Rotation)
    ensures ToVec3(RotateY(d, r)) == ToQuatTurnFixed(r, ToVec3(d))
  {
    match d {
      case Forward => match r {
        case Zero =>
        case Quarter =>
        case Half =>
        case ThreeQuarter =>
      }
      case Backward => match r {
        case Zero =>
        case Quarter =>
        case Half =>
        case ThreeQuarter =>
      }
      case Left => match r {
        case Zero =>
        case Quarter =>
        case Half =>
        case ThreeQuarter =>
      }
      case Right => match r {
        case Zero =>
        case Quarter =>
        case Half =>
        case ThreeQuarter =>
      }
      case Up => match r {
        case Zero =>
        case Quarter =>
        case Half =>
        case ThreeQuarter =>
      }
      case Down => match r {
        case Zero =>
        case Quarter =>
        case Half =>
        case ThreeQuarter =>
      }
    }
  }
}
