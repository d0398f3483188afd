/**
  Compass directions on a 2d grid: the eight unit offsets, the two fixed-order
  direction tables, and the four- and eight-way enumerations with their
  index, offset and classification mappings.
 */
module Directions {
  import opened Wrappers
  import opened Vec2

  const UP: IVec2 := IVec2(0, 1)
  const DOWN: IVec2 := IVec2(0, -1)
  const LEFT: IVec2 := IVec2(-1, 0)
  const RIGHT: IVec2 := IVec2(1, 0)
  const UP_LEFT: IVec2 := IVec2(-1, 1)
  const UP_RIGHT: IVec2 := IVec2(1, 1)
  const DOWN_LEFT: IVec2 := IVec2(-1, -1)
  const DOWN_RIGHT: IVec2 := IVec2(1, -1)

  /** The four orthogonal directions, in index order. */
  const DIR_4: seq<IVec2> := [UP, DOWN, LEFT, RIGHT]

  /** The eight adjacent directions, in index order. */
  const DIR_8: seq<IVec2> := [UP, DOWN, LEFT, RIGHT, UP_LEFT, UP_RIGHT, DOWN_LEFT, DOWN_RIGHT]

  // ---------------------------------------------------------------------------
  // Four orthogonal directions
  // ---------------------------------------------------------------------------

  datatype GridCompassQuadrant = Up | Down | Left | Right

  /** The unit offset of a quadrant direction. */
  function QuadrantToVec(d: GridCompassQuadrant): (v: IVec2)
    ensures v in DIR_4
  {
    match d
    case Up => UP
    case Down => DOWN
    case Left => LEFT
    case Right => RIGHT
  }

  /** Classifies a point by the signs of its coordinates. */
  function QuadrantFromPoint(p: IVec2): (r: Option<GridCompassQuadrant>)
    ensures r.Some? <==> Signum(p) in DIR_4
    ensures r.Some? ==> QuadrantToVec(r.value) == Signum(p)
  {
    match Signum(p)
    case IVec2(0, 1) => Some(GridCompassQuadrant.Up)
    case IVec2(0, -1) => Some(GridCompassQuadrant.Down)
    case IVec2(-1, 0) => Some(GridCompassQuadrant.Left)
    case IVec2(1, 0) => Some(GridCompassQuadrant.Right)
    case _ => None
  }

  function QuadrantFromIndex(i: nat): (r: Option<GridCompassQuadrant>)
    ensures r.Some? <==> i < |DIR_4|
  {
    match i
    case 0 => Some(GridCompassQuadrant.Up)
    case 1 => Some(GridCompassQuadrant.Down)
    case 2 => Some(GridCompassQuadrant.Left)
    case 3 => Some(GridCompassQuadrant.Right)
    case _ => None
  }

  function QuadrantToIndex(d: GridCompassQuadrant): (i: nat)
    ensures i < |DIR_4|
    ensures DIR_4[i] == QuadrantToVec(d)
  {
    match d
    case Up => 0
    case Down => 1
    case Left => 2
    case Right => 3
  }

  /** `QuadrantFromIndex` and `QuadrantToIndex` are exact inverses. */
  lemma QuadrantIndexBijection(d: GridCompassQuadrant, i: nat)
    ensures QuadrantFromIndex(i) == Some(d) <==> QuadrantToIndex(d) == i
  {
  }

  /** Classifying the offset of a direction gives that direction back. */
  lemma QuadrantFromPointOfVec(d: GridCompassQuadrant)
    ensures QuadrantFromPoint(QuadrantToVec(d)) == Some(d)
  {
  }

  /** A point has a quadrant direction exactly when one coordinate is zero and the other is not. */
  lemma QuadrantFromPointDefined(p: IVec2)
    ensures QuadrantFromPoint(p).Some? <==> ((p.x == 0) != (p.y == 0))
  {
  }

  /** The quadrant classification depends only on the signs of the coordinates. */
  lemma QuadrantFromPointScale(p: IVec2, k: int)
    requires k > 0
    ensures QuadrantFromPoint(Scale(k, p)) == QuadrantFromPoint(p)
  {
    SignumScale(k, p);
  }

  // ---------------------------------------------------------------------------
  // Eight adjacent directions
  // ---------------------------------------------------------------------------

  datatype GridCompassOctant = Up | Down | Left | Right | UpLeft | UpRight | DownLeft | DownRight

  /** The unit offset of an octant direction. */
  function OctantToVec(d: GridCompassOctant): (v: IVec2)
    ensures v in DIR_8
  {
    match d
    case Up => UP
    case Down => DOWN
    case Left => LEFT
    case Right => RIGHT
    case UpLeft => UP_LEFT
    case UpRight => UP_RIGHT
    case DownLeft => DOWN_LEFT
    case DownRight => DOWN_RIGHT
  }

  /** Classifies a point by the signs of its coordinates. */
  function OctantFromPoint(p: IVec2): (r: Option<GridCompassOctant>)
    ensures r.Some? <==> Signum(p) in DIR_8
    ensures r.Some? ==> OctantToVec(r.value) == Signum(p)
  {
    match Signum(p)
    case IVec2(0, 1) => Some(GridCompassOctant.Up)
    case IVec2(0, -1) => Some(GridCompassOctant.Down)
    case IVec2(-1, 0) => Some(GridCompassOctant.Left)
    case IVec2(1, 0) => Some(GridCompassOctant.Right)
    case IVec2(-1, 1) => Some(UpLeft)
    case IVec2(1, 1) => Some(UpRight)
    case IVec2(-1, -1) => Some(DownLeft)
    case IVec2(1, -1) => Some(DownRight)
    case _ => None
  }

  function OctantFromIndex(i: nat): (r: Option<GridCompassOctant>)
    ensures r.Some? <==> i < |DIR_8|
  {
    match i
    case 0 => Some(GridCompassOctant.Up)
    case 1 => Some(GridCompassOctant.Down)
    case 2 => Some(GridCompassOctant.Left)
    case 3 => Some(GridCompassOctant.Right)
    case 4 => Some(UpLeft)
    case 5 => Some(UpRight)
    case 6 => Some(DownLeft)
    case 7 => Some(DownRight)
    case _ => None
  }

  function OctantToIndex(d: GridCompassOctant): (i: nat)
    ensures i < |DIR_8|
    ensures DIR_8[i] == OctantToVec(d)
  {
    match d
    case Up => 0
    case Down => 1
    case Left => 2
    case Right => 3
    case UpLeft => 4
    case UpRight => 5
    case DownLeft => 6
    case DownRight => 7
  }

  /** `OctantFromIndex` and `OctantToIndex` are exact inverses. */
  lemma OctantIndexBijection(d: GridCompassOctant, i: nat)
    ensures OctantFromIndex(i) == Some(d) <==> OctantToIndex(d) == i
  {
  }

  /** Classifying the offset of a direction gives that direction back. */
  lemma OctantFromPointOfVec(d: GridCompassOctant)
    ensures OctantFromPoint(OctantToVec(d)) == Some(d)
  {
  }

  /** Every point except the origin has an octant direction. */
  lemma OctantFromPointDefined(p: IVec2)
    ensures OctantFromPoint(p).Some? <==> p != Zero
  {
  }

  /** The octant classification depends only on the signs of the coordinates. */
  lemma OctantFromPointScale(p: IVec2, k: int)
    requires k > 0
    ensures OctantFromPoint(Scale(k, p)) == OctantFromPoint(p)
  {
    SignumScale(k, p);
  }

  // ---------------------------------------------------------------------------
  // The two enumerations and the two tables together
  // ---------------------------------------------------------------------------

  /** The octant direction with the same name as a quadrant direction. */
  function QuadrantToOctant(q: GridCompassQuadrant): (o: GridCompassOctant)
    ensures OctantToVec(o) == QuadrantToVec(q)
    ensures OctantToIndex(o) == QuadrantToIndex(q)
  {
    match q
    case Up => GridCompassOctant.Up
    case Down => GridCompassOctant.Down
    case Left => GridCompassOctant.Left
    case Right => GridCompassOctant.Right
  }

  /**
    The two classifications agree: a point with a quadrant direction has the
    octant direction of the same name, and a point whose octant direction is
    orthogonal has that quadrant direction.
   */
  lemma QuadrantOctantAgree(p: IVec2)
    ensures QuadrantFromPoint(p).Some? ==>
              OctantFromPoint(p) == Some(QuadrantToOctant(QuadrantFromPoint(p).value))
    ensures OctantFromPoint(p).Some? && OctantToIndex(OctantFromPoint(p).value) < |DIR_4| ==>
              QuadrantFromPoint(p).Some? &&
              QuadrantToOctant(QuadrantFromPoint(p).value) == OctantFromPoint(p).value
  {
  }

  /**
    The direction tables: the eight entries are distinct unit steps, none is
    zero, the first four are the orthogonal table, and every nonzero unit step
    appears in the eight-way table.
   */
  lemma DirectionTables()
    ensures DIR_4 == DIR_8[..4]
    ensures forall k :: 0 <= k < |DIR_8| ==> DIR_8[k] != Zero && IsUnitStep(DIR_8[k])
    ensures forall j, k :: 0 <= j < k < |DIR_8| ==> DIR_8[j] != DIR_8[k]
    ensures forall v :: IsUnitStep(v) && v != Zero ==> v in DIR_8
    ensures forall k :: 0 <= k < |DIR_4| ==> AbsInt(DIR_4[k].x) + AbsInt(DIR_4[k].y) == 1
  {
  }
}
