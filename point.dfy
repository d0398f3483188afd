/**
  The size capability: a pair read as the width and height of a grid, and the
  grid's area. The extents are unsigned, so both components must be
  non-negative (the model does not reproduce what a wrapping cast of a
  negative component would give).
 */
module Size2d {
  import opened Vec2

  /**
    The number of cells of a grid of this size: width times height, where the
    width is the first component and the height the second.
   */
  function Len(s: IVec2): (r: nat)
    requires 0 <= s.x && 0 <= s.y
    ensures r == 0 <==> s.x == 0 || s.y == 0
    ensures s.y > 0 ==> r >= s.x
    ensures s.x > 0 ==> r >= s.y
  {
    ProductFacts(s.x, s.y);
    s.x * s.y
  }

  /** True when `p` is a cell of a grid of size `s`. */
  predicate InBounds(p: IVec2, s: IVec2) {
    0 <= p.x < s.x && 0 <= p.y < s.y
  }
}

/**
  The grid-point capability: integer coordinates with a row-major index,
  axis moves and offsets, three distance metrics, and iteration over the
  four or eight adjacent cells.

  A grid point is modelled by its integer form, an `IVec2`. The source reaches
  that form through a single-precision round trip; the model takes it to be
  exact (see the `Vec2` module).
 */
module GridPoint {
  import opened Wrappers
  import opened Vec2
  import opened Directions
  import Size2d

  // ---------------------------------------------------------------------------
  // Size and index
  // ---------------------------------------------------------------------------

  /** The product of the two coordinates, read as an unsigned count. */
  function Len(p: IVec2): (r: nat)
    requires 0 <= p.x * p.y
    ensures r == 0 <==> p.x == 0 || p.y == 0
  {
    ProductZero(p.x, p.y);
    p.x * p.y
  }

  /** For a point with non-negative coordinates, `Len` is the area of the size with the same components. */
  lemma LenIsArea(p: IVec2)
    requires 0 <= p.x && 0 <= p.y
    ensures 0 <= p.x * p.y
    ensures Len(p) == Size2d.Len(p)
  {
  }

  /**
    The row-major index of a point in a grid `gridWidth` cells wide. For a
    point inside the row range, dividing the index by the width gives back its
    row and the remainder its column.
   */
  function AsIndex(p: IVec2, gridWidth: nat): (r: nat)
    requires 0 <= p.x && 0 <= p.y
    ensures 0 <= p.x < gridWidth ==> r / gridWidth == p.y && r % gridWidth == p.x
  {
    if p.x < gridWidth then RowMajorDivMod(p.x, p.y, gridWidth); p.y * gridWidth + p.x
    else p.y * gridWidth + p.x
  }

  /** Two points inside the same row range never share an index. */
  lemma AsIndexInjective(p: IVec2, q: IVec2, gridWidth: nat)
    requires 0 <= p.x < gridWidth && 0 <= p.y
    requires 0 <= q.x < gridWidth && 0 <= q.y
    requires AsIndex(p, gridWidth) == AsIndex(q, gridWidth)
    ensures p == q
  {
    assert AsIndex(p, gridWidth) / gridWidth == p.y && AsIndex(p, gridWidth) % gridWidth == p.x;
    assert AsIndex(q, gridWidth) / gridWidth == q.y && AsIndex(q, gridWidth) % gridWidth == q.x;
  }

  /** Every cell of a grid of size `s` has an index below the grid's area. */
  lemma {:induction false} AsIndexInBounds(p: IVec2, s: IVec2)
    requires Size2d.InBounds(p, s)
    ensures AsIndex(p, s.x) < Size2d.Len(s)
  {
    calc {
      AsIndex(p, s.x);
      p.y * s.x + p.x;
    <
      p.y * s.x + s.x;
      (p.y + 1) * s.x;
    <= { MulLeftMonotone(p.y + 1, s.y, s.x); }
      s.y * s.x;
    }
  }

  /** Every index below the area of a grid of size `s` is the index of one of its cells. */
  lemma {:induction false} AsIndexCovers(s: IVec2, k: nat)
    requires 0 <= s.x && 0 <= s.y
    requires k < Size2d.Len(s)
    ensures 0 < s.x
    ensures Size2d.InBounds(IVec2(k % s.x, k / s.x), s)
    ensures AsIndex(IVec2(k % s.x, k / s.x), s.x) == k
  {
    QuotientBelow(k, s.x, s.y);
  }

  // ---------------------------------------------------------------------------
  // Moves
  // ---------------------------------------------------------------------------

  /** The point `amount` cells above: `amount` steps of `UP`, in the same column. */
  function Up(p: IVec2, amount: int): (r: IVec2)
    ensures r.x == p.x
    ensures r == Offset(p, Scale(amount, UP))
  {
    IVec2(p.x, p.y + amount)
  }

  /** The point `amount` cells below: `amount` steps of `DOWN`, the same as moving up by `-amount`. */
  function Down(p: IVec2, amount: int): (r: IVec2)
    ensures r.x == p.x
    ensures r == Offset(p, Scale(amount, DOWN))
    ensures r == Up(p, -amount)
  {
    IVec2(p.x, p.y - amount)
  }

  /** The point `amount` cells to the right: `amount` steps of `RIGHT`, in the same row. */
  function Right(p: IVec2, amount: int): (r: IVec2)
    ensures r.y == p.y
    ensures r == Offset(p, Scale(amount, RIGHT))
  {
    IVec2(p.x + amount, p.y)
  }

  /** The point `amount` cells to the left: `amount` steps of `LEFT`, the same as moving right by `-amount`. */
  function Left(p: IVec2, amount: int): (r: IVec2)
    ensures r.y == p.y
    ensures r == Offset(p, Scale(amount, LEFT))
    ensures r == Right(p, -amount)
  {
    IVec2(p.x - amount, p.y)
  }

  /** The point translated by `xy`: the displacement from `p` to the result is `xy`. */
  function Offset(p: IVec2, xy: IVec2): (r: IVec2)
    ensures Sub(r, p) == xy
  {
    Add(p, xy)
  }

  /**
    A vertical move changes only `y` and a horizontal move only `x`; each is
    `amount` steps along the matching direction, a negative amount moves the
    other way, and a move by zero stays put.
   */
  lemma AxisMoves(p: IVec2, amount: int)
    ensures Up(p, amount).x == p.x && Down(p, amount).x == p.x
    ensures Left(p, amount).y == p.y && Right(p, amount).y == p.y
    ensures Up(p, amount) == Offset(p, Scale(amount, UP))
    ensures Down(p, amount) == Offset(p, Scale(amount, DOWN))
    ensures Left(p, amount) == Offset(p, Scale(amount, LEFT))
    ensures Right(p, amount) == Offset(p, Scale(amount, RIGHT))
    ensures Up(p, amount) == Down(p, -amount) && Right(p, amount) == Left(p, -amount)
    ensures Up(p, 0) == p && Down(p, 0) == p && Left(p, 0) == p && Right(p, 0) == p
  {
  }

  /** Opposite moves by the same amount undo each other. */
  lemma AxisMovesInverse(p: IVec2, amount: int)
    ensures Down(Up(p, amount), amount) == p && Up(Down(p, amount), amount) == p
    ensures Left(Right(p, amount), amount) == p && Right(Left(p, amount), amount) == p
  {
  }

  /** A move by `amount` travels `|amount|` cells in every metric. */
  lemma AxisMoveDistance(p: IVec2, amount: int)
    ensures Manhattan(p, Up(p, amount)) == AbsInt(amount)
    ensures Chebyshev(p, Up(p, amount)) == AbsInt(amount)
    ensures Manhattan(p, Right(p, amount)) == AbsInt(amount)
    ensures Chebyshev(p, Right(p, amount)) == AbsInt(amount)
  {
  }

  /** Offsetting by zero is the identity, and offsetting by `-xy` undoes offsetting by `xy`. */
  lemma OffsetLaws(p: IVec2, xy: IVec2, uv: IVec2)
    ensures Offset(p, Zero) == p
    ensures Offset(Offset(p, xy), Neg(xy)) == p
    ensures Offset(Offset(p, xy), uv) == Offset(p, Add(xy, uv))
    ensures Offset(p, xy) == Offset(xy, p)
  {
  }

  // ---------------------------------------------------------------------------
  // Distances
  // ---------------------------------------------------------------------------

  /** The Manhattan (taxicab) distance. */
  function Manhattan(a: IVec2, b: IVec2): (r: nat)
    ensures r == 0 <==> a == b
  {
    var d := Abs(Sub(a, b));
    d.x + d.y
  }

  /** The Chebyshev (king's move) distance. */
  function Chebyshev(a: IVec2, b: IVec2): (r: nat)
    ensures r == 0 <==> a == b
    ensures AbsInt(a.x - b.x) <= r && AbsInt(a.y - b.y) <= r
  {
    var d := Abs(Sub(a, b));
    MaxElement(d)
  }

  /** The square of the Euclidean distance. */
  function EuclideanSquared(a: IVec2, b: IVec2): (r: nat)
    ensures r == 0 <==> a == b
  {
    var d := Sub(a, b);
    assert d == Zero <==> a == b;
    LengthSquared(d)
  }

  /** All three metrics are symmetric. */
  lemma DistanceSymmetry(a: IVec2, b: IVec2)
    ensures Manhattan(a, b) == Manhattan(b, a)
    ensures Chebyshev(a, b) == Chebyshev(b, a)
    ensures EuclideanSquared(a, b) == EuclideanSquared(b, a)
  {
    assert Sub(b, a) == Neg(Sub(a, b));
    assert (-(a.x - b.x)) * (-(a.x - b.x)) == (a.x - b.x) * (a.x - b.x);
    assert (-(a.y - b.y)) * (-(a.y - b.y)) == (a.y - b.y) * (a.y - b.y);
  }

  /** All three metrics are unchanged when both points are offset by the same amount. */
  lemma DistanceTranslation(a: IVec2, b: IVec2, xy: IVec2)
    ensures Manhattan(Offset(a, xy), Offset(b, xy)) == Manhattan(a, b)
    ensures Chebyshev(Offset(a, xy), Offset(b, xy)) == Chebyshev(a, b)
    ensures EuclideanSquared(Offset(a, xy), Offset(b, xy)) == EuclideanSquared(a, b)
  {
    assert Sub(Offset(a, xy), Offset(b, xy)) == Sub(a, b);
  }

  /** The Manhattan distance obeys the triangle inequality. */
  lemma ManhattanTriangle(a: IVec2, b: IVec2, c: IVec2)
    ensures Manhattan(a, c) <= Manhattan(a, b) + Manhattan(b, c)
  {
  }

  /**
    How the metrics bound each other: the Chebyshev distance is at most the
    Manhattan distance, which is at most twice the Chebyshev distance; the
    squared Euclidean distance lies between the squares of the Chebyshev and
    Manhattan distances and is at most twice the squared Chebyshev distance.
   */
  lemma MetricBounds(a: IVec2, b: IVec2)
    ensures Chebyshev(a, b) <= Manhattan(a, b) <= 2 * Chebyshev(a, b)
    ensures Chebyshev(a, b) * Chebyshev(a, b) <= EuclideanSquared(a, b)
    ensures EuclideanSquared(a, b) <= Manhattan(a, b) * Manhattan(a, b)
    ensures EuclideanSquared(a, b) <= 2 * (Chebyshev(a, b) * Chebyshev(a, b))
  {
    var dx, dy := AbsInt(a.x - b.x), AbsInt(a.y - b.y);
    assert Manhattan(a, b) == dx + dy;
    assert Chebyshev(a, b) == dx || Chebyshev(a, b) == dy;
    EuclideanSquaredOfAbs(a, b);
    SquareBounds(dx, dy, Chebyshev(a, b));
  }

  /** The squared Euclidean distance in terms of the absolute coordinate differences. */
  lemma EuclideanSquaredOfAbs(a: IVec2, b: IVec2)
    ensures EuclideanSquared(a, b) ==
              AbsInt(a.x - b.x) * AbsInt(a.x - b.x) + AbsInt(a.y - b.y) * AbsInt(a.y - b.y)
  {
    SquareOfAbs(a.x - b.x);
    SquareOfAbs(a.y - b.y);
  }

  // ---------------------------------------------------------------------------
  // Adjacency
  // ---------------------------------------------------------------------------

  /** The points `origin + arr[k]`, in table order. */
  function Neighbours(origin: IVec2, arr: seq<IVec2>): (r: seq<IVec2>)
    ensures |r| == |arr|
    ensures forall k :: 0 <= k < |arr| ==> r[k] == Add(origin, arr[k])
  {
    if arr == [] then [] else [Add(origin, arr[0])] + Neighbours(origin, arr[1..])
  }

  /** A point is produced by the four-way iterator exactly when it is at Manhattan distance 1. */
  lemma Adj4Exact(p: IVec2, q: IVec2)
    ensures q in Neighbours(p, DIR_4) <==> Manhattan(p, q) == 1
  {
    var ns := Neighbours(p, DIR_4);
    if Manhattan(p, q) == 1 {
      var d := Sub(q, p);
      assert d in DIR_4;
      var k :| 0 <= k < |DIR_4| && DIR_4[k] == d;
      assert ns[k] == q;
    }
  }

  /** A point is produced by the eight-way iterator exactly when it is at Chebyshev distance 1. */
  lemma Adj8Exact(p: IVec2, q: IVec2)
    ensures q in Neighbours(p, DIR_8) <==> Chebyshev(p, q) == 1
  {
    var ns := Neighbours(p, DIR_8);
    DirectionTables();
    if Chebyshev(p, q) == 1 {
      var d := Sub(q, p);
      assert IsUnitStep(d) && d != Zero;
      var k :| 0 <= k < |DIR_8| && DIR_8[k] == d;
      assert ns[k] == q;
    }
    forall k | 0 <= k < |ns|
      ensures Chebyshev(p, ns[k]) == 1
    {
      assert IsUnitStep(DIR_8[k]) && DIR_8[k] != Zero;
    }
  }

  /**
    The eight-way neighbours are pairwise distinct, and the four-way ones are
    the first four of them.
   */
  lemma AdjNeighboursDistinct(p: IVec2)
    ensures Neighbours(p, DIR_4) == Neighbours(p, DIR_8)[..4]
    ensures forall j, k :: 0 <= j < k < 8 ==> Neighbours(p, DIR_8)[j] != Neighbours(p, DIR_8)[k]
  {
    DirectionTables();
  }

  /**
    A cursor over a fixed direction table: each call to `Next` yields the
    origin offset by the next table entry, then nothing on every later call.
   */
  class AdjIterator {
    var i: nat
    const p: IVec2
    const arr: seq<IVec2>

    /** The cursor never passes the end of the table. */
    ghost predicate Valid()
      reads this
    {
      i <= |arr|
    }

    /** What the iterator has yet to produce. */
    ghost function Remaining(): seq<IVec2>
      reads this
      requires Valid()
    {
      Neighbours(p, arr)[i..]
    }

    constructor (origin: IVec2, table: seq<IVec2>)
      ensures Valid() && i == 0 && p == origin && arr == table
      ensures Remaining() == Neighbours(origin, table)
    {
      i, p, arr := 0, origin, table;
    }

    method Next() returns (r: Option<IVec2>)
      requires Valid()
      modifies this`i
      ensures Valid()
      ensures old(i) < |arr| ==> r == Some(Add(p, arr[old(i)])) && i == old(i) + 1
      ensures old(i) >= |arr| ==> r == None && i == old(i)
      ensures r.Some? <==> old(Remaining()) != []
      ensures r.Some? ==> r.value == old(Remaining())[0] && Remaining() == old(Remaining())[1..]
      ensures r.None? ==> Remaining() == []
    {
      if i >= |arr| {
        return None;
      }
      r := Some(Add(p, arr[i]));
      i := i + 1;
    }
  }

  /** An iterator over the four orthogonal neighbours of `p`, in `DIR_4` order. */
  method Adj4(p: IVec2) returns (it: AdjIterator)
    ensures fresh(it) && it.Valid()
    ensures it.p == p && it.arr == DIR_4 && it.i == 0
  {
    it := new AdjIterator(p, DIR_4);
  }

  /** An iterator over the eight neighbours of `p`, in `DIR_8` order. */
  method Adj8(p: IVec2) returns (it: AdjIterator)
    ensures fresh(it) && it.Valid()
    ensures it.p == p && it.arr == DIR_8 && it.i == 0
  {
    it := new AdjIterator(p, DIR_8);
  }

  /** Drains an iterator: the result is everything it had yet to produce, and it is left exhausted. */
  method Collect(it: AdjIterator) returns (out: seq<IVec2>)
    requires it.Valid()
    modifies it
    ensures it.Valid() && it.i == |it.arr|
    ensures out == old(it.Remaining())
  {
    out := [];
    var r := it.Next();
    while r.Some?
      invariant it.Valid()
      invariant r.Some? ==> out + [r.value] + it.Remaining() == old(it.Remaining())
      invariant r.None? ==> out == old(it.Remaining()) && it.i == |it.arr|
      decreases |it.arr| - it.i + (if r.Some? then 1 else 0)
    {
      out := out + [r.value];
      r := it.Next();
    }
  }

  /**
    The adjacency scenario: around (10, 10) the four-way iterator yields the
    orthogonal neighbours in table order, the eight-way one adds the diagonal
    neighbours after them, an exhausted iterator keeps yielding nothing, and a
    second iterator from the same origin yields the same points again.
   */
  method AdjScenario()
    returns (four: seq<IVec2>, eight: seq<IVec2>, after: Option<IVec2>, later: Option<IVec2>, again: seq<IVec2>)
    ensures four == [IVec2(10, 11), IVec2(10, 9), IVec2(9, 10), IVec2(11, 10)]
    ensures eight == four + [IVec2(9, 11), IVec2(11, 11), IVec2(9, 9), IVec2(11, 9)]
    ensures after == None && later == None
    ensures again == four
  {
    var origin := IVec2(10, 10);
    // With a literal origin the verifier does not unfold `Neighbours` on its
    // own: a client iterating from a concrete point needs the neighbour
    // sequences written out first, as `AdjAroundTen` does for (10, 10).
    AdjAroundTen();
    var it4 := Adj4(origin);
    four := Collect(it4);
    after := it4.Next();
    later := it4.Next();
    var it8 := Adj8(origin);
    eight := Collect(it8);
    var second := Adj4(origin);
    again := Collect(second);
  }

  /** The neighbour sequences of (10, 10), written out. */
  lemma AdjAroundTen()
    ensures Neighbours(IVec2(10, 10), DIR_4) == [IVec2(10, 11), IVec2(10, 9), IVec2(9, 10), IVec2(11, 10)]
    ensures Neighbours(IVec2(10, 10), DIR_8) ==
              Neighbours(IVec2(10, 10), DIR_4) + [IVec2(9, 11), IVec2(11, 11), IVec2(9, 9), IVec2(11, 9)]
  {
    AdjNeighboursDistinct(IVec2(10, 10));
  }

  /** The Manhattan distance from (10, 10) to (20, 20) is 20. */
  lemma TaxiExample()
    ensures Manhattan(IVec2(10, 10), IVec2(20, 20)) == 20
  {
  }

  // ---------------------------------------------------------------------------
  // Arithmetic helpers
  // ---------------------------------------------------------------------------

  /** For `0 <= x < w` and `y >= 0`, `(y * w + x) / w == y` and `(y * w + x) % w == x`. */
  lemma RowMajorDivMod(x: int, y: int, w: nat)
    requires 0 <= x < w && 0 <= y
    ensures (y * w + x) / w == y && (y * w + x) % w == x
  {
    var k := y * w + x;
    var q, m := k / w, k % w;
    assert (q - y) * w == x - m;
    MultipleInRange(q - y, w, x - m);
  }

  /** The only multiple of `w` strictly between `-w` and `w` is zero. */
  lemma MultipleInRange(q: int, w: int, v: int)
    requires w > 0 && q * w == v && -w < v < w
    ensures q == 0
  {
    MulLeftMonotone(1, q, w);
    MulLeftMonotone(q, -1, w);
  }

  lemma SquareOfAbs(v: int)
    ensures AbsInt(v) * AbsInt(v) == v * v
  {
    if v < 0 {
      assert (-v) * (-v) == v * v;
    }
  }

  /** With `c` the larger of `dx` and `dy`: c^2 <= dx^2 + dy^2 <= (dx + dy)^2 and dx^2 + dy^2 <= 2 c^2. */
  lemma SquareBounds(dx: nat, dy: nat, c: nat)
    requires dx <= c && dy <= c && (c == dx || c == dy)
    ensures c * c <= dx * dx + dy * dy
    ensures dx * dx + dy * dy <= (dx + dy) * (dx + dy)
    ensures dx * dx + dy * dy <= 2 * (c * c)
  {
    assert (dx + dy) * (dx + dy) == dx * dx + 2 * (dx * dy) + dy * dy;
    assert dx * dy >= 0;
    SquareMonotone(dx, c);
    SquareMonotone(dy, c);
  }

  /** An index below `h * w` lies in one of the first `h` rows of width `w`. */
  lemma QuotientBelow(k: nat, w: nat, h: nat)
    requires k < w * h
    ensures w > 0 && k / w < h
    ensures k == (k / w) * w + k % w
  {
    ProductFacts(w, h);
    MulLeftMonotone(h, k / w, w);
    assert h * w == w * h;
  }

  lemma MulLeftMonotone(a: int, b: int, w: nat)
    ensures a <= b ==> a * w <= b * w
  {
    assert b * w - a * w == (b - a) * w;
  }
}
