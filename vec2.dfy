/** The Some/None datatype used for the optional results of the grid code. */
module Wrappers {

  datatype Option<+T> = None | Some(value: T)
}

/**
  An integer 2-vector and the few vector operations the grid code borrows from
  its linear-algebra library (addition, subtraction, componentwise absolute
  value and sign, largest component, squared length).

  Components are mathematical integers: the model assumes that every
  coordinate is exactly representable, i.e. that no 32-bit overflow happens
  and that the single-precision round trip the library performs when it
  converts a point to a vector is the identity (true for magnitudes up to 2^24).
 */
module Vec2 {

  datatype IVec2 = IVec2(x: int, y: int)

  const Zero: IVec2 := IVec2(0, 0)

  function Add(a: IVec2, b: IVec2): IVec2 {
    IVec2(a.x + b.x, a.y + b.y)
  }

  function Sub(a: IVec2, b: IVec2): IVec2 {
    IVec2(a.x - b.x, a.y - b.y)
  }

  function Neg(a: IVec2): IVec2 {
    IVec2(-a.x, -a.y)
  }

  /** The vector `a` stretched by the factor `k`. */
  function Scale(k: int, a: IVec2): IVec2 {
    IVec2(k * a.x, k * a.y)
  }

  /** The absolute value of an integer. */
  function AbsInt(v: int): (r: nat)
    ensures r == v || r == -v
  {
    if v < 0 then -v else v
  }

  /** The sign of an integer: -1, 0 or 1. */
  function Sign(v: int): (r: int)
    ensures -1 <= r <= 1
    ensures r == 0 <==> v == 0
    ensures r == 1 <==> v > 0
  {
    if v > 0 then 1 else if v < 0 then -1 else 0
  }

  /** The componentwise absolute value. */
  function Abs(a: IVec2): (r: IVec2)
    ensures 0 <= r.x && 0 <= r.y
    ensures r == Zero <==> a == Zero
  {
    IVec2(AbsInt(a.x), AbsInt(a.y))
  }

  /** The componentwise sign: a unit step that is zero on exactly the axes where `a` is. */
  function Signum(a: IVec2): (r: IVec2)
    ensures IsUnitStep(r)
    ensures (r.x == 0 <==> a.x == 0) && (r.y == 0 <==> a.y == 0)
    ensures (r.x == 1 <==> a.x > 0) && (r.y == 1 <==> a.y > 0)
  {
    IVec2(Sign(a.x), Sign(a.y))
  }

  /** The larger of the two components. */
  function MaxElement(a: IVec2): (r: int)
    ensures a.x <= r && a.y <= r
    ensures r == a.x || r == a.y
  {
    if a.x < a.y then a.y else a.x
  }

  /** The squared length of a vector. */
  function LengthSquared(a: IVec2): (r: nat)
    ensures r == 0 <==> a == Zero
  {
    SquareNonNegative(a.x);
    SquareNonNegative(a.y);
    a.x * a.x + a.y * a.y
  }

  /** True when both components lie in {-1, 0, 1}. */
  predicate IsUnitStep(a: IVec2) {
    -1 <= a.x <= 1 && -1 <= a.y <= 1
  }

  lemma SquareNonNegative(v: int)
    ensures v * v >= 0
    ensures v * v == 0 <==> v == 0
  {
    if v < 0 {
      assert v * v == (-v) * (-v);
    }
  }

  /** Multiplying by a positive factor keeps the sign of an integer. */
  lemma {:induction false} SignScale(k: int, v: int)
    requires k > 0
    ensures Sign(k * v) == Sign(v)
  {
    if v > 0 {
      assert k * v >= v by { MulMonotone(k, v); }
    } else if v < 0 {
      assert k * (-v) >= -v by { MulMonotone(k, -v); }
      assert k * v == -(k * (-v));
    }
  }

  lemma MulMonotone(k: int, v: nat)
    requires k >= 1
    ensures k * v >= v
  {
    assert k * v == (k - 1) * v + v;
    assert (k - 1) * v >= 0;
  }

  /** A product is zero exactly when one of its factors is. */
  lemma ProductZero(a: int, b: int)
    ensures a * b == 0 <==> a == 0 || b == 0
  {
    if a != 0 && b != 0 {
      SignScale(AbsInt(a), b);
      assert Sign(AbsInt(a) * b) != 0;
      assert a * b == AbsInt(a) * b || a * b == -(AbsInt(a) * b);
    }
  }

  /** A product of naturals is zero exactly when a factor is, and is at least each positive factor's partner. */
  lemma ProductFacts(a: nat, b: nat)
    ensures a * b == 0 <==> a == 0 || b == 0
    ensures b > 0 ==> a * b >= a
    ensures a > 0 ==> a * b >= b
  {
    ProductZero(a, b);
    if b > 0 { MulMonotone(b, a); assert b * a == a * b; }
    if a > 0 { MulMonotone(a, b); }
  }

  /** Componentwise sign is invariant under positive scaling. */
  lemma SignumScale(k: int, p: IVec2)
    requires k > 0
    ensures Signum(Scale(k, p)) == Signum(p)
  {
    SignScale(k, p.x);
    SignScale(k, p.y);
  }

  /** For 0 <= a <= b, a*a <= b*b. */
  lemma SquareMonotone(a: nat, b: nat)
    requires a <= b
    ensures a * a <= b * b
  {
    assert a * a <= a * b;
    assert a * b <= b * b;
  }
}
