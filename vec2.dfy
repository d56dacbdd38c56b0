/**
 * The two-component vector of src/vec2.rs.
 *
 * As for `Vec4`, every `f32` is an exact `real`, the square root behind
 * `magnitude` is the parameter `sqrt`, and divisions require a non-zero
 * divisor.
 */
module Vec2 {

  import Reals

  /** `Vec2 { x, y }`; the datatype constructor is `Vec2::new`. */
  datatype Vec2 = Vec2(x: real, y: real)

  /** `Vec2::zero()`: (0, 0). */
  function Zero(): Vec2 { Vec2(0.0, 0.0) }

  /** `Vec2::one()`: (1, 1). */
  function One(): Vec2 { Vec2(1.0, 1.0) }

  /** `Default for Vec2` delegates to `zero()`. */
  function Default(): Vec2 { Zero() }

  /** `sqr_magnitude`: the sum of the squared components. */
  function SqrMagnitude(v: Vec2): (s: real)
    ensures s >= 0.0
  {
    Reals.SquareNonNegative(v.x);
    Reals.SquareNonNegative(v.y);
    v.x * v.x + v.y * v.y
  }

  /** The squared length vanishes exactly at the zero vector. */
  lemma SqrMagnitudeZero(v: Vec2)
    ensures SqrMagnitude(v) == 0.0 <==> v == Zero()
  {
    if v != Zero() {
      calc {
        SqrMagnitude(v);
      ==
        v.x * v.x + v.y * v.y + 0.0 * 0.0 + 0.0 * 0.0;
      >  { Reals.SumOfSquaresPositive(v.x, v.y, 0.0, 0.0); }
        0.0;
      }
    }
  }

  /** `magnitude`: the square root of `sqr_magnitude`, with the root abstract. */
  function Magnitude(v: Vec2, sqrt: real -> real): real
  {
    sqrt(SqrMagnitude(v))
  }

  /** `dot`: the sum of the pairwise products. */
  function Dot(a: Vec2, b: Vec2): real
  {
    a.x * b.x + a.y * b.y
  }

  /** No component is zero: what exact division by a vector needs. */
  predicate NonZero(v: Vec2)
  {
    v.x != 0.0 && v.y != 0.0
  }

  /** `a + b`. */
  function Add(a: Vec2, b: Vec2): Vec2
  {
    Vec2(a.x + b.x, a.y + b.y)
  }

  /** `a - b`. */
  function Sub(a: Vec2, b: Vec2): Vec2
  {
    Vec2(a.x - b.x, a.y - b.y)
  }

  /** `a * b`, component-wise. */
  function Mul(a: Vec2, b: Vec2): Vec2
  {
    Vec2(a.x * b.x, a.y * b.y)
  }

  /** `a / b`, component-wise. */
  function Div(a: Vec2, b: Vec2): Vec2
    requires NonZero(b)
  {
    Vec2(a.x / b.x, a.y / b.y)
  }

  /** `v * k`. */
  function MulScalar(v: Vec2, k: real): Vec2
  {
    Vec2(v.x * k, v.y * k)
  }

  /** `k * v`: the commutative form of `v * k`, the same closure body. */
  function ScalarMul(k: real, v: Vec2): Vec2
  {
    Vec2(v.x * k, v.y * k)
  }

  /** `v / k`. */
  function DivScalar(v: Vec2, k: real): Vec2
    requires k != 0.0
  {
    Vec2(v.x / k, v.y / k)
  }

  /**
   * `k / v` AS WRITTEN: the commutative form of `v / k` runs the `v / k`
   * closure body with the operands swapped, so every component of `v` is
   * divided by `k`.
   */
  function ScalarDiv(k: real, v: Vec2): Vec2
    requires k != 0.0
  {
    Vec2(v.x / k, v.y / k)
  }

  /** `k / v` as evidently intended (and as `Vec4` has it): `k` over every component. */
  function ScalarDivReciprocal(k: real, v: Vec2): (r: Vec2)
    requires NonZero(v)
    ensures Mul(r, v) == Vec2(k, k)
  {
    Vec2(k / v.x, k / v.y)
  }

  /** Unary `-v`. */
  function Neg(v: Vec2): Vec2
  {
    Vec2(-v.x, -v.y)
  }

  /** `zero()` (and so `Default`) is the identity of `+`; `one()` is the identity of `*`. */
  lemma Identities(v: Vec2)
    ensures Default() == Zero()
    ensures Add(Zero(), v) == v && Add(v, Zero()) == v
    ensures Mul(One(), v) == v && Mul(v, One()) == v
  {
  }

  /** `-` undoes `+` and `+` undoes `-`. */
  lemma AddSubInverse(a: Vec2, b: Vec2)
    ensures Sub(Add(a, b), b) == a
    ensures Add(Sub(a, b), b) == a
  {
  }

  /** Component-wise `/` undoes component-wise `*`, and the other way round. */
  lemma MulDivInverse(a: Vec2, b: Vec2)
    requires NonZero(b)
    ensures Div(Mul(a, b), b) == a
    ensures Mul(Div(a, b), b) == a
  {
  }

  /** `v * k == k * v`, and `v / k` undoes `v * k`. */
  lemma ScalarOperators(v: Vec2, k: real)
    ensures ScalarMul(k, v) == MulScalar(v, k)
    ensures k != 0.0 ==> DivScalar(MulScalar(v, k), k) == v
  {
  }

  /** `-` flips every component: it is an involution and the additive inverse. */
  lemma NegInvolution(v: Vec2)
    ensures Neg(Neg(v)) == v
    ensures Add(v, Neg(v)) == Zero()
    ensures Sub(Zero(), v) == Neg(v)
  {
  }

  /** `dot` is symmetric and `dot(v, v)` is `sqr_magnitude(v)`. */
  lemma DotSymmetric(a: Vec2, b: Vec2)
    ensures Dot(a, b) == Dot(b, a)
    ensures Dot(a, a) == SqrMagnitude(a)
  {
  }

  /** As written, `k / v` is `v / k` for every non-zero `k`. */
  lemma ScalarDivIsDivScalar(k: real, v: Vec2)
    requires k != 0.0
    ensures ScalarDiv(k, v) == DivScalar(v, k)
  {
  }

  /**
   * As written, `2 / (1, 4)` is (0.5, 2), not the reciprocal form (2, 0.5)
   * that the corrected operator gives.
   */
  lemma ScalarDivIsNotReciprocal()
    ensures ScalarDiv(2.0, Vec2(1.0, 4.0)) == Vec2(0.5, 2.0)
    ensures ScalarDivReciprocal(2.0, Vec2(1.0, 4.0)) == Vec2(2.0, 0.5)
    ensures Mul(ScalarDiv(2.0, Vec2(1.0, 4.0)), Vec2(1.0, 4.0)) != Vec2(2.0, 2.0)
  {
  }

  /**
   * What `normalize` computes has squared length one, as soon as `v` is not
   * zero and `sqrt` really is a square root at `sqr_magnitude(v)`.
   */
  lemma NormalizedIsUnit(v: Vec2, sqrt: real -> real)
    requires v != Zero()
    requires Magnitude(v, sqrt) * Magnitude(v, sqrt) == SqrMagnitude(v)
    ensures Magnitude(v, sqrt) != 0.0
    ensures SqrMagnitude(DivScalar(v, Magnitude(v, sqrt))) == 1.0
  {
    SqrMagnitudeZero(v);
    var m := Magnitude(v, sqrt);
    var n := DivScalar(v, m);
    Reals.SquareThroughQuotient(v.x, m);
    Reals.SquareThroughQuotient(v.y, m);
    assert SqrMagnitude(v) == SqrMagnitude(n) * (m * m);
    Reals.UnitFactor(SqrMagnitude(v), SqrMagnitude(n), m * m);
  }

  /**
   * A place holding a `Vec2` that `&mut self` methods and the compound
   * assignment operators update field by field.
   */
  class Vec2Var {
    var x: real
    var y: real

    /** The vector currently held. */
    function Value(): Vec2
      reads this
    {
      Vec2(x, y)
    }

    constructor (v: Vec2)
      ensures Value() == v
    {
      x, y := v.x, v.y;
    }

    /** `a += b`. */
    method AddAssign(b: Vec2)
      modifies this
      ensures Value() == Add(old(Value()), b)
    {
      x := x + b.x;
      y := y + b.y;
    }

    /** `a -= b`. */
    method SubAssign(b: Vec2)
      modifies this
      ensures Value() == Sub(old(Value()), b)
    {
      x := x - b.x;
      y := y - b.y;
    }

    /** `a *= b`, component-wise. */
    method MulAssign(b: Vec2)
      modifies this
      ensures Value() == Mul(old(Value()), b)
    {
      x := x * b.x;
      y := y * b.y;
    }

    /** `a /= b`, component-wise. */
    method DivAssign(b: Vec2)
      requires NonZero(b)
      modifies this
      ensures Value() == Div(old(Value()), b)
    {
      x := x / b.x;
      y := y / b.y;
    }

    /** `a *= k`. */
    method MulScalarAssign(k: real)
      modifies this
      ensures Value() == MulScalar(old(Value()), k)
    {
      x := x * k;
      y := y * k;
    }

    /** `a /= k`. */
    method DivScalarAssign(k: real)
      requires k != 0.0
      modifies this
      ensures Value() == DivScalar(old(Value()), k)
    {
      x := x / k;
      y := y / k;
    }

    /**
     * `normalize`: the magnitude is taken once, before any component
     * changes, and every component is divided by it in place.
     */
    method Normalize(sqrt: real -> real)
      requires Magnitude(Value(), sqrt) != 0.0
      modifies this
      ensures Value() == DivScalar(old(Value()), Magnitude(old(Value()), sqrt))
    {
      var m := Magnitude(Value(), sqrt);
      x := x / m;
      y := y / m;
    }

    /** `normalized`: normalizes a copy and leaves the receiver as it was. */
    method Normalized(sqrt: real -> real) returns (n: Vec2)
      requires Magnitude(Value(), sqrt) != 0.0
      ensures n == DivScalar(Value(), Magnitude(Value(), sqrt))
    {
      var copy := new Vec2Var(Value());
      copy.Normalize(sqrt);
      n := copy.Value();
    }
  }
}
