/**
 * The three-component vector of src/vec3.rs, with the cross product.
 *
 * As for `Vec4`, every `f32` is an exact `real`, the square root behind
 * `magnitude` is the parameter `sqrt`, and divisions require a non-zero
 * divisor.
 */
module Vec3 {

  import Reals

  /** `Vec3 { x, y, z }`; the datatype constructor is `Vec3::new`. */
  datatype Vec3 = Vec3(x: real, y: real, z: real)

  /** `Vec3::zero()`: (0, 0, 0). */
  function Zero(): Vec3 { Vec3(0.0, 0.0, 0.0) }

  /** `Vec3::one()`: (1, 1, 1). */
  function One(): Vec3 { Vec3(1.0, 1.0, 1.0) }

  /** `Default for Vec3` delegates to `zero()`. */
  function Default(): Vec3 { Zero() }

  /** `sqr_magnitude`: the sum of the squared components. */
  function SqrMagnitude(v: Vec3): (s: real)
    ensures s >= 0.0
  {
    Reals.SquareNonNegative(v.x);
    Reals.SquareNonNegative(v.y);
    Reals.SquareNonNegative(v.z);
    v.x * v.x + v.y * v.y + v.z * v.z
  }

  /** The squared length vanishes exactly at the zero vector. */
  lemma SqrMagnitudeZero(v: Vec3)
    ensures SqrMagnitude(v) == 0.0 <==> v == Zero()
  {
    if v != Zero() {
      calc {
        SqrMagnitude(v);
      ==
        v.x * v.x + v.y * v.y + v.z * v.z + 0.0 * 0.0;
      >  { Reals.SumOfSquaresPositive(v.x, v.y, v.z, 0.0); }
        0.0;
      }
    }
  }

  /** `magnitude`: the square root of `sqr_magnitude`, with the root abstract. */
  function Magnitude(v: Vec3, sqrt: real -> real): real
  {
    sqrt(SqrMagnitude(v))
  }

  /** `dot`: the sum of the pairwise products. */
  function Dot(a: Vec3, b: Vec3): real
  {
    a.x * b.x + a.y * b.y + a.z * b.z
  }

  /** `cross`: the right-handed cross product of `a` and `b`. */
  function Cross(a: Vec3, b: Vec3): Vec3
  {
    Vec3(a.y * b.z - a.z * b.y, a.z * b.x - a.x * b.z, a.x * b.y - a.y * b.x)
  }

  /** No component is zero: what exact division by a vector needs. */
  predicate NonZero(v: Vec3)
  {
    v.x != 0.0 && v.y != 0.0 && v.z != 0.0
  }

  /** `a + b`. */
  function Add(a: Vec3, b: Vec3): Vec3
  {
    Vec3(a.x + b.x, a.y + b.y, a.z + b.z)
  }

  /** `a - b`. */
  function Sub(a: Vec3, b: Vec3): Vec3
  {
    Vec3(a.x - b.x, a.y - b.y, a.z - b.z)
  }

  /** `a * b`, component-wise. */
  function Mul(a: Vec3, b: Vec3): Vec3
  {
    Vec3(a.x * b.x, a.y * b.y, a.z * b.z)
  }

  /** `a / b`, component-wise. */
  function Div(a: Vec3, b: Vec3): Vec3
    requires NonZero(b)
  {
    Vec3(a.x / b.x, a.y / b.y, a.z / b.z)
  }

  /** `v * k`. */
  function MulScalar(v: Vec3, k: real): Vec3
  {
    Vec3(v.x * k, v.y * k, v.z * k)
  }

  /** `k * v`: the commutative form of `v * k`, the same closure body. */
  function ScalarMul(k: real, v: Vec3): Vec3
  {
    Vec3(v.x * k, v.y * k, v.z * k)
  }

  /** `v / k`. */
  function DivScalar(v: Vec3, k: real): Vec3
    requires k != 0.0
  {
    Vec3(v.x / k, v.y / k, v.z / k)
  }

  /**
   * `k / v` AS WRITTEN: the commutative form of `v / k` runs the `v / k`
   * closure body with the operands swapped, so every component of `v` is
   * divided by `k`.
   */
  function ScalarDiv(k: real, v: Vec3): Vec3
    requires k != 0.0
  {
    Vec3(v.x / k, v.y / k, v.z / k)
  }

  /** `k / v` as evidently intended (and as `Vec4` has it): `k` over every component. */
  function ScalarDivReciprocal(k: real, v: Vec3): (r: Vec3)
    requires NonZero(v)
    ensures Mul(r, v) == Vec3(k, k, k)
  {
    Vec3(k / v.x, k / v.y, k / v.z)
  }

  /** Unary `-v`. */
  function Neg(v: Vec3): Vec3
  {
    Vec3(-v.x, -v.y, -v.z)
  }

  /** `zero()` (and so `Default`) is the identity of `+`; `one()` is the identity of `*`. */
  lemma Identities(v: Vec3)
    ensures Default() == Zero()
    ensures Add(Zero(), v) == v && Add(v, Zero()) == v
    ensures Mul(One(), v) == v && Mul(v, One()) == v
  {
  }

  /** `-` undoes `+` and `+` undoes `-`. */
  lemma AddSubInverse(a: Vec3, b: Vec3)
    ensures Sub(Add(a, b), b) == a
    ensures Add(Sub(a, b), b) == a
  {
  }

  /** Component-wise `/` undoes component-wise `*`, and the other way round. */
  lemma MulDivInverse(a: Vec3, b: Vec3)
    requires NonZero(b)
    ensures Div(Mul(a, b), b) == a
    ensures Mul(Div(a, b), b) == a
  {
  }

  /** `v * k == k * v`, and `v / k` undoes `v * k`. */
  lemma ScalarOperators(v: Vec3, k: real)
    ensures ScalarMul(k, v) == MulScalar(v, k)
    ensures k != 0.0 ==> DivScalar(MulScalar(v, k), k) == v
  {
  }

  /** `-` flips every component: it is an involution and the additive inverse. */
  lemma NegInvolution(v: Vec3)
    ensures Neg(Neg(v)) == v
    ensures Add(v, Neg(v)) == Zero()
    ensures Sub(Zero(), v) == Neg(v)
  {
  }

  /** `dot` is symmetric and `dot(v, v)` is `sqr_magnitude(v)`. */
  lemma DotSymmetric(a: Vec3, b: Vec3)
    ensures Dot(a, b) == Dot(b, a)
    ensures Dot(a, a) == SqrMagnitude(a)
  {
  }

  /** Swapping the operands of `cross` negates the result; so `a x a` is zero. */
  lemma CrossAnticommutative(a: Vec3, b: Vec3)
    ensures Cross(a, b) == Neg(Cross(b, a))
    ensures Cross(a, a) == Zero()
  {
  }

  /** `a x b` is orthogonal to both `a` and `b`. */
  lemma CrossOrthogonal(a: Vec3, b: Vec3)
    ensures Dot(Cross(a, b), a) == 0.0
    ensures Dot(Cross(a, b), b) == 0.0
  {
  }

  /** Lagrange's identity: `|a x b|^2 == |a|^2 |b|^2 - (a . b)^2`. */
  lemma CrossLagrange(a: Vec3, b: Vec3)
    ensures SqrMagnitude(Cross(a, b)) == SqrMagnitude(a) * SqrMagnitude(b) - Dot(a, b) * Dot(a, b)
  {
  }

  /** The unit axes follow the right-hand rule: x cross y is z, cyclically. */
  lemma CrossRightHanded(ex: Vec3, ey: Vec3, ez: Vec3)
    requires ex == Vec3(1.0, 0.0, 0.0) && ey == Vec3(0.0, 1.0, 0.0) && ez == Vec3(0.0, 0.0, 1.0)
    ensures Cross(ex, ey) == ez && Cross(ey, ez) == ex && Cross(ez, ex) == ey
  {
  }

  /** As written, `k / v` is `v / k` for every non-zero `k`. */
  lemma ScalarDivIsDivScalar(k: real, v: Vec3)
    requires k != 0.0
    ensures ScalarDiv(k, v) == DivScalar(v, k)
  {
  }

  /**
   * As written, `2 / (1, 2, 4)` is (0.5, 1, 2), not the reciprocal form
   * (2, 1, 0.5) that the corrected operator gives.
   */
  lemma ScalarDivIsNotReciprocal()
    ensures ScalarDiv(2.0, Vec3(1.0, 2.0, 4.0)) == Vec3(0.5, 1.0, 2.0)
    ensures ScalarDivReciprocal(2.0, Vec3(1.0, 2.0, 4.0)) == Vec3(2.0, 1.0, 0.5)
    ensures Mul(ScalarDiv(2.0, Vec3(1.0, 2.0, 4.0)), Vec3(1.0, 2.0, 4.0)) != Vec3(2.0, 2.0, 2.0)
  {
  }

  /**
   * What `normalize` computes has squared length one, as soon as `v` is not
   * zero and `sqrt` really is a square root at `sqr_magnitude(v)`.
   */
  lemma NormalizedIsUnit(v: Vec3, sqrt: real -> real)
    requires v != Zero()
    requires Magnitude(v, sqrt) * Magnitude(v, sqrt) == SqrMagnitude(v)
    ensures Magnitude(v, sqrt) != 0.0
    ensures SqrMagnitude(DivScalar(v, Magnitude(v, sqrt))) == 1.0
  {
    SqrMagnitudeZero(v);
    var m := Magnitude(v, sqrt);
    var n := DivScalar(v, m);
    Reals.SquareThroughQuotient(v.x, m);
    Reals.SquareThroughQuotient(v.y, m);
    Reals.SquareThroughQuotient(v.z, m);
    assert SqrMagnitude(v) == SqrMagnitude(n) * (m * m);
    Reals.UnitFactor(SqrMagnitude(v), SqrMagnitude(n), m * m);
  }

  /**
   * A place holding a `Vec3` that `&mut self` methods and the compound
   * assignment operators update field by field.
   */
  class Vec3Var {
    var x: real
    var y: real
    var z: real

    /** The vector currently held. */
    function Value(): Vec3
      reads this
    {
      Vec3(x, y, z)
    }

    constructor (v: Vec3)
      ensures Value() == v
    {
      x, y, z := v.x, v.y, v.z;
    }

    /** `a += b`. */
    method AddAssign(b: Vec3)
      modifies this
      ensures Value() == Add(old(Value()), b)
    {
      x := x + b.x;
      y := y + b.y;
      z := z + b.z;
    }

    /** `a -= b`. */
    method SubAssign(b: Vec3)
      modifies this
      ensures Value() == Sub(old(Value()), b)
    {
      x := x - b.x;
      y := y - b.y;
      z := z - b.z;
    }

    /** `a *= b`, component-wise. */
    method MulAssign(b: Vec3)
      modifies this
      ensures Value() == Mul(old(Value()), b)
    {
      x := x * b.x;
      y := y * b.y;
      z := z * b.z;
    }

    /** `a /= b`, component-wise. */
    method DivAssign(b: Vec3)
      requires NonZero(b)
      modifies this
      ensures Value() == Div(old(Value()), b)
    {
      x := x / b.x;
      y := y / b.y;
      z := z / b.z;
    }

    /** `a *= k`. */
    method MulScalarAssign(k: real)
      modifies this
      ensures Value() == MulScalar(old(Value()), k)
    {
      x := x * k;
      y := y * k;
      z := z * k;
    }

    /** `a /= k`. */
    method DivScalarAssign(k: real)
      requires k != 0.0
      modifies this
      ensures Value() == DivScalar(old(Value()), k)
    {
      x := x / k;
      y := y / k;
      z := z / k;
    }

    /**
     * `normalize`: the magnitude is taken once, before any component
     * changes, and every component is divided by it in place.
     */
    method Normalize(sqrt: real -> real)
      requires Magnitude(Value(), sqrt) != 0.0
      modifies this
      ensures Value() == DivScalar(old(Value()), Magnitude(old(Value()), sqrt))
    {
      var m := Magnitude(Value(), sqrt);
      x := x / m;
      y := y / m;
      z := z / m;
    }

    /** `normalized`: normalizes a copy and leaves the receiver as it was. */
    method Normalized(sqrt: real -> real) returns (n: Vec3)
      requires Magnitude(Value(), sqrt) != 0.0
      ensures n == DivScalar(Value(), Magnitude(Value(), sqrt))
    {
      var copy := new Vec3Var(Value());
      copy.Normalize(sqrt);
      n := copy.Value();
    }
  }
}
