/**
 * The four-component vector of src/vec4.rs.
 *
 * Every `f32` is an exact `real`, so the operators become exact algebra.
 * The square root behind `magnitude` is kept abstract: it is passed in as
 * the parameter `sqrt`. Divisions require a non-zero divisor, because a
 * `real` has no NaN or infinity to stand for the IEEE result.
 */
module Vec4 {

  import Reals

  /** `Vec4 { x, y, z, w }`; the datatype constructor is `Vec4::new`. */
  datatype Vec4 = Vec4(x: real, y: real, z: real, w: real)

  /** `Vec4::zero()`: (0, 0, 0, 0). */
  function Zero(): Vec4 { Vec4(0.0, 0.0, 0.0, 0.0) }

  /** `Vec4::one()`: (1, 1, 1, 1). */
  function One(): Vec4 { Vec4(1.0, 1.0, 1.0, 1.0) }

  /** `Default for Vec4` delegates to `zero()`. */
  function Default(): Vec4 { Zero() }

  /** `sqr_magnitude`: the sum of the squared components. */
  function SqrMagnitude(v: Vec4): (s: real)
    ensures s >= 0.0
  {
    Reals.SquareNonNegative(v.x);
    Reals.SquareNonNegative(v.y);
    Reals.SquareNonNegative(v.z);
    Reals.SquareNonNegative(v.w);
    v.x * v.x + v.y * v.y + v.z * v.z + v.w * v.w
  }

  /** The squared length vanishes exactly at the zero vector. */
  lemma SqrMagnitudeZero(v: Vec4)
    ensures SqrMagnitude(v) == 0.0 <==> v == Zero()
  {
    if v != Zero() {
      calc {
        SqrMagnitude(v);
      ==
        v.x * v.x + v.y * v.y + v.z * v.z + v.w * v.w;
      >  { Reals.SumOfSquaresPositive(v.x, v.y, v.z, v.w); }
        0.0;
      }
    }
  }

  /** `magnitude`: the square root of `sqr_magnitude`, with the root abstract. */
  function Magnitude(v: Vec4, sqrt: real -> real): real
  {
    sqrt(SqrMagnitude(v))
  }

  /** `dot`: the sum of the pairwise products. */
  function Dot(a: Vec4, b: Vec4): real
  {
    a.x * b.x + a.y * b.y + a.z * b.z + a.w * b.w
  }

  /** No component is zero: what exact division by a vector needs. */
  predicate NonZero(v: Vec4)
  {
    v.x != 0.0 && v.y != 0.0 && v.z != 0.0 && v.w != 0.0
  }

  /** `a + b`. */
  function Add(a: Vec4, b: Vec4): Vec4
  {
    Vec4(a.x + b.x, a.y + b.y, a.z + b.z, a.w + b.w)
  }

  /** `a - b`. */
  function Sub(a: Vec4, b: Vec4): Vec4
  {
    Vec4(a.x - b.x, a.y - b.y, a.z - b.z, a.w - b.w)
  }

  /** `a * b`, component-wise. */
  function Mul(a: Vec4, b: Vec4): Vec4
  {
    Vec4(a.x * b.x, a.y * b.y, a.z * b.z, a.w * b.w)
  }

  /** `a / b`, component-wise. */
  function Div(a: Vec4, b: Vec4): Vec4
    requires NonZero(b)
  {
    Vec4(a.x / b.x, a.y / b.y, a.z / b.z, a.w / b.w)
  }

  /** `v * k`. */
  function MulScalar(v: Vec4, k: real): Vec4
  {
    Vec4(v.x * k, v.y * k, v.z * k, v.w * k)
  }

  /**
   * `k * v`: the commutative form of `v * k`, which runs the same closure
   * body with the operands in the other order.
   */
  function ScalarMul(k: real, v: Vec4): Vec4
  {
    Vec4(v.x * k, v.y * k, v.z * k, v.w * k)
  }

  /** `v / k`. */
  function DivScalar(v: Vec4, k: real): Vec4
    requires k != 0.0
  {
    Vec4(v.x / k, v.y / k, v.z / k, v.w / k)
  }

  /** `k / v`: a separate operator that divides `k` by every component. */
  function ScalarDiv(k: real, v: Vec4): (r: Vec4)
    requires NonZero(v)
    ensures Mul(r, v) == Vec4(k, k, k, k)
  {
    Vec4(k / v.x, k / v.y, k / v.z, k / v.w)
  }

  /** Unary `-v`. */
  function Neg(v: Vec4): Vec4
  {
    Vec4(-v.x, -v.y, -v.z, -v.w)
  }

  /** `zero()` (and so `Default`) is the identity of `+`; `one()` is the identity of `*`. */
  lemma Identities(v: Vec4)
    ensures Default() == Zero()
    ensures Add(Zero(), v) == v && Add(v, Zero()) == v
    ensures Mul(One(), v) == v && Mul(v, One()) == v
  {
  }

  /** `-` undoes `+` and `+` undoes `-`. */
  lemma AddSubInverse(a: Vec4, b: Vec4)
    ensures Sub(Add(a, b), b) == a
    ensures Add(Sub(a, b), b) == a
  {
  }

  /** Component-wise `/` undoes component-wise `*`, and the other way round. */
  lemma MulDivInverse(a: Vec4, b: Vec4)
    requires NonZero(b)
    ensures Div(Mul(a, b), b) == a
    ensures Mul(Div(a, b), b) == a
  {
  }

  /** `v * k == k * v`, and `v / k` undoes `v * k`. */
  lemma ScalarOperators(v: Vec4, k: real)
    ensures ScalarMul(k, v) == MulScalar(v, k)
    ensures k != 0.0 ==> DivScalar(MulScalar(v, k), k) == v
  {
  }

  /** `-` flips every component: it is an involution and the additive inverse. */
  lemma NegInvolution(v: Vec4)
    ensures Neg(Neg(v)) == v
    ensures Add(v, Neg(v)) == Zero()
    ensures Sub(Zero(), v) == Neg(v)
  {
  }

  /** `dot` is symmetric and `dot(v, v)` is `sqr_magnitude(v)`. */
  lemma DotSymmetric(a: Vec4, b: Vec4)
    ensures Dot(a, b) == Dot(b, a)
    ensures Dot(a, a) == SqrMagnitude(a)
  {
  }

  /** `dot` distributes over `+` in its second argument. */
  lemma DotAdd(u: Vec4, a: Vec4, b: Vec4)
    ensures Dot(u, Add(a, b)) == Dot(u, a) + Dot(u, b)
  {
  }

  /** A scalar factor moves from a `dot` into its second argument. */
  lemma DotScale(u: Vec4, a: Vec4, t: real)
    ensures Dot(u, a) * t == Dot(u, MulScalar(a, t))
  {
  }

  /**
   * Regrouping a double sum: dotting the four dots `u . c_j` with `v` is
   * dotting `u` with the combination of the `c_j` weighted by `v`.
   */
  lemma DotRegroup(u: Vec4, c0: Vec4, c1: Vec4, c2: Vec4, c3: Vec4, v: Vec4)
    ensures Dot(Vec4(Dot(u, c0), Dot(u, c1), Dot(u, c2), Dot(u, c3)), v)
         == Dot(u, Add(Add(Add(MulScalar(c0, v.x), MulScalar(c1, v.y)), MulScalar(c2, v.z)), MulScalar(c3, v.w)))
  {
    DotScale(u, c0, v.x);
    DotScale(u, c1, v.y);
    DotScale(u, c2, v.z);
    DotScale(u, c3, v.w);
    DotAdd(u, MulScalar(c0, v.x), MulScalar(c1, v.y));
    DotAdd(u, Add(MulScalar(c0, v.x), MulScalar(c1, v.y)), MulScalar(c2, v.z));
    DotAdd(u, Add(Add(MulScalar(c0, v.x), MulScalar(c1, v.y)), MulScalar(c2, v.z)), MulScalar(c3, v.w));
  }

  /**
   * What `normalize` computes has squared length one, as soon as `sqrt`
   * really is a square root at `sqr_magnitude(v)` and `v` is not zero.
   */
  lemma NormalizedIsUnit(v: Vec4, sqrt: real -> real)
    requires v != Zero()
    requires Magnitude(v, sqrt) * Magnitude(v, sqrt) == SqrMagnitude(v)
    ensures Magnitude(v, sqrt) != 0.0
    ensures SqrMagnitude(DivScalar(v, Magnitude(v, sqrt))) == 1.0
  {
    SqrMagnitudeZero(v);
    var m := Magnitude(v, sqrt);
    var n := DivScalar(v, m);
    Reals.SquareThroughQuotient(v.x, m);
    Reals.SquareThroughQuotient(v.y, m);
    Reals.SquareThroughQuotient(v.z, m);
    Reals.SquareThroughQuotient(v.w, m);
    assert SqrMagnitude(v) == SqrMagnitude(n) * (m * m);
    Reals.UnitFactor(SqrMagnitude(v), SqrMagnitude(n), m * m);
  }

  /** The values pinned by the unit test `operators`. */
  lemma OperatorsTest()
    ensures var a, b := Vec4(1.0, 2.0, 3.0, 4.0), Vec4(3.0, 4.0, 5.0, 6.0);
      && Neg(a) == Vec4(-1.0, -2.0, -3.0, -4.0)
      && SqrMagnitude(a) == 30.0
      && Dot(a, b) == 50.0
      && Add(a, b) == Vec4(4.0, 6.0, 8.0, 10.0)
      && Sub(a, b) == Vec4(-2.0, -2.0, -2.0, -2.0)
      && Mul(a, b) == Vec4(3.0, 8.0, 15.0, 24.0)
      && Div(a, b) == Vec4(1.0 / 3.0, 0.5, 3.0 / 5.0, 4.0 / 6.0)
      && MulScalar(a, 2.0) == Vec4(2.0, 4.0, 6.0, 8.0)
      && ScalarMul(2.0, a) == Vec4(2.0, 4.0, 6.0, 8.0)
      && DivScalar(a, 2.0) == Vec4(0.5, 1.0, 1.5, 2.0)
      && ScalarDiv(2.0, a) == Vec4(2.0, 1.0, 2.0 / 3.0, 0.5)
  {
  }

  /**
   * A place holding a `Vec4` that `&mut self` methods and the compound
   * assignment operators update field by field.
   */
  class Vec4Var {
    var x: real
    var y: real
    var z: real
    var w: real

    /** The vector currently held. */
    function Value(): Vec4
      reads this
    {
      Vec4(x, y, z, w)
    }

    constructor (v: Vec4)
      ensures Value() == v
    {
      x, y, z, w := v.x, v.y, v.z, v.w;
    }

    /** `a += b`. */
    method AddAssign(b: Vec4)
      modifies this
      ensures Value() == Add(old(Value()), b)
    {
      x := x + b.x;
      y := y + b.y;
      z := z + b.z;
      w := w + b.w;
    }

    /** `a -= b`. */
    method SubAssign(b: Vec4)
      modifies this
      ensures Value() == Sub(old(Value()), b)
    {
      x := x - b.x;
      y := y - b.y;
      z := z - b.z;
      w := w - b.w;
    }

    /** `a *= b`, component-wise. */
    method MulAssign(b: Vec4)
      modifies this
      ensures Value() == Mul(old(Value()), b)
    {
      x := x * b.x;
      y := y * b.y;
      z := z * b.z;
      w := w * b.w;
    }

    /** `a /= b`, component-wise. */
    method DivAssign(b: Vec4)
      requires NonZero(b)
      modifies this
      ensures Value() == Div(old(Value()), b)
    {
      x := x / b.x;
      y := y / b.y;
      z := z / b.z;
      w := w / b.w;
    }

    /** `a *= k`. */
    method MulScalarAssign(k: real)
      modifies this
      ensures Value() == MulScalar(old(Value()), k)
    {
      x := x * k;
      y := y * k;
      z := z * k;
      w := w * k;
    }

    /** `a /= k`. */
    method DivScalarAssign(k: real)
      requires k != 0.0
      modifies this
      ensures Value() == DivScalar(old(Value()), k)
    {
      x := x / k;
      y := y / k;
      z := z / k;
      w := w / k;
    }

    /**
     * `normalize`: the magnitude is taken once, before any component
     * changes, and every component is divided by it in place.
     */
    method Normalize(sqrt: real -> real)
      requires Magnitude(Value(), sqrt) != 0.0
      modifies this
      ensures Value() == DivScalar(old(Value()), Magnitude(old(Value()), sqrt))
    {
      var m := Magnitude(Value(), sqrt);
      x := x / m;
      y := y / m;
      z := z / m;
      w := w / m;
    }

    /** `normalized`: normalizes a copy and leaves the receiver as it was. */
    method Normalized(sqrt: real -> real) returns (n: Vec4)
      requires Magnitude(Value(), sqrt) != 0.0
      ensures n == DivScalar(Value(), Magnitude(Value(), sqrt))
    {
      var copy := new Vec4Var(Value());
      copy.Normalize(sqrt);
      n := copy.Value();
    }
  }
}
