/**
 * The 4x4 matrix of src/mat4.rs.
 *
 * `values` is the sixteen-slot array of the source, kept in the default
 * column-major layout: the entry in column `c` and row `r` sits at
 * `r + 4 * c`. Builders that the source writes slot by slot (`translate`,
 * `rotate`, `scale`, `transposed`, the product) are methods over a local
 * array, each proved equal to a specification function; the algebra is
 * proved about those functions.
 */
module Mat4 {

  import Reals
  import Vec3
  import Vec4
  import Quaternion

  /** The sixteen `f32` slots of `values`. */
  type Values = s: seq<real> | |s| == 16 witness seq(16, _ => 0.0)

  /** `Mat4 { values }`. */
  datatype Mat4 = Mat4(values: Values)

  /** `cr` in the default column-major layout: the slot of column `c`, row `r`. */
  function Cr(c: nat, r: nat): (i: nat)
    ensures c < 4 && r < 4 ==> i < 16
  {
    r + c * 4
  }

  /** `cr` under the `mat-row-major` build switch: the column-major slot of the transposed position. */
  function CrRowMajor(c: nat, r: nat): (i: nat)
    ensures i == Cr(r, c)
    ensures c < 4 && r < 4 ==> i < 16
  {
    r * 4 + c
  }

  /** The column of slot `i`. */
  function Col(i: nat): nat
  {
    if i < 4 then 0 else if i < 8 then 1 else if i < 12 then 2 else 3
  }

  /** The row of slot `i`. */
  function Row(i: nat): nat
  {
    if i < 16 then i - 4 * Col(i) else 0
  }

  /** Every slot is the `cr` of exactly the position `(Col(i), Row(i))`. */
  lemma CrSurjective(i: nat)
    requires i < 16
    ensures Col(i) < 4 && Row(i) < 4 && Cr(Col(i), Row(i)) == i
  {
  }

  /** Distinct positions of the 4x4 grid have distinct slots. */
  lemma CrInjective(c: nat, r: nat, c': nat, r': nat)
    requires c < 4 && r < 4 && c' < 4 && r' < 4
    ensures Cr(c, r) == Cr(c', r') ==> c == c' && r == r'
  {
    if c < c' {
      assert Cr(c, r) < Cr(c', r');
    } else if c' < c {
      assert Cr(c', r') < Cr(c, r);
    }
  }

  /** `Col` and `Row` recover the position from its slot. */
  lemma ColRow(c: nat, r: nat)
    requires c < 4 && r < 4
    ensures Col(Cr(c, r)) == c && Row(Cr(c, r)) == r
  {
    if c == 0 {
    } else if c == 1 {
    } else if c == 2 {
    } else {
    }
  }

  /**
   * `get`: the value at column `c`, row `r`. Like the array access of the
   * source it only needs the slot to exist, so column 0, row 5 reads the
   * slot of column 1, row 1.
   */
  function Get(m: Mat4, c: nat, r: nat): real
    requires Cr(c, r) < 16
  {
    m.values[Cr(c, r)]
  }

  /** What `set(c, r, v)` leaves behind: slot `cr(c, r)` holds `v`, every other slot is kept. */
  function With(m: Mat4, c: nat, r: nat, v: real): (n: Mat4)
    requires Cr(c, r) < 16
    ensures Get(n, c, r) == v
    ensures forall c': nat, r': nat | Cr(c', r') < 16 && Cr(c', r') != Cr(c, r) :: Get(n, c', r') == Get(m, c', r')
  {
    Mat4(m.values[Cr(c, r) := v])
  }

  /** Two matrices that agree at every position of the grid are equal. */
  lemma Ext(a: Mat4, b: Mat4)
    requires forall c: nat, r: nat | c < 4 && r < 4 :: Get(a, c, r) == Get(b, c, r)
    ensures a == b
  {
    forall i | 0 <= i < 16
      ensures a.values[i] == b.values[i]
    {
      CrSurjective(i);
      assert Get(a, Col(i), Row(i)) == Get(b, Col(i), Row(i));
    }
  }

  /** `identity()`: ones on the diagonal, zeros elsewhere. */
  function Identity(): (m: Mat4)
    ensures forall c: nat, r: nat | c < 4 && r < 4 :: Get(m, c, r) == if c == r then 1.0 else 0.0
  {
    var m := Mat4([
      1.0, 0.0, 0.0, 0.0,
      0.0, 1.0, 0.0, 0.0,
      0.0, 0.0, 1.0, 0.0,
      0.0, 0.0, 0.0, 1.0
    ]);
    forall c: nat, r: nat | c < 4 && r < 4
      ensures Get(m, c, r) == if c == r then 1.0 else 0.0
    {
      ColRow(c, r);
    }
    m
  }

  /** `Default for Mat4` delegates to `identity()`. */
  function Default(): Mat4
  {
    Identity()
  }

  /** Row `r` of `m` as a vector. */
  function RowOf(m: Mat4, r: nat): Vec4.Vec4
    requires r < 4
  {
    Vec4.Vec4(Get(m, 0, r), Get(m, 1, r), Get(m, 2, r), Get(m, 3, r))
  }

  /** Column `c` of `m` as a vector. */
  function ColumnOf(m: Mat4, c: nat): Vec4.Vec4
    requires c < 4
  {
    Vec4.Vec4(Get(m, c, 0), Get(m, c, 1), Get(m, c, 2), Get(m, c, 3))
  }

  /** The transpose: column `c`, row `r` of the result is column `r`, row `c` of `m`. */
  function Transpose(m: Mat4): (t: Mat4)
    ensures forall c: nat, r: nat | c < 4 && r < 4 :: Get(t, c, r) == Get(m, r, c)
  {
    var t := Mat4(seq(16, i requires 0 <= i < 16 => m.values[Cr(Row(i), Col(i))]));
    forall c: nat, r: nat | c < 4 && r < 4
      ensures Get(t, c, r) == Get(m, r, c)
    {
      ColRow(c, r);
    }
    t
  }

  /** Transposing twice gives the matrix back. */
  lemma TransposeInvolution(m: Mat4)
    ensures Transpose(Transpose(m)) == m
  {
    Ext(Transpose(Transpose(m)), m);
  }

  /** The identity is its own transpose. */
  lemma TransposeIdentity()
    ensures Transpose(Identity()) == Identity()
  {
    Ext(Transpose(Identity()), Identity());
  }

  /** `transposed`: two nested loops copy column `c`, row `r` of `m` to column `r`, row `c`. */
  method Transposed(m: Mat4) returns (t: Mat4)
    ensures t == Transpose(m)
  {
    ghost var want := Transpose(m).values;
    var id := Identity().values;
    var res := new real[16](i requires 0 <= i < 16 => id[i]);
    for c := 0 to 4
      invariant forall c': nat, r': nat {:trigger res[Cr(r', c')]} | c' < c && r' < 4 :: res[Cr(r', c')] == want[Cr(r', c')]
    {
      for r := 0 to 4
        invariant forall c': nat, r': nat {:trigger res[Cr(r', c')]} | c' < c && r' < 4 :: res[Cr(r', c')] == want[Cr(r', c')]
        invariant forall r': nat {:trigger res[Cr(r', c)]} | r' < r :: res[Cr(r', c)] == want[Cr(r', c)]
      {
        forall c': nat, r': nat | c' < c && r' < 4
          ensures Cr(r', c') != Cr(r, c)
        {
          CrInjective(r, c, r', c');
        }
        forall r': nat | r' < r
          ensures Cr(r', c) != Cr(r, c)
        {
          CrInjective(r, c, r', c);
        }
        res[Cr(r, c)] := m.values[Cr(c, r)];
      }
    }
    forall i | 0 <= i < 16
      ensures res[i] == want[i]
    {
      CrSurjective(i);
      assert res[Cr(Col(i), Row(i))] == want[Cr(Col(i), Row(i))];
    }
    t := Mat4(res[..]);
  }

  /** The matrix product: entry (c, r) is row `r` of `a` dotted with column `c` of `b`. */
  function Product(a: Mat4, b: Mat4): (p: Mat4)
    ensures forall c: nat, r: nat | c < 4 && r < 4 :: Get(p, c, r) == Vec4.Dot(RowOf(a, r), ColumnOf(b, c))
  {
    var p := Mat4(seq(16, i requires 0 <= i < 16 => Vec4.Dot(RowOf(a, Row(i)), ColumnOf(b, Col(i)))));
    forall c: nat, r: nat | c < 4 && r < 4
      ensures Get(p, c, r) == Vec4.Dot(RowOf(a, r), ColumnOf(b, c))
    {
      ColRow(c, r);
    }
    p
  }

  /** Row `r` of `a` dotted with column `c` of `b`, written over the slots as the loop body of `*` computes it. */
  lemma RowColumnDot(a: Mat4, b: Mat4, c: nat, r: nat)
    requires c < 4 && r < 4
    ensures Vec4.Dot(RowOf(a, r), ColumnOf(b, c)) ==
      a.values[Cr(0, r)] * b.values[Cr(c, 0)] +
      a.values[Cr(1, r)] * b.values[Cr(c, 1)] +
      a.values[Cr(2, r)] * b.values[Cr(c, 2)] +
      a.values[Cr(3, r)] * b.values[Cr(c, 3)]
  {
  }

  /** A matrix whose every entry is the matching row of `a` dotted with the matching column of `b` is `a * b`. */
  lemma ProductByEntries(a: Mat4, b: Mat4, p: Mat4)
    requires forall c: nat, r: nat | c < 4 && r < 4 :: Get(p, c, r) == Vec4.Dot(RowOf(a, r), ColumnOf(b, c))
    ensures p == Product(a, b)
  {
    Ext(p, Product(a, b));
  }

  /** `Mat4 * Mat4`: for each row `r` and each column `c`, one entry of the product. */
  method Mul(a: Mat4, b: Mat4) returns (p: Mat4)
    ensures p == Product(a, b)
  {
    var id := Identity().values;
    var res := new real[16](i requires 0 <= i < 16 => id[i]);
    for r := 0 to 4
      invariant forall c': nat, r': nat {:trigger res[Cr(c', r')]} | c' < 4 && r' < r ::
        res[Cr(c', r')] == Vec4.Dot(RowOf(a, r'), ColumnOf(b, c'))
    {
      for c := 0 to 4
        invariant forall c': nat, r': nat {:trigger res[Cr(c', r')]} | c' < 4 && r' < r ::
          res[Cr(c', r')] == Vec4.Dot(RowOf(a, r'), ColumnOf(b, c'))
        invariant forall c': nat {:trigger res[Cr(c', r)]} | c' < c ::
          res[Cr(c', r)] == Vec4.Dot(RowOf(a, r), ColumnOf(b, c'))
      {
        forall c': nat, r': nat | c' < 4 && r' < r
          ensures Cr(c', r') != Cr(c, r)
        {
          CrInjective(c, r, c', r');
        }
        forall c': nat | c' < c
          ensures Cr(c', r) != Cr(c, r)
        {
          CrInjective(c, r, c', r);
        }
        RowColumnDot(a, b, c, r);
        res[Cr(c, r)] :=
          a.values[Cr(0, r)] * b.values[Cr(c, 0)] +
          a.values[Cr(1, r)] * b.values[Cr(c, 1)] +
          a.values[Cr(2, r)] * b.values[Cr(c, 2)] +
          a.values[Cr(3, r)] * b.values[Cr(c, 3)];
      }
    }
    p := Mat4(res[..]);
    ProductByEntries(a, b, p);
  }

  /** Column `c` of `m` is `m` applied to the `c`-th unit vector. */
  lemma ColumnByUnit(m: Mat4, c: nat)
    requires c < 4
    ensures MulVec4(m, ColumnOf(Identity(), c)) == ColumnOf(m, c)
  {
    IdentityColumns();
    if c == 0 {
      MulVec4Columns(m, Vec4.Vec4(1.0, 0.0, 0.0, 0.0));
    } else if c == 1 {
      MulVec4Columns(m, Vec4.Vec4(0.0, 1.0, 0.0, 0.0));
    } else if c == 2 {
      MulVec4Columns(m, Vec4.Vec4(0.0, 0.0, 1.0, 0.0));
    } else {
      MulVec4Columns(m, Vec4.Vec4(0.0, 0.0, 0.0, 1.0));
    }
  }

  /** The identity is a two-sided unit of the product. */
  lemma ProductIdentity(m: Mat4)
    ensures Product(Identity(), m) == m
    ensures Product(m, Identity()) == m
  {
    var id := Identity();
    forall c: nat | c < 4
      ensures ColumnOf(Product(id, m), c) == ColumnOf(m, c)
      ensures ColumnOf(Product(m, id), c) == ColumnOf(m, c)
    {
      ProductColumn(id, m, c);
      MulIdentity(ColumnOf(m, c), Vec3.Zero());
      ProductColumn(m, id, c);
      ColumnByUnit(m, c);
    }
    ExtColumns(Product(id, m), m);
    ExtColumns(Product(m, id), m);
  }

  /** Regrouping a double sum: the step behind associativity. */
  lemma DotRegroup(u: Vec4.Vec4, b: Mat4, v: Vec4.Vec4)
    ensures Vec4.Dot(Vec4.Vec4(Vec4.Dot(u, ColumnOf(b, 0)), Vec4.Dot(u, ColumnOf(b, 1)), Vec4.Dot(u, ColumnOf(b, 2)), Vec4.Dot(u, ColumnOf(b, 3))), v)
         == Vec4.Dot(u, Vec4.Vec4(Vec4.Dot(RowOf(b, 0), v), Vec4.Dot(RowOf(b, 1), v), Vec4.Dot(RowOf(b, 2), v), Vec4.Dot(RowOf(b, 3), v)))
  {
    Vec4.DotRegroup(u, ColumnOf(b, 0), ColumnOf(b, 1), ColumnOf(b, 2), ColumnOf(b, 3), v);
    MulVec4Columns(b, v);
    MulVec4Rows(b, v);
  }

  /** The product is associative, over exact reals. */
  lemma ProductAssoc(a: Mat4, b: Mat4, d: Mat4)
    ensures Product(Product(a, b), d) == Product(a, Product(b, d))
  {
    var ab, bd := Product(a, b), Product(b, d);
    var left, right := Product(ab, d), Product(a, bd);
    forall c: nat, r: nat | c < 4 && r < 4
      ensures Get(left, c, r) == Get(right, c, r)
    {
      var u, v := RowOf(a, r), ColumnOf(d, c);
      assert RowOf(ab, r) == Vec4.Vec4(Vec4.Dot(u, ColumnOf(b, 0)), Vec4.Dot(u, ColumnOf(b, 1)), Vec4.Dot(u, ColumnOf(b, 2)), Vec4.Dot(u, ColumnOf(b, 3)));
      assert ColumnOf(bd, c) == Vec4.Vec4(Vec4.Dot(RowOf(b, 0), v), Vec4.Dot(RowOf(b, 1), v), Vec4.Dot(RowOf(b, 2), v), Vec4.Dot(RowOf(b, 3), v));
      DotRegroup(u, b, v);
    }
    Ext(left, right);
  }

  /** `Mat4 * Vec4`: the full homogeneous transform, one row of `a` per component. */
  function MulVec4(a: Mat4, b: Vec4.Vec4): Vec4.Vec4
  {
    Vec4.Vec4(
      a.values[Cr(0, 0)] * b.x + a.values[Cr(1, 0)] * b.y + a.values[Cr(2, 0)] * b.z + a.values[Cr(3, 0)] * b.w,
      a.values[Cr(0, 1)] * b.x + a.values[Cr(1, 1)] * b.y + a.values[Cr(2, 1)] * b.z + a.values[Cr(3, 1)] * b.w,
      a.values[Cr(0, 2)] * b.x + a.values[Cr(1, 2)] * b.y + a.values[Cr(2, 2)] * b.z + a.values[Cr(3, 2)] * b.w,
      a.values[Cr(0, 3)] * b.x + a.values[Cr(1, 3)] * b.y + a.values[Cr(2, 3)] * b.z + a.values[Cr(3, 3)] * b.w)
  }

  /** `Mat4 * Vec3`: only the upper 3x3 block, so no translation and no `w`. */
  function MulVec3(a: Mat4, b: Vec3.Vec3): Vec3.Vec3
  {
    Vec3.Vec3(
      a.values[Cr(0, 0)] * b.x + a.values[Cr(1, 0)] * b.y + a.values[Cr(2, 0)] * b.z,
      a.values[Cr(0, 1)] * b.x + a.values[Cr(1, 1)] * b.y + a.values[Cr(2, 1)] * b.z,
      a.values[Cr(0, 2)] * b.x + a.values[Cr(1, 2)] * b.y + a.values[Cr(2, 2)] * b.z)
  }

  /** Component `r` of `a * v` is row `r` of `a` dotted with `v`. */
  lemma MulVec4Rows(a: Mat4, v: Vec4.Vec4)
    ensures MulVec4(a, v) == Vec4.Vec4(Vec4.Dot(RowOf(a, 0), v), Vec4.Dot(RowOf(a, 1), v), Vec4.Dot(RowOf(a, 2), v), Vec4.Dot(RowOf(a, 3), v))
  {
  }

  /** The identity leaves every `Vec4` and every `Vec3` unchanged. */
  lemma MulIdentity(v: Vec4.Vec4, d: Vec3.Vec3)
    ensures MulVec4(Identity(), v) == v
    ensures MulVec3(Identity(), d) == d
  {
  }

  /**
   * Applying a product is applying its factors right to left:
   * `(a * b) * v == a * (b * v)`.
   */
  lemma MulVec4Compose(a: Mat4, b: Mat4, v: Vec4.Vec4)
    ensures MulVec4(Product(a, b), v) == MulVec4(a, MulVec4(b, v))
  {
    var p := Product(a, b);
    MulVec4Rows(p, v);
    MulVec4Rows(b, v);
    MulVec4Rows(a, MulVec4(b, v));
    forall r: nat | r < 4
      ensures Vec4.Dot(RowOf(p, r), v) == Vec4.Dot(RowOf(a, r), MulVec4(b, v))
    {
      var u := RowOf(a, r);
      assert RowOf(p, r) == Vec4.Vec4(Vec4.Dot(u, ColumnOf(b, 0)), Vec4.Dot(u, ColumnOf(b, 1)), Vec4.Dot(u, ColumnOf(b, 2)), Vec4.Dot(u, ColumnOf(b, 3)));
      DotRegroup(u, b, v);
    }
  }

  /** A `Vec3` is transformed as the direction `(x, y, z, 0)`: the translation column never enters. */
  lemma MulVec3IsDirection(a: Mat4, d: Vec3.Vec3)
    ensures var p := MulVec4(a, Vec4.Vec4(d.x, d.y, d.z, 0.0));
      MulVec3(a, d) == Vec3.Vec3(p.x, p.y, p.z)
  {
  }

  /** Two matrices that agree on the upper 3x3 block transform every `Vec3` alike. */
  lemma MulVec3UpperBlock(a: Mat4, b: Mat4, d: Vec3.Vec3)
    requires forall c: nat, r: nat | c < 3 && r < 3 :: Get(a, c, r) == Get(b, c, r)
    ensures MulVec3(a, d) == MulVec3(b, d)
  {
    assert Get(a, 0, 0) == Get(b, 0, 0) && Get(a, 1, 0) == Get(b, 1, 0) && Get(a, 2, 0) == Get(b, 2, 0);
    assert Get(a, 0, 1) == Get(b, 0, 1) && Get(a, 1, 1) == Get(b, 1, 1) && Get(a, 2, 1) == Get(b, 2, 1);
    assert Get(a, 0, 2) == Get(b, 0, 2) && Get(a, 1, 2) == Get(b, 1, 2) && Get(a, 2, 2) == Get(b, 2, 2);
  }

  /** Column `c` of a product is `a` applied to column `c` of `b`. */
  lemma ProductColumn(a: Mat4, b: Mat4, c: nat)
    requires c < 4
    ensures ColumnOf(Product(a, b), c) == MulVec4(a, ColumnOf(b, c))
  {
    MulVec4Rows(a, ColumnOf(b, c));
  }

  /** A matrix whose every column is `a` applied to the matching column of `b` is `a * b`. */
  lemma ProductByColumns(a: Mat4, b: Mat4, p: Mat4)
    requires ColumnOf(p, 0) == MulVec4(a, ColumnOf(b, 0)) && ColumnOf(p, 1) == MulVec4(a, ColumnOf(b, 1))
    requires ColumnOf(p, 2) == MulVec4(a, ColumnOf(b, 2)) && ColumnOf(p, 3) == MulVec4(a, ColumnOf(b, 3))
    ensures p == Product(a, b)
  {
    ProductColumn(a, b, 0);
    ProductColumn(a, b, 1);
    ProductColumn(a, b, 2);
    ProductColumn(a, b, 3);
    ExtColumns(p, Product(a, b));
  }

  /** Two matrices with the same four columns are equal. */
  lemma ExtColumns(a: Mat4, b: Mat4)
    requires ColumnOf(a, 0) == ColumnOf(b, 0) && ColumnOf(a, 1) == ColumnOf(b, 1)
    requires ColumnOf(a, 2) == ColumnOf(b, 2) && ColumnOf(a, 3) == ColumnOf(b, 3)
    ensures a == b
  {
    forall c: nat, r: nat | c < 4 && r < 4
      ensures Get(a, c, r) == Get(b, c, r)
    {
      assert ColumnOf(a, c) == ColumnOf(b, c);
    }
    Ext(a, b);
  }

  /** The columns of the identity are the unit vectors. */
  lemma IdentityColumns()
    ensures ColumnOf(Identity(), 0) == Vec4.Vec4(1.0, 0.0, 0.0, 0.0)
    ensures ColumnOf(Identity(), 1) == Vec4.Vec4(0.0, 1.0, 0.0, 0.0)
    ensures ColumnOf(Identity(), 2) == Vec4.Vec4(0.0, 0.0, 1.0, 0.0)
    ensures ColumnOf(Identity(), 3) == Vec4.Vec4(0.0, 0.0, 0.0, 1.0)
  {
  }

  /** What `translate(t)` builds: the identity with `t` in rows 0 to 2 of column 3. */
  function Translation(t: Vec3.Vec3): (m: Mat4)
    ensures ColumnOf(m, 0) == Vec4.Vec4(1.0, 0.0, 0.0, 0.0)
    ensures ColumnOf(m, 1) == Vec4.Vec4(0.0, 1.0, 0.0, 0.0)
    ensures ColumnOf(m, 2) == Vec4.Vec4(0.0, 0.0, 1.0, 0.0)
    ensures ColumnOf(m, 3) == Vec4.Vec4(t.x, t.y, t.z, 1.0)
  {
    IdentityColumns();
    Mat4(Identity().values[Cr(3, 0) := t.x][Cr(3, 1) := t.y][Cr(3, 2) := t.z])
  }

  /** What `scale(s)` builds: the identity with `s` on the first three diagonal slots. */
  function Scaling(s: Vec3.Vec3): (m: Mat4)
    ensures ColumnOf(m, 0) == Vec4.Vec4(s.x, 0.0, 0.0, 0.0)
    ensures ColumnOf(m, 1) == Vec4.Vec4(0.0, s.y, 0.0, 0.0)
    ensures ColumnOf(m, 2) == Vec4.Vec4(0.0, 0.0, s.z, 0.0)
    ensures ColumnOf(m, 3) == Vec4.Vec4(0.0, 0.0, 0.0, 1.0)
  {
    IdentityColumns();
    Mat4(Identity().values[Cr(0, 0) := s.x][Cr(1, 1) := s.y][Cr(2, 2) := s.z])
  }

  /**
   * The three basis vectors that `rotate` asks of a quaternion through
   * `right()`, `up()` and `forward()`.
   */
  datatype Axes = Axes(right: Vec3.Vec3, up: Vec3.Vec3, forward: Vec3.Vec3)

  /** The axes of the identity rotation: the unit vectors in x, y and z. */
  function StandardAxes(): Axes
  {
    Axes(Vec3.Vec3(1.0, 0.0, 0.0), Vec3.Vec3(0.0, 1.0, 0.0), Vec3.Vec3(0.0, 0.0, 1.0))
  }

  /** `m` with rows 0 to 2 of column `c` overwritten by `v`; row 3 and the other columns are kept. */
  function WithColumn(m: Mat4, c: nat, v: Vec3.Vec3): (n: Mat4)
    requires c < 4
    ensures ColumnOf(n, c) == Vec4.Vec4(v.x, v.y, v.z, ColumnOf(m, c).w)
    ensures forall c': nat | c' < 4 && c' != c :: ColumnOf(n, c') == ColumnOf(m, c')
  {
    var n := Mat4(m.values[Cr(c, 0) := v.x][Cr(c, 1) := v.y][Cr(c, 2) := v.z]);
    forall c': nat | c' < 4 && c' != c
      ensures ColumnOf(n, c') == ColumnOf(m, c')
    {
      forall r: nat, r': nat | r < 4 && r' < 3
        ensures Cr(c', r) != Cr(c, r')
      {
        CrInjective(c', r, c, r');
      }
    }
    assert Get(n, c, 3) == Get(m, c, 3) by {
      forall r': nat | r' < 3
        ensures Cr(c, 3) != Cr(c, r')
      {
        CrInjective(c, 3, c, r');
      }
    }
    n
  }

  /** What `rotate` builds: the identity with `right`, `up` and `forward` as its first three columns. */
  function Rotation(b: Axes): (m: Mat4)
    ensures ColumnOf(m, 0) == Vec4.Vec4(b.right.x, b.right.y, b.right.z, 0.0)
    ensures ColumnOf(m, 1) == Vec4.Vec4(b.up.x, b.up.y, b.up.z, 0.0)
    ensures ColumnOf(m, 2) == Vec4.Vec4(b.forward.x, b.forward.y, b.forward.z, 0.0)
    ensures ColumnOf(m, 3) == Vec4.Vec4(0.0, 0.0, 0.0, 1.0)
  {
    IdentityColumns();
    WithColumn(WithColumn(WithColumn(Identity(), 0, b.right), 1, b.up), 2, b.forward)
  }

  /** `translate(t)`: three writes into a copy of the identity. */
  method Translate(t: Vec3.Vec3) returns (m: Mat4)
    ensures m == Translation(t)
  {
    var id := Identity().values;
    var res := new real[16](i requires 0 <= i < 16 => id[i]);
    res[Cr(3, 0)] := t.x;
    res[Cr(3, 1)] := t.y;
    res[Cr(3, 2)] := t.z;
    m := Mat4(res[..]);
  }

  /** `scale(s)`: three writes on the diagonal of a copy of the identity. */
  method Scale(s: Vec3.Vec3) returns (m: Mat4)
    ensures m == Scaling(s)
  {
    var id := Identity().values;
    var res := new real[16](i requires 0 <= i < 16 => id[i]);
    res[Cr(0, 0)] := s.x;
    res[Cr(1, 1)] := s.y;
    res[Cr(2, 2)] := s.z;
    m := Mat4(res[..]);
  }

  /**
   * `rotate(q)`: nine writes into a copy of the identity, from the axes
   * that `axes` gives for `q`.
   */
  method Rotate(q: Quaternion.Quaternion, axes: Quaternion.Quaternion -> Axes) returns (m: Mat4)
    ensures m == Rotation(axes(q))
  {
    var b := axes(q);
    var right, up, fwd := b.right, b.up, b.forward;
    var id := Identity().values;
    var res := new real[16](i requires 0 <= i < 16 => id[i]);
    assert res[..] == id;
    res[Cr(0, 0)] := right.x;
    res[Cr(0, 1)] := right.y;
    res[Cr(0, 2)] := right.z;
    ghost var done := id[Cr(0, 0) := right.x][Cr(0, 1) := right.y][Cr(0, 2) := right.z];
    assert res[..] == done;
    res[Cr(1, 0)] := up.x;
    res[Cr(1, 1)] := up.y;
    res[Cr(1, 2)] := up.z;
    done := done[Cr(1, 0) := up.x][Cr(1, 1) := up.y][Cr(1, 2) := up.z];
    assert res[..] == done;
    res[Cr(2, 0)] := fwd.x;
    res[Cr(2, 1)] := fwd.y;
    res[Cr(2, 2)] := fwd.z;
    done := done[Cr(2, 0) := fwd.x][Cr(2, 1) := fwd.y][Cr(2, 2) := fwd.z];
    assert res[..] == done;
    m := Mat4(res[..]);
  }

  /**
   * Rotating by the default quaternion, `Quaternion::identity()`, builds the
   * identity matrix whenever its axes are the unit vectors.
   */
  lemma RotationOfDefaultQuaternion(axes: Quaternion.Quaternion -> Axes)
    requires axes(Quaternion.Identity()) == StandardAxes()
    ensures Rotation(axes(Quaternion.Default())) == Identity()
  {
    IdentityColumns();
    ExtColumns(Rotation(StandardAxes()), Identity());
  }

  /**
   * The six writes of `orthographic`, in the order of the source, into a
   * copy of the identity: scale factors on the diagonal, offsets in column 3.
   */
  function OrthographicLayout(sx: real, ox: real, sy: real, oy: real, sz: real, oz: real): (m: Mat4)
    ensures ColumnOf(m, 0) == Vec4.Vec4(sx, 0.0, 0.0, 0.0)
    ensures ColumnOf(m, 1) == Vec4.Vec4(0.0, sy, 0.0, 0.0)
    ensures ColumnOf(m, 2) == Vec4.Vec4(0.0, 0.0, sz, 0.0)
    ensures ColumnOf(m, 3) == Vec4.Vec4(ox, oy, oz, 1.0)
  {
    IdentityColumns();
    Mat4(Identity().values
      [Cr(0, 0) := sx][Cr(3, 0) := ox]
      [Cr(1, 1) := sy][Cr(3, 1) := oy]
      [Cr(2, 2) := sz][Cr(3, 2) := oz])
  }

  /**
   * `orthographic(l, r, b, t, n, f)` AS WRITTEN: the x and y scale factors
   * are `2 * (r - l)` and `2 * (t - b)`, products where quotients belong.
   */
  function OrthographicAsWritten(l: real, r: real, b: real, t: real, n: real, f: real): Mat4
    requires r != l && t != b && f != n
  {
    OrthographicLayout(2.0 * (r - l), (-l - r) / (r - l), 2.0 * (t - b), (-b - t) / (t - b), 1.0 / (f - n), -n / (f - n))
  }

  /**
   * `orthographic(l, r, b, t, n, f)` as evidently intended: the scale
   * factors are `2 / (r - l)` and `2 / (t - b)`, so that the box
   * [l; r] x [b; t] x [n; f] lands on [-1; 1] x [-1; 1] x [0; 1].
   */
  function Orthographic(l: real, r: real, b: real, t: real, n: real, f: real): Mat4
    requires r != l && t != b && f != n
  {
    OrthographicLayout(2.0 / (r - l), (-l - r) / (r - l), 2.0 / (t - b), (-b - t) / (t - b), 1.0 / (f - n), -n / (f - n))
  }

  /** `orthographic(l, r, b, t, n, f)`, with the intended scale factors, written slot by slot. */
  method BuildOrthographic(l: real, r: real, b: real, t: real, n: real, f: real) returns (m: Mat4)
    requires r != l && t != b && f != n
    ensures m == Orthographic(l, r, b, t, n, f)
  {
    var id := Identity().values;
    var res := new real[16](i requires 0 <= i < 16 => id[i]);
    assert res[..] == id;
    res[Cr(0, 0)] := 2.0 / (r - l);
    res[Cr(3, 0)] := (-l - r) / (r - l);
    ghost var done := id[Cr(0, 0) := 2.0 / (r - l)][Cr(3, 0) := (-l - r) / (r - l)];
    assert res[..] == done;
    res[Cr(1, 1)] := 2.0 / (t - b);
    res[Cr(3, 1)] := (-b - t) / (t - b);
    done := done[Cr(1, 1) := 2.0 / (t - b)][Cr(3, 1) := (-b - t) / (t - b)];
    assert res[..] == done;
    res[Cr(2, 2)] := 1.0 / (f - n);
    res[Cr(3, 2)] := -n / (f - n);
    done := done[Cr(2, 2) := 1.0 / (f - n)][Cr(3, 2) := -n / (f - n)];
    assert res[..] == done;
    m := Mat4(res[..]);
  }

  /** The orthographic layout scales each coordinate and adds `w` times its offset. */
  lemma OrthographicLayoutApply(sx: real, ox: real, sy: real, oy: real, sz: real, oz: real, v: Vec4.Vec4)
    ensures MulVec4(OrthographicLayout(sx, ox, sy, oy, sz, oz), v)
         == Vec4.Vec4(sx * v.x + ox * v.w, sy * v.y + oy * v.w, sz * v.z + oz * v.w, v.w)
  {
    MulVec4Columns(OrthographicLayout(sx, ox, sy, oy, sz, oz), v);
  }

  /**
   * The intended projection sends the near lower-left corner of the box to
   * (-1, -1, 0) and the far upper-right corner to (1, 1, 1).
   */
  lemma OrthographicCorners(l: real, r: real, b: real, t: real, n: real, f: real)
    requires r != l && t != b && f != n
    ensures MulVec4(Orthographic(l, r, b, t, n, f), Vec4.Vec4(l, b, n, 1.0)) == Vec4.Vec4(-1.0, -1.0, 0.0, 1.0)
    ensures MulVec4(Orthographic(l, r, b, t, n, f), Vec4.Vec4(r, t, f, 1.0)) == Vec4.Vec4(1.0, 1.0, 1.0, 1.0)
  {
    var sx, ox, sy, oy, sz, oz := 2.0 / (r - l), (-l - r) / (r - l), 2.0 / (t - b), (-b - t) / (t - b), 1.0 / (f - n), -n / (f - n);
    OrthographicLayoutApply(sx, ox, sy, oy, sz, oz, Vec4.Vec4(l, b, n, 1.0));
    OrthographicLayoutApply(sx, ox, sy, oy, sz, oz, Vec4.Vec4(r, t, f, 1.0));
    Reals.UnitRangeEnds(l, r);
    Reals.UnitRangeEnds(b, t);
    Reals.DepthRangeEnds(n, f);
  }

  /**
   * As written, the box [0; 2] x [0; 2] x [0; 1] is not sent onto the unit
   * cube: its far upper-right corner (2, 2, 1) lands on (7, 7, 1).
   */
  lemma OrthographicAsWrittenMissesCube()
    ensures MulVec4(OrthographicAsWritten(0.0, 2.0, 0.0, 2.0, 0.0, 1.0), Vec4.Vec4(2.0, 2.0, 1.0, 1.0))
         == Vec4.Vec4(7.0, 7.0, 1.0, 1.0)
  {
    OrthographicLayoutApply(4.0, -1.0, 4.0, -1.0, 1.0, 0.0, Vec4.Vec4(2.0, 2.0, 1.0, 1.0));
  }

  /** `a * v` is the combination of the columns of `a` weighted by the components of `v`. */
  lemma MulVec4Columns(a: Mat4, v: Vec4.Vec4)
    ensures MulVec4(a, v) ==
      Vec4.Add(Vec4.Add(Vec4.Add(
        Vec4.MulScalar(ColumnOf(a, 0), v.x),
        Vec4.MulScalar(ColumnOf(a, 1), v.y)),
        Vec4.MulScalar(ColumnOf(a, 2), v.z)),
        Vec4.MulScalar(ColumnOf(a, 3), v.w))
  {
    var c0, c1, c2, c3 := ColumnOf(a, 0), ColumnOf(a, 1), ColumnOf(a, 2), ColumnOf(a, 3);
    assert c0 == Vec4.Vec4(a.values[0], a.values[1], a.values[2], a.values[3]);
    assert c1 == Vec4.Vec4(a.values[4], a.values[5], a.values[6], a.values[7]);
    assert c2 == Vec4.Vec4(a.values[8], a.values[9], a.values[10], a.values[11]);
    assert c3 == Vec4.Vec4(a.values[12], a.values[13], a.values[14], a.values[15]);
  }

  /** `translate(t) * v` adds `w` times `t`; on a point (`w == 1`) it adds `t`. */
  lemma TranslatePoint(t: Vec3.Vec3, v: Vec4.Vec4)
    ensures MulVec4(Translation(t), v) == Vec4.Vec4(v.x + t.x * v.w, v.y + t.y * v.w, v.z + t.z * v.w, v.w)
    ensures v.w == 1.0 ==> MulVec4(Translation(t), v) == Vec4.Vec4(v.x + t.x, v.y + t.y, v.z + t.z, 1.0)
  {
    MulVec4Columns(Translation(t), v);
  }

  /** `translate(t) * d == d` for every `Vec3` `d`: directions do not move. */
  lemma TranslateIgnoredByVec3(t: Vec3.Vec3, d: Vec3.Vec3)
    ensures MulVec3(Translation(t), d) == d
  {
    MulVec3IsDirection(Translation(t), d);
    TranslatePoint(t, Vec4.Vec4(d.x, d.y, d.z, 0.0));
  }

  /** `scale(s) * v` scales x, y and z by `s` and keeps `w`. */
  lemma ScalePoint(s: Vec3.Vec3, v: Vec4.Vec4)
    ensures MulVec4(Scaling(s), v) == Vec4.Vec4(s.x * v.x, s.y * v.y, s.z * v.z, v.w)
  {
    MulVec4Columns(Scaling(s), v);
  }

  /** `rotate(q) * v` combines the three axes with weights x, y, z and keeps `w`. */
  lemma RotatePoint(b: Axes, v: Vec4.Vec4)
    ensures MulVec4(Rotation(b), v) == Vec4.Vec4(
      b.right.x * v.x + b.up.x * v.y + b.forward.x * v.z,
      b.right.y * v.x + b.up.y * v.y + b.forward.y * v.z,
      b.right.z * v.x + b.up.z * v.y + b.forward.z * v.z,
      v.w)
  {
    MulVec4Columns(Rotation(b), v);
  }

  /** The product `translate(t) * rotate(r) * scale(s)` that `local_to_world` returns. */
  function LocalToWorldMatrix(t: Vec3.Vec3, b: Axes, s: Vec3.Vec3): Mat4
  {
    Product(Product(Translation(t), Rotation(b)), Scaling(s))
  }

  /**
   * The promise of `local_to_world`'s documentation: a vector is scaled by
   * `s` first, then rotated, then translated by `t`.
   */
  lemma LocalToWorldOrder(t: Vec3.Vec3, b: Axes, s: Vec3.Vec3, v: Vec4.Vec4)
    ensures MulVec4(LocalToWorldMatrix(t, b, s), v) == MulVec4(Translation(t), MulVec4(Rotation(b), MulVec4(Scaling(s), v)))
  {
    MulVec4Compose(Product(Translation(t), Rotation(b)), Scaling(s), v);
    MulVec4Compose(Translation(t), Rotation(b), MulVec4(Scaling(s), v));
  }

  /**
   * Translation (1, 0, 0), the identity rotation and scale (2, 2, 2) send
   * the point (1, 0, 0) to (3, 0, 0).
   */
  lemma LocalToWorldExample()
    ensures MulVec4(LocalToWorldMatrix(Vec3.Vec3(1.0, 0.0, 0.0), StandardAxes(), Vec3.Vec3(2.0, 2.0, 2.0)), Vec4.Vec4(1.0, 0.0, 0.0, 1.0))
         == Vec4.Vec4(3.0, 0.0, 0.0, 1.0)
  {
    var t, b, s, p := Vec3.Vec3(1.0, 0.0, 0.0), StandardAxes(), Vec3.Vec3(2.0, 2.0, 2.0), Vec4.Vec4(1.0, 0.0, 0.0, 1.0);
    LocalToWorldOrder(t, b, s, p);
    ScalePoint(s, p);
    RotatePoint(b, Vec4.Vec4(2.0, 0.0, 0.0, 1.0));
    TranslatePoint(t, Vec4.Vec4(2.0, 0.0, 0.0, 1.0));
  }

  /** `local_to_world(t, q, s)`: the two products of the three builders, left to right. */
  method LocalToWorld(t: Vec3.Vec3, q: Quaternion.Quaternion, s: Vec3.Vec3, axes: Quaternion.Quaternion -> Axes) returns (m: Mat4)
    ensures m == LocalToWorldMatrix(t, axes(q), s)
  {
    var tm := Translate(t);
    var rm := Rotate(q, axes);
    var sm := Scale(s);
    var tr := Mul(tm, rm);
    m := Mul(tr, sm);
  }

  /** `translate(-t)` undoes `translate(t)`. */
  lemma TranslationInverse(t: Vec3.Vec3)
    ensures Product(Translation(Vec3.Neg(t)), Translation(t)) == Identity()
  {
    var inv := Translation(Vec3.Neg(t));
    var p := Product(inv, Translation(t));
    IdentityColumns();
    forall c: nat | c < 4
      ensures ColumnOf(p, c) == ColumnOf(Identity(), c)
    {
      ProductColumn(inv, Translation(t), c);
      TranslatePoint(Vec3.Neg(t), ColumnOf(Translation(t), c));
    }
    ExtColumns(p, Identity());
  }

  /** A matrix with the columns of the scaling by `k` scales x, y and z by `k` and keeps `w`. */
  lemma DiagonalApply(a: Mat4, k: Vec3.Vec3, v: Vec4.Vec4)
    requires ColumnOf(a, 0) == Vec4.Vec4(k.x, 0.0, 0.0, 0.0) && ColumnOf(a, 1) == Vec4.Vec4(0.0, k.y, 0.0, 0.0)
    requires ColumnOf(a, 2) == Vec4.Vec4(0.0, 0.0, k.z, 0.0) && ColumnOf(a, 3) == Vec4.Vec4(0.0, 0.0, 0.0, 1.0)
    ensures MulVec4(a, v) == Vec4.Vec4(k.x * v.x, k.y * v.y, k.z * v.z, v.w)
  {
    MulVec4Columns(a, v);
  }

  /**
   * When `a` and `b` have the columns of the scalings by `k` and by `s`, `a`
   * applied to the columns of `b` gives the columns of the scaling by `k * s`.
   */
  lemma DiagonalProduct(a: Mat4, b: Mat4, m: Mat4, k: Vec3.Vec3, s: Vec3.Vec3)
    requires ColumnOf(a, 0) == Vec4.Vec4(k.x, 0.0, 0.0, 0.0) && ColumnOf(a, 1) == Vec4.Vec4(0.0, k.y, 0.0, 0.0)
    requires ColumnOf(a, 2) == Vec4.Vec4(0.0, 0.0, k.z, 0.0) && ColumnOf(a, 3) == Vec4.Vec4(0.0, 0.0, 0.0, 1.0)
    requires ColumnOf(b, 0) == Vec4.Vec4(s.x, 0.0, 0.0, 0.0) && ColumnOf(b, 1) == Vec4.Vec4(0.0, s.y, 0.0, 0.0)
    requires ColumnOf(b, 2) == Vec4.Vec4(0.0, 0.0, s.z, 0.0) && ColumnOf(b, 3) == Vec4.Vec4(0.0, 0.0, 0.0, 1.0)
    requires ColumnOf(m, 0) == Vec4.Vec4(k.x * s.x, 0.0, 0.0, 0.0) && ColumnOf(m, 1) == Vec4.Vec4(0.0, k.y * s.y, 0.0, 0.0)
    requires ColumnOf(m, 2) == Vec4.Vec4(0.0, 0.0, k.z * s.z, 0.0) && ColumnOf(m, 3) == Vec4.Vec4(0.0, 0.0, 0.0, 1.0)
    ensures ColumnOf(m, 0) == MulVec4(a, ColumnOf(b, 0)) && ColumnOf(m, 1) == MulVec4(a, ColumnOf(b, 1))
    ensures ColumnOf(m, 2) == MulVec4(a, ColumnOf(b, 2)) && ColumnOf(m, 3) == MulVec4(a, ColumnOf(b, 3))
  {
    DiagonalApply(a, k, Vec4.Vec4(s.x, 0.0, 0.0, 0.0));
    DiagonalApply(a, k, Vec4.Vec4(0.0, s.y, 0.0, 0.0));
    DiagonalApply(a, k, Vec4.Vec4(0.0, 0.0, s.z, 0.0));
    DiagonalApply(a, k, Vec4.Vec4(0.0, 0.0, 0.0, 1.0));
  }

  /** Scaling by `k` after scaling by `s` is scaling by their component-wise product. */
  lemma ScalingProduct(k: Vec3.Vec3, s: Vec3.Vec3)
    ensures Product(Scaling(k), Scaling(s)) == Scaling(Vec3.Mul(k, s))
  {
    DiagonalProduct(Scaling(k), Scaling(s), Scaling(Vec3.Mul(k, s)), k, s);
    ProductByColumns(Scaling(k), Scaling(s), Scaling(Vec3.Mul(k, s)));
  }

  /** Scaling by the reciprocals undoes scaling by `s`, when no component of `s` is zero. */
  lemma ScalingInverse(s: Vec3.Vec3)
    requires Vec3.NonZero(s)
    ensures Product(Scaling(Vec3.ScalarDivReciprocal(1.0, s)), Scaling(s)) == Identity()
  {
    ScalingProduct(Vec3.ScalarDivReciprocal(1.0, s), s);
    IdentityColumns();
    ExtColumns(Scaling(Vec3.One()), Identity());
  }

  /**
   * `world_to_local` as evidently intended: `scale(1/s) * rotate(-r) *
   * translate(-t)` with the reciprocal scale. `inverse` holds the axes of
   * the rotation `-r`.
   */
  function WorldToLocalMatrix(t: Vec3.Vec3, inverse: Axes, s: Vec3.Vec3): Mat4
    requires Vec3.NonZero(s)
  {
    Product(Product(Scaling(Vec3.ScalarDivReciprocal(1.0, s)), Rotation(inverse)), Translation(Vec3.Neg(t)))
  }

  /**
   * The promise of `world_to_local`'s documentation, for the corrected
   * matrix: it undoes `local_to_world` as soon as the rotation of `-r`
   * undoes the rotation of `r` and no scale component is zero.
   */
  lemma WorldToLocalInverse(t: Vec3.Vec3, b: Axes, inverse: Axes, s: Vec3.Vec3)
    requires Vec3.NonZero(s)
    requires Product(Rotation(inverse), Rotation(b)) == Identity()
    ensures Product(WorldToLocalMatrix(t, inverse, s), LocalToWorldMatrix(t, b, s)) == Identity()
  {
    var si, ri, ti := Scaling(Vec3.ScalarDivReciprocal(1.0, s)), Rotation(inverse), Translation(Vec3.Neg(t));
    var tm, rm, sm := Translation(t), Rotation(b), Scaling(s);
    var a := Product(si, ri);
    calc {
      Product(Product(a, ti), Product(Product(tm, rm), sm));
    ==  { ProductAssoc(a, ti, Product(Product(tm, rm), sm)); }
      Product(a, Product(ti, Product(Product(tm, rm), sm)));
    ==  { ProductAssoc(ti, Product(tm, rm), sm); }
      Product(a, Product(Product(ti, Product(tm, rm)), sm));
    ==  { ProductAssoc(ti, tm, rm); TranslationInverse(t); ProductIdentity(rm); }
      Product(a, Product(rm, sm));
    ==  { ProductAssoc(si, ri, Product(rm, sm)); }
      Product(si, Product(ri, Product(rm, sm)));
    ==  { ProductAssoc(ri, rm, sm); ProductIdentity(sm); }
      Product(si, sm);
    ==  { ScalingInverse(s); }
      Identity();
    }
  }

  /**
   * `world_to_local(t, q, s)` with the reciprocal scale; `negate` stands
   * for the quaternion negation `-r`, which the repository does not define.
   */
  method WorldToLocal(t: Vec3.Vec3, q: Quaternion.Quaternion, s: Vec3.Vec3,
                      axes: Quaternion.Quaternion -> Axes, negate: Quaternion.Quaternion -> Quaternion.Quaternion)
    returns (m: Mat4)
    requires Vec3.NonZero(s)
    ensures m == WorldToLocalMatrix(t, axes(negate(q)), s)
  {
    var sm := Scale(Vec3.ScalarDivReciprocal(1.0, s));
    var rm := Rotate(negate(q), axes);
    var tm := Translate(Vec3.Neg(t));
    var sr := Mul(sm, rm);
    m := Mul(sr, tm);
  }

  /**
   * `world_to_local` AS WRITTEN: `1.0 / s` goes through the commutative
   * `Vec3` division, which yields `s / 1.0`.
   */
  function WorldToLocalAsWritten(t: Vec3.Vec3, inverse: Axes, s: Vec3.Vec3): (m: Mat4)
    ensures m == Product(Product(Scaling(s), Rotation(inverse)), Translation(Vec3.Neg(t)))
  {
    Vec3.ScalarDivIsDivScalar(1.0, s);
    Product(Product(Scaling(Vec3.ScalarDiv(1.0, s)), Rotation(inverse)), Translation(Vec3.Neg(t)))
  }

  /** The scaling by `k` is the identity exactly when every component of `k` is one. */
  lemma ScalingIsIdentity(k: Vec3.Vec3)
    ensures Scaling(k) == Identity() <==> k == Vec3.One()
  {
    IdentityColumns();
    if k == Vec3.One() {
      ExtColumns(Scaling(k), Identity());
    } else {
      assert ColumnOf(Scaling(k), 0) != ColumnOf(Identity(), 0)
          || ColumnOf(Scaling(k), 1) != ColumnOf(Identity(), 1)
          || ColumnOf(Scaling(k), 2) != ColumnOf(Identity(), 2);
    }
  }

  /**
   * As written, `world_to_local` followed after `local_to_world` does not
   * undo the scale but applies it twice: the round trip is the scaling by
   * `s * s`, as soon as the two rotations cancel.
   */
  lemma WorldToLocalAsWrittenRoundTrip(t: Vec3.Vec3, b: Axes, inverse: Axes, s: Vec3.Vec3)
    requires Product(Rotation(inverse), Rotation(b)) == Identity()
    ensures Product(WorldToLocalAsWritten(t, inverse, s), LocalToWorldMatrix(t, b, s)) == Scaling(Vec3.Mul(s, s))
  {
    var ss, ri, ti := Scaling(s), Rotation(inverse), Translation(Vec3.Neg(t));
    var tm, rm := Translation(t), Rotation(b);
    var a := Product(ss, ri);
    calc {
      Product(Product(a, ti), Product(Product(tm, rm), ss));
    ==  { ProductAssoc(a, ti, Product(Product(tm, rm), ss)); }
      Product(a, Product(ti, Product(Product(tm, rm), ss)));
    ==  { ProductAssoc(ti, Product(tm, rm), ss); }
      Product(a, Product(Product(ti, Product(tm, rm)), ss));
    ==  { ProductAssoc(ti, tm, rm); TranslationInverse(t); ProductIdentity(rm); }
      Product(a, Product(rm, ss));
    ==  { ProductAssoc(ss, ri, Product(rm, ss)); }
      Product(ss, Product(ri, Product(rm, ss)));
    ==  { ProductAssoc(ri, rm, ss); ProductIdentity(ss); }
      Product(ss, ss);
    ==  { ScalingProduct(s, s); }
      Scaling(Vec3.Mul(s, s));
    }
  }

  /**
   * As written, with scale (2, 2, 2) and rotations that cancel, going to
   * world space and back is the scaling by 4, not the identity.
   */
  lemma WorldToLocalAsWrittenNotInverse(t: Vec3.Vec3, b: Axes, inverse: Axes)
    requires Product(Rotation(inverse), Rotation(b)) == Identity()
    ensures var s := Vec3.Vec3(2.0, 2.0, 2.0);
      Product(WorldToLocalAsWritten(t, inverse, s), LocalToWorldMatrix(t, b, s)) == Scaling(Vec3.Vec3(4.0, 4.0, 4.0))
      && Product(WorldToLocalAsWritten(t, inverse, s), LocalToWorldMatrix(t, b, s)) != Identity()
  {
    WorldToLocalAsWrittenRoundTrip(t, b, inverse, Vec3.Vec3(2.0, 2.0, 2.0));
    ScalingIsIdentity(Vec3.Vec3(4.0, 4.0, 4.0));
  }

  /**
   * A `Mat4` held in a variable: `set` writes one slot of the value array in
   * place, `get` reads one.
   */
  class Mat4Var {
    var values: array<real>

    predicate Valid()
      reads this
    {
      values.Length == 16
    }

    /** The matrix currently held. */
    function Value(): Mat4
      requires Valid()
      reads this, values
    {
      Mat4(values[..])
    }

    constructor (m: Mat4)
      ensures Valid() && Value() == m && fresh(values)
    {
      values := new real[16](i requires 0 <= i < 16 => m.values[i]);
      new;
      assert values[..] == m.values;
    }

    /** `get(c, r)`: reads the slot `cr(c, r)` of the held matrix. */
    method GetAt(c: nat, r: nat) returns (v: real)
      requires Valid() && Cr(c, r) < 16
      ensures v == Get(Value(), c, r)
    {
      v := values[Cr(c, r)];
    }

    /** `set(c, r, v)`: overwrites the slot `cr(c, r)` and nothing else. */
    method Set(c: nat, r: nat, v: real)
      requires Valid() && Cr(c, r) < 16
      modifies values
      ensures Valid() && Value() == With(old(Value()), c, r, v)
    {
      values[Cr(c, r)] := v;
    }
  }
}
