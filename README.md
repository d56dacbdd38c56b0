# gfx-maths-rs in Dafny

A model of the core of `gfx-maths-rs`, a small Rust library of the vector,
quaternion, colour and matrix types that graphics code needs. These are the
modelled types:

- `Vec2`, `Vec3` and `Vec4`: component-wise arithmetic, scalar arithmetic,
  dot and cross products, magnitudes and normalisation.
- `Quaternion`: only its identity, which is all the rest of the library uses
  without calling code the source does not contain.
- `Mat4`: a 4×4 matrix of `f32` stored as 16 values in column-major order.
  The model covers the index function `cr`, `identity`, `translate`,
  `rotate`, `scale`, `local_to_world`, `get`, `set`, `transposed`, and the
  products `Mat4 * Mat4`, `Mat4 * Vec4` and `Mat4 * Vec3`. `world_to_local`
  and `orthographic` are modelled twice: as written, by the functions
  `WorldToLocalAsWritten` and `OrthographicAsWritten`, and corrected, by
  `WorldToLocalMatrix` and `Orthographic` (see Findings).
- `Color`: RGBA in `f32`. The model covers the sixteen named colours, the
  four hex decoders, `+`, `-`, `+=`, `-=`, the conversions to and from
  `[f32; 3]` and `[f32; 4]`, and the 320 swizzle accessors.
- The `swizzle!` and `swizzle_type!` macros, which generate the swizzle
  accessors.

The model follows the source's own shape:

- Value types are datatypes and pure operations are functions.
- The compound-assignment operators (`+=`, `normalize`, …) change a value in
  place, so they are methods of a small class per type (`Vec4Var`,
  `ColorVar`). Each such method's `ensures` gives the new value as the
  pure operator applied to the old one.
- `Mat4` operations that fill a `[f32; 16]` step by step are methods that
  fill an `array<real>`: `transposed`, `*`, `translate`, `scale` and
  `rotate`. Each is proved equal to a specification function, and the
  properties are proved about that function. The methods `BuildOrthographic`
  and `WorldToLocal` build the CORRECTED matrices `Orthographic` and
  `WorldToLocalMatrix`; the matrices the source builds as written exist only
  as the functions `OrthographicAsWritten` and `WorldToLocalAsWritten`.
- `Mat4::get` and `Mat4::set` are methods of `Mat4Var`, a class holding the
  16-value array.

Modules:

- `Reals`: arithmetic helper lemmas.
- `Vec2`, `Vec3`, `Vec4`, `Quaternion`, `Mat4` and `Color`: one module per
  source file.
- `Swizzle`: the two macros of `src/macros.rs`.

`f32` is modelled as `real`. A division is only defined for a non-zero
divisor. `f32::sqrt` is a function-valued parameter `sqrt`.

## Model

| member | source | states |
|---|---|---|
| Vec4.Zero | src/vec4.rs:27-29 | the zero vector; neutral for `+`, see Identities |
| Vec4.One | src/vec4.rs:32-34 | all components one; neutral for `*`, see Identities |
| Vec4.Default | src/vec4.rs:14-19 | `Default` is `zero()`, see Identities |
| Vec4.Magnitude | src/vec4.rs:44-46 | the supplied square root of `sqr_magnitude`; see NormalizedIsUnit |
| Vec4.Dot | src/vec4.rs:63-65 | the component-wise products summed; symmetric and equal to `sqr_magnitude` on `(v, v)`, see DotSymmetric |
| Vec4.Add | src/vec4.rs:76 | component-wise `+`; undone by `-`, see AddSubInverse |
| Vec4.Sub | src/vec4.rs:77 | component-wise `-`; undone by `+`, see AddSubInverse |
| Vec4.Mul | src/vec4.rs:78 | component-wise `*`; undone by `/`, see MulDivInverse |
| Vec4.Div | src/vec4.rs:79 | component-wise `/` for a divisor with no zero component; undone by `*`, see MulDivInverse |
| Vec4.MulScalar | src/vec4.rs:81 | `v * k` scales every component; see ScalarOperators |
| Vec4.ScalarMul | src/vec4.rs:81 | `k * v` equals `v * k`, see ScalarOperators |
| Vec4.DivScalar | src/vec4.rs:82 | `v / k` divides every component by non-zero `k`; undoes `v * k`, see ScalarOperators |
| Vec4.Neg | src/vec4.rs:85-90 | component-wise negation; an involution and the additive inverse, see NegInvolution |
| Vec4.SqrMagnitude | src/vec4.rs:39-41 | the squared magnitude is never negative |
| Vec4.SqrMagnitudeZero | src/vec4.rs:39-41 | the squared magnitude is zero exactly when the vector is the zero vector |
| Vec4.ScalarDiv | src/vec4.rs:83 | `k / v` is the component-wise reciprocal scaled by `k`: multiplied by `v` it gives `(k, k, k, k)` |
| Vec4.Identities | src/vec4.rs:14-34 | `Default` is `zero()`; `zero()` is neutral for `+` and `one()` is neutral for `*` on both sides |
| Vec4.AddSubInverse | src/vec4.rs:76-77 | `-` undoes `+` and `+` undoes `-` |
| Vec4.MulDivInverse | src/vec4.rs:78-79 | component-wise `/` undoes `*` and `*` undoes `/` for a divisor with no zero component |
| Vec4.ScalarOperators | src/vec4.rs:81-82 | `k * v == v * k`; `(v * k) / k == v` for non-zero `k` |
| Vec4.NegInvolution | src/vec4.rs:85-90 | negation is an involution; `v + (-v)` is zero; `zero - v == -v` |
| Vec4.DotSymmetric | src/vec4.rs:63-65 | `dot` is symmetric and `v.dot(v)` is `sqr_magnitude` |
| Vec4.DotAdd | src/vec4.rs:63-65 | `dot` distributes over `+` |
| Vec4.DotScale | src/vec4.rs:63-65 | scaling one argument of `dot` scales the result |
| Vec4.DotRegroup | src/vec4.rs:63-65 | a dot product of dot products regroups as a dot product with a linear combination; matrix associativity relies on this |
| Vec4.NormalizedIsUnit | src/vec4.rs:49-60 | for a non-zero vector and a square root that squares back, the magnitude is non-zero and the normalized vector has squared magnitude 1 |
| Vec4.OperatorsTest | src/vec4.rs:98-118 | the expected values of the library's operator test: negation, `sqr_magnitude`, `dot` and every binary operator |
| Vec4.Vec4Var.constructor | src/vec4.rs:22-24 | `new` holds the given components |
| Vec4.Vec4Var.AddAssign | src/vec4.rs:68 | `+=` leaves `old + b` |
| Vec4.Vec4Var.SubAssign | src/vec4.rs:69 | `-=` leaves `old - b` |
| Vec4.Vec4Var.MulAssign | src/vec4.rs:70 | `*=` leaves `old * b` |
| Vec4.Vec4Var.DivAssign | src/vec4.rs:71 | `/=` leaves `old / b` |
| Vec4.Vec4Var.MulScalarAssign | src/vec4.rs:73 | `*= k` leaves `old * k` |
| Vec4.Vec4Var.DivScalarAssign | src/vec4.rs:74 | `/= k` leaves `old / k` |
| Vec4.Vec4Var.Normalize | src/vec4.rs:49-56 | `normalize` divides the vector by its own magnitude in place |
| Vec4.Vec4Var.Normalized | src/vec4.rs:58-60 | `normalized` returns the vector divided by its magnitude and leaves the receiver unchanged |
| Vec3.Zero | src/vec3.rs:23-25 | the zero vector; neutral for `+`, see Identities |
| Vec3.One | src/vec3.rs:27-29 | all components one; neutral for `*`, see Identities |
| Vec3.Default | src/vec3.rs:12-16 | `Default` is `zero()`, see Identities |
| Vec3.Magnitude | src/vec3.rs:35-37 | the supplied square root of `sqr_magnitude`; see NormalizedIsUnit |
| Vec3.Dot | src/vec3.rs:50-52 | the component-wise products summed; symmetric and equal to `sqr_magnitude` on `(v, v)`, see DotSymmetric |
| Vec3.Add | src/vec3.rs:71 | component-wise `+`; undone by `-`, see AddSubInverse |
| Vec3.Sub | src/vec3.rs:72 | component-wise `-`; undone by `+`, see AddSubInverse |
| Vec3.Mul | src/vec3.rs:73 | component-wise `*`; undone by `/`, see MulDivInverse |
| Vec3.Div | src/vec3.rs:74 | component-wise `/` for a divisor with no zero component; undone by `*`, see MulDivInverse |
| Vec3.MulScalar | src/vec3.rs:76 | `v * k` scales every component; see ScalarOperators |
| Vec3.ScalarMul | src/vec3.rs:76 | `k * v` equals `v * k`, see ScalarOperators |
| Vec3.DivScalar | src/vec3.rs:77 | `v / k` divides every component by non-zero `k`; undoes `v * k`, see ScalarOperators |
| Vec3.ScalarDiv | src/vec3.rs:77 | as written, `k / v` is `v / k`; see ScalarDivIsDivScalar and Findings |
| Vec3.Neg | src/vec3.rs:79-84 | component-wise negation; an involution and the additive inverse, see NegInvolution |
| Vec3.Cross | src/vec3.rs:54-60 | the cross product; anticommutative, orthogonal to both arguments and right-handed, see CrossAnticommutative, CrossOrthogonal, CrossLagrange, CrossRightHanded |
| Vec3.SqrMagnitude | src/vec3.rs:31-33 | the squared magnitude is never negative |
| Vec3.SqrMagnitudeZero | src/vec3.rs:31-33 | the squared magnitude is zero exactly when the vector is the zero vector |
| Vec3.ScalarDivReciprocal | src/vec3.rs:77 | the intended `k / v`: multiplied by `v` it gives `(k, k, k)` |
| Vec3.Identities | src/vec3.rs:12-29 | `Default` is `zero()`; `zero()` and `one()` are neutral for `+` and `*` |
| Vec3.AddSubInverse | src/vec3.rs:71-72 | `-` undoes `+` and `+` undoes `-` |
| Vec3.MulDivInverse | src/vec3.rs:73-74 | component-wise `/` undoes `*` and `*` undoes `/` |
| Vec3.ScalarOperators | src/vec3.rs:76-77 | `k * v == v * k`; `(v * k) / k == v` for non-zero `k` |
| Vec3.NegInvolution | src/vec3.rs:79-84 | negation is an involution; `v + (-v)` is zero; `zero - v == -v` |
| Vec3.DotSymmetric | src/vec3.rs:50-52 | `dot` is symmetric and `v.dot(v)` is `sqr_magnitude` |
| Vec3.CrossAnticommutative | src/vec3.rs:54-60 | `a × b == -(b × a)` and `a × a` is zero |
| Vec3.CrossOrthogonal | src/vec3.rs:54-60 | `a × b` is orthogonal to both `a` and `b` |
| Vec3.CrossLagrange | src/vec3.rs:54-60 | `‖a × b‖² == ‖a‖²‖b‖² − (a·b)²` |
| Vec3.CrossRightHanded | src/vec3.rs:54-60 | on the unit axes, `x × y == z`, `y × z == x` and `z × x == y` |
| Vec3.ScalarDivIsDivScalar | src/vec3.rs:77 | as written, `k / v` equals `v / k` for every `v` |
| Vec3.ScalarDivIsNotReciprocal | src/vec3.rs:77 | `2 / (1, 2, 4)` evaluates to `(0.5, 1, 2)` rather than `(2, 1, 0.5)` |
| Vec3.NormalizedIsUnit | src/vec3.rs:39-48 | for a non-zero vector and a square root that squares back, the normalized vector has squared magnitude 1 |
| Vec3.Vec3Var.constructor | src/vec3.rs:19-21 | `new` holds the given components |
| Vec3.Vec3Var.AddAssign | src/vec3.rs:63 | `+=` leaves `old + b` |
| Vec3.Vec3Var.SubAssign | src/vec3.rs:64 | `-=` leaves `old - b` |
| Vec3.Vec3Var.MulAssign | src/vec3.rs:65 | `*=` leaves `old * b` |
| Vec3.Vec3Var.DivAssign | src/vec3.rs:66 | `/=` leaves `old / b` |
| Vec3.Vec3Var.MulScalarAssign | src/vec3.rs:68 | `*= k` leaves `old * k` |
| Vec3.Vec3Var.DivScalarAssign | src/vec3.rs:69 | `/= k` leaves `old / k` |
| Vec3.Vec3Var.Normalize | src/vec3.rs:39-45 | `normalize` divides the vector by its own magnitude in place |
| Vec3.Vec3Var.Normalized | src/vec3.rs:46-48 | `normalized` returns the vector divided by its magnitude and leaves the receiver unchanged |
| Vec2.Zero | src/vec2.rs:22-24 | the zero vector; neutral for `+`, see Identities |
| Vec2.One | src/vec2.rs:26-28 | all components one; neutral for `*`, see Identities |
| Vec2.Default | src/vec2.rs:11-15 | `Default` is `zero()`, see Identities |
| Vec2.Magnitude | src/vec2.rs:34-36 | the supplied square root of `sqr_magnitude`; see NormalizedIsUnit |
| Vec2.Dot | src/vec2.rs:48-50 | the component-wise products summed; symmetric and equal to `sqr_magnitude` on `(v, v)`, see DotSymmetric |
| Vec2.Add | src/vec2.rs:61 | component-wise `+`; undone by `-`, see AddSubInverse |
| Vec2.Sub | src/vec2.rs:62 | component-wise `-`; undone by `+`, see AddSubInverse |
| Vec2.Mul | src/vec2.rs:63 | component-wise `*`; undone by `/`, see MulDivInverse |
| Vec2.Div | src/vec2.rs:64 | component-wise `/` for a divisor with no zero component; undone by `*`, see MulDivInverse |
| Vec2.MulScalar | src/vec2.rs:66 | `v * k` scales every component; see ScalarOperators |
| Vec2.ScalarMul | src/vec2.rs:66 | `k * v` equals `v * k`, see ScalarOperators |
| Vec2.DivScalar | src/vec2.rs:67 | `v / k` divides every component by non-zero `k`; undoes `v * k`, see ScalarOperators |
| Vec2.ScalarDiv | src/vec2.rs:67 | as written, `k / v` is `v / k`; see ScalarDivIsDivScalar and Findings |
| Vec2.Neg | src/vec2.rs:69-74 | component-wise negation; an involution and the additive inverse, see NegInvolution |
| Vec2.SqrMagnitude | src/vec2.rs:30-32 | the squared magnitude is never negative |
| Vec2.SqrMagnitudeZero | src/vec2.rs:30-32 | the squared magnitude is zero exactly when the vector is the zero vector |
| Vec2.ScalarDivReciprocal | src/vec2.rs:67 | the intended `k / v`: multiplied by `v` it gives `(k, k)` |
| Vec2.Identities | src/vec2.rs:11-28 | `Default` is `zero()`; `zero()` and `one()` are neutral for `+` and `*` |
| Vec2.AddSubInverse | src/vec2.rs:61-62 | `-` undoes `+` and `+` undoes `-` |
| Vec2.MulDivInverse | src/vec2.rs:63-64 | component-wise `/` undoes `*` and `*` undoes `/` |
| Vec2.ScalarOperators | src/vec2.rs:66-67 | `k * v == v * k`; `(v * k) / k == v` for non-zero `k` |
| Vec2.NegInvolution | src/vec2.rs:69-74 | negation is an involution; `v + (-v)` is zero; `zero - v == -v` |
| Vec2.DotSymmetric | src/vec2.rs:48-50 | `dot` is symmetric and `v.dot(v)` is `sqr_magnitude` |
| Vec2.ScalarDivIsDivScalar | src/vec2.rs:67 | as written, `k / v` equals `v / k` for every `v` |
| Vec2.ScalarDivIsNotReciprocal | src/vec2.rs:67 | `2 / (1, 4)` evaluates to `(0.5, 2)` rather than `(2, 0.5)` |
| Vec2.NormalizedIsUnit | src/vec2.rs:38-46 | for a non-zero vector and a square root that squares back, the normalized vector has squared magnitude 1 |
| Vec2.Vec2Var.constructor | src/vec2.rs:18-20 | `new` holds the given components |
| Vec2.Vec2Var.AddAssign | src/vec2.rs:53 | `+=` leaves `old + b` |
| Vec2.Vec2Var.SubAssign | src/vec2.rs:54 | `-=` leaves `old - b` |
| Vec2.Vec2Var.MulAssign | src/vec2.rs:55 | `*=` leaves `old * b` |
| Vec2.Vec2Var.DivAssign | src/vec2.rs:56 | `/=` leaves `old / b` |
| Vec2.Vec2Var.MulScalarAssign | src/vec2.rs:58 | `*= k` leaves `old * k` |
| Vec2.Vec2Var.DivScalarAssign | src/vec2.rs:59 | `/= k` leaves `old / k` |
| Vec2.Vec2Var.Normalize | src/vec2.rs:38-43 | `normalize` divides the vector by its own magnitude in place |
| Vec2.Vec2Var.Normalized | src/vec2.rs:44-46 | `normalized` returns the vector divided by its magnitude and leaves the receiver unchanged |
| Quaternion.Identity | src/quaternion.rs:20-22 | no vector part and scalar part one; its rotation is the identity matrix, see Mat4.RotationOfDefaultQuaternion |
| Quaternion.Default | src/quaternion.rs:9-13 | `Default` is `identity()`; see Mat4.RotationOfDefaultQuaternion |
| Mat4.Default | src/mat4.rs:16-21 | `Default` is the identity; neutral for `*`, see ProductIdentity |
| Mat4.Get | src/mat4.rs:147-149 | the value at slot `cr(c, r)`; reads back what `set` wrote, see With |
| Mat4.MulVec4 | src/mat4.rs:186-193 | `Mat4 * Vec4`; each component is a row dotted with the vector, see MulVec4Rows, MulVec4Columns, MulVec4Compose |
| Mat4.MulVec3 | src/mat4.rs:195-201 | `Mat4 * Vec3`; the direction product, see MulVec3IsDirection and MulVec3UpperBlock |
| Mat4.OrthographicAsWritten | src/mat4.rs:111-125 | the matrix `orthographic` builds as written, with scales `2 * (r - l)` and `2 * (t - b)`; see OrthographicAsWrittenMissesCube and Findings |
| Mat4.LocalToWorldMatrix | src/mat4.rs:98-100 | `translate(t) * rotate(q) * scale(s)`; see LocalToWorldOrder and WorldToLocalInverse |
| Mat4.WorldToLocalMatrix | src/mat4.rs:105-107 | the corrected `scale(1/s) * rotate(-q) * translate(-t)`; a left inverse of `local_to_world`, see WorldToLocalInverse |
| Mat4.Cr | src/mat4.rs:23-26 | in column-major order, every in-range (column, row) pair indexes one of the 16 values |
| Mat4.CrRowMajor | src/mat4.rs:27-30 | with `mat-row-major`, the index is the column-major index with column and row swapped |
| Mat4.CrSurjective | src/mat4.rs:23-26 | every index below 16 is `cr` of exactly the column and row it decodes to |
| Mat4.CrInjective | src/mat4.rs:23-26 | distinct in-range (column, row) pairs have distinct indices |
| Mat4.ColRow | src/mat4.rs:23-26 | decoding `cr(c, r)` gives back `c` and `r` |
| Mat4.With | src/mat4.rs:152-154 | after `set`, the entry reads back as the new value and every other entry is unchanged |
| Mat4.Ext | src/mat4.rs:12-14 | two matrices that agree on all 16 (column, row) entries are equal |
| Mat4.Identity | src/mat4.rs:34-43 | the identity has 1 on the diagonal and 0 elsewhere |
| Mat4.Transpose | src/mat4.rs:157-167 | the transpose's entry (c, r) is the original's entry (r, c) |
| Mat4.TransposeInvolution | src/mat4.rs:157-167 | transposing twice gives back the matrix |
| Mat4.TransposeIdentity | src/mat4.rs:157-167 | the identity is its own transpose |
| Mat4.Transposed | src/mat4.rs:157-167 | the loop that swaps indices builds exactly the transpose |
| Mat4.Product | src/mat4.rs:170-184 | entry (c, r) of `a * b` is row r of `a` dotted with column c of `b` |
| Mat4.RowColumnDot | src/mat4.rs:177-180 | the four-term sum the source writes is that row-by-column dot product |
| Mat4.ProductByEntries | src/mat4.rs:170-184 | a matrix whose entries are the row-by-column dots is the product |
| Mat4.Mul | src/mat4.rs:170-184 | the double loop over rows and columns builds exactly the product |
| Mat4.ColumnByUnit | src/mat4.rs:186-193 | multiplying by the c-th unit vector selects column c |
| Mat4.ProductIdentity | src/mat4.rs:34-43 | the identity is neutral for `*` on both sides, so `Default` is neutral too |
| Mat4.DotRegroup | src/mat4.rs:170-184 | a row of `a * b` dotted with `v` equals the row of `a` dotted with `b` applied to `v` |
| Mat4.ProductAssoc | src/mat4.rs:170-184 | the matrix product is associative |
| Mat4.MulVec4Rows | src/mat4.rs:186-193 | `Mat4 * Vec4` dots each row with the vector |
| Mat4.MulIdentity | src/mat4.rs:186-201 | the identity leaves every `Vec4` and every `Vec3` unchanged |
| Mat4.MulVec4Compose | src/mat4.rs:170-193 | `(a * b) * v == a * (b * v)`: applying a product applies its factors right to left |
| Mat4.MulVec3IsDirection | src/mat4.rs:195-201 | `Mat4 * Vec3` is `Mat4 * Vec4` on the direction `(x, y, z, 0)`, truncated to three components |
| Mat4.MulVec3UpperBlock | src/mat4.rs:195-201 | `Mat4 * Vec3` reads only the upper-left 3×3 block |
| Mat4.ProductColumn | src/mat4.rs:170-193 | column c of `a * b` is `a` applied to column c of `b` |
| Mat4.ProductByColumns | src/mat4.rs:170-193 | a matrix whose columns are `a` applied to the columns of `b` is `a * b` |
| Mat4.ExtColumns | src/mat4.rs:12-14 | two matrices with equal columns are equal |
| Mat4.IdentityColumns | src/mat4.rs:34-43 | the identity's columns are the four unit vectors |
| Mat4.Translation | src/mat4.rs:46-54 | `translate(t)` is the identity with `(t, 1)` as its last column |
| Mat4.Scaling | src/mat4.rs:80-88 | `scale(s)` is the diagonal matrix `(s.x, s.y, s.z, 1)` |
| Mat4.WithColumn | src/mat4.rs:57-77 | writing the first three rows of one column changes that column only and keeps its last row |
| Mat4.Rotation | src/mat4.rs:57-77 | `rotate` has the right, up and forward axes as its first three columns and `(0, 0, 0, 1)` as its last |
| Mat4.Translate | src/mat4.rs:46-54 | the writes into the identity build the translation matrix |
| Mat4.Scale | src/mat4.rs:80-88 | the writes into the identity build the scaling matrix |
| Mat4.Rotate | src/mat4.rs:57-77 | the nine writes into the identity build the rotation matrix from the quaternion's axes |
| Mat4.RotationOfDefaultQuaternion | src/mat4.rs:57-77 | `rotate(Quaternion::default())` is the identity matrix when the identity quaternion's axes are the unit vectors |
| Mat4.OrthographicLayout | src/mat4.rs:111-125 | the entries `orthographic` writes: three diagonal scales and an offset column |
| Mat4.Orthographic | src/mat4.rs:111-125 | the corrected orthographic projection, with scales `2/(r-l)`, `2/(t-b)` and `1/(f-n)` (see Findings) |
| Mat4.BuildOrthographic | src/mat4.rs:111-125 | the writes into the identity build the corrected orthographic matrix |
| Mat4.OrthographicLayoutApply | src/mat4.rs:111-125 | applied to a vector, the layout scales each axis and adds the offset times `w` |
| Mat4.OrthographicCorners | src/mat4.rs:111-125 | the corrected projection sends `(l, b, n)` to `(-1, -1, 0)` and `(r, t, f)` to `(1, 1, 1)`, the Vulkan clip volume |
| Mat4.OrthographicAsWrittenMissesCube | src/mat4.rs:115-118 | as written, the box l=0, r=2, b=0, t=2, n=0, f=1 sends `(2, 2, 1)` to `(7, 7, 1)`, outside the clip volume |
| Mat4.MulVec4Columns | src/mat4.rs:186-193 | `Mat4 * Vec4` is the combination of the columns weighted by the vector's components |
| Mat4.TranslatePoint | src/mat4.rs:46-54 | translation adds `t * w`, so it moves a point (`w == 1`) by `t` |
| Mat4.TranslateIgnoredByVec3 | src/mat4.rs:195-201 | `Mat4 * Vec3` ignores translation |
| Mat4.ScalePoint | src/mat4.rs:80-88 | scaling multiplies each of x, y, z by its factor and keeps `w` |
| Mat4.RotatePoint | src/mat4.rs:57-77 | rotation maps `(x, y, z)` to `x·right + y·up + z·forward` and keeps `w` |
| Mat4.LocalToWorldOrder | src/mat4.rs:98-100 | `local_to_world` scales first, then rotates, then translates |
| Mat4.LocalToWorldExample | src/mat4.rs:98-100 | scaling by 2 with no rotation, then moving by (1, 0, 0), sends (1, 0, 0) to (3, 0, 0) |
| Mat4.LocalToWorld | src/mat4.rs:98-100 | `local_to_world` is the product `translate(t) * rotate(q) * scale(s)` |
| Mat4.TranslationInverse | src/mat4.rs:46-54 | `translate(-t) * translate(t)` is the identity |
| Mat4.DiagonalApply | src/mat4.rs:80-88 | a diagonal matrix multiplies each component of a vector by its factor |
| Mat4.DiagonalProduct | src/mat4.rs:80-88 | the product of two diagonal matrices is diagonal, with the factors multiplied |
| Mat4.ScalingProduct | src/mat4.rs:80-88 | `scale(k) * scale(s) == scale(k * s)` |
| Mat4.ScalingInverse | src/mat4.rs:80-88 | `scale(1/s) * scale(s)` is the identity for `s` with no zero component |
| Mat4.WorldToLocalInverse | src/mat4.rs:105-107 | the corrected `world_to_local` is a left inverse of `local_to_world` when the negated quaternion's rotation inverts the rotation |
| Mat4.WorldToLocal | src/mat4.rs:105-107 | the corrected `world_to_local` is `scale(1/s) * rotate(-q) * translate(-t)` |
| Mat4.WorldToLocalAsWritten | src/mat4.rs:105-107 | as written, `world_to_local` is `scale(s) * rotate(-q) * translate(-t)`, because `1.0 / s` evaluates to `s` |
| Mat4.ScalingIsIdentity | src/mat4.rs:80-88 | `scale(k)` is the identity exactly when `k` is `(1, 1, 1)` |
| Mat4.WorldToLocalAsWrittenRoundTrip | src/mat4.rs:105-107 | as written, `world_to_local * local_to_world` is `scale(s * s)` rather than the identity |
| Mat4.WorldToLocalAsWrittenNotInverse | src/mat4.rs:105-107 | for `s = (2, 2, 2)` the round trip is `scale(4, 4, 4)`, which is not the identity |
| Mat4.Mat4Var.constructor | src/mat4.rs:12-14 | a matrix object holds exactly the 16 given values |
| Mat4.Mat4Var.GetAt | src/mat4.rs:147-149 | `get(c, r)` returns the entry at `cr(c, r)` |
| Mat4.Mat4Var.Set | src/mat4.rs:152-154 | `set(c, r, v)` changes the entry at `cr(c, r)` to `v` and nothing else |
| Color.NamedColorsOpaque | src/color.rs:36-66 | the sixteen named colours are opaque, lie in the unit range and are pairwise distinct |
| Color.Default | src/color.rs:19-24 | the default colour is opaque black, one of the named colours |
| Color.Channel | src/color.rs:76-111 | a byte divided by 255 lies in [0, 1]; it is 1 exactly for 0xFF and 0 exactly for 0 |
| Color.ChannelInjective | src/color.rs:76-111 | distinct bytes give distinct channel values |
| Color.FromHexRgb | src/color.rs:76-81 | `from_hex_rgb` gives an opaque colour in the unit range |
| Color.FromHexBgr | src/color.rs:86-91 | `from_hex_bgr` gives an opaque colour in the unit range |
| Color.FromHexRgba | src/color.rs:95-101 | `from_hex_rgba` gives a colour in the unit range |
| Color.FromHexArgb | src/color.rs:105-111 | `from_hex_argb` gives a colour in the unit range |
| Color.Unpack | src/color.rs:95-101 | the shifts and masks read back each of the four bytes packed into a `u32` |
| Color.PackBytes | src/color.rs:95-101 | the four bytes read by shifts and masks pack back into the same `u32` |
| Color.FromHexRgbaBytes | src/color.rs:95-101 | `0xRRGGBBAA` decodes to channels `RR`, `GG`, `BB`, `AA`, each divided by 255 |
| Color.FromHexArgbBytes | src/color.rs:105-111 | `0xAARRGGBB` decodes to channels `RR`, `GG`, `BB`, `AA`, each divided by 255 |
| Color.FromHexRgbBytes | src/color.rs:76-81 | `0x??RRGGBB` decodes to `RR`, `GG`, `BB` and alpha 1 |
| Color.FromHexRgbaInjective | src/color.rs:95-101 | `from_hex_rgba` is injective: the colour determines the hex value |
| Color.FromHexRgbLowBytes | src/color.rs:76-81 | two hex values give the same `from_hex_rgb` colour exactly when their low three bytes agree |
| Color.LowBytes | src/color.rs:76-81 | the three low bytes read by shifts and masks pack back into `hex & 0xFFFFFF` |
| Color.LowBytesRead | src/color.rs:76-81 | the bytes `from_hex_rgb` reads are the same after masking off the top byte |
| Color.FromHexRgbTopByteIgnored | src/color.rs:73-81 | the most significant byte is discarded |
| Color.FromHexRgbIsOpaqueRgba | src/color.rs:76-101 | `from_hex_rgb(hex)` is `from_hex_rgba((hex << 8) | 0xFF)` |
| Color.RgbShiftedBytes | src/color.rs:76-101 | the bytes of `(hex << 8) | 0xFF` are the low three bytes of `hex` followed by 0xFF |
| Color.FromHexBgrIsSwappedRgb | src/color.rs:76-91 | `from_hex_bgr` is `from_hex_rgb` with red and blue swapped, and the other way round |
| Color.FromHexArgbIsRotatedRgba | src/color.rs:95-111 | `from_hex_argb(hex)` is `from_hex_rgba` of `hex` rotated left by one byte |
| Color.RotatedBytes | src/color.rs:95-111 | the bytes of `hex` rotated left by 8 bits are the bytes of `hex` moved up one place, the top byte wrapping round to the bottom |
| Color.FromHexRgbBgrExamples | src/color.rs:487-571 | the library's `from_hex_rgb` and `from_hex_bgr` tests: red, lime, blue and white |
| Color.FromHexRgbaArgbExamples | src/color.rs:573-677 | the library's `from_hex_rgba` and `from_hex_argb` tests: each single channel, and white |
| Color.Add | src/color.rs:439 | channel-wise `+` without clamping; undone by `-`, see AddSubInverse and AddNotClamped |
| Color.Sub | src/color.rs:440-447 | channel-wise `-`; undone by `+`, see AddSubInverse |
| Color.FromArray3 | src/color.rs:449-458 | `[r, g, b]` with alpha 1; see Array3RoundTrip |
| Color.ToArray3 | src/color.rs:460-464 | `[r, g, b]`, alpha dropped; see Array3RoundTrip |
| Color.FromArray4 | src/color.rs:466-475 | `[r, g, b, a]`; see Array4RoundTrip |
| Color.ToArray4 | src/color.rs:477-481 | `[r, g, b, a]`; see Array4RoundTrip |
| Color.AddSubInverse | src/color.rs:439-447 | `-` undoes `+` and `+` undoes `-` |
| Color.AddNotClamped | src/color.rs:439 | `+` does not clamp: white plus white is (2, 2, 2, 2), outside the unit range |
| Color.OperatorExamples | src/color.rs:679-704 | the library's operator test values for `+` and `-` |
| Color.ColorVar.constructor | src/color.rs:69-71 | `new` holds the given channels |
| Color.ColorVar.AddAssign | src/color.rs:436 | `+=` leaves `old + d` |
| Color.ColorVar.SubAssign | src/color.rs:437 | `-=` leaves `old - d` |
| Color.Array4RoundTrip | src/color.rs:466-481 | `[f32; 4]` to colour and back, and colour to `[f32; 4]` and back, are both the identity |
| Color.Array3RoundTrip | src/color.rs:449-464 | `[f32; 3]` to colour and back is the identity; colour to `[f32; 3]` and back resets alpha to 1, so it is the identity exactly for opaque colours |
| Color.Members | src/color.rs:113-433 | a swizzle word gives one single-letter member per letter |
| Color.MembersName | src/color.rs:113-433 | the accessor generated for a word is named by that word |
| Color.SwizzleOf | src/color.rs:113-433 | a colour swizzle returns, in order, the channels its letters name |
| Color.SwizzleAbgr | src/color.rs:406 | `abgr()` returns `(a, b, g, r)` |
| Color.Words | src/color.rs:113-433 | all words of n letters over r, g, b, a in the order the swizzle calls list them; see WordsRank, WordsDistinct, WordsComplete |
| Color.SwizzleCalls | src/color.rs:113-433 | the 3-letter words followed by the 4-letter words; see SwizzleTable and SwizzleNamesDistinct |
| Color.WordsBlock | src/color.rs:113-433 | the table of n+1-letter words is four blocks, one per leading letter in r, g, b, a order, each followed by the n-letter table |
| Color.RankCons | src/color.rs:113-433 | a word's position in the table is its leading letter's digit times the block size plus the position of the rest |
| Color.WordsRank | src/color.rs:113-433 | the n-letter table has 4^n words, and the word at position i spells i in base 4 over r, g, b, a |
| Color.WordsRankStep | src/color.rs:113-433 | the base-4 reading of the table carries from n-letter to n+1-letter words |
| Color.RankStep | src/color.rs:113-433 | one position of the n+1-letter table reads in base 4 as its index |
| Color.WordsDistinct | src/color.rs:113-433 | no word occurs twice in a table |
| Color.WordsComplete | src/color.rs:113-433 | every word of n letters over r, g, b, a is in the table |
| Color.WordsCons | src/color.rs:113-433 | a letter followed by an n-letter word from the table is in the n+1-letter table |
| Color.SwizzleTable | src/color.rs:113-433 | there are 64 three-letter and 256 four-letter swizzles, each a word over r, g, b, a |
| Color.DistinctConcat | src/color.rs:113-433 | joining two duplicate-free tables of words of different lengths keeps it duplicate-free |
| Color.SwizzleNamesDistinct | src/color.rs:113-433 | the 320 generated accessor names are pairwise distinct |
| Color.SwizzleTableEnds | src/color.rs:113-433 | the three-letter table runs from `rrr` to `aaa` and the four-letter one from `rrrr` to `aaaa` |
| Swizzle.SwizzleType | src/macros.rs:1-12 | `Vec2`, `Vec3` or `Vec4` for two, three or four members and nothing otherwise; see SwizzleTypeSize |
| Swizzle.AccessorName | src/macros.rs:17-19 | the member names pasted together; see AccessorNameLetters and AccessorNameInjective |
| Swizzle.SwizzleTypeSize | src/macros.rs:1-12 | `swizzle_type!` accepts exactly two to four members and names the vector with that many components |
| Swizzle.Components | src/macros.rs:1-12 | a returned vector has as many components as its type says |
| Swizzle.Swizzle | src/macros.rs:14-26 | an accessor returns the vector type `swizzle_type!` names, whose i-th component is the field named by the i-th member |
| Swizzle.ComponentsDetermine | src/macros.rs:1-12 | a returned vector is determined by its type and its components |
| Swizzle.SwizzleReadsOnlySelected | src/macros.rs:19-23 | an accessor depends only on the fields it names |
| Swizzle.SwizzleRepeated | src/macros.rs:19-23 | a repeated member copies one field into several components |
| Swizzle.SwizzleReversedExample | src/macros.rs:19-23 | the members a, b, g, r on the fields r=1, g=2, b=3, a=4 give (4, 3, 2, 1) |
| Swizzle.AccessorNameLetters | src/macros.rs:17-19 | with single-letter members, the generated name spells the members in order |
| Swizzle.AccessorNameInjective | src/macros.rs:17-19 | distinct single-letter member lists generate distinct method names |
| Swizzle.Accessors | src/macros.rs:14-31 | with the `swizzle` feature every call generates its accessor and nothing else; without it, nothing is generated |

## Left out

- IEEE-754 `f32` behaviour: rounding, infinities and NaN. Numbers are exact reals. Every division therefore requires a non-zero divisor, where `f32` would give an infinity or NaN instead.
- `f32::sqrt` is a parameter. `magnitude`, `normalize` and `normalized` take the square root as an argument.
- Vec4.NormalizedIsUnit, Vec3.NormalizedIsUnit, Vec2.NormalizedIsUnit: assume the supplied square root squares back to its argument, because `f32::sqrt` is only approximately a square root.
- Mat4.Get, Mat4.With, Mat4.Mat4Var.GetAt, Mat4.Mat4Var.Set: require `cr(c, r) < 16`. The source panics on an out-of-bounds slot (src/mat4.rs:148 and 153); the model does not represent that panic.
- Vec4.Vec4Var.Normalize, Vec3.Vec3Var.Normalize, Vec2.Vec2Var.Normalize: return nothing. The source's `normalize` returns `&mut Self` so that calls can be chained; the model does not capture that aliasing reference.
- Vec4.Vec4Var.Normalize: requires a non-zero magnitude, because the source divides by it. The same holds for `Normalized` and for the Vec2 and Vec3 versions.
- `Quaternion::right`, `up` and `forward`, called by `rotate`, are not part of this model. Nor is the negation `-r` that `world_to_local` uses. `src/quaternion.rs` defines none of them. They are parameters `axes` and `negate`, and `rotate` is proved for whatever axes `axes` returns.
- Mat4.WorldToLocalInverse: holds under the hypothesis that the rotation of the negated quaternion inverts the rotation, because quaternion rotation is not part of this model.
- `Mat4::perspective` (`src/mat4.rs:127-144`) is left out because it needs `f32::tan`. Like `orthographic`, it is compiled only with the `mat-vulkan` feature.
- The `mat-row-major` feature is modelled only as the alternative index function `CrRowMajor`. The rest of the model uses the default column-major layout.
- `Display for Color` (text formatting) and the serde derives are left out.
- The `auto_ops` macros generate by-reference variants of every operator, such as `&a + &b`. These compute the same values and are modelled once.
- `src/color.rs` and `src/macros.rs` are not declared in `src/lib.rs`, so the crate as published does not compile them. They are modelled as written.
- Color.FromHexRgb: the byte layout is stated with `bv32` shifts, masks and rotations, not as integer arithmetic. Each channel's value is the byte divided by 255.
- The 320 `swizzle!` calls are modelled as two generated tables, all 3-letter and all 4-letter words over r, g, b, a, in the order the source lists them. The calls are not written out one by one. SwizzleTable, WordsRank and SwizzleTableEnds pin down that order.

## Findings

| source | as written | input that shows it | evidently intended | confidence | as-written member | corrected member |
|---|---|---|---|---|---|---|
| src/vec3.rs:77 | `impl_op_ex_commutative!(/ …)` makes `k / v` the same as `v / k` | `2.0 / Vec3(1, 2, 4)` gives `(0.5, 1, 2)` | `(k / v.x, k / v.y, k / v.z)`, as `Vec4` has at src/vec4.rs:83 | not executed | Vec3.ScalarDivIsNotReciprocal | Vec3.ScalarDivReciprocal |
| src/vec2.rs:67 | `impl_op_ex_commutative!(/ …)` makes `k / v` the same as `v / k` | `2.0 / Vec2(1, 4)` gives `(0.5, 2)` | `(k / v.x, k / v.y)` | not executed | Vec2.ScalarDivIsNotReciprocal | Vec2.ScalarDivReciprocal |
| src/mat4.rs:106 | `world_to_local` scales by `1.0 / s`, which evaluates to `s` through src/vec3.rs:77 | `s = (2, 2, 2)`: `world_to_local * local_to_world` is `scale(4, 4, 4)` | `scale(1/s)`, making it the inverse of `local_to_world` | not executed | Mat4.WorldToLocalAsWrittenNotInverse | Mat4.WorldToLocalInverse |
| src/mat4.rs:115-118 | `orthographic` scales x and y by `2.0 * (r - l)` and `2.0 * (t - b)` | l=0, r=2, b=0, t=2, n=0, f=1 sends `(2, 2, 1)` to `(7, 7, 1)` | `2.0 / (r - l)` and `2.0 / (t - b)`, mapping the box onto the clip volume | not executed | Mat4.OrthographicAsWrittenMissesCube | Mat4.OrthographicCorners |
