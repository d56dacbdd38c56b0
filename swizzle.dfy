/**
 * The `swizzle!` and `swizzle_type!` macros: an accessor named after a list
 * of member names that returns a new vector built from those members of the
 * receiver, in the listed order.
 *
 * The receiver is seen through its named fields (a map from member name to
 * value); the macro is applied to colours in this library, whose members are
 * `r`, `g`, `b` and `a`.
 */

module Swizzle {

  import Vec2
  import Vec3
  import Vec4

  datatype Option<T> = None | Some(value: T)

  /** The vector type `swizzle_type!` names. */
  datatype Kind = Vec2Kind | Vec3Kind | Vec4Kind

  /** The number of components of a vector of kind `k`. */
  function Size(k: Kind): nat
  {
    match k
    case Vec2Kind => 2
    case Vec3Kind => 3
    case Vec4Kind => 4
  }

  /**
   * `swizzle_type!`: two members name a Vec2, three a Vec3, four a Vec4; the
   * macro has no rule for any other count, so such a use does not compile.
   */
  function SwizzleType(arity: nat): Option<Kind>
  {
    if arity == 2 then Some(Vec2Kind)
    else if arity == 3 then Some(Vec3Kind)
    else if arity == 4 then Some(Vec4Kind)
    else None
  }

  /** `swizzle_type!` picks exactly the vector type with as many components as members. */
  lemma SwizzleTypeSize(arity: nat)
    ensures SwizzleType(arity).Some? <==> 2 <= arity <= 4
    ensures SwizzleType(arity).Some? ==> Size(SwizzleType(arity).value) == arity
    ensures forall k: Kind :: SwizzleType(Size(k)) == Some(k)
  {
    forall k: Kind
      ensures SwizzleType(Size(k)) == Some(k)
    {
      match k
      case Vec2Kind =>
      case Vec3Kind =>
      case Vec4Kind =>
    }
  }

  /** A value returned by a generated accessor. */
  datatype Swizzled = V2(v2: Vec2.Vec2) | V3(v3: Vec3.Vec3) | V4(v4: Vec4.Vec4)

  function KindOf(s: Swizzled): Kind
  {
    match s
    case V2(_) => Vec2Kind
    case V3(_) => Vec3Kind
    case V4(_) => Vec4Kind
  }

  /** The components of a returned vector, x first. */
  function Components(s: Swizzled): (cs: seq<real>)
    ensures |cs| == Size(KindOf(s))
  {
    match s
    case V2(v) => [v.x, v.y]
    case V3(v) => [v.x, v.y, v.z]
    case V4(v) => [v.x, v.y, v.z, v.w]
  }

  /** A member name of the receiver, as written in the macro call. */
  type Member = string

  /** The receiver's fields, by name. */
  type Fields = map<Member, real>

  /** A member list the macros accept for a receiver with these fields. */
  predicate Selectable(fields: Fields, sel: seq<Member>)
  {
    SwizzleType(|sel|).Some? && forall i | 0 <= i < |sel| :: sel[i] in fields
  }

  /**
   * The body of a generated accessor: `<swizzle_type!(…)>::new(self.m1, …)`.
   * The result has the type `swizzle_type!` names, and its i-th component is
   * the receiver's field named by the i-th member; a member may repeat.
   */
  function Swizzle(fields: Fields, sel: seq<Member>): (v: Swizzled)
    requires Selectable(fields, sel)
    ensures SwizzleType(|sel|) == Some(KindOf(v))
    ensures |Components(v)| == |sel|
    ensures forall i | 0 <= i < |sel| :: Components(v)[i] == fields[sel[i]]
  {
    if |sel| == 2 then
      V2(Vec2.Vec2(fields[sel[0]], fields[sel[1]]))
    else if |sel| == 3 then
      V3(Vec3.Vec3(fields[sel[0]], fields[sel[1]], fields[sel[2]]))
    else
      V4(Vec4.Vec4(fields[sel[0]], fields[sel[1]], fields[sel[2]], fields[sel[3]]))
  }

  /** A returned vector is determined by its kind and its components. */
  lemma ComponentsDetermine(s: Swizzled, t: Swizzled)
    requires KindOf(s) == KindOf(t) && Components(s) == Components(t)
    ensures s == t
  {
    match s
    case V2(_) => assert Components(s)[0] == Components(t)[0] && Components(s)[1] == Components(t)[1];
    case V3(_) => assert Components(s)[2] == Components(t)[2];
    case V4(_) => assert Components(s)[3] == Components(t)[3];
  }

  /**
   * An accessor reads only the fields it names: two receivers that agree on
   * the listed members give the same vector, whatever their other fields hold.
   */
  lemma SwizzleReadsOnlySelected(fields: Fields, other: Fields, sel: seq<Member>)
    requires Selectable(fields, sel) && Selectable(other, sel)
    requires forall i | 0 <= i < |sel| :: fields[sel[i]] == other[sel[i]]
    ensures Swizzle(fields, sel) == Swizzle(other, sel)
  {
    var s, t := Swizzle(fields, sel), Swizzle(other, sel);
    assert Components(s) == Components(t);
    ComponentsDetermine(s, t);
  }

  /** A repeated member copies one field into several components, as `rrr` does. */
  lemma SwizzleRepeated(fields: Fields, m: Member)
    requires m in fields
    ensures Swizzle(fields, [m, m, m]) == V3(Vec3.Vec3(fields[m], fields[m], fields[m]))
  {
  }

  /** `abgr` on a colour (1, 2, 3, 4) is the vector (4, 3, 2, 1). */
  lemma SwizzleReversedExample()
    ensures Swizzle(map["r" := 1.0, "g" := 2.0, "b" := 3.0, "a" := 4.0], ["a", "b", "g", "r"])
         == V4(Vec4.Vec4(4.0, 3.0, 2.0, 1.0))
  {
  }

  /** The accessor's name: the member names pasted together in order. */
  function AccessorName(sel: seq<Member>): string
  {
    if sel == [] then "" else sel[0] + AccessorName(sel[1..])
  }

  /** Every member is a single letter, as for colours. */
  predicate SingleLetters(sel: seq<Member>)
  {
    forall i | 0 <= i < |sel| :: |sel[i]| == 1
  }

  /** With single-letter members the name spells the members, one letter each. */
  lemma {:induction false} AccessorNameLetters(sel: seq<Member>)
    requires SingleLetters(sel)
    ensures |AccessorName(sel)| == |sel|
    ensures forall i | 0 <= i < |sel| :: AccessorName(sel)[i] == sel[i][0]
  {
    if sel != [] {
      assert SingleLetters(sel[1..]) by {
        forall i | 0 <= i < |sel[1..]| ensures |sel[1..][i]| == 1 {
          assert sel[1..][i] == sel[i + 1];
        }
      }
      AccessorNameLetters(sel[1..]);
      forall i | 0 <= i < |sel|
        ensures AccessorName(sel)[i] == sel[i][0]
      {
        if i > 0 {
          assert AccessorName(sel)[i] == AccessorName(sel[1..])[i - 1];
          assert sel[1..][i - 1] == sel[i];
        }
      }
    }
  }

  /**
   * Distinct single-letter member lists give distinct accessor names, so the
   * generated methods never clash.
   */
  lemma AccessorNameInjective(sel: seq<Member>, sel': seq<Member>)
    requires SingleLetters(sel) && SingleLetters(sel')
    requires AccessorName(sel) == AccessorName(sel')
    ensures sel == sel'
  {
    AccessorNameLetters(sel);
    AccessorNameLetters(sel');
    forall i | 0 <= i < |sel|
      ensures sel[i] == sel'[i]
    {
      assert sel[i] == [sel[i][0]];
      assert sel'[i] == [sel'[i][0]];
    }
  }

  /**
   * The accessors a list of `swizzle!` calls generates: one per call when the
   * `swizzle` feature is on, none when it is off (the macro then expands to
   * nothing).
   */
  function Accessors(swizzleFeature: bool, calls: seq<seq<Member>>): (names: set<string>)
    ensures !swizzleFeature ==> names == {}
    ensures swizzleFeature ==> forall i | 0 <= i < |calls| :: AccessorName(calls[i]) in names
    ensures forall n | n in names :: exists i | 0 <= i < |calls| :: n == AccessorName(calls[i])
  {
    if swizzleFeature then set i | 0 <= i < |calls| :: AccessorName(calls[i]) else {}
  }
}
