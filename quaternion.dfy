/**
 * The quaternion record of src/quaternion.rs: four components and the
 * identity rotation. The repository gives it no other operation, so the
 * rotation axes that `Mat4::rotate` asks of a quaternion are supplied to
 * the matrix module as a parameter.
 */
module Quaternion {

  /** `Quaternion { x, y, z, w }`; the constructor is `Quaternion::new`. */
  datatype Quaternion = Quaternion(x: real, y: real, z: real, w: real)

  /** `Quaternion::identity()`: no vector part, scalar part one. */
  function Identity(): Quaternion
  {
    Quaternion(0.0, 0.0, 0.0, 1.0)
  }

  /** `Default for Quaternion` delegates to `identity()`. */
  function Default(): Quaternion
  {
    Identity()
  }
}
