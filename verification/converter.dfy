/** Conversions between glm values and Bullet values (helpers/converter.cpp).
    glm stores a quaternion as (w, x, y, z); btQuaternion is built from (x, y, z, w).
    The conversions only copy components. */
module Converter {
  import opened Common

  /** Bullet's vector. */
  datatype BtVector3 = BtVector3(x: real, y: real, z: real)

  /** Bullet's quaternion, in its constructor's argument order (x, y, z, w). */
  datatype BtQuaternion = BtQuaternion(x: real, y: real, z: real, w: real)

  function VecToBt(v: Vec3): (r: BtVector3)
  {
    BtVector3(v.x, v.y, v.z)
  }

  function VecToGlm(v: BtVector3): (r: Vec3)
  {
    Vec3(v.x, v.y, v.z)
  }

  function QuatToBt(q: Quat): (r: BtQuaternion)
  {
    BtQuaternion(q.x, q.y, q.z, q.w)
  }

  function QuatToGlm(q: BtQuaternion): (r: Quat)
  {
    Quat(q.w, q.x, q.y, q.z)
  }

  /** Vector conversion is lossless in both directions. */
  lemma VecRoundTrip(v: Vec3, b: BtVector3)
    ensures VecToGlm(VecToBt(v)) == v
    ensures VecToBt(VecToGlm(b)) == b
  {
  }

  /** Quaternion conversion is lossless in both directions: the reordering of
      the constructor arguments is undone by the reverse conversion. */
  lemma QuatRoundTrip(q: Quat, b: BtQuaternion)
    ensures QuatToGlm(QuatToBt(q)) == q
    ensures QuatToBt(QuatToGlm(b)) == b
  {
  }

  /** Each named component lands in the same-named component: the w scalar
      is not confused with x, and nothing is normalised or scaled. */
  lemma QuatComponentsPreserved(q: Quat)
    ensures QuatToBt(q).w == q.w && QuatToBt(q).x == q.x
    ensures QuatToBt(q).y == q.y && QuatToBt(q).z == q.z
  {
  }
}
