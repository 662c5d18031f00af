/**
 * Values the importer moves around: UnityEngine.Vector2 for UVs and
 * FbxDouble3 / FbxVector4 for translations and control points.
 * Coordinates are reals; the single-precision casts and the float-range
 * Debug.Assert of the C# code are not modelled. A float UV component is kept
 * apart from NaN explicitly, because the decoder tests for it.
 */
module Geometry {

  /** One component of a Vector2: a number, or NaN. */
  datatype Component = Num(r: real) | NaN

  datatype UV = UV(u: Component, v: Component)

  /** Vector2.zero, also the value of every slot of a freshly allocated Vector2[]. */
  const ZeroUV: UV := UV(Num(0.0), Num(0.0))

  /** float.IsNaN of either component. */
  predicate HasNaN(p: UV) {
    p.u.NaN? || p.v.NaN?
  }

  /** X, Y, Z of a translation or a control point (the W of FbxVector4 is not modelled). */
  datatype Vec3 = Vec3(x: real, y: real, z: real)

  /** `v *= factor` on an FbxDouble3 / FbxVector4: every component multiplied. */
  function Scale(p: Vec3, factor: real): Vec3 {
    Vec3(p.x * factor, p.y * factor, p.z * factor)
  }

  /** Three successive `lclTrs *= scaleFactor` statements. */
  function ScaleThrice(p: Vec3, factor: real): Vec3 {
    Scale(Scale(Scale(p, factor), factor), factor)
  }

  /** Applying the factor three times is one multiplication by its cube. */
  lemma ScaleThriceIsCube(p: Vec3, factor: real)
    ensures ScaleThrice(p, factor) == Scale(p, factor * factor * factor)
  {
    assert p.x * factor * factor * factor == p.x * (factor * factor * factor);
    assert p.y * factor * factor * factor == p.y * (factor * factor * factor);
    assert p.z * factor * factor * factor == p.z * (factor * factor * factor);
  }

  /** A factor of one leaves a vector as it was, so a unit-factor pass would be a no-op. */
  lemma ScaleByOne(p: Vec3)
    ensures Scale(p, 1.0) == p && ScaleThrice(p, 1.0) == p
  {
  }
}
