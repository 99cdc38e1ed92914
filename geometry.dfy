/**
 * Vertex data of the renderer (the `Vertex` struct of PrimitiveRenderer.cs) and the Unity vector
 * types it is built from. Coordinates, texture coordinates and colour channels are exact reals; the
 * float rounding of the source and the byte rounding of `Color32` are not modelled.
 */
module Geometry {

  datatype Vec2 = Vec2(x: real, y: real)

  datatype Vec3 = Vec3(x: real, y: real, z: real)

  /** A colour with its four channels as reals (the source's `Color32`, without byte rounding). */
  datatype Rgba = Rgba(r: real, g: real, b: real, a: real)

  /**
   * A `Vector4` used as an axis-aligned rectangle in virtual screen units: (x, y) is the top-left
   * corner and (z, w) the bottom-right one (y grows downward).
   */
  datatype Rect = Rect(x: real, y: real, z: real, w: real)

  datatype Vertex = Vertex(position: Vec3, uv: Vec2, color: Rgba)

  /** Unity's `Lerp` functions clamp their parameter to [0, 1]. */
  function Clamp01(t: real): (r: real)
    ensures 0.0 <= r <= 1.0
    ensures 0.0 <= t <= 1.0 ==> r == t
  {
    if t < 0.0 then 0.0 else if t > 1.0 then 1.0 else t
  }

  /** Unclamped linear interpolation of one coordinate. */
  function Mix(a: real, b: real, t: real): real
  {
    a + (b - a) * t
  }

  function Lerp2(a: Vec2, b: Vec2, t: real): Vec2
  {
    var s := Clamp01(t);
    Vec2(Mix(a.x, b.x, s), Mix(a.y, b.y, s))
  }

  function Lerp3(a: Vec3, b: Vec3, t: real): Vec3
  {
    var s := Clamp01(t);
    Vec3(Mix(a.x, b.x, s), Mix(a.y, b.y, s), Mix(a.z, b.z, s))
  }

  function LerpColor(a: Rgba, b: Rgba, t: real): Rgba
  {
    var s := Clamp01(t);
    Rgba(Mix(a.r, b.r, s), Mix(a.g, b.g, s), Mix(a.b, b.b, s), Mix(a.a, b.a, s))
  }

  /** `Vertex.Lerp`: position, texture coordinate and colour interpolated independently. */
  function Lerp(v1: Vertex, v2: Vertex, t: real): (r: Vertex)
    ensures t <= 0.0 ==> r == v1
    ensures t >= 1.0 ==> r == v2
  {
    Vertex(Lerp3(v1.position, v2.position, t), Lerp2(v1.uv, v2.uv, t), LerpColor(v1.color, v2.color, t))
  }

  /** The product of two non-negative reals is non-negative. */
  lemma MulNonNegative(x: real, y: real)
    requires 0.0 <= x && 0.0 <= y
    ensures 0.0 <= x * y
  {
  }

  /** An interpolated coordinate lies between its two end points. */
  lemma MixBetween(a: real, b: real, t: real)
    requires 0.0 <= t <= 1.0
    ensures a <= b ==> a <= Mix(a, b, t) <= b
    ensures b <= a ==> b <= Mix(a, b, t) <= a
  {
    assert Mix(a, b, t) - a == (b - a) * t;
    assert b - Mix(a, b, t) == (b - a) * (1.0 - t);
    if a <= b {
      MulNonNegative(b - a, t);
      MulNonNegative(b - a, 1.0 - t);
    } else {
      MulNonNegative(a - b, t);
      MulNonNegative(a - b, 1.0 - t);
      assert (a - b) * t == -((b - a) * t);
      assert (a - b) * (1.0 - t) == -((b - a) * (1.0 - t));
    }
  }

  /** Interpolating between two coordinates on the same strict side of a bound stays on that side. */
  lemma MixStrict(a: real, b: real, t: real, bound: real)
    requires 0.0 <= t <= 1.0
    ensures a < bound && b < bound ==> Mix(a, b, t) < bound
    ensures a > bound && b > bound ==> Mix(a, b, t) > bound
  {
    MixBetween(a, b, t);
  }

  /** Interpolating between two equal values gives that value back. */
  lemma MixSame(a: real, t: real)
    ensures Mix(a, a, t) == a
  {
  }
}
