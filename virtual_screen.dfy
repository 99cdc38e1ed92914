/**
 * The virtual-resolution arithmetic of PrimitiveRenderer2D.cs: the reference screen that keeps the
 * device's aspect ratio with one axis fixed, the virtual-to-camera transform, and the
 * screen-position mapping from Unity screen pixels (origin bottom-left, y up) to virtual coordinates (origin
 * top-left, y down) that DebugUiManager.cs uses.
 */
module VirtualScreen {
  import opened Geometry
  import opened Batching

  /** `ReferenceScreenWidth`, `ReferenceScreenHeight` and `ToVirtualScreenScale`. */
  datatype Reference = Reference(width: real, height: real, toVirtualScale: real)

  /** A camera of the orthographic kind the renderer draws through. */
  datatype Camera = Camera(aspect: real, orthographicSize: real)

  /**
   * `SetReferenceScreenHeight`: the height is fixed; a screen pixel becomes `toVirtualScale`
   * virtual units, so the full screen height and width map to the reference height and width.
   */
  function ReferenceFromHeight(refHeight: int, screenW: int, screenH: int): (r: Reference)
    requires screenW > 0 && screenH > 0
    ensures r.height == refHeight as real
    ensures r.toVirtualScale * screenH as real == r.height
    ensures r.toVirtualScale * screenW as real == r.width
  {
    var h := refHeight as real;
    Reference(h * screenW as real / screenH as real, h, h / screenH as real)
  }

  /** `SetReferenceScreenWidth`: the width is fixed, symmetrically. */
  function ReferenceFromWidth(refWidth: int, screenW: int, screenH: int): (r: Reference)
    requires screenW > 0 && screenH > 0
    ensures r.width == refWidth as real
    ensures r.toVirtualScale * screenW as real == r.width
    ensures r.toVirtualScale * screenH as real == r.height
  {
    var w := refWidth as real;
    Reference(w, w * screenH as real / screenW as real, w / screenW as real)
  }

  /** A reference screen that is the device screen uniformly scaled by `toVirtualScale`. */
  predicate Scaled(r: Reference, screenW: int, screenH: int)
  {
    r.toVirtualScale * screenW as real == r.width && r.toVirtualScale * screenH as real == r.height
  }

  /** Both setters keep the device's aspect ratio: refW / refH == screenW / screenH. */
  lemma AspectPreserved(r: Reference, screenW: int, screenH: int)
    requires screenW > 0 && screenH > 0 && Scaled(r, screenW, screenH) && r.height != 0.0
    ensures r.width / r.height == screenW as real / screenH as real
  {
    var s := r.toVirtualScale;
    assert s != 0.0;
    Cancel(screenW as real, screenH as real, s);
  }

  lemma Cancel(x: real, y: real, s: real)
    requires y != 0.0 && s != 0.0
    ensures (s * x) / (s * y) == x / y
  {
  }

  /** The reference axis the constructor fixes: the height 640 for wide cameras, else the width 1136. */
  function InitialReference(camera: Camera, screenW: int, screenH: int): (r: Reference)
    requires screenW > 0 && screenH > 0
    ensures Scaled(r, screenW, screenH)
    ensures camera.aspect >= 16.0 / 9.0 ==> r.height == 640.0
    ensures camera.aspect < 16.0 / 9.0 ==> r.width == 1136.0
  {
    if camera.aspect >= 16.0 / 9.0 then ReferenceFromHeight(640, screenW, screenH)
    else ReferenceFromWidth(1136, screenW, screenH)
  }

  /**
   * When the camera shows the whole device screen (its aspect is the screen's), the initial
   * reference screen is at least 1136 wide and more than 639 high, whichever axis was fixed.
   */
  lemma InitialReferenceCovers(camera: Camera, screenW: int, screenH: int)
    requires screenW > 0 && screenH > 0
    requires camera.aspect == screenW as real / screenH as real
    ensures InitialReference(camera, screenW, screenH).width >= 1136.0
    ensures InitialReference(camera, screenW, screenH).height > 639.0
  {
    var r := InitialReference(camera, screenW, screenH);
    var w, h := screenW as real, screenH as real;
    if camera.aspect >= 16.0 / 9.0 {
      assert r.width == 640.0 * w / h;
      assert 640.0 * w / h == 640.0 * (w / h);
      assert 640.0 * (w / h) >= 640.0 * (16.0 / 9.0);
    } else {
      assert r.height == 1136.0 * h / w;
      assert 9.0 * w < 16.0 * h by {
        assert w / h < 16.0 / 9.0;
        assert w == (w / h) * h;
      }
      assert 1136.0 * h / w > 639.0 by {
        assert 639.0 * w < 1136.0 * h;
        assert 1136.0 * h / w * w == 1136.0 * h;
      }
    }
  }

  /** The camera half extents and the transform `InitializeTransform` builds from them. */
  function HalfWidth(camera: Camera, r: Reference): real
    requires r.height != 0.0
  {
    camera.orthographicSize * r.width / r.height
  }

  /**
   * `InitializeTransform`: translate by (-halfW, halfH) after scaling by (s, -s), with
   * s = 2 * halfH / refH; the same scale on both axes, the y axis flipped.
   */
  function CameraTransform(camera: Camera, r: Reference): (m: Transform)
    requires r.height != 0.0
    ensures m.scaleY == -m.scaleX
    ensures m.scaleX * r.height == 2.0 * camera.orthographicSize
  {
    var halfH := camera.orthographicSize;
    var s := 2.0 * halfH / r.height;
    Transform(s, -s, -HalfWidth(camera, r), halfH)
  }

  /**
   * The transform sends the virtual top-left corner (0, 0) to the camera's top-left
   * (-halfW, halfH) and the bottom-right corner (refW, refH) to (halfW, -halfH).
   */
  lemma CameraTransformCorners(camera: Camera, r: Reference)
    requires r.height != 0.0
    ensures Apply(CameraTransform(camera, r), Vec2(0.0, 0.0)) == Vec2(-HalfWidth(camera, r), camera.orthographicSize)
    ensures Apply(CameraTransform(camera, r), Vec2(r.width, r.height)) == Vec2(HalfWidth(camera, r), -camera.orthographicSize)
  {
    var halfH := camera.orthographicSize;
    var s := 2.0 * halfH / r.height;
    assert s * r.height == 2.0 * halfH;
    assert s * r.width == 2.0 * (halfH * r.width / r.height) by {
      assert s * r.width == (2.0 * halfH * r.width) / r.height;
    }
  }

  /** `ConvertCoordFromUnityScreen`: scale x; scale and flip y against the reference height. */
  function ScreenToVirtual(p: Vec2, r: Reference): Vec2
  {
    Vec2(p.x * r.toVirtualScale, r.height - p.y * r.toVirtualScale)
  }

  /** The inverse mapping, from virtual coordinates back to Unity screen pixels. */
  function VirtualToScreen(v: Vec2, r: Reference): Vec2
    requires r.toVirtualScale != 0.0
  {
    Vec2(v.x / r.toVirtualScale, (r.height - v.y) / r.toVirtualScale)
  }

  /** The screen-to-virtual mapping is invertible whenever the scale is non-zero, in both directions. */
  lemma ScreenToVirtualRoundTrip(p: Vec2, v: Vec2, r: Reference)
    requires r.toVirtualScale != 0.0
    ensures VirtualToScreen(ScreenToVirtual(p, r), r) == p
    ensures ScreenToVirtual(VirtualToScreen(v, r), r) == v
  {
  }

  /**
   * For a reference set by either setter, the Unity screen's top-left pixel (0, screenH) is the
   * virtual origin and its bottom-right pixel (screenW, 0) is the virtual corner (refW, refH).
   */
  lemma ScreenCornersToVirtual(r: Reference, screenW: int, screenH: int)
    requires Scaled(r, screenW, screenH)
    ensures ScreenToVirtual(Vec2(0.0, screenH as real), r) == Vec2(0.0, 0.0)
    ensures ScreenToVirtual(Vec2(screenW as real, 0.0), r) == Vec2(r.width, r.height)
  {
  }
}
