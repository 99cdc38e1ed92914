/**
 * What the shape emitters of PrimitiveRenderer2D append to the geometry buffers, as pure functions
 * on a `Frame` (the vertices and indices appended so far). The renderer's methods are proved to
 * change their buffers exactly as these functions say.
 */
module Emission {
  import opened Geometry
  import opened Wrappers
  import opened Clipping

  /** The geometry of the frame being built: vertices (position, uv and colour) and triangle indices. */
  datatype Frame = Frame(vertices: seq<Vertex>, indices: seq<int>)

  /** Every index names a vertex of the frame and the indices form whole triangles. */
  ghost predicate WellFormed(f: Frame)
  {
    |f.indices| % 3 == 0 && forall i :: 0 <= i < |f.indices| ==> 0 <= f.indices[i] < |f.vertices|
  }

  /** The indices `AddIndices(i0, i1, i2, i3)` appends: the quad split along its i0-i2 diagonal. */
  function QuadIndices(i0: int, i1: int, i2: int, i3: int): seq<int>
  {
    [i0, i1, i2, i0, i2, i3]
  }

  /** The triangle fan over n vertices numbered from vc: triangle k is (vc, vc + k + 1, vc + k + 2). */
  function FanIndices(vc: int, n: nat): (r: seq<int>)
    ensures |r| == if n <= 2 then 0 else 3 * (n - 2)
  {
    if n <= 2 then [] else FanIndices(vc, n - 1) + [vc, vc + n - 2, vc + n - 1]
  }

  /** Two more vertices extend the fan by the quad over the last three and the first vertex. */
  lemma FanIndicesPair(vc: int, n: nat)
    requires n >= 2
    ensures FanIndices(vc, n + 2) == FanIndices(vc, n) + QuadIndices(vc, vc + n - 1, vc + n, vc + n + 1)
  {
    assert FanIndices(vc, n + 2) == FanIndices(vc, n + 1) + [vc, vc + n, vc + n + 1];
    assert FanIndices(vc, n + 1) == FanIndices(vc, n) + [vc, vc + n - 1, vc + n];
  }

  /** The closed form of the fan: each triangle starts at the first vertex and steps along the polygon. */
  lemma {:induction false} FanShape(vc: int, n: nat)
    ensures forall k :: 0 <= k < |FanIndices(vc, n)| / 3 ==>
      FanIndices(vc, n)[3 * k] == vc && FanIndices(vc, n)[3 * k + 1] == vc + k + 1 && FanIndices(vc, n)[3 * k + 2] == vc + k + 2
    ensures forall j :: 0 <= j < |FanIndices(vc, n)| ==> vc <= FanIndices(vc, n)[j] < vc + n
  {
    if n > 2 {
      FanShape(vc, n - 1);
      var r := FanIndices(vc, n);
      assert r[..|r| - 3] == FanIndices(vc, n - 1);
    }
  }

  /** `AddPolygon`: a polygon of n >= 3 vertices appends them all and a fan of n - 2 triangles. */
  function AppendPolygon(f: Frame, vs: seq<Vertex>): Frame
  {
    if |vs| <= 2 then f else Frame(f.vertices + vs, f.indices + FanIndices(|f.vertices|, |vs|))
  }

  /** The frame `AddPolygon` has built once the first n vertices of vs are in: those and their fan. */
  function PolygonPrefix(f: Frame, vs: seq<Vertex>, n: nat): Frame
    requires n <= |vs|
  {
    Frame(f.vertices + vs[..n], f.indices + FanIndices(|f.vertices|, n))
  }

  /** The first two vertices start the polygon without a triangle. */
  lemma PolygonPrefixStart(f: Frame, vs: seq<Vertex>)
    requires 2 <= |vs|
    ensures PolygonPrefix(f, vs, 2) == Frame(f.vertices + [vs[0]] + [vs[1]], f.indices)
  {
    assert vs[..2] == [vs[0], vs[1]];
  }

  /** Two more vertices and the quad over them and the first vertex extend the prefix by two. */
  lemma PolygonPrefixPair(f: Frame, vs: seq<Vertex>, n: nat)
    requires 2 <= n && n + 2 <= |vs|
    ensures var p, vc := PolygonPrefix(f, vs, n), |f.vertices|;
      PolygonPrefix(f, vs, n + 2) == Frame(p.vertices + [vs[n]] + [vs[n + 1]], p.indices + QuadIndices(vc, vc + n - 1, vc + n, vc + n + 1))
  {
    FanIndicesPair(|f.vertices|, n);
    assert vs[..n + 2] == vs[..n] + [vs[n]] + [vs[n + 1]];
  }

  /** One last vertex and the triangle over it and the first vertex extend the prefix by one. */
  lemma PolygonPrefixLast(f: Frame, vs: seq<Vertex>, n: nat)
    requires 2 <= n && n + 1 <= |vs|
    ensures var p, vc := PolygonPrefix(f, vs, n), |f.vertices|;
      PolygonPrefix(f, vs, n + 1) == Frame(p.vertices + [vs[n]], p.indices + [vc, vc + n - 1, vc + n])
  {
    assert vs[..n + 1] == vs[..n] + [vs[n]];
  }

  /** The whole prefix is the polygon `AppendPolygon` describes. */
  lemma PolygonPrefixWhole(f: Frame, vs: seq<Vertex>)
    requires 3 <= |vs|
    ensures PolygonPrefix(f, vs, |vs|) == AppendPolygon(f, vs)
  {
    assert vs[..|vs|] == vs;
  }

  /** The vertex-form `FillTriangle` without a mask: three vertices and one triangle. */
  function AppendTriangle(f: Frame, v0: Vertex, v1: Vertex, v2: Vertex): Frame
  {
    var vc := |f.vertices|;
    Frame(f.vertices + [v0, v1, v2], f.indices + [vc, vc + 1, vc + 2])
  }

  /** The vertex-form `FillRectangle` without a mask, and every axis-aligned form: four vertices, two triangles. */
  function AppendQuad(f: Frame, v0: Vertex, v1: Vertex, v2: Vertex, v3: Vertex): Frame
  {
    var vc := |f.vertices|;
    Frame(f.vertices + [v0, v1, v2, v3], f.indices + QuadIndices(vc, vc + 1, vc + 2, vc + 3))
  }

  /** A polygon keeps the frame well formed, and its new indices name only the vertices it appended. */
  lemma AppendPolygonWellFormed(f: Frame, vs: seq<Vertex>)
    requires WellFormed(f)
    ensures WellFormed(AppendPolygon(f, vs))
    ensures |vs| >= 3 ==> |AppendPolygon(f, vs).indices| == |f.indices| + 3 * (|vs| - 2)
    ensures forall j :: |f.indices| <= j < |AppendPolygon(f, vs).indices| ==>
      |f.vertices| <= AppendPolygon(f, vs).indices[j] < |f.vertices| + |vs|
  {
    if |vs| > 2 {
      FanShape(|f.vertices|, |vs|);
      var r := AppendPolygon(f, vs);
      forall j | |f.indices| <= j < |r.indices|
        ensures |f.vertices| <= r.indices[j] < |f.vertices| + |vs|
      {
        assert r.indices[j] == FanIndices(|f.vertices|, |vs|)[j - |f.indices|];
      }
    }
  }

  /** The triangle and quad forms are the three- and four-vertex fans. */
  lemma SmallPolygons(f: Frame, v0: Vertex, v1: Vertex, v2: Vertex, v3: Vertex)
    ensures AppendTriangle(f, v0, v1, v2) == AppendPolygon(f, [v0, v1, v2])
    ensures AppendQuad(f, v0, v1, v2, v3) == AppendPolygon(f, [v0, v1, v2, v3])
  {
    var vc := |f.vertices|;
    assert FanIndices(vc, 3) == [vc, vc + 1, vc + 2];
    assert FanIndices(vc, 4) == [vc, vc + 1, vc + 2] + [vc, vc + 2, vc + 3];
  }

  /** A position in the plane (`new Vector3(x, y)` leaves z at zero). */
  function Pos(x: real, y: real): Vec3
  {
    Vec3(x, y, 0.0)
  }

  // ---------------------------------------------------------------------------------------------
  // Vertex-form shapes: through the clipper when a mask is set.
  // ---------------------------------------------------------------------------------------------

  /** `FillTriangle(ref Vertex x3)` and the vertex-form `FillRectangle`: unclipped, or clipped and fanned. */
  function FillPolygon(f: Frame, hasMask: bool, mask: Rect, vs: seq<Vertex>): (g: Frame)
    requires |vs| == 3 || |vs| == 4
    ensures |f.vertices| <= |g.vertices| && |f.indices| <= |g.indices|
    ensures !hasMask ==> |g.vertices| == |f.vertices| + |vs| && |g.indices| == |f.indices| + 3 * (|vs| - 2)
  {
    if !hasMask then
      (if |vs| == 3 then AppendTriangle(f, vs[0], vs[1], vs[2]) else AppendQuad(f, vs[0], vs[1], vs[2], vs[3]))
    else
      AppendPolygon(f, SutherlandHodgman(vs, mask))
  }

  /** A masked triangle or quad lying inside the mask is emitted exactly as without a mask. */
  lemma FillPolygonInside(f: Frame, mask: Rect, vs: seq<Vertex>)
    requires |vs| == 3 || |vs| == 4
    requires forall v :: v in vs ==> InsideMask(v, mask)
    ensures FillPolygon(f, true, mask, vs) == FillPolygon(f, false, mask, vs)
  {
    ClipInsideIsIdentity(vs, mask);
    UnmaskedIsPolygon(f, mask, vs);
  }

  /** Without a mask, a triangle or quad is emitted as the polygon over its vertices. */
  lemma UnmaskedIsPolygon(f: Frame, mask: Rect, vs: seq<Vertex>)
    requires |vs| == 3 || |vs| == 4
    ensures FillPolygon(f, false, mask, vs) == AppendPolygon(f, vs)
  {
    if |vs| == 3 {
      SmallPolygons(f, vs[0], vs[1], vs[2], vs[2]);
      assert vs == [vs[0], vs[1], vs[2]];
    } else {
      SmallPolygons(f, vs[0], vs[1], vs[2], vs[3]);
      assert vs == [vs[0], vs[1], vs[2], vs[3]];
    }
  }

  /** A masked triangle or quad entirely beyond one side of the mask emits nothing. */
  lemma FillPolygonOutside(f: Frame, mask: Rect, vs: seq<Vertex>, e: Edge)
    requires |vs| == 3 || |vs| == 4
    requires forall v :: v in vs ==> !Inside(v, e, MaskBound(mask, e))
    ensures FillPolygon(f, true, mask, vs) == f
  {
    ClipOutsideEdge(vs, mask, e);
  }

  /** Whatever a masked triangle or quad emits lies inside the mask and indexes only its own vertices. */
  lemma FillPolygonMasked(f: Frame, mask: Rect, vs: seq<Vertex>)
    requires |vs| == 3 || |vs| == 4
    requires WellFormed(f)
    ensures var g := FillPolygon(f, true, mask, vs);
      WellFormed(g) && g.vertices[..|f.vertices|] == f.vertices &&
      (forall j :: |f.vertices| <= j < |g.vertices| ==> InsideMask(g.vertices[j], mask)) &&
      (forall j :: |f.indices| <= j < |g.indices| ==> |f.vertices| <= g.indices[j] < |g.vertices|)
  {
    var c := SutherlandHodgman(vs, mask);
    if |c| >= 3 {
      ClippedInsideMask(vs, mask);
    }
    AppendInsideMask(f, mask, c);
  }

  /** A polygon whose vertices all lie inside the mask appends only vertices inside the mask. */
  lemma AppendInsideMask(f: Frame, mask: Rect, c: seq<Vertex>)
    requires WellFormed(f)
    requires |c| >= 3 ==> forall v :: v in c ==> InsideMask(v, mask)
    ensures var g := AppendPolygon(f, c);
      WellFormed(g) && g.vertices[..|f.vertices|] == f.vertices &&
      (forall j :: |f.vertices| <= j < |g.vertices| ==> InsideMask(g.vertices[j], mask)) &&
      (forall j :: |f.indices| <= j < |g.indices| ==> |f.vertices| <= g.indices[j] < |g.vertices|)
  {
    AppendPolygonWellFormed(f, c);
    var g := AppendPolygon(f, c);
    if |c| >= 3 {
      assert g.vertices == f.vertices + c;
      forall j | |f.vertices| <= j < |g.vertices|
        ensures InsideMask(g.vertices[j], mask)
      {
        assert g.vertices[j] == c[j - |f.vertices|];
      }
    }
  }

  // ---------------------------------------------------------------------------------------------
  // Axis-aligned rectangles: reject, intersect and re-interpolate.
  // ---------------------------------------------------------------------------------------------

  predicate Proper(r: Rect)
  {
    r.x <= r.z && r.y <= r.w
  }

  /** The fast reject: the mask lies strictly beyond one side of the rectangle. */
  predicate Rejects(r: Rect, mask: Rect)
  {
    mask.x > r.z || r.x > mask.z || mask.y > r.w || r.y > mask.w
  }

  /** `drawRect`: the intersection of the rectangle with the mask. */
  function Intersect(r: Rect, mask: Rect): Rect
  {
    Rect(if mask.x >= r.x then mask.x else r.x, if mask.y >= r.y then mask.y else r.y,
         if mask.z <= r.z then mask.z else r.z, if mask.w <= r.w then mask.w else r.w)
  }

  /**
   * For proper rectangles, the reject fires exactly when the closed rectangles share no point; a
   * rectangle that only touches the mask is kept, and then its intersection lies in both.
   */
  lemma RejectsIffDisjoint(r: Rect, mask: Rect)
    requires Proper(r) && Proper(mask)
    ensures Rejects(r, mask) <==> !Proper(Intersect(r, mask))
    ensures !Rejects(r, mask) ==> var d := Intersect(r, mask);
      mask.x <= d.x && d.z <= mask.z && mask.y <= d.y && d.w <= mask.w &&
      r.x <= d.x && d.z <= r.z && r.y <= d.y && d.w <= r.w
  {
  }

  /** The rectangle actually drawn: none when rejected, the intersection when masked, else the rectangle. */
  function DrawRect(r: Rect, hasMask: bool, mask: Rect): Option<Rect>
  {
    if !hasMask then Some(r) else if Rejects(r, mask) then None else Some(Intersect(r, mask))
  }

  /** The four corners in the order the emitters use: top-left, top-right, bottom-right, bottom-left. */
  datatype Quad = Quad(v0: Vertex, v1: Vertex, v2: Vertex, v3: Vertex)

  function CornerQuad(d: Rect, uv0: Vec2, uv1: Vec2, uv2: Vec2, uv3: Vec2, c0: Rgba, c1: Rgba, c2: Rgba, c3: Rgba): Quad
  {
    Quad(Vertex(Pos(d.x, d.y), uv0, c0), Vertex(Pos(d.z, d.y), uv1, c1),
         Vertex(Pos(d.z, d.w), uv2, c2), Vertex(Pos(d.x, d.w), uv3, c3))
  }

  /** Interpolates the texture coordinate and colour of a toward b; the position of a stays. */
  function MixAttrs(a: Vertex, b: Vertex, t: real): Vertex
  {
    a.(uv := Lerp2(a.uv, b.uv, t), color := LerpColor(a.color, b.color, t))
  }

  /** A re-interpolation parameter: none where the float division would give NaN or an infinity. */
  function Param(num: real, den: real): Option<real>
  {
    if den == 0.0 then None else Some(num / den)
  }

  /** A step is taken only for a parameter in (0, 1]. */
  predicate Applies(t: Option<real>)
  {
    t.Some? && 0.0 < t.value <= 1.0
  }

  function LeftStep(q: Quad, t: Option<real>): Quad
  {
    if Applies(t) then q.(v0 := MixAttrs(q.v0, q.v1, t.value), v3 := MixAttrs(q.v3, q.v2, t.value)) else q
  }

  function TopStep(q: Quad, t: Option<real>): Quad
  {
    if Applies(t) then q.(v0 := MixAttrs(q.v0, q.v3, t.value), v1 := MixAttrs(q.v1, q.v2, t.value)) else q
  }

  function RightStep(q: Quad, t: Option<real>): Quad
  {
    if Applies(t) then q.(v1 := MixAttrs(q.v1, q.v0, t.value), v2 := MixAttrs(q.v2, q.v3, t.value)) else q
  }

  function BottomStep(q: Quad, t: Option<real>): Quad
  {
    if Applies(t) then q.(v2 := MixAttrs(q.v2, q.v1, t.value), v3 := MixAttrs(q.v3, q.v0, t.value)) else q
  }

  /**
   * The clipped branch as written: four steps in sequence, each with its parameter measured
   * against the full extent of the original rectangle.
   */
  function Reinterpolate(r: Rect, d: Rect, q: Quad): (p: Quad)
    ensures p.v0.position == q.v0.position && p.v1.position == q.v1.position
    ensures p.v2.position == q.v2.position && p.v3.position == q.v3.position
  {
    var q1 := LeftStep(q, Param(d.x - r.x, r.z - r.x));
    var q2 := TopStep(q1, Param(d.y - r.y, r.w - r.y));
    var q3 := RightStep(q2, Param(-(d.z - r.z), r.z - r.x));
    BottomStep(q3, Param(-(d.w - r.w), r.w - r.y))
  }

  /**
   * The same steps with the right and bottom parameters measured against what the left and top
   * steps left of the edge.
   */
  function ReinterpolateCorrected(r: Rect, d: Rect, q: Quad): (p: Quad)
    ensures p.v0.position == q.v0.position && p.v1.position == q.v1.position
    ensures p.v2.position == q.v2.position && p.v3.position == q.v3.position
  {
    var q1 := LeftStep(q, Param(d.x - r.x, r.z - r.x));
    var q2 := TopStep(q1, Param(d.y - r.y, r.w - r.y));
    var q3 := RightStep(q2, Param(r.z - d.z, r.z - d.x));
    BottomStep(q3, Param(r.w - d.w, r.w - d.y))
  }

  /** A rectangle that is not clipped keeps its texture coordinates and colours. */
  lemma ReinterpolateUnclipped(r: Rect, q: Quad)
    ensures Reinterpolate(r, r, q) == q
    ensures ReinterpolateCorrected(r, r, q) == q
  {
  }

  /** Four corners of one colour keep that colour through the re-interpolation. */
  lemma ReinterpolateKeepsColor(r: Rect, d: Rect, q: Quad, c: Rgba)
    requires q.v0.color == c && q.v1.color == c && q.v2.color == c && q.v3.color == c
    ensures var p := Reinterpolate(r, d, q);
      p.v0.color == c && p.v1.color == c && p.v2.color == c && p.v3.color == c
  {
    forall t: real
      ensures LerpColor(c, c, t) == c
    {
      var s := Clamp01(t);
      MixSame(c.r, s); MixSame(c.g, s); MixSame(c.b, s); MixSame(c.a, s);
    }
  }

  /** The re-interpolation moves no corner. */
  lemma ReinterpolateKeepsPositions(r: Rect, d: Rect, q: Quad)
    ensures var p := Reinterpolate(r, d, q);
      p.v0.position == q.v0.position && p.v1.position == q.v1.position &&
      p.v2.position == q.v2.position && p.v3.position == q.v3.position
  {
  }

  /** The colour and uv forms of the axis-aligned `FillRectangle`. */
  function FillRect(f: Frame, hasMask: bool, mask: Rect, r: Rect, uv0: Vec2, uv1: Vec2, uv2: Vec2, uv3: Vec2,
                    c0: Rgba, c1: Rgba, c2: Rgba, c3: Rgba): (g: Frame)
    ensures |g.vertices| == |f.vertices| + (if hasMask && Rejects(r, mask) then 0 else 4)
    ensures |g.indices| == |f.indices| + (if hasMask && Rejects(r, mask) then 0 else 6)
  {
    match DrawRect(r, hasMask, mask)
    case None => f
    case Some(d) =>
      var q := CornerQuad(d, uv0, uv1, uv2, uv3, c0, c1, c2, c3);
      var p := if hasMask then Reinterpolate(r, d, q) else q;
      AppendQuad(f, p.v0, p.v1, p.v2, p.v3)
  }

  /**
   * An axis-aligned rectangle either emits nothing (masked and strictly disjoint) or exactly four
   * vertices at the corners of the drawn rectangle and two triangles over them; a rectangle inside
   * the mask keeps its attributes.
   */
  lemma FillRectShape(f: Frame, hasMask: bool, mask: Rect, r: Rect, uv0: Vec2, uv1: Vec2, uv2: Vec2, uv3: Vec2,
                      c0: Rgba, c1: Rgba, c2: Rgba, c3: Rgba)
    ensures var g := FillRect(f, hasMask, mask, r, uv0, uv1, uv2, uv3, c0, c1, c2, c3);
      (hasMask && Rejects(r, mask) ==> g == f) &&
      (!(hasMask && Rejects(r, mask)) ==>
        var d := if hasMask then Intersect(r, mask) else r;
        var vc := |f.vertices|;
        |g.vertices| == vc + 4 && g.vertices[..vc] == f.vertices &&
        g.vertices[vc].position == Pos(d.x, d.y) && g.vertices[vc + 1].position == Pos(d.z, d.y) &&
        g.vertices[vc + 2].position == Pos(d.z, d.w) && g.vertices[vc + 3].position == Pos(d.x, d.w) &&
        g.indices == f.indices + [vc, vc + 1, vc + 2, vc, vc + 2, vc + 3])
    ensures hasMask && !Rejects(r, mask) && Intersect(r, mask) == r ==>
      FillRect(f, hasMask, mask, r, uv0, uv1, uv2, uv3, c0, c1, c2, c3) ==
      FillRect(f, false, mask, r, uv0, uv1, uv2, uv3, c0, c1, c2, c3)
  {
    var q := CornerQuad(r, uv0, uv1, uv2, uv3, c0, c1, c2, c3);
    ReinterpolateUnclipped(r, q);
    if !(hasMask && Rejects(r, mask)) {
      var d := if hasMask then Intersect(r, mask) else r;
      var q := CornerQuad(d, uv0, uv1, uv2, uv3, c0, c1, c2, c3);
      ReinterpolateKeepsPositions(r, d, q);
    }
  }

  /**
   * `FillRectangle(Vector4, Vector2)` as written: the reject test runs, but the four corners emitted
   * are those of the rectangle itself, with the one uv and the current colour.
   */
  function FillRectSolid(f: Frame, hasMask: bool, mask: Rect, r: Rect, uv: Vec2, color: Rgba): (g: Frame)
    ensures |g.vertices| == |f.vertices| + (if hasMask && Rejects(r, mask) then 0 else 4)
    ensures |g.indices| == |f.indices| + (if hasMask && Rejects(r, mask) then 0 else 6)
  {
    if hasMask && Rejects(r, mask) then f
    else AppendQuad(f, Vertex(Pos(r.x, r.y), uv, color), Vertex(Pos(r.z, r.y), uv, color),
                       Vertex(Pos(r.z, r.w), uv, color), Vertex(Pos(r.x, r.w), uv, color))
  }

  /**
   * The solid form agrees with the general form on one uv and one colour whenever the rectangle
   * is not clipped, and is rejected exactly when the general form is.
   */
  lemma FillRectSolidAgrees(f: Frame, hasMask: bool, mask: Rect, r: Rect, uv: Vec2, color: Rgba)
    ensures (FillRectSolid(f, hasMask, mask, r, uv, color) == f) <==
      (hasMask && Rejects(r, mask))
    ensures (hasMask && Rejects(r, mask)) || !hasMask || Intersect(r, mask) == r ==>
      FillRectSolid(f, hasMask, mask, r, uv, color) == FillRect(f, hasMask, mask, r, uv, uv, uv, uv, color, color, color, color)
  {
    var q := CornerQuad(r, uv, uv, uv, uv, color, color, color, color);
    ReinterpolateUnclipped(r, q);
  }

  /** A masked solid rectangle overlapping the mask edge is still emitted with corners outside the mask. */
  lemma FillRectSolidUnclipped()
    ensures var f := Frame([], []);
      var g := FillRectSolid(f, true, Rect(0.0, 0.0, 5.0, 5.0), Rect(0.0, 0.0, 10.0, 10.0), Vec2(0.0, 0.0), Rgba(1.0, 1.0, 1.0, 1.0));
      |g.vertices| == 4 && !InsideMask(g.vertices[1], Rect(0.0, 0.0, 5.0, 5.0))
  {
  }

  // ---------------------------------------------------------------------------------------------
  // The re-interpolation when both opposite edges are clipped.
  // ---------------------------------------------------------------------------------------------

  /** The exact attribute of a horizontal gradient from a (left) to b (right) at x. */
  function GradientAt(a: Vertex, b: Vertex, r: Rect, x: real): Vertex
    requires r.x < r.z
  {
    MixAttrs(a, b, (x - r.x) / (r.z - r.x))
  }

  /** Clipping [0, 4] to [1, 3] over a gradient from u = 0 to u = 1 gives u = 13/16 at x = 3, not 3/4. */
  lemma ReinterpolateSkewed()
    ensures var white := Rgba(1.0, 1.0, 1.0, 1.0);
      var r := Rect(0.0, 0.0, 4.0, 1.0);
      var d := Rect(1.0, 0.0, 3.0, 1.0);
      var q := CornerQuad(d, Vec2(0.0, 0.0), Vec2(1.0, 0.0), Vec2(1.0, 1.0), Vec2(0.0, 1.0), white, white, white, white);
      Reinterpolate(r, d, q).v1.uv.x == 13.0 / 16.0 &&
      GradientAt(q.v0, q.v1, r, d.z).uv.x == 3.0 / 4.0
  {
  }

  /** Interpolating back from b toward a point already interpolated from a lands where the two parameters compose. */
  lemma MixTwice(u0: real, u1: real, s: real, t: real, u: real)
    requires (1.0 - s) * t == 1.0 - u
    ensures Mix(u1, Mix(u0, u1, s), t) == Mix(u0, u1, u)
  {
    var c := u1 - u0;
    assert Mix(u0, u1, s) - u1 == -(c * (1.0 - s));
    assert -(c * (1.0 - s)) * t == -(c * ((1.0 - s) * t));
  }

  /** Dividing by a positive extent: the quotient of a part of it lies in [0, 1]. */
  lemma Fraction(n: real, w: real)
    requires 0.0 <= n <= w && 0.0 < w
    ensures 0.0 <= n / w <= 1.0 && (n / w) * w == n
  {
    var q := n / w;
    assert q * w == n;
    if q < 0.0 { MulNegPos(q, w); }
    if q > 1.0 { MulNegPos(1.0 - q, w); }
  }

  lemma MulNegPos(a: real, b: real)
    requires a < 0.0 && b > 0.0
    ensures a * b < 0.0
  {
  }

  /** The corrected right-hand parameter composes with the left-hand one to the exact fraction of d.z. */
  lemma CorrectedParameters(rx: real, rz: real, dx: real, dz: real)
    requires rx < rz && rx <= dx <= dz <= rz && dx < rz
    ensures var s := (dx - rx) / (rz - rx);
      var t := (rz - dz) / (rz - dx);
      var u := (dz - rx) / (rz - rx);
      0.0 <= s <= 1.0 && 0.0 <= t <= 1.0 && 0.0 <= u <= 1.0 && (1.0 - s) * t == 1.0 - u
  {
    var w := rz - rx;
    var e := rz - dx;
    Fraction(dx - rx, w);
    Fraction(dz - rx, w);
    Fraction(rz - dz, e);
    var s := (dx - rx) / w;
    var t := (rz - dz) / e;
    var u := (dz - rx) / w;
    assert (1.0 - s) * w == e;
    assert (1.0 - u) * w == rz - dz;
    ScaleChain(1.0 - s, t, w, e, rz - dz, 1.0 - u);
  }

  /** From a * w == e, t * e == m and b * w == m with w non-zero: a * t == b. */
  lemma ScaleChain(a: real, t: real, w: real, e: real, m: real, b: real)
    requires w != 0.0 && a * w == e && t * e == m && b * w == m
    ensures a * t == b
  {
    assert (a * t) * w == t * (a * w);
    Cancel(a * t, b, w);
  }

  lemma Cancel(x: real, y: real, w: real)
    requires w != 0.0 && x * w == y * w
    ensures x == y
  {
    assert (x - y) * w == 0.0;
  }

  lemma DivSelf(n: real, w: real)
    requires w != 0.0 && n == w
    ensures n / w == 1.0
  {
  }

  /** Two vertices carrying the same texture coordinate and colour. */
  predicate SameAttrs(a: Vertex, b: Vertex)
  {
    a.uv == b.uv && a.color == b.color
  }

  /** The vertex-level form of `MixTwice`, one component at a time. */
  lemma MixAttrsTwice(a: Vertex, b: Vertex, c: Vertex, s: real, t: real, u: real)
    requires 0.0 <= s <= 1.0 && 0.0 <= t <= 1.0 && 0.0 <= u <= 1.0 && (1.0 - s) * t == 1.0 - u
    requires SameAttrs(c, b)
    ensures SameAttrs(MixAttrs(c, MixAttrs(a, b, s), t), MixAttrs(a, b, u))
  {
    MixTwice(a.uv.x, b.uv.x, s, t, u);
    MixTwice(a.uv.y, b.uv.y, s, t, u);
    MixTwice(a.color.r, b.color.r, s, t, u);
    MixTwice(a.color.g, b.color.g, s, t, u);
    MixTwice(a.color.b, b.color.b, s, t, u);
    MixTwice(a.color.a, b.color.a, s, t, u);
  }

  /** Interpolating between two vertices with the same attributes leaves those attributes. */
  lemma MixAttrsSame(a: Vertex, b: Vertex, t: real)
    requires SameAttrs(a, b)
    ensures SameAttrs(MixAttrs(a, b, t), a)
  {
    var s := Clamp01(t);
    MixSame(a.uv.x, s); MixSame(a.uv.y, s);
    MixSame(a.color.r, s); MixSame(a.color.g, s); MixSame(a.color.b, s); MixSame(a.color.a, s);
  }

  /** The parameter a step actually uses: its value when it applies, zero otherwise. */
  function Used(t: Option<real>): real
  {
    if Applies(t) then t.value else 0.0
  }

  /** A step that does not apply is a step with parameter zero. */
  lemma MixAttrsZero(a: Vertex, b: Vertex)
    ensures MixAttrs(a, b, 0.0) == a
  {
  }

  /** Interpolated attributes depend only on the attributes of the two end points. */
  lemma MixAttrsCongruent(a: Vertex, a': Vertex, b: Vertex, b': Vertex, t: real)
    requires SameAttrs(a, a') && SameAttrs(b, b')
    ensures SameAttrs(MixAttrs(a, b, t), MixAttrs(a', b', t))
  {
  }

  /** A quad whose attributes vary only horizontally: left on its left corners, right on its right ones. */
  predicate Horizontal(q: Quad, left: Vertex, right: Vertex)
  {
    SameAttrs(q.v0, left) && SameAttrs(q.v3, left) && SameAttrs(q.v1, right) && SameAttrs(q.v2, right)
  }

  lemma LeftStepHorizontal(q: Quad, left: Vertex, right: Vertex, t: Option<real>)
    requires Horizontal(q, left, right)
    ensures Horizontal(LeftStep(q, t), MixAttrs(left, right, Used(t)), right)
  {
    MixAttrsZero(left, right);
    if Applies(t) {
      MixAttrsCongruent(q.v0, left, q.v1, right, t.value);
      MixAttrsCongruent(q.v3, left, q.v2, right, t.value);
    }
  }

  lemma RightStepHorizontal(q: Quad, left: Vertex, right: Vertex, t: Option<real>)
    requires Horizontal(q, left, right)
    ensures Horizontal(RightStep(q, t), left, MixAttrs(right, left, Used(t)))
  {
    MixAttrsZero(right, left);
    if Applies(t) {
      MixAttrsCongruent(q.v1, right, q.v0, left, t.value);
      MixAttrsCongruent(q.v2, right, q.v3, left, t.value);
    }
  }

  /** The vertical steps leave a horizontal gradient as it is. */
  lemma VerticalStepsHorizontal(q: Quad, left: Vertex, right: Vertex, t: Option<real>)
    requires Horizontal(q, left, right)
    ensures Horizontal(TopStep(q, t), left, right)
    ensures Horizontal(BottomStep(q, t), left, right)
  {
    if Applies(t) {
      MixAttrsSame(q.v0, q.v3, t.value);
      MixAttrsSame(q.v3, q.v0, t.value);
      MixAttrsSame(q.v1, q.v2, t.value);
      MixAttrsSame(q.v2, q.v1, t.value);
    }
  }

  /**
   * With the corrected parameters, a horizontal gradient clipped on both sides carries the exact
   * gradient value at each drawn corner.
   */
  lemma ReinterpolateCorrectedExact(r: Rect, d: Rect, q: Quad)
    requires r.x < r.z && r.x <= d.x <= d.z <= r.z
    requires Horizontal(q, q.v0, q.v1)
    ensures Horizontal(ReinterpolateCorrected(r, d, q), GradientAt(q.v0, q.v1, r, d.x), GradientAt(q.v0, q.v1, r, d.z))
  {
    var a, b := q.v0, q.v1;
    var s := (d.x - r.x) / (r.z - r.x);
    Fraction(d.x - r.x, r.z - r.x);
    var t0 := Param(d.x - r.x, r.z - r.x);
    assert Used(t0) == s;
    var q1 := LeftStep(q, t0);
    LeftStepHorizontal(q, a, b, t0);
    var l := MixAttrs(a, b, s);
    var q2 := TopStep(q1, Param(d.y - r.y, r.w - r.y));
    VerticalStepsHorizontal(q1, l, b, Param(d.y - r.y, r.w - r.y));
    var t2 := Param(r.z - d.z, r.z - d.x);
    var q3 := RightStep(q2, t2);
    RightStepHorizontal(q2, l, b, t2);
    CorrectedRightValue(a, b, r, d);
    var gr := GradientAt(a, b, r, d.z);
    assert Horizontal(q3, l, gr);
    VerticalStepsHorizontal(q3, l, gr, Param(r.w - d.w, r.w - d.y));
  }

  /**
   * The right step of the corrected re-interpolation, taken from the gradient value at the left
   * drawn edge toward the right corner, lands on the gradient value at the right drawn edge.
   */
  lemma CorrectedRightValue(a: Vertex, b: Vertex, r: Rect, d: Rect)
    requires r.x < r.z && r.x <= d.x <= d.z <= r.z
    ensures SameAttrs(MixAttrs(b, GradientAt(a, b, r, d.x), Used(Param(r.z - d.z, r.z - d.x))), GradientAt(a, b, r, d.z))
  {
    var s := (d.x - r.x) / (r.z - r.x);
    var u := (d.z - r.x) / (r.z - r.x);
    var l := MixAttrs(a, b, s);
    var t2 := Param(r.z - d.z, r.z - d.x);
    if d.x < r.z {
      CorrectedParameters(r.x, r.z, d.x, d.z);
      var t := (r.z - d.z) / (r.z - d.x);
      assert t2 == Some(t) && 0.0 <= t <= 1.0;
      assert Used(t2) == t;
      MixAttrsTwice(a, b, b, s, t, u);
    } else {
      DivSelf(d.x - r.x, r.z - r.x);
      DivSelf(d.z - r.x, r.z - r.x);
      MixAttrsZero(b, l);
      MixAttrsZero(a, b);
    }
  }

  // ---------------------------------------------------------------------------------------------
  // Lines and rectangle outlines (PrimitiveRenderer2D.Line.cs and the outline forms).
  // ---------------------------------------------------------------------------------------------

  /** A point of the closed rectangle. */
  predicate InRect(p: Vec2, r: Rect)
  {
    r.x <= p.x <= r.z && r.y <= p.y <= r.w
  }

  /** `DrawHorizontalLine`: the rectangle `width` thick centred on y, from leftX over length. */
  function HorizontalLineRect(leftX: real, y: real, length: real, width: real): (r: Rect)
    ensures r.w - r.y == width && r.y + r.w == 2.0 * y
    ensures r.x == leftX && r.z - r.x == length
  {
    var half := width * 0.5;
    Rect(leftX, y - half, leftX + length, y + half)
  }

  /** `DrawVerticalLine`: the rectangle `width` thick centred on x, from topY over length. */
  function VerticalLineRect(x: real, topY: real, length: real, width: real): (r: Rect)
    ensures r.z - r.x == width && r.x + r.z == 2.0 * x
    ensures r.y == topY && r.w - r.y == length
  {
    var half := width * 0.5;
    Rect(x - half, topY, x + half, topY + length)
  }

  /**
   * `DrawRectangle`: lines along the top and bottom edges, widened by half the line width at each
   * end, and lines along the left and right edges between them.
   */
  function BorderRects(r: Rect, lineWidth: real): (rs: seq<Rect>)
    ensures |rs| == 4
    ensures rs[0] == Rect(r.x - lineWidth * 0.5, r.y - lineWidth * 0.5, r.z + lineWidth * 0.5, r.y + lineWidth * 0.5)
    ensures rs[1] == Rect(r.x - lineWidth * 0.5, r.w - lineWidth * 0.5, r.z + lineWidth * 0.5, r.w + lineWidth * 0.5)
    ensures rs[2] == Rect(r.x - lineWidth * 0.5, r.y + lineWidth * 0.5, r.x + lineWidth * 0.5, r.w - lineWidth * 0.5)
    ensures rs[3] == Rect(r.z - lineWidth * 0.5, r.y + lineWidth * 0.5, r.z + lineWidth * 0.5, r.w - lineWidth * 0.5)
  {
    BorderEdges(r, lineWidth) + BorderSides(r, lineWidth)
  }

  /** The top and bottom lines of `DrawRectangle`. */
  function BorderEdges(r: Rect, lineWidth: real): seq<Rect>
  {
    [HorizontalLineRect(r.x - lineWidth * 0.5, r.y, r.z - r.x + lineWidth, lineWidth),
     HorizontalLineRect(r.x - lineWidth * 0.5, r.w, r.z - r.x + lineWidth, lineWidth)]
  }

  /** The left and right lines of `DrawRectangle`. */
  function BorderSides(r: Rect, lineWidth: real): seq<Rect>
  {
    [VerticalLineRect(r.x, r.y + lineWidth * 0.5, r.w - r.y - lineWidth, lineWidth),
     VerticalLineRect(r.z, r.y + lineWidth * 0.5, r.w - r.y - lineWidth, lineWidth)]
  }

  /**
   * The band of half-width h around the outline of r: within h of the rectangle, and not more
   * than h inside any of its edges.
   */
  predicate InBand(p: Vec2, r: Rect, h: real)
  {
    InRect(p, Rect(r.x - h, r.y - h, r.z + h, r.w + h)) &&
    (p.x <= r.x + h || p.x >= r.z - h || p.y <= r.y + h || p.y >= r.w - h)
  }

  /**
   * For a proper rectangle, the four lines of `DrawRectangle` cover exactly the band of the line
   * width centred on the outline.
   */
  lemma BorderCoversBand(r: Rect, lineWidth: real, p: Vec2)
    requires Proper(r) && lineWidth >= 0.0
    ensures InBand(p, r, lineWidth * 0.5) <==> exists k :: 0 <= k < 4 && InRect(p, BorderRects(r, lineWidth)[k])
  {
    var rs := BorderRects(r, lineWidth);
    var h := lineWidth * 0.5;
    if InBand(p, r, h) {
      if p.y <= r.y + h {
        assert InRect(p, rs[0]);
      } else if p.y >= r.w - h {
        assert InRect(p, rs[1]);
      } else if p.x <= r.x + h {
        assert InRect(p, rs[2]);
      } else {
        assert InRect(p, rs[3]);
      }
    }
  }

  /**
   * `DrawRectangleInside` as written: the same line centres as `DrawRectangle`, with the top and
   * bottom lines starting at the left edge and running half a line width past the right one, and
   * the side lines starting a full line width below the top edge.
   */
  function InsideBorderRects(r: Rect, lineWidth: real): (rs: seq<Rect>)
    ensures |rs| == 4
    ensures rs[0] == Rect(r.x, r.y - lineWidth * 0.5, r.z + lineWidth * 0.5, r.y + lineWidth * 0.5)
    ensures rs[1] == Rect(r.x, r.w - lineWidth * 0.5, r.z + lineWidth * 0.5, r.w + lineWidth * 0.5)
    ensures rs[2] == Rect(r.x - lineWidth * 0.5, r.y + lineWidth, r.x + lineWidth * 0.5, r.w)
    ensures rs[3] == Rect(r.z - lineWidth * 0.5, r.y + lineWidth, r.z + lineWidth * 0.5, r.w)
  {
    InsideBorderEdges(r, lineWidth) + InsideBorderSides(r, lineWidth)
  }

  /** The top and bottom lines of `DrawRectangleInside`. */
  function InsideBorderEdges(r: Rect, lineWidth: real): seq<Rect>
  {
    [HorizontalLineRect(r.x, r.y, r.z - r.x + lineWidth * 0.5, lineWidth),
     HorizontalLineRect(r.x, r.w, r.z - r.x + lineWidth * 0.5, lineWidth)]
  }

  /** The left and right lines of `DrawRectangleInside`. */
  function InsideBorderSides(r: Rect, lineWidth: real): seq<Rect>
  {
    [VerticalLineRect(r.x, r.y + lineWidth, r.w - r.y - lineWidth, lineWidth),
     VerticalLineRect(r.z, r.y + lineWidth, r.w - r.y - lineWidth, lineWidth)]
  }

  /** For the 10 x 10 square at the origin and line width 2, the top line reaches above the square. */
  lemma InsideBorderLeaves()
    ensures var r := Rect(0.0, 0.0, 10.0, 10.0);
      InRect(Vec2(5.0, -1.0), InsideBorderRects(r, 2.0)[0]) && !InRect(Vec2(5.0, -1.0), r)
  {
    var r := Rect(0.0, 0.0, 10.0, 10.0);
    assert InsideBorderRects(r, 2.0)[0] == InsideBorderEdges(r, 2.0)[0];
  }

  /** An outline drawn inside the rectangle: every line moved inward by half the line width. */
  function InsideBorderRectsCorrected(r: Rect, lineWidth: real): seq<Rect>
  {
    var halfWidth := lineWidth * 0.5;
    var rectWidth, rectHeight := r.z - r.x, r.w - r.y;
    [HorizontalLineRect(r.x, r.y + halfWidth, rectWidth, lineWidth),
     HorizontalLineRect(r.x, r.w - halfWidth, rectWidth, lineWidth),
     VerticalLineRect(r.x + halfWidth, r.y + lineWidth, rectHeight - 2.0 * lineWidth, lineWidth),
     VerticalLineRect(r.z - halfWidth, r.y + lineWidth, rectHeight - 2.0 * lineWidth, lineWidth)]
  }

  /**
   * For a rectangle at least one line width wide and high, the corrected outline covers exactly
   * the points of the rectangle that lie within one line width of its outline, and so nothing
   * outside the rectangle.
   */
  lemma InsideBorderCorrectedCoversBand(r: Rect, lineWidth: real, p: Vec2)
    requires lineWidth >= 0.0 && r.z - r.x >= lineWidth && r.w - r.y >= lineWidth
    ensures (InRect(p, r) && (p.x <= r.x + lineWidth || p.x >= r.z - lineWidth || p.y <= r.y + lineWidth || p.y >= r.w - lineWidth))
      <==> exists k :: 0 <= k < 4 && InRect(p, InsideBorderRectsCorrected(r, lineWidth)[k])
  {
    var rs := InsideBorderRectsCorrected(r, lineWidth);
    if InRect(p, r) && (p.x <= r.x + lineWidth || p.x >= r.z - lineWidth || p.y <= r.y + lineWidth || p.y >= r.w - lineWidth) {
      if p.y <= r.y + lineWidth {
        assert InRect(p, rs[0]);
      } else if p.y >= r.w - lineWidth {
        assert InRect(p, rs[1]);
      } else if p.x <= r.x + lineWidth {
        assert InRect(p, rs[2]);
      } else {
        assert InRect(p, rs[3]);
      }
    }
  }
}
