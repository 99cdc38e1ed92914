/**
 * The renderer of PrimitiveRenderer.cs and of its 2D subclass PrimitiveRenderer2D, as one class:
 * the vertex, uv, colour and index buffers appended in place, the sub-mesh batching and the
 * per-frame draw, the clipper over `SmallList`s, the shape and text emitters and the
 * virtual-screen setup. Each method is proved to change the buffers exactly as the pure functions
 * of `Emission`, `TextLayout`, `Batching` and `VirtualScreen` say.
 */
module Renderer {
  import opened Geometry
  import opened Wrappers
  import opened SmallLists
  import opened Batching
  import opened Clipping
  import opened Emission
  import opened TextLayout
  import opened VirtualScreen

  /** The vertices the three parallel buffers describe, element by element. */
  function Zip(ps: seq<Vec3>, us: seq<Vec2>, cs: seq<Rgba>): (r: seq<Vertex>)
    requires |us| == |ps| && |cs| == |ps|
    ensures |r| == |ps|
  {
    seq(|ps|, i requires 0 <= i < |ps| => Vertex(ps[i], us[i], cs[i]))
  }

  /** The triangle lists a mesh receives, one per draw call. */
  function Triangles(calls: seq<DrawCall>): (r: seq<seq<int>>)
    ensures |r| == |calls|
    ensures forall i :: 0 <= i < |calls| ==> r[i] == calls[i].triangles
  {
    seq(|calls|, i requires 0 <= i < |calls| => calls[i].triangles)
  }

  /** The part of the renderer a drawing call changes: the geometry and the sub-mesh list. */
  datatype Canvas = Canvas(frame: Frame, entries: seq<SubMesh>)

  /** What the white shapes are drawn with: the mask, the white uv, the current colour, the matrix and the font texture. */
  datatype Brush = Brush(hasMask: bool, mask: Rect, whiteUv: Vec2, color: Rgba, matrix: Transform, fontTexture: Texture)

  /** A corner of a white shape: the point, the white uv and the current colour. */
  function WhiteVertex(p: Vec2, b: Brush): Vertex
  {
    Vertex(Pos(p.x, p.y), b.whiteUv, b.color)
  }

  /** `ResetTexture` at the current index count. */
  function FontSubMesh(c: Canvas, b: Brush): seq<SubMesh>
  {
    OpenSubMesh(c.entries, |c.frame.indices|, b.fontTexture, b.matrix, b.fontTexture)
  }

  /** `FillRectangle(Vector4)`: the font texture made current, then the solid form with the white uv. */
  function WhiteRect(c: Canvas, b: Brush, r: Rect): (d: Canvas)
  {
    Canvas(FillRectSolid(c.frame, b.hasMask, b.mask, r, b.whiteUv, b.color), FontSubMesh(c, b))
  }

  /**
   * A white rectangle adds six indices unless the mask rejects it, and leaves the font texture
   * current from the index count it started at.
   */
  lemma WhiteRectAppends(c: Canvas, b: Brush, r: Rect)
    ensures var d := WhiteRect(c, b, r);
      |d.frame.indices| == |c.frame.indices| + (if b.hasMask && Rejects(r, b.mask) then 0 else 6) &&
      |d.entries| >= 1 && d.entries[|d.entries| - 1].texture == b.fontTexture && d.entries[|d.entries| - 1].startIndex == |c.frame.indices|
  {
  }

  /** White rectangles drawn one after another. */
  function WhiteRects(c: Canvas, b: Brush, rs: seq<Rect>): Canvas
    decreases |rs|
  {
    if |rs| == 0 then c else WhiteRects(WhiteRect(c, b, rs[0]), b, rs[1..])
  }

  /** Two white rectangles in a row, unfolded. */
  lemma WhiteRectsTwo(c: Canvas, b: Brush, r0: Rect, r1: Rect)
    ensures WhiteRects(c, b, [r0, r1]) == WhiteRect(WhiteRect(c, b, r0), b, r1)
  {
    var c1 := WhiteRect(c, b, r0);
    assert WhiteRects(c, b, [r0, r1]) == WhiteRects(c1, b, [r1]) by {
      assert [r0, r1][0] == r0 && [r0, r1][1..] == [r1];
    }
    assert WhiteRects(c1, b, [r1]) == WhiteRects(WhiteRect(c1, b, r1), b, []) by {
      assert [r1][0] == r1 && [r1][1..] == [];
    }
  }

  /** Drawing one list of white rectangles and then another is drawing their concatenation. */
  lemma {:induction false} WhiteRectsAppend(c: Canvas, b: Brush, xs: seq<Rect>, ys: seq<Rect>)
    ensures WhiteRects(c, b, xs + ys) == WhiteRects(WhiteRects(c, b, xs), b, ys)
    decreases |xs|
  {
    if |xs| == 0 {
      assert xs + ys == ys;
    } else {
      assert (xs + ys)[0] == xs[0] && (xs + ys)[1..] == xs[1..] + ys;
      WhiteRectsAppend(WhiteRect(c, b, xs[0]), b, xs[1..], ys);
    }
  }

  /** The sub-mesh the font texture is drawn with, starting at a given index. */
  function FontEntry(b: Brush, start: int): SubMesh
  {
    SubMesh(TextMaterial, b.fontTexture, start, b.matrix)
  }

  /**
   * Without a mask, each white rectangle appends four vertices and six indices and, because every
   * `ResetTexture` after the first finds indices emitted since the last sub-mesh opened, a
   * sub-mesh of its own, although the texture never changes.
   */
  lemma {:induction false} WhiteRectsUnmasked(c: Canvas, b: Brush, rs: seq<Rect>)
    requires !b.hasMask && |rs| > 0
    ensures var d := WhiteRects(c, b, rs);
      var n := |c.frame.indices|;
      |d.frame.vertices| == |c.frame.vertices| + 4 * |rs| && |d.frame.indices| == n + 6 * |rs| &&
      d.entries == Kept(c.entries, n) + seq(|rs|, k requires 0 <= k < |rs| => FontEntry(b, n + 6 * k))
    decreases |rs|
  {
    var n := |c.frame.indices|;
    var c1 := WhiteRect(c, b, rs[0]);
    assert c1.entries == Kept(c.entries, n) + [FontEntry(b, n)];
    if |rs| > 1 {
      WhiteRectsUnmasked(c1, b, rs[1..]);
      assert Kept(c1.entries, n + 6) == c1.entries;
      var tail := seq(|rs| - 1, k requires 0 <= k < |rs| - 1 => FontEntry(b, n + 6 + 6 * k));
      var all := seq(|rs|, k requires 0 <= k < |rs| => FontEntry(b, n + 6 * k));
      assert all == [FontEntry(b, n)] + tail;
    } else {
      assert rs[1..] == [];
    }
  }

  /**
   * What `DrawText` needs when the text may be shrunk: along each axis where the measured text
   * overflows the area, the measured size it is divided by is not zero.
   */
  predicate FitsShrink(text: seq<char>, format: TextFormat, area: Rect, font: Font)
    requires font.lineHeight > 0
  {
    format.overflow == Shrink ==>
      var size := MeasureWhole(text, Some(format), font);
      (size.x > area.z - area.x ==> size.x != 0.0) && (size.y > area.w - area.y ==> size.y != 0.0)
  }

  /** An area of non-negative size always meets `FitsShrink`, whatever the text. */
  lemma FitsShrinkInArea(text: seq<char>, format: TextFormat, area: Rect, font: Font)
    requires font.lineHeight > 0 && format.fontSize >= 0.0 && area.x <= area.z && area.y <= area.w
    ensures FitsShrink(text, format, area, font)
  {
  }

  /** The format `DrawText` typesets with: the given or default one, shrunk to the area when asked to. */
  function TextFormatIn(text: seq<char>, format: Option<TextFormat>, area: Rect, font: Font): TextFormat
    requires font.lineHeight > 0 && FitsShrink(text, FormatOrDefault(format), area, font)
  {
    var fmt := FormatOrDefault(format);
    if fmt.overflow == Shrink then Shrunk(fmt, MeasureWhole(text, Some(fmt), font), area) else fmt
  }

  /**
   * Where `DrawText` starts: the top of the area, moved down by half the spare height of the
   * unshrunk measurement for middle alignment, and by half the gap between the (possibly shrunk)
   * line height and font size.
   */
  function TextTop(text: seq<char>, format: Option<TextFormat>, area: Rect, font: Font): real
    requires font.lineHeight > 0 && FitsShrink(text, FormatOrDefault(format), area, font)
  {
    var fmt0 := FormatOrDefault(format);
    var fmt := TextFormatIn(text, format, area, font);
    var y := if fmt0.verticalAlignment == Middle then MiddleTop(area, MeasureWhole(text, Some(fmt0), font)) else area.y;
    y + (fmt.lineHeight - fmt.fontSize) / 2.0
  }

  /** The pen `DrawText` typesets with: the format of `TextFormatIn`, its scale, and the top of `TextTop`. */
  function TextPen(b: Brush, font: Font, text: seq<char>, format: Option<TextFormat>, area: Rect): Pen
    requires font.lineHeight > 0 && FitsShrink(text, FormatOrDefault(format), area, font)
  {
    var fmt := TextFormatIn(text, format, area, font);
    Pen(fmt, font, FontScale(fmt, font), area.x, TextTop(text, format, area, font), b.hasMask, b.mask, b.color)
  }

  /**
   * `DrawText`: the texture reset to the font's, then the text typeset with the pen of `TextPen`:
   * left-aligned text as a whole from the left of the area, centred text line by line by `CenterFrom`.
   */
  function TextCanvas(c: Canvas, b: Brush, font: Font, text: seq<char>, format: Option<TextFormat>, area: Rect): (d: Canvas)
    requires font.lineHeight > 0 && FitsShrink(text, FormatOrDefault(format), area, font)
    ensures |d.entries| >= 1 && d.entries[|d.entries| - 1].texture == b.fontTexture && d.entries[|d.entries| - 1].startIndex == |c.frame.indices|
  {
    var pen := TextPen(b, font, text, format, area);
    var frame := if pen.format.alignment.Left? then TypesetRange(text, 0, |text|, pen, c.frame) else CenterFrom(text, 0, pen.top, area, pen, c.frame);
    Canvas(frame, FontSubMesh(c, b))
  }

  /** `TextCanvas` for the layout `LayOutText` computes and the frame the typesetting left. */
  lemma TextCanvasOf(c: Canvas, b: Brush, font: Font, text: seq<char>, format: Option<TextFormat>, area: Rect,
                     textFormat: TextFormat, top: real, fontScale: real, frame: Frame)
    requires font.lineHeight > 0 && FitsShrink(text, FormatOrDefault(format), area, font)
    requires textFormat == TextFormatIn(text, format, area, font) && top == TextTop(text, format, area, font)
    requires fontScale == FontScale(textFormat, font)
    requires var pen := Pen(textFormat, font, fontScale, area.x, top, b.hasMask, b.mask, b.color);
      frame == if textFormat.alignment.Left? then TypesetRange(text, 0, |text|, pen, c.frame) else CenterFrom(text, 0, top, area, pen, c.frame)
    ensures TextCanvas(c, b, font, text, format, area) == Canvas(frame, FontSubMesh(c, b))
  {
  }

  class PrimitiveRenderer2D {
    var vertices: seq<Vec3>
    var uvs: seq<Vec2>
    var colors: seq<Rgba>
    var indices: seq<int>
    const subMeshes: SubMeshList
    var currentTexture: Texture
    const font: Font
    /** `font.material.mainTexture`. */
    const fontTexture: Texture
    var whiteUv: Vec2
    var matrix: Transform
    var camera: Option<Camera>
    var hasMask: bool
    var mask: Rect
    var color: Rgba
    var reference: Reference
    var toCoordScale: real
    var toCoordOffsetX: real
    var toCoordOffsetY: real

    /** The three vertex buffers have one entry per vertex, and the sub-mesh starts are batched. */
    ghost predicate Valid()
      reads this, subMeshes, subMeshes.items
    {
      |uvs| == |vertices| && |colors| == |vertices| &&
      subMeshes.Valid() && Batched(subMeshes.Entries(), |indices|)
    }

    /** The geometry built so far. */
    ghost function Contents(): Frame
      reads this
      requires |uvs| == |vertices| && |colors| == |vertices|
    {
      Frame(Zip(vertices, uvs, colors), indices)
    }

    /** The geometry and the sub-mesh list. */
    ghost function Drawn(): Canvas
      reads this, subMeshes, subMeshes.items
      requires Valid()
    {
      Canvas(Contents(), subMeshes.Entries())
    }

    /** What white shapes are drawn with now. */
    function CurrentBrush(): Brush
      reads this`hasMask, this`mask, this`whiteUv, this`color, this`matrix
    {
      Brush(hasMask, mask, whiteUv, color, matrix, fontTexture)
    }

    /**
     * The constructor: empty buffers and sub-mesh list (initial capacity 17), no texture, no mask,
     * the white uv taken from the font, and the reference screen chosen by the camera's aspect.
     */
    constructor (camera: Camera, font: Font, fontTexture: Texture, screenW: int, screenH: int)
      requires screenW > 0 && screenH > 0
      ensures Valid() && fresh(subMeshes) && fresh(subMeshes.items)
      ensures Contents() == Frame([], []) && subMeshes.Entries() == [] && currentTexture == NullTexture
      ensures this.camera == Some(camera) && this.font == font && this.fontTexture == fontTexture
      ensures Mask() == None && whiteUv == WhiteUv(font)
      ensures reference == InitialReference(camera, screenW, screenH)
      ensures matrix == CameraTransform(camera, reference)
    {
      vertices := [];
      uvs := [];
      colors := [];
      indices := [];
      subMeshes := new SubMeshList(16 + 1);
      currentTexture := NullTexture;
      this.font := font;
      this.fontTexture := fontTexture;
      whiteUv := WhiteUv(font);
      matrix := Identity;
      this.camera := Some(camera);
      hasMask := false;
      mask := Rect(0.0, 0.0, 0.0, 0.0);
      color := Rgba(0.0, 0.0, 0.0, 0.0);
      reference := Reference(0.0, 0.0, 0.0);
      toCoordScale := 0.0;
      toCoordOffsetX := 0.0;
      toCoordOffsetY := 0.0;
      new;
      if camera.aspect >= 16.0 / 9.0 {
        SetReferenceScreenHeight(640, screenW, screenH);
      } else {
        SetReferenceScreenWidth(1136, screenW, screenH);
      }
    }

    // -------------------------------------------------------------------------------------------
    // Buffers
    // -------------------------------------------------------------------------------------------

    /** `AddVertex`: one entry appended to each of the three vertex buffers. */
    method AddVertex(v: Vertex)
      requires Valid()
      modifies this`vertices, this`uvs, this`colors
      ensures Valid()
      ensures Contents() == old(Contents()).(vertices := old(Contents()).vertices + [v])
    {
      vertices := vertices + [v.position];
      uvs := uvs + [v.uv];
      colors := colors + [v.color];
    }

    /** `AddIndices(i0, i1, i2)`: one triangle. */
    method AddTriangleIndices(i0: int, i1: int, i2: int)
      requires Valid()
      modifies this`indices
      ensures Valid()
      ensures Contents() == old(Contents()).(indices := old(Contents()).indices + [i0, i1, i2])
    {
      BatchedGrow(subMeshes.Entries(), |indices|, |indices| + 3);
      indices := indices + [i0, i1, i2];
    }

    /** `AddIndices(i0, i1, i2, i3)`: the quad as the triangles (i0, i1, i2) and (i0, i2, i3). */
    method AddQuadIndices(i0: int, i1: int, i2: int, i3: int)
      requires Valid()
      modifies this`indices
      ensures Valid()
      ensures Contents() == old(Contents()).(indices := old(Contents()).indices + QuadIndices(i0, i1, i2, i3))
    {
      BatchedGrow(subMeshes.Entries(), |indices|, |indices| + 6);
      indices := indices + [i0, i1, i2, i0, i2, i3];
    }

    /**
     * `AddPolygon`: nothing for two vertices or fewer; otherwise the listed vertices in order and a
     * fan over them, emitted two triangles at a time with a last single triangle for an odd count.
     */
    method AddPolygon(list: SmallList<Vertex>)
      requires Valid() && list.Valid()
      modifies this`vertices, this`uvs, this`colors, this`indices
      ensures Valid()
      ensures Contents() == AppendPolygon(old(Contents()), list.Items())
    {
      if list.count <= 2 {
        return;
      }
      ghost var f0 := Contents();
      ghost var items := list.Items();
      var n := list.count;
      var vertexCount := |vertices|;
      AddFanStart(list, f0, items);
      var i := 3;
      ghost var pairs := 0;
      while i < n
        invariant 3 <= i <= n + 1 && i == 2 * pairs + 3
        invariant Valid()
        invariant Contents() == PolygonPrefix(f0, items, i - 1)
      {
        AddFanPair(list, i, f0, items);
        i, pairs := i + 2, pairs + 1;
      }
      if n % 2 == 1 {
        assert i == n;
        AddFanLast(list, f0, items);
      } else {
        assert i == n + 1;
      }
      PolygonPrefixWhole(f0, items);
    }

    /** The start of `AddPolygon`: the first two vertices, which no triangle closes yet. */
    method AddFanStart(list: SmallList<Vertex>, ghost f0: Frame, ghost items: seq<Vertex>)
      requires Valid() && list.Valid() && 2 <= list.count && items == list.Items() && Contents() == f0
      modifies this`vertices, this`uvs, this`colors
      ensures Valid() && Contents() == PolygonPrefix(f0, items, 2)
    {
      var vertex := list.Get(0);
      AddVertex(vertex);
      vertex := list.Get(1);
      AddVertex(vertex);
      PolygonPrefixStart(f0, items);
    }

    /** One step of the `AddPolygon` loop: vertices i - 1 and i and the quad (0, i - 2, i - 1, i). */
    method AddFanPair(list: SmallList<Vertex>, i: nat, ghost f0: Frame, ghost items: seq<Vertex>)
      requires Valid() && list.Valid() && 3 <= i < list.count && items == list.Items()
      requires Contents() == PolygonPrefix(f0, items, i - 1)
      modifies this`vertices, this`uvs, this`colors, this`indices
      ensures Valid() && Contents() == PolygonPrefix(f0, items, i + 1)
    {
      var vertexCount := |vertices| - (i - 1);
      ghost var p := Contents();
      assert |p.vertices| == |f0.vertices| + (i - 1);
      PolygonPrefixPair(f0, items, i - 1);
      var vertex := list.Get(i - 1);
      AddVertex(vertex);
      vertex := list.Get(i);
      AddVertex(vertex);
      AddQuadIndices(vertexCount, vertexCount + i - 2, vertexCount + i - 1, vertexCount + i);
      assert Contents() == Frame(p.vertices + [items[i - 1]] + [items[i]],
                                 p.indices + QuadIndices(vertexCount, vertexCount + i - 2, vertexCount + i - 1, vertexCount + i));
    }

    /** The end of `AddPolygon` for an odd count: the last vertex and the triangle (0, n - 2, n - 1). */
    method AddFanLast(list: SmallList<Vertex>, ghost f0: Frame, ghost items: seq<Vertex>)
      requires Valid() && list.Valid() && 3 <= list.count && items == list.Items()
      requires Contents() == PolygonPrefix(f0, items, list.count - 1)
      modifies this`vertices, this`uvs, this`colors, this`indices
      ensures Valid() && Contents() == PolygonPrefix(f0, items, list.count)
    {
      var n := list.count;
      var vertexCount := |vertices| - (n - 1);
      ghost var p := Contents();
      assert |p.vertices| == |f0.vertices| + (n - 1);
      PolygonPrefixLast(f0, items, n - 1);
      var vertex := list.Get(n - 1);
      AddVertex(vertex);
      AddTriangleIndices(vertexCount, vertexCount + n - 2, vertexCount + n - 1);
      assert Contents() == Frame(p.vertices + [items[n - 1]], p.indices + [vertexCount, vertexCount + n - 2, vertexCount + n - 1]);
    }

    /** Three vertices and the triangle over them, as the unmasked `FillTriangle` emits them. */
    method EmitTriangle(v0: Vertex, v1: Vertex, v2: Vertex)
      requires Valid()
      modifies this`vertices, this`uvs, this`colors, this`indices
      ensures Valid() && Contents() == AppendTriangle(old(Contents()), v0, v1, v2)
    {
      var vertexCount := |vertices|;
      AddVertex(v0);
      AddVertex(v1);
      AddVertex(v2);
      AddTriangleIndices(vertexCount, vertexCount + 1, vertexCount + 2);
    }

    /** Four vertices and the quad over them, as every rectangle form ends. */
    method EmitQuad(v0: Vertex, v1: Vertex, v2: Vertex, v3: Vertex)
      requires Valid()
      modifies this`vertices, this`uvs, this`colors, this`indices
      ensures Valid() && Contents() == AppendQuad(old(Contents()), v0, v1, v2, v3)
    {
      var vertexCount := |vertices|;
      AddVertex(v0);
      AddVertex(v1);
      AddVertex(v2);
      AddVertex(v3);
      AddQuadIndices(vertexCount, vertexCount + 1, vertexCount + 2, vertexCount + 3);
    }

    // -------------------------------------------------------------------------------------------
    // Clipping and the vertex-form shapes
    // -------------------------------------------------------------------------------------------

    /**
     * `SutherlandHodgman`: the four passes against the mask, alternating between the list and a
     * second list; a pass that leaves at most two vertices ends the clip.
     */
    method SutherlandHodgman(list: SmallList<Vertex>)
      requires list.Valid()
      modifies list`count, list.slots
      ensures list.Valid() && list.Items() == Clipping.SutherlandHodgman(old(list.Items()), mask)
    {
      ghost var s := list.Items();
      var list2 := new SmallList<Vertex>();
      ClipPass(list, list2, Edge.Left, mask.x);
      ghost var p1 := list2.Items();
      list.Clear();
      if list2.count <= 2 {
        ClipEndsAfterLeft(s, mask, p1);
        return;
      }
      ClipFromTop(list, list2, s, p1);
    }

    /** The passes after the first: top into the list, then right and bottom. */
    method ClipFromTop(list: SmallList<Vertex>, list2: SmallList<Vertex>, ghost s: seq<Vertex>, ghost p1: seq<Vertex>)
      requires list.Valid() && list2.Valid() && list.slots != list2.slots && list.count == 0
      requires p1 == Wrap(Pass(s, Edge.Left, mask.x)) && |p1| > 2 && list2.Items() == p1
      modifies list`count, list.slots, list2`count, list2.slots
      ensures list.Valid() && list.Items() == Clipping.SutherlandHodgman(s, mask)
    {
      ClipPass(list2, list, Edge.Top, mask.y);
      ghost var p2 := list.Items();
      if list.count <= 2 {
        ClipEndsAfterTop(s, mask, p1, p2);
        return;
      }
      list2.Clear();
      ClipFromRight(list, list2, s, p1, p2);
    }

    /** The last two passes: right into the second list, then bottom back into the list. */
    method ClipFromRight(list: SmallList<Vertex>, list2: SmallList<Vertex>, ghost s: seq<Vertex>, ghost p1: seq<Vertex>, ghost p2: seq<Vertex>)
      requires list.Valid() && list2.Valid() && list.slots != list2.slots && list2.count == 0
      requires p1 == Wrap(Pass(s, Edge.Left, mask.x)) && |p1| > 2
      requires p2 == Wrap(Pass(p1, Edge.Top, mask.y)) && |p2| > 2 && list.Items() == p2
      modifies list`count, list.slots, list2`count, list2.slots
      ensures list.Valid() && list.Items() == Clipping.SutherlandHodgman(s, mask)
    {
      ClipPass(list, list2, Right, mask.z);
      ghost var p3 := list2.Items();
      list.Clear();
      if list2.count <= 2 {
        ClipEndsAfterRight(s, mask, p1, p2, p3);
        return;
      }
      ClipBottom(list, list2, s, p1, p2, p3);
    }

    /** The last pass: bottom, from the second list back into the list. */
    method ClipBottom(list: SmallList<Vertex>, list2: SmallList<Vertex>, ghost s: seq<Vertex>, ghost p1: seq<Vertex>,
                      ghost p2: seq<Vertex>, ghost p3: seq<Vertex>)
      requires list.Valid() && list2.Valid() && list.slots != list2.slots && list.count == 0
      requires p1 == Wrap(Pass(s, Edge.Left, mask.x)) && |p1| > 2
      requires p2 == Wrap(Pass(p1, Edge.Top, mask.y)) && |p2| > 2
      requires p3 == Wrap(Pass(p2, Right, mask.z)) && |p3| > 2 && list2.Items() == p3
      modifies list`count, list.slots
      ensures list.Valid() && list.Items() == Clipping.SutherlandHodgman(s, mask)
    {
      ClipPass(list2, list, Bottom, mask.w);
      ClipEndsAfterBottom(s, mask, p1, p2, p3, list.Items());
    }

    /** A small list holding the given vertices, as the vertex-form shapes build it. */
    method NewList(vs: seq<Vertex>) returns (list: SmallList<Vertex>)
      requires |vs| <= 8
      ensures fresh(list) && fresh(list.slots) && list.Valid() && list.Items() == vs
    {
      list := new SmallList<Vertex>();
      var i := 0;
      while i < |vs|
        invariant 0 <= i <= |vs| && list.Valid() && fresh(list.slots)
        invariant list.count == i && Holds(list.slots[..], vs[..i])
      {
        HoldsAdd(list.slots[..], vs[..i], vs[i]);
        assert vs[..i + 1] == vs[..i] + [vs[i]];
        list.Add(vs[i]);
        i := i + 1;
      }
      assert vs[..i] == vs;
      list.ShowsWrap(vs);
    }

    /** `FillTriangle(ref Vertex x3)`: the triangle as it is, or clipped to the mask and fanned. */
    method FillTriangle(v0: Vertex, v1: Vertex, v2: Vertex)
      requires Valid()
      modifies this`vertices, this`uvs, this`colors, this`indices
      ensures Valid() && Contents() == FillPolygon(old(Contents()), hasMask, mask, [v0, v1, v2])
    {
      if !hasMask {
        EmitTriangle(v0, v1, v2);
        return;
      }
      var list := NewList([v0, v1, v2]);
      SutherlandHodgman(list);
      AddPolygon(list);
    }

    /** The vertex-form `FillRectangle`: a convex quad as it is, or clipped to the mask and fanned. */
    method FillRectangleVertices(v0: Vertex, v1: Vertex, v2: Vertex, v3: Vertex)
      requires Valid()
      modifies this`vertices, this`uvs, this`colors, this`indices
      ensures Valid() && Contents() == FillPolygon(old(Contents()), hasMask, mask, [v0, v1, v2, v3])
    {
      if !hasMask {
        EmitQuad(v0, v1, v2, v3);
        return;
      }
      var list := NewList([v0, v1, v2, v3]);
      SutherlandHodgman(list);
      AddPolygon(list);
    }

    // -------------------------------------------------------------------------------------------
    // Axis-aligned rectangles
    // -------------------------------------------------------------------------------------------

    /**
     * The colour form of the axis-aligned `FillRectangle`: nothing when the mask lies strictly
     * beyond a side; otherwise the corners of the drawn rectangle, their texture coordinates and
     * colours re-interpolated edge by edge when a mask is set.
     */
    method FillRectangleColors(rectangle: Rect, uv0: Vec2, uv1: Vec2, uv2: Vec2, uv3: Vec2, c0: Rgba, c1: Rgba, c2: Rgba, c3: Rgba)
      requires Valid()
      modifies this`vertices, this`uvs, this`colors, this`indices
      ensures Valid() && Contents() == FillRect(old(Contents()), hasMask, mask, rectangle, uv0, uv1, uv2, uv3, c0, c1, c2, c3)
    {
      var drawRect := rectangle;
      var clipped := false;
      if hasMask {
        if Rejects(rectangle, mask) {
          return;
        }
        clipped := true;
        drawRect := Intersect(rectangle, mask);
      }
      var v0 := Vertex(Pos(drawRect.x, drawRect.y), uv0, c0);
      var v1 := Vertex(Pos(drawRect.z, drawRect.y), uv1, c1);
      var v2 := Vertex(Pos(drawRect.z, drawRect.w), uv2, c2);
      var v3 := Vertex(Pos(drawRect.x, drawRect.w), uv3, c3);
      if clipped {
        v0, v1, v2, v3 := ReinterpolateCorners(rectangle, drawRect, v0, v1, v2, v3);
      }
      EmitQuad(v0, v1, v2, v3);
    }

    /**
     * The uv form of the axis-aligned `FillRectangle`: as the colour form with the current colour
     * on every corner, only the texture coordinates being re-interpolated.
     */
    method FillRectangleUv(rectangle: Rect, uv0: Vec2, uv1: Vec2, uv2: Vec2, uv3: Vec2)
      requires Valid()
      modifies this`vertices, this`uvs, this`colors, this`indices
      ensures Valid() && Contents() == FillRect(old(Contents()), hasMask, mask, rectangle, uv0, uv1, uv2, uv3, color, color, color, color)
    {
      var drawRect := rectangle;
      var clipped := false;
      if hasMask {
        if Rejects(rectangle, mask) {
          return;
        }
        clipped := true;
        drawRect := Intersect(rectangle, mask);
      }
      var v0 := Vertex(Pos(drawRect.x, drawRect.y), uv0, color);
      var v1 := Vertex(Pos(drawRect.z, drawRect.y), uv1, color);
      var v2 := Vertex(Pos(drawRect.z, drawRect.w), uv2, color);
      var v3 := Vertex(Pos(drawRect.x, drawRect.w), uv3, color);
      if clipped {
        v0, v1, v2, v3 := ReinterpolateUvs(rectangle, drawRect, v0, v1, v2, v3, color);
      }
      EmitQuad(v0, v1, v2, v3);
    }

    /**
     * `FillRectangle(Vector4, Vector2)`: the reject test and the intersection as in the other forms,
     * but the corners emitted are those of the rectangle itself, with the one uv and the current colour.
     */
    method FillRectangleSolid(rectangle: Rect, uv: Vec2)
      requires Valid()
      modifies this`vertices, this`uvs, this`colors, this`indices
      ensures Valid() && Contents() == FillRectSolid(old(Contents()), hasMask, mask, rectangle, uv, color)
    {
      var drawRect := rectangle;
      if hasMask {
        if Rejects(rectangle, mask) {
          return;
        }
        drawRect := Intersect(rectangle, mask);
      }
      var v := Vertex(Pos(rectangle.x, rectangle.y), uv, color);
      var v1 := v.(position := Pos(rectangle.z, rectangle.y));
      var v2 := v.(position := Pos(rectangle.z, rectangle.w));
      var v3 := v.(position := Pos(rectangle.x, rectangle.w));
      EmitQuad(v, v1, v2, v3);
    }

    // -------------------------------------------------------------------------------------------
    // White shapes, lines and outlines
    // -------------------------------------------------------------------------------------------

    /** `FillRectangle(Vector4)`: the font texture made current, then the rectangle with the white uv. */
    method FillRectangleWhite(rectangle: Rect)
      requires Valid()
      modifies this`vertices, this`uvs, this`colors, this`indices, this`currentTexture, subMeshes, subMeshes.items
      ensures subMeshes.items == old(subMeshes.items) || fresh(subMeshes.items)
      ensures Valid() && currentTexture == fontTexture
      ensures Drawn() == WhiteRect(old(Drawn()), CurrentBrush(), rectangle)
    {
      ResetTexture();
      FillRectangleSolid(rectangle, whiteUv);
    }

    /** `FillTriangle(Vector2 x3)`: a white triangle, after making the font texture current. */
    method FillTrianglePoints(p1: Vec2, p2: Vec2, p3: Vec2)
      requires Valid()
      modifies this`vertices, this`uvs, this`colors, this`indices, this`currentTexture, subMeshes, subMeshes.items
      ensures subMeshes.items == old(subMeshes.items) || fresh(subMeshes.items)
      ensures Valid() && currentTexture == fontTexture
      ensures Contents() == FillPolygon(old(Contents()), hasMask, mask, [WhiteVertex(p1, CurrentBrush()), WhiteVertex(p2, CurrentBrush()), WhiteVertex(p3, CurrentBrush())])
      ensures subMeshes.Entries() == FontSubMesh(old(Drawn()), CurrentBrush())
    {
      var vert1 := Vertex(Pos(p1.x, p1.y), whiteUv, color);
      var vert2 := Vertex(Pos(p2.x, p2.y), whiteUv, color);
      var vert3 := Vertex(Pos(p3.x, p3.y), whiteUv, color);
      ghost var c, b := Drawn(), CurrentBrush();
      ResetTexture();
      assert subMeshes.Entries() == FontSubMesh(c, b);
      FillTriangle(vert1, vert2, vert3);
    }

    /** `FillRectangle(Vector2 x4)`: a white convex quad, after making the font texture current. */
    method FillRectanglePoints(p1: Vec2, p2: Vec2, p3: Vec2, p4: Vec2)
      requires Valid()
      modifies this`vertices, this`uvs, this`colors, this`indices, this`currentTexture, subMeshes, subMeshes.items
      ensures subMeshes.items == old(subMeshes.items) || fresh(subMeshes.items)
      ensures Valid() && currentTexture == fontTexture
      ensures Contents() == FillPolygon(old(Contents()), hasMask, mask,
                                        [WhiteVertex(p1, CurrentBrush()), WhiteVertex(p2, CurrentBrush()), WhiteVertex(p3, CurrentBrush()), WhiteVertex(p4, CurrentBrush())])
      ensures subMeshes.Entries() == FontSubMesh(old(Drawn()), CurrentBrush())
    {
      var vert1 := Vertex(Pos(p1.x, p1.y), whiteUv, color);
      var vert2 := Vertex(Pos(p2.x, p2.y), whiteUv, color);
      var vert3 := Vertex(Pos(p3.x, p3.y), whiteUv, color);
      var vert4 := Vertex(Pos(p4.x, p4.y), whiteUv, color);
      ghost var c, b := Drawn(), CurrentBrush();
      ResetTexture();
      assert subMeshes.Entries() == FontSubMesh(c, b);
      FillRectangleVertices(vert1, vert2, vert3, vert4);
    }

    /** `DrawHorizontalLine`: the white rectangle `width` thick centred on y. */
    method DrawHorizontalLine(leftX: real, y: real, length: real, width: real)
      requires Valid()
      modifies this`vertices, this`uvs, this`colors, this`indices, this`currentTexture, subMeshes, subMeshes.items
      ensures subMeshes.items == old(subMeshes.items) || fresh(subMeshes.items)
      ensures Valid() && currentTexture == fontTexture
      ensures Drawn() == WhiteRect(old(Drawn()), CurrentBrush(), HorizontalLineRect(leftX, y, length, width))
    {
      var half := width * 0.5;
      var line := Rect(leftX, y - half, leftX + length, y + half);
      assert line == HorizontalLineRect(leftX, y, length, width);
      FillRectangleWhite(line);
    }

    /** `DrawVerticalLine`: the white rectangle `width` thick centred on x. */
    method DrawVerticalLine(x: real, topY: real, length: real, width: real)
      requires Valid()
      modifies this`vertices, this`uvs, this`colors, this`indices, this`currentTexture, subMeshes, subMeshes.items
      ensures subMeshes.items == old(subMeshes.items) || fresh(subMeshes.items)
      ensures Valid() && currentTexture == fontTexture
      ensures Drawn() == WhiteRect(old(Drawn()), CurrentBrush(), VerticalLineRect(x, topY, length, width))
    {
      var half := width * 0.5;
      var line := Rect(x - half, topY, x + half, topY + length);
      assert line == VerticalLineRect(x, topY, length, width);
      FillRectangleWhite(line);
    }

    /** `DrawRectangle`: the four lines of the outline, top, bottom, left and right. */
    method DrawRectangle(rectangle: Rect, lineWidth: real)
      requires Valid()
      modifies this`vertices, this`uvs, this`colors, this`indices, this`currentTexture, subMeshes, subMeshes.items
      ensures subMeshes.items == old(subMeshes.items) || fresh(subMeshes.items)
      ensures Valid() && currentTexture == fontTexture
      ensures Drawn() == WhiteRects(WhiteRects(old(Drawn()), CurrentBrush(), BorderEdges(rectangle, lineWidth)), CurrentBrush(), BorderSides(rectangle, lineWidth))
    {
      ghost var c, b := Drawn(), CurrentBrush();
      DrawHorizontalPair(rectangle.x - lineWidth * 0.5, rectangle.y, rectangle.w, rectangle.z - rectangle.x + lineWidth, lineWidth, BorderEdges(rectangle, lineWidth));
      ghost var mid := Drawn();
      assert mid == WhiteRects(c, b, BorderEdges(rectangle, lineWidth));
      DrawVerticalPair(rectangle.x, rectangle.z, rectangle.y + lineWidth * 0.5, rectangle.w - rectangle.y - lineWidth, lineWidth, BorderSides(rectangle, lineWidth));
    }

    /** The top and bottom lines of an outline, drawn with `DrawHorizontalLine` one after the other. */
    method DrawHorizontalPair(leftX: real, topY: real, bottomY: real, length: real, width: real, ghost lines: seq<Rect>)
      requires Valid()
      requires lines == [HorizontalLineRect(leftX, topY, length, width), HorizontalLineRect(leftX, bottomY, length, width)]
      modifies this`vertices, this`uvs, this`colors, this`indices, this`currentTexture, subMeshes, subMeshes.items
      ensures subMeshes.items == old(subMeshes.items) || fresh(subMeshes.items)
      ensures Valid() && currentTexture == fontTexture
      ensures Drawn() == WhiteRects(old(Drawn()), CurrentBrush(), lines)
    {
      ghost var c, b := Drawn(), CurrentBrush();
      DrawHorizontalLine(leftX, topY, length, width);
      assert Drawn() == WhiteRect(c, b, HorizontalLineRect(leftX, topY, length, width));
      DrawHorizontalLine(leftX, bottomY, length, width);
      WhiteRectsTwo(c, CurrentBrush(), HorizontalLineRect(leftX, topY, length, width), HorizontalLineRect(leftX, bottomY, length, width));
    }

    /** The left and right lines of an outline, drawn with `DrawVerticalLine` one after the other. */
    method DrawVerticalPair(leftX: real, rightX: real, topY: real, length: real, width: real, ghost lines: seq<Rect>)
      requires Valid()
      requires lines == [VerticalLineRect(leftX, topY, length, width), VerticalLineRect(rightX, topY, length, width)]
      modifies this`vertices, this`uvs, this`colors, this`indices, this`currentTexture, subMeshes, subMeshes.items
      ensures subMeshes.items == old(subMeshes.items) || fresh(subMeshes.items)
      ensures Valid() && currentTexture == fontTexture
      ensures Drawn() == WhiteRects(old(Drawn()), CurrentBrush(), lines)
    {
      ghost var c, b := Drawn(), CurrentBrush();
      DrawVerticalLine(leftX, topY, length, width);
      assert Drawn() == WhiteRect(c, b, VerticalLineRect(leftX, topY, length, width));
      DrawVerticalLine(rightX, topY, length, width);
      WhiteRectsTwo(c, CurrentBrush(), VerticalLineRect(leftX, topY, length, width), VerticalLineRect(rightX, topY, length, width));
    }

    /** `DrawRectangleInside`: the four lines of `InsideBorderRects`. */
    method DrawRectangleInside(rectangle: Rect, lineWidth: real)
      requires Valid()
      modifies this`vertices, this`uvs, this`colors, this`indices, this`currentTexture, subMeshes, subMeshes.items
      ensures subMeshes.items == old(subMeshes.items) || fresh(subMeshes.items)
      ensures Valid() && currentTexture == fontTexture
      ensures Drawn() == WhiteRects(WhiteRects(old(Drawn()), CurrentBrush(), InsideBorderEdges(rectangle, lineWidth)), CurrentBrush(), InsideBorderSides(rectangle, lineWidth))
    {
      ghost var c, b := Drawn(), CurrentBrush();
      ghost var edges, sides := InsideBorderEdges(rectangle, lineWidth), InsideBorderSides(rectangle, lineWidth);
      DrawHorizontalPair(rectangle.x, rectangle.y, rectangle.w, rectangle.z - rectangle.x + lineWidth * 0.5, lineWidth, edges);
      ghost var mid := Drawn();
      assert mid == WhiteRects(c, b, edges);
      DrawVerticalPair(rectangle.x, rectangle.z, rectangle.y + lineWidth, rectangle.w - rectangle.y - lineWidth, lineWidth, sides);
      assert Drawn() == WhiteRects(mid, b, sides);
    }

    // -------------------------------------------------------------------------------------------
    // Text
    // -------------------------------------------------------------------------------------------

    /**
     * `MeasureText(text, start, end, format, ...)`: the widest line of text[start..end] in font
     * units scaled to the font size, and one line height per line; zero for an empty text.
     */
    method MeasureTextRange(text: seq<char>, start: nat, end: nat, format: Option<TextFormat>) returns (size: Vec2)
      requires start <= end <= |text| && font.lineHeight > 0
      ensures size == Measure(text, start, end, FormatOrDefault(format), font)
    {
      size := Vec2(0.0, 0.0);
      if |text| == 0 {
        return;
      }
      var textFormat := DefaultTextFormat;
      if format.Some? {
        textFormat := format.value;
      }
      assert textFormat == FormatOrDefault(format);
      var maxSizeX, sizeX, sizeY, lines := TallyRange(text, start, end, textFormat);
      ghost var t := TallyOf(text[start..end], textFormat.fontStyle, font);
      if sizeX > maxSizeX {
        maxSizeX := sizeX;
      }
      assert maxSizeX == if t.current > t.widest then t.current else t.widest;
      MeasureFromTally(text, start, end, textFormat, font);
      size := Vec2(TextLayout.Scaled(maxSizeX, FontScale(textFormat, font)), sizeY);
    }

    /**
     * The loop of `MeasureText` over text[start..end]: the widest finished line and the current
     * line in font units, and the height of the lines so far, one line height each.
     */
    method TallyRange(text: seq<char>, start: nat, end: nat, textFormat: TextFormat)
      returns (maxSizeX: int, sizeX: int, sizeY: real, ghost lines: nat)
      requires start <= end <= |text|
      ensures TallyOf(text[start..end], textFormat.fontStyle, font) == Tally(maxSizeX, sizeX, lines)
      ensures sizeY == Stacked(textFormat.lineHeight, lines)
    {
      var style := textFormat.fontStyle;
      sizeY := textFormat.lineHeight;
      maxSizeX := 0;
      sizeX := 0;
      lines := 1;
      assert text[start..start] == [];
      var i := start;
      while i < end
        invariant start <= i <= end
        invariant TallyOf(text[start..i], style, font) == Tally(maxSizeX, sizeX, lines)
        invariant sizeY == Stacked(textFormat.lineHeight, lines)
      {
        var ch := text[i];
        TallyOfStep(text, start, i, style, font);
        if IsControl(ch) {
          if ch == '\n' {
            if sizeX > maxSizeX {
              maxSizeX := sizeX;
            }
            sizeY := sizeY + textFormat.lineHeight;
            sizeX := 0;
            lines := lines + 1;
          }
        } else {
          var info := font.glyph(ch, style);
          if info.Some? {
            sizeX := sizeX + info.value.advance;
          }
        }
        i := i + 1;
      }
    }

    /** `MeasureText(text, format, ...)`: zero for an empty text, else the whole text measured. */
    method MeasureText(text: seq<char>, format: Option<TextFormat>) returns (size: Vec2)
      requires font.lineHeight > 0
      ensures size == MeasureWhole(text, format, font)
    {
      if |text| == 0 {
        return Vec2(0.0, 0.0);
      }
      size := MeasureTextRange(text, 0, |text|, format);
    }

    /**
     * `DrawText`: the format, the top and the scale set up, then the text typeset left aligned or
     * centred line by line with the font texture made current.
     */
    method DrawText(text: seq<char>, format: Option<TextFormat>, area: Rect)
      requires Valid() && font.lineHeight > 0 && FitsShrink(text, FormatOrDefault(format), area, font)
      modifies this`vertices, this`uvs, this`colors, this`indices, this`currentTexture, subMeshes, subMeshes.items
      ensures subMeshes.items == old(subMeshes.items) || fresh(subMeshes.items)
      ensures Valid() && currentTexture == fontTexture
      ensures Drawn() == TextCanvas(old(Drawn()), CurrentBrush(), font, text, format, area)
    {
      var textFormat, top, fontScale := LayOutText(text, format, area);
      ghost var c, b := Drawn(), CurrentBrush();
      TypesetText(text, textFormat, area, top, fontScale);
      TextCanvasOf(c, b, font, text, format, area, textFormat, top, fontScale, Contents());
    }

    /**
     * The drawing step of `DrawText`: the font texture, then the text from the area's left edge,
     * or each line centred.
     */
    method TypesetText(text: seq<char>, textFormat: TextFormat, area: Rect, top: real, fontScale: real)
      requires Valid() && font.lineHeight > 0
      modifies this`vertices, this`uvs, this`colors, this`indices, this`currentTexture, subMeshes, subMeshes.items
      ensures subMeshes.items == old(subMeshes.items) || fresh(subMeshes.items)
      ensures Valid() && currentTexture == fontTexture
      ensures var pen := Pen(textFormat, font, fontScale, area.x, top, hasMask, mask, color);
        Contents() == (if textFormat.alignment.Left? then TypesetRange(text, 0, |text|, pen, old(Contents()))
                       else CenterFrom(text, 0, top, area, pen, old(Contents())))
      ensures subMeshes.Entries() == FontSubMesh(old(Drawn()), CurrentBrush())
    {
      ghost var c, b := Drawn(), CurrentBrush();
      ResetTexture();
      assert subMeshes.Entries() == FontSubMesh(c, b);
      DrawLines(text, textFormat, area, top, fontScale);
    }

    /** The text from the area's left edge, or each line centred. */
    method DrawLines(text: seq<char>, textFormat: TextFormat, area: Rect, top: real, fontScale: real)
      requires Valid() && font.lineHeight > 0
      modifies this`vertices, this`uvs, this`colors, this`indices
      ensures Valid()
      ensures var pen := PenFor(textFormat, fontScale, Vec2(area.x, top));
        Contents() == (if textFormat.alignment.Left? then TypesetRange(text, 0, |text|, pen, old(Contents()))
                       else CenterFrom(text, 0, top, area, pen, old(Contents())))
    {
      if textFormat.alignment.Left? {
        DrawTextInternal(text, 0, |text|, textFormat, Vec2(area.x, top), fontScale);
      } else {
        DrawCentered(text, textFormat, area, top, fontScale);
      }
    }

    /**
     * The set-up of `DrawText`: the given or default format, the text measured when it may be
     * shrunk or is middle-aligned, the font size and line height scaled by the larger of the two
     * per-axis fits when shrinking, the top moved for middle alignment and for the line gap, and
     * the scale from font units.
     */
    method LayOutText(text: seq<char>, format: Option<TextFormat>, area: Rect) returns (textFormat: TextFormat, top: real, fontScale: real)
      requires font.lineHeight > 0 && FitsShrink(text, FormatOrDefault(format), area, font)
      ensures textFormat == TextFormatIn(text, format, area, font) && top == TextTop(text, format, area, font)
      ensures fontScale == FontScale(textFormat, font)
    {
      textFormat := DefaultTextFormat;
      if format.Some? {
        textFormat := format.value;
      }
      ghost var fmt0 := textFormat;
      assert fmt0 == FormatOrDefault(format);
      var size := Vec2(0.0, 0.0);
      if textFormat.overflow == Shrink || textFormat.verticalAlignment == Middle {
        size := MeasureText(text, Some(textFormat));
      }
      if textFormat.overflow == Shrink {
        assert size == MeasureWhole(text, Some(fmt0), font);
        textFormat := ShrinkToArea(textFormat, size, area);
      }
      assert textFormat == TextFormatIn(text, format, area, font);
      top := area.y;
      if textFormat.verticalAlignment == Middle {
        assert size == MeasureWhole(text, Some(fmt0), font);
        top := top + ((area.w - area.y) - size.y) / 2.0;
        assert top == MiddleTop(area, size);
      }
      fontScale := textFormat.fontSize / (font.lineHeight as real);
      top := top + (textFormat.lineHeight - textFormat.fontSize) / 2.0;
    }

    /**
     * The shrink step of `DrawText`: per axis the area over the measured size where the text
     * overflows, the larger of the two applied to the font size and line height unless it is one.
     */
    static method ShrinkToArea(format: TextFormat, size: Vec2, area: Rect) returns (textFormat: TextFormat)
      requires format.overflow == Shrink
      requires size.x > area.z - area.x ==> size.x != 0.0
      requires size.y > area.w - area.y ==> size.y != 0.0
      ensures textFormat == Shrunk(format, size, area)
    {
      textFormat := format;
      var areaWidth := area.z - area.x;
      var areaHeight := area.w - area.y;
      var scaleX := 1.0;
      var scaleY := 1.0;
      if size.x > areaWidth {
        scaleX := areaWidth / size.x;
      }
      if size.y > areaHeight {
        scaleY := areaHeight / size.y;
      }
      var scale := if scaleX >= scaleY then scaleX else scaleY;
      if scale != 1.0 {
        textFormat := textFormat.(fontSize := textFormat.fontSize * scale, lineHeight := textFormat.lineHeight * scale);
      }
    }

    /**
     * The centred branch of `DrawText`: each line measured and typeset from half the spare width,
     * the next line one line height lower, until the line that ends the text.
     */
    method DrawCentered(text: seq<char>, textFormat: TextFormat, area: Rect, top: real, fontScale: real)
      requires Valid() && font.lineHeight > 0
      modifies this`vertices, this`uvs, this`colors, this`indices
      ensures Valid() && Contents() == CenterFrom(text, 0, top, area, PenFor(textFormat, fontScale, Vec2(area.x, top)), old(Contents()))
    {
      ghost var pen := PenFor(textFormat, fontScale, Vec2(area.x, top));
      ghost var goal := CenterFrom(text, 0, top, area, pen, Contents());
      assert pen.format == textFormat;
      var start: nat := 0;
      var topY := top;
      var done := false;
      while !done
        invariant start <= |text| && Valid()
        invariant done ==> Contents() == goal
        invariant !done ==> CenterFrom(text, start, topY, area, pen, Contents()) == goal
        decreases if done then 0 else 1, |text| - start
      {
        start, topY, done := DrawCenteredLine(text, start, textFormat, area, topY, fontScale, pen, goal);
      }
    }

    /**
     * One line of the centred branch of `DrawText`: the line from start to the next '\n' (or the end
     * of the text) measured, then typeset from half the spare width of the area. What is left to
     * centre afterwards is the rest of the text from the next line, one line height lower.
     */
    method DrawCenteredLine(text: seq<char>, start: nat, textFormat: TextFormat, area: Rect, topY: real, fontScale: real,
                            ghost pen: Pen, ghost goal: Frame)
      returns (next: nat, nextTop: real, endOfString: bool)
      requires Valid() && font.lineHeight > 0 && start <= |text|
      requires pen == Pen(textFormat, font, fontScale, pen.left, pen.top, hasMask, mask, color)
      requires CenterFrom(text, start, topY, area, pen, Contents()) == goal
      modifies this`vertices, this`uvs, this`colors, this`indices
      ensures endOfString == (LineEnd(text, start) == |text|)
      ensures start <= next <= |text| && (!endOfString ==> start < next)
      ensures !endOfString ==> next == LineEnd(text, start) + 1 && nextTop == topY + textFormat.lineHeight
      ensures Valid() && Contents() == TypesetRange(text, start, LineEnd(text, start), LinePen(text, start, LineEnd(text, start), topY, area, pen), old(Contents()))
      ensures endOfString ==> Contents() == goal
      ensures !endOfString ==> CenterFrom(text, next, nextTop, area, pen, Contents()) == goal
    {
      ghost var f := Contents();
      var end;
      end, endOfString := FindLineEnd(text, start);
      next, nextTop := start, topY;
      DrawLine(text, start, end, textFormat, area, topY, fontScale, pen);
      ghost var g := Contents();
      assert g == TypesetRange(text, start, end, LinePen(text, start, end, topY, area, pen), f);
      assert pen.format == textFormat;
      CenterFromStep(text, start, end, topY, textFormat.lineHeight, area, pen, f, g);
      if !endOfString {
        next, nextTop := end + 1, topY + textFormat.lineHeight;
      }
    }

    /** The end of the line from start: the next '\n', or the end of the text when there is none. */
    static method FindLineEnd(text: seq<char>, start: nat) returns (end: nat, endOfString: bool)
      requires start <= |text|
      ensures end == LineEnd(text, start) && endOfString == (end == |text|)
    {
      var found := IndexOf(text, '\n', start);
      end := |text|;
      endOfString := false;
      if found.None? {
        endOfString := true;
      } else {
        end := found.value;
      }
      LineEndIsIndexOf(text, start);
    }

    /** A line of centred text: measured, then typeset from half the spare width of the area. */
    method DrawLine(text: seq<char>, start: nat, end: nat, textFormat: TextFormat, area: Rect, topY: real, fontScale: real,
                    ghost pen: Pen)
      requires Valid() && font.lineHeight > 0 && start <= |text| && end == LineEnd(text, start)
      requires pen == Pen(textFormat, font, fontScale, pen.left, pen.top, hasMask, mask, color)
      modifies this`vertices, this`uvs, this`colors, this`indices
      ensures Valid() && Contents() == TypesetRange(text, start, end, LinePen(text, start, end, topY, area, pen), old(Contents()))
    {
      var areaWidth := area.z - area.x;
      var lineSize := MeasureTextRange(text, start, end, Some(textFormat));
      LineMeasure(text, start, textFormat, font);
      var topLeft := Vec2(area.x + (areaWidth - lineSize.x) / 2.0, topY);
      assert PenFor(textFormat, fontScale, topLeft) == LinePen(text, start, end, topY, area, pen);
      DrawTextInternal(text, start, end, textFormat, topLeft, fontScale);
    }

    /** The pen text is typeset with: the format, the font, the scale, the top-left corner and the current mask and colour. */
    function PenFor(format: TextFormat, scale: real, topLeft: Vec2): Pen
      reads this`hasMask, this`mask, this`color
    {
      Pen(format, font, scale, topLeft.x, topLeft.y, hasMask, mask, color)
    }

    /**
     * `DrawTextInternal`: the pen starts one font size below the top; a '\n' returns it to the left
     * edge one line height lower, other control characters are skipped, and every character the
     * font has a glyph for is filled as its textured rectangle, moving the pen by its scaled advance.
     */
    method DrawTextInternal(text: seq<char>, start: nat, end: nat, format: TextFormat, topLeft: Vec2, scale: real)
      requires Valid() && start <= end <= |text|
      modifies this`vertices, this`uvs, this`colors, this`indices
      ensures Valid() && Contents() == TypesetRange(text, start, end, PenFor(format, scale, topLeft), old(Contents()))
    {
      ghost var pen := PenFor(format, scale, topLeft);
      ghost var f0 := Contents();
      var left := topLeft.x;
      var x := topLeft.x;
      var y := topLeft.y + format.fontSize;
      var i := start;
      while i < end
        invariant start <= i <= end
        invariant Valid() && Contents() == TypesetRange(text, start, i, pen, f0)
        invariant PenPos(x, y) == PenAt(text, start, i, pen)
      {
        TypesetStep(text, start, i, pen, f0);
        x, y := TypesetCharacter(text[i], x, y, left, format, scale, pen);
        i := i + 1;
      }
    }

    /** One character of the loop of `DrawTextInternal`, at pen position (x, y). */
    method TypesetCharacter(ch: char, x: real, y: real, left: real, format: TextFormat, scale: real, ghost pen: Pen)
      returns (nextX: real, nextY: real)
      requires Valid() && pen == Pen(format, font, scale, left, pen.top, hasMask, mask, color)
      modifies this`vertices, this`uvs, this`colors, this`indices
      ensures Valid() && Contents() == GlyphFrame(old(Contents()), PenPos(x, y), ch, pen)
      ensures nextX == NextX(x, ch, pen) && nextY == NextY(y, ch, pen)
    {
      nextX, nextY := x, y;
      if IsControl(ch) {
        if ch == '\n' {
          nextY := y + format.lineHeight;
          nextX := left;
        }
      } else {
        var info := font.glyph(ch, format.fontStyle);
        if info.Some? {
          var g := info.value;
          var rect := GlyphRect(x, y, g, scale);
          FillRectangleUv(rect, g.uvTopLeft, g.uvTopRight, g.uvBottomRight, g.uvBottomLeft);
          nextX := x + (g.advance as real) * scale;
        }
      }
    }

    // -------------------------------------------------------------------------------------------
    // Textures and sub-meshes
    // -------------------------------------------------------------------------------------------

    /**
     * `AddSubMesh`: a new sub-mesh at the current index count unless the last one starts there;
     * the last sub-mesh then takes the current texture, matrix and material.
     */
    method AddSubMesh()
      requires Valid()
      modifies subMeshes, subMeshes.items
      ensures subMeshes.items == old(subMeshes.items) || fresh(subMeshes.items)
      ensures Valid()
      ensures subMeshes.Entries() == OpenSubMesh(old(subMeshes.Entries()), |indices|, currentTexture, matrix, fontTexture)
    {
      ghost var entries := subMeshes.Entries();
      var k := OpenIfNeeded();
      DescribeLast(k);
      OpenSubMeshBatched(entries, |indices|, currentTexture, matrix, fontTexture);
    }

    /** The first half of `AddSubMesh`: an entry starting at the index count is made the last one. */
    method OpenIfNeeded() returns (k: nat)
      requires Valid()
      modifies subMeshes, subMeshes.items
      ensures subMeshes.Valid() && k + 1 == subMeshes.count
      ensures subMeshes.items == old(subMeshes.items) || fresh(subMeshes.items)
      ensures subMeshes.Entries() == Kept(old(subMeshes.Entries()), |indices|) + [subMeshes.Entries()[k]]
      ensures subMeshes.Entries()[k].startIndex == |indices|
    {
      ghost var entries := subMeshes.Entries();
      if subMeshes.count == 0 {
        subMeshes.Add(|indices|);
      } else {
        var last := subMeshes.GetEntry(subMeshes.count - 1);
        if last.startIndex != |indices| {
          subMeshes.Add(|indices|);
        } else {
          assert entries == entries[..|entries| - 1] + [last];
        }
      }
      k := subMeshes.count - 1;
    }

    /** The second half of `AddSubMesh`: the last entry takes the current texture, matrix and material. */
    method DescribeLast(k: nat)
      requires subMeshes.Valid() && k + 1 == subMeshes.count
      modifies subMeshes.items
      ensures subMeshes.Entries() == old(subMeshes.Entries())[..k] + [SubMesh(MaterialFor(currentTexture, fontTexture), currentTexture, old(subMeshes.Entries())[k].startIndex, matrix)]
    {
      ghost var added := subMeshes.Entries();
      subMeshes.SetTexture(k, currentTexture);
      subMeshes.SetMatrix(k, matrix);
      if currentTexture == fontTexture {
        subMeshes.SetMaterial(k, TextMaterial);
      } else {
        subMeshes.SetMaterial(k, TexturedMaterial);
      }
      assert subMeshes.Entries() == added[k := added[k].(texture := currentTexture, matrix := matrix, material := MaterialFor(currentTexture, fontTexture))];
    }

    /** `SetTexture`: the texture becomes current and the sub-mesh list is brought up to date. */
    method SetTexture(texture: Texture)
      requires Valid()
      modifies this`currentTexture, subMeshes, subMeshes.items
      ensures subMeshes.items == old(subMeshes.items) || fresh(subMeshes.items)
      ensures Valid() && currentTexture == texture
      ensures subMeshes.Entries() == OpenSubMesh(old(subMeshes.Entries()), |indices|, texture, matrix, fontTexture)
    {
      currentTexture := texture;
      AddSubMesh();
    }

    /** `ResetTexture`: back to the font texture, drawn with the text material. */
    method ResetTexture()
      requires Valid()
      modifies this`currentTexture, subMeshes, subMeshes.items
      ensures subMeshes.items == old(subMeshes.items) || fresh(subMeshes.items)
      ensures Valid() && currentTexture == fontTexture
      ensures subMeshes.Entries() == OpenSubMesh(old(subMeshes.Entries()), |indices|, fontTexture, matrix, fontTexture)
    {
      SetTexture(fontTexture);
    }

    /**
     * `Draw`: with sub-meshes, a sentinel start at the index count is added and one draw call is
     * issued per sub-mesh over its slice of the index buffer; with none, nothing is drawn. Either
     * way every buffer and the sub-mesh list are emptied and the current texture is cleared.
     */
    method Draw() returns (mesh: Mesh, calls: seq<DrawCall>)
      requires Valid()
      modifies this`vertices, this`uvs, this`colors, this`indices, this`currentTexture, subMeshes, subMeshes.items
      ensures Valid()
      ensures old(subMeshes.Entries()) == [] ==> calls == [] && mesh == EmptyMesh
      ensures old(subMeshes.Entries()) != [] ==>
        calls == DrawCalls(old(subMeshes.Entries()), old(indices)) &&
        mesh == Mesh(old(vertices), old(uvs), old(colors), Triangles(calls) + [[]])
      ensures Contents() == Frame([], []) && subMeshes.Entries() == [] && currentTexture == NullTexture
    {
      calls := [];
      mesh := EmptyMesh;
      if subMeshes.count > 0 {
        ghost var entries := subMeshes.Entries();
        assert Batched(entries, |indices|);
        subMeshes.Add(|indices|);
        assert subMeshes.Entries()[..|entries|] == entries;
        var triangles;
        calls, triangles := IssueDrawCalls(entries);
        mesh := Mesh(vertices, uvs, colors, triangles + [[]]);
      }
      vertices := [];
      indices := [];
      uvs := [];
      colors := [];
      subMeshes.Clear();
      currentTexture := NullTexture;
    }

    /**
     * The loop of `Draw` over a sub-mesh list ending in the sentinel: one draw call per sub-mesh,
     * over the indices from its start to the next one, and the same slices as mesh triangles.
     */
    method IssueDrawCalls(ghost entries: seq<SubMesh>) returns (calls: seq<DrawCall>, triangles: seq<seq<int>>)
      requires subMeshes.Valid() && Batched(entries, |indices|) && |entries| > 0
      requires subMeshes.count == |entries| + 1 && subMeshes.Entries()[..|entries|] == entries
      requires subMeshes.Entries()[|entries|].startIndex == |indices|
      ensures calls == DrawCalls(entries, indices) && triangles == Triangles(calls)
    {
      calls := [];
      triangles := [];
      var first := subMeshes.GetEntry(0);
      var startIndex := first.startIndex;
      var i := 0;
      while i < subMeshes.count - 1
        invariant 0 <= i <= |entries|
        invariant startIndex == if i < |entries| then entries[i].startIndex else |indices|
        invariant calls == DrawCalls(entries, indices)[..i]
        invariant triangles == Triangles(calls)
      {
        var entry := subMeshes.GetEntry(i);
        var next := subMeshes.GetEntry(i + 1);
        var end := next.startIndex;
        assert end == RangeEnd(entries, i, |indices|);
        assert startIndex <= end <= |indices| by {
          if i + 1 < |entries| {
            assert entries[i].startIndex < entries[i + 1].startIndex;
          }
        }
        var temporary := CopyIndices(startIndex, end);
        assert entry == entries[i];
        calls := calls + [DrawCall(i, entry.matrix, entry.material, entry.texture, temporary)];
        assert calls == DrawCalls(entries, indices)[..i + 1];
        triangles := triangles + [temporary];
        startIndex := end;
        i := i + 1;
      }
      assert DrawCalls(entries, indices)[..i] == DrawCalls(entries, indices);
    }

    /** The copy into `temporaryIndices` that `Draw` makes of one sub-mesh's slice of the index buffer. */
    method CopyIndices(start: int, end: int) returns (temporary: seq<int>)
      requires 0 <= start <= end <= |indices|
      ensures temporary == indices[start..end]
    {
      temporary := [];
      var j := start;
      while j < end
        invariant start <= j <= end
        invariant temporary == indices[start..j]
      {
        temporary := temporary + [indices[j]];
        j := j + 1;
      }
    }

    // -------------------------------------------------------------------------------------------
    // Mask
    // -------------------------------------------------------------------------------------------

    /** The `Mask` getter: the stored rectangle exactly when a mask is set. */
    function Mask(): (r: Option<Rect>)
      reads this
      ensures r.Some? <==> hasMask
      ensures r.Some? ==> r.value == mask
    {
      if hasMask then Some(mask) else None
    }

    /** The `Mask` setter: null clears the flag and keeps the old rectangle; a value is stored. */
    method SetMask(value: Option<Rect>)
      modifies this`hasMask, this`mask
      ensures Mask() == value
      ensures value.None? ==> mask == old(mask)
    {
      if value.None? {
        hasMask := false;
      } else {
        hasMask := true;
        mask := value.value;
      }
    }

    // -------------------------------------------------------------------------------------------
    // Virtual screen
    // -------------------------------------------------------------------------------------------

    /**
     * `SetReferenceScreenHeight`: the reference height is fixed, the width follows the screen's
     * aspect, and the camera transform is rebuilt.
     */
    method SetReferenceScreenHeight(rHeight: int, screenW: int, screenH: int)
      requires screenW > 0 && screenH > 0 && rHeight != 0
      modifies this`reference, this`toCoordScale, this`toCoordOffsetX, this`toCoordOffsetY, this`matrix
      ensures reference == ReferenceFromHeight(rHeight, screenW, screenH)
      ensures camera.Some? ==> matrix == CameraTransform(camera.value, reference)
      ensures camera.None? ==> matrix == old(matrix)
    {
      var h := rHeight as real;
      reference := Reference(h * screenW as real / screenH as real, h, h / screenH as real);
      InitializeTransform();
    }

    /** `SetReferenceScreenWidth`: the reference width is fixed, symmetrically. */
    method SetReferenceScreenWidth(rWidth: int, screenW: int, screenH: int)
      requires screenW > 0 && screenH > 0 && rWidth != 0
      modifies this`reference, this`toCoordScale, this`toCoordOffsetX, this`toCoordOffsetY, this`matrix
      ensures reference == ReferenceFromWidth(rWidth, screenW, screenH)
      ensures camera.Some? ==> matrix == CameraTransform(camera.value, reference)
      ensures camera.None? ==> matrix == old(matrix)
    {
      var w := rWidth as real;
      reference := Reference(w, w * screenH as real / screenW as real, w / screenW as real);
      assert reference.height != 0.0 by {
        Fraction0Positive(w, screenH as real, screenW as real);
      }
      InitializeTransform();
    }

    /**
     * `InitializeTransform`: nothing without a camera; otherwise the scale and offsets from the
     * camera's half height and the reference size, and the matrix built from them.
     */
    method InitializeTransform()
      requires reference.height != 0.0
      modifies this`toCoordScale, this`toCoordOffsetX, this`toCoordOffsetY, this`matrix
      ensures camera.None? ==> matrix == old(matrix)
      ensures camera.None? ==> toCoordScale == old(toCoordScale)
      ensures camera.None? ==> toCoordOffsetX == old(toCoordOffsetX) && toCoordOffsetY == old(toCoordOffsetY)
      ensures camera.Some? ==> matrix == CameraTransform(camera.value, reference)
      ensures camera.Some? ==> matrix == Transform(toCoordScale, -toCoordScale, toCoordOffsetX, toCoordOffsetY)
    {
      if camera.None? {
        return;
      }
      var halfHeight := camera.value.orthographicSize;
      var halfWidth := halfHeight * reference.width / reference.height;
      toCoordScale := 2.0 * halfHeight / reference.height;
      toCoordOffsetX := -halfWidth;
      toCoordOffsetY := halfHeight;
      matrix := Transform(toCoordScale, -toCoordScale, toCoordOffsetX, toCoordOffsetY);
    }
  }

  /**
   * The clipped branch of the colour form: the texture coordinates and colours of the corners
   * re-interpolated against the left, top, right and bottom edges in turn.
   */
  method ReinterpolateCorners(rectangle: Rect, drawRect: Rect, v0: Vertex, v1: Vertex, v2: Vertex, v3: Vertex)
    returns (w0: Vertex, w1: Vertex, w2: Vertex, w3: Vertex)
    ensures Quad(w0, w1, w2, w3) == Reinterpolate(rectangle, drawRect, Quad(v0, v1, v2, v3))
  {
    w0, w1, w2, w3 := v0, v1, v2, v3;
    var t0 := Param(drawRect.x - rectangle.x, rectangle.z - rectangle.x);
    if Applies(t0) {
      w0 := w0.(uv := Lerp2(w0.uv, w1.uv, t0.value), color := LerpColor(w0.color, w1.color, t0.value));
      w3 := w3.(uv := Lerp2(w3.uv, w2.uv, t0.value), color := LerpColor(w3.color, w2.color, t0.value));
    }
    var t1 := Param(drawRect.y - rectangle.y, rectangle.w - rectangle.y);
    if Applies(t1) {
      w0 := w0.(uv := Lerp2(w0.uv, w3.uv, t1.value), color := LerpColor(w0.color, w3.color, t1.value));
      w1 := w1.(uv := Lerp2(w1.uv, w2.uv, t1.value), color := LerpColor(w1.color, w2.color, t1.value));
    }
    var t2 := Param(-(drawRect.z - rectangle.z), rectangle.z - rectangle.x);
    if Applies(t2) {
      w1 := w1.(uv := Lerp2(w1.uv, w0.uv, t2.value), color := LerpColor(w1.color, w0.color, t2.value));
      w2 := w2.(uv := Lerp2(w2.uv, w3.uv, t2.value), color := LerpColor(w2.color, w3.color, t2.value));
    }
    var t3 := Param(-(drawRect.w - rectangle.w), rectangle.w - rectangle.y);
    if Applies(t3) {
      w2 := w2.(uv := Lerp2(w2.uv, w1.uv, t3.value), color := LerpColor(w2.color, w1.color, t3.value));
      w3 := w3.(uv := Lerp2(w3.uv, w0.uv, t3.value), color := LerpColor(w3.color, w0.color, t3.value));
    }
  }

  /**
   * The clipped branch of the uv form: only the texture coordinates are re-interpolated, which
   * on corners of one colour is the same as re-interpolating both.
   */
  method ReinterpolateUvs(rectangle: Rect, drawRect: Rect, v0: Vertex, v1: Vertex, v2: Vertex, v3: Vertex, c: Rgba)
    returns (w0: Vertex, w1: Vertex, w2: Vertex, w3: Vertex)
    requires v0.color == c && v1.color == c && v2.color == c && v3.color == c
    ensures Quad(w0, w1, w2, w3) == Reinterpolate(rectangle, drawRect, Quad(v0, v1, v2, v3))
  {
    w0, w1, w2, w3 := v0, v1, v2, v3;
    ghost var q := Quad(v0, v1, v2, v3);
    var t0 := Param(drawRect.x - rectangle.x, rectangle.z - rectangle.x);
    if Applies(t0) {
      w0 := w0.(uv := Lerp2(w0.uv, w1.uv, t0.value));
      w3 := w3.(uv := Lerp2(w3.uv, w2.uv, t0.value));
    }
    UvStep(q, t0, c);
    q := LeftStep(q, t0);
    var t1 := Param(drawRect.y - rectangle.y, rectangle.w - rectangle.y);
    if Applies(t1) {
      w0 := w0.(uv := Lerp2(w0.uv, w3.uv, t1.value));
      w1 := w1.(uv := Lerp2(w1.uv, w2.uv, t1.value));
    }
    UvStep(q, t1, c);
    q := TopStep(q, t1);
    var t2 := Param(-(drawRect.z - rectangle.z), rectangle.z - rectangle.x);
    if Applies(t2) {
      w1 := w1.(uv := Lerp2(w1.uv, w0.uv, t2.value));
      w2 := w2.(uv := Lerp2(w2.uv, w3.uv, t2.value));
    }
    UvStep(q, t2, c);
    q := RightStep(q, t2);
    var t3 := Param(-(drawRect.w - rectangle.w), rectangle.w - rectangle.y);
    if Applies(t3) {
      w2 := w2.(uv := Lerp2(w2.uv, w1.uv, t3.value));
      w3 := w3.(uv := Lerp2(w3.uv, w0.uv, t3.value));
    }
    UvStep(q, t3, c);
    q := BottomStep(q, t3);
    assert Quad(w0, w1, w2, w3) == q;
  }

  /**
   * A re-interpolation step on a quad whose corners all have colour c: the colours stay c, and
   * the texture coordinates are interpolated as in the step.
   */
  lemma UvStep(q: Quad, t: Option<real>, c: Rgba)
    requires q.v0.color == c && q.v1.color == c && q.v2.color == c && q.v3.color == c
    ensures var p := LeftStep(q, t); p.v0.color == c && p.v1.color == c && p.v2.color == c && p.v3.color == c
    ensures var p := TopStep(q, t); p.v0.color == c && p.v1.color == c && p.v2.color == c && p.v3.color == c
    ensures var p := RightStep(q, t); p.v0.color == c && p.v1.color == c && p.v2.color == c && p.v3.color == c
    ensures var p := BottomStep(q, t); p.v0.color == c && p.v1.color == c && p.v2.color == c && p.v3.color == c
  {
    if Applies(t) {
      var s := Clamp01(t.value);
      MixSame(c.r, s); MixSame(c.g, s); MixSame(c.b, s); MixSame(c.a, s);
      assert LerpColor(c, c, t.value) == c;
    }
  }

  /** The four ways the clip ends, one after each pass. */
  lemma ClipEndsAfterLeft(s: seq<Vertex>, m: Rect, p1: seq<Vertex>)
    requires p1 == Wrap(Pass(s, Edge.Left, m.x)) && |p1| <= 2
    ensures Clipping.SutherlandHodgman(s, m) == []
  {
  }

  lemma ClipEndsAfterTop(s: seq<Vertex>, m: Rect, p1: seq<Vertex>, p2: seq<Vertex>)
    requires p1 == Wrap(Pass(s, Edge.Left, m.x)) && |p1| > 2
    requires p2 == Wrap(Pass(p1, Edge.Top, m.y)) && |p2| <= 2
    ensures Clipping.SutherlandHodgman(s, m) == p2
  {
  }

  lemma ClipEndsAfterRight(s: seq<Vertex>, m: Rect, p1: seq<Vertex>, p2: seq<Vertex>, p3: seq<Vertex>)
    requires p1 == Wrap(Pass(s, Edge.Left, m.x)) && |p1| > 2
    requires p2 == Wrap(Pass(p1, Edge.Top, m.y)) && |p2| > 2
    requires p3 == Wrap(Pass(p2, Right, m.z)) && |p3| <= 2
    ensures Clipping.SutherlandHodgman(s, m) == []
  {
  }

  lemma ClipEndsAfterBottom(s: seq<Vertex>, m: Rect, p1: seq<Vertex>, p2: seq<Vertex>, p3: seq<Vertex>, p4: seq<Vertex>)
    requires p1 == Wrap(Pass(s, Edge.Left, m.x)) && |p1| > 2
    requires p2 == Wrap(Pass(p1, Edge.Top, m.y)) && |p2| > 2
    requires p3 == Wrap(Pass(p2, Right, m.z)) && |p3| > 2
    requires p4 == Wrap(Pass(p3, Bottom, m.w))
    ensures Clipping.SutherlandHodgman(s, m) == p4
  {
  }

  /** A non-zero numerator over a positive denominator, scaled by a non-zero factor, is not zero. */
  lemma Fraction0Positive(a: real, b: real, c: real)
    requires a != 0.0 && b > 0.0 && c > 0.0
    ensures a * b / c != 0.0
  {
    assert a * b != 0.0;
  }

  /** `OnFontTextureRebuilt`: the uv centre of the font's '■' glyph (zero when it has none). */
  function WhiteUv(font: Font): Vec2
  {
    match font.glyph('■', Normal)
    case None => Vec2(0.0, 0.0)
    case Some(g) => Vec2((g.uvTopLeft.x + g.uvBottomRight.x) * 0.5, (g.uvTopLeft.y + g.uvBottomRight.y) * 0.5)
  }
}
