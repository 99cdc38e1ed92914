# DebugUi core in Dafny

This is a model of the self-contained logic of the Unity project DebugUi, with proofs about it.
The project has three parts: an immediate-mode 2D renderer, a tree of debug-UI controls drawn with
that renderer, and a small HTTP front end that reads requests for the UI.

**The renderer.** `Renderer.PrimitiveRenderer2D` is one class that merges `PrimitiveRenderer` and
its partial subclass `PrimitiveRenderer2D`. It does the following:

- It appends vertices (position, uv, colour) and triangle indices to parallel buffers. The three
  vertex buffers always have the same length.
- It groups the index buffer into sub-meshes. Each `SetTexture` or `ResetTexture` opens a new
  sub-mesh at the current index count if indices were added since the last one opened; otherwise
  it relabels the open sub-mesh with the new texture, material and matrix. At `Draw` it turns the
  sub-meshes into draw calls whose index ranges partition the buffer, and then empties everything.
- It clips triangles and convex quads against an optional mask rectangle. The clipper is
  Sutherland–Hodgman, working over an eight-slot `SmallList` that wraps round.
- It emits rectangles with a reject-and-intersect fast path, re-interpolating UVs and colours at
  the clipped edges.
- It emits lines and rectangle outlines.
- It measures text and lays it out line by line: shrink-to-fit, vertical centring, and left or
  centred lines.
- It sets up a virtual screen of fixed height (640) or width (1136) that keeps the device's
  aspect ratio.

**The rest of the core.**

- Each pure part of the renderer has its own module, and every renderer method is proved to
  change its buffers exactly as those functions say:
  - `Geometry` holds the vertex data.
  - `SmallLists` is the eight-slot list.
  - `Batching` covers sub-meshes and draw calls.
  - `Clipping` is the clipper.
  - `Emission` holds the shape emitters, on a `Frame` of vertices and indices.
  - `TextLayout` covers measuring and typesetting.
  - `VirtualScreen` is the virtual-resolution arithmetic.
- `DebugUi` models the debug-UI objects:
  - controls with creation-ordered ids and a doubly linked list of children;
  - the panel's flow layout, with `FlowLayout` stating it on values;
  - the manager's id-sorted instance list, its binary search and message delivery.
- `DebugTree` states the recursive walks (`HitTest`, `DrawRecursive`, `Update`) on a tree of values.
- `JsonText` models the JSON the controls write: the string escaper, the colour writer and the
  comma-separated child list.
- `HttpHead` models the request-head parser and the status-line writer of `DebugHttpServer`:
  - the request line is a simplified form of section 3 of RFC 9112;
  - field lines follow section 5 of RFC 9112;
  - the status line follows section 4 of RFC 9112;
  - reason phrases are checked against section 15 of RFC 9110.

Coordinates, UVs, scales and colour channels are exact reals. The request stream is the sequence
of lines `ReadLine` returns. The font is an abstract glyph-metrics function, and the screen size
and camera are parameters.

**Deviations reproduced as written.** The renderer and the other classes keep the source's
behaviour where it departs from what was evidently meant:

- `FillRectangle(Vector4, Vector2)` emits the unclipped corners.
- Shrink-to-fit uses the larger of the two per-axis scales.
- `AddSubMesh` opens a sub-mesh when indices were added since the last one, not when the texture
  changes.
- `DrawRectangleInside` draws its lines half outside the rectangle.
- The escaper leaves backslash unescaped.
- The UV re-interpolation works edge after edge on already-updated corners.

Where such a deviation is a defect, a corrected definition stands beside the as-written one, with
the intended property proved about it (see "## Findings").

The one exception is `GetControl`: written as in the source, its loop does not terminate for some
inputs. `DebugUi.Manager.GetControl` is therefore the corrected binary search, and
`DebugUi.GetControlAsWritten` models the source's loop.

## Model

Source paths are relative to the repository root.

| member | source | states |
|---|---|---|
| `SmallLists.Slot` | Assets/Scripts/PrimitiveRenderer/PrimitiveRenderer.cs:113 | `i & 7` selects one of the eight slots. Indices 0 to 7 select their own slot. |
| `SmallLists.LastWriter` | Assets/Scripts/PrimitiveRenderer/PrimitiveRenderer.cs:106-109 | After n adds, slot k holds the value of add number j. That j is below n, congruent to k modulo 8, and one of the last eight adds. |
| `SmallLists.Wrap` | Assets/Scripts/PrimitiveRenderer/PrimitiveRenderer.cs:95-179 | What a list reads back after receiving xs: it has as many items as xs and equals xs when there are at most 8. Every item it reads back is one of xs. |
| `SmallLists.LastWriterStep` | Assets/Scripts/PrimitiveRenderer/PrimitiveRenderer.cs:106-109 | Add number n becomes the last writer of slot n mod 8. Every other slot keeps its last writer. |
| `SmallLists.HoldsAdd` | Assets/Scripts/PrimitiveRenderer/PrimitiveRenderer.cs:106-109 | Storing a value in the slot of the current count keeps the slots holding everything added so far, now including the value. |
| `SmallLists.HoldsWrap` | Assets/Scripts/PrimitiveRenderer/PrimitiveRenderer.cs:145-178 | Slots filled by adding xs read back, at each index j, the wrapped sequence's item j. |
| `SmallLists.SmallList.Items` | Assets/Scripts/PrimitiveRenderer/PrimitiveRenderer.cs:145-178 | The readable items are `Count` in number, and item k is slot k mod 8. |
| `SmallLists.SmallList.ShowsWrap` | Assets/Scripts/PrimitiveRenderer/PrimitiveRenderer.cs:95-179 | A list filled by adding xs shows `Wrap(xs)`, so it shows exactly xs when xs has at most eight items. |
| `SmallLists.SmallList.constructor` | Assets/Scripts/PrimitiveRenderer/PrimitiveRenderer.cs:95-99 | A new list is empty. |
| `SmallLists.SmallList.Clear` | Assets/Scripts/PrimitiveRenderer/PrimitiveRenderer.cs:101-104 | The count becomes 0. Nothing else changes. |
| `SmallLists.SmallList.Set` | Assets/Scripts/PrimitiveRenderer/PrimitiveRenderer.cs:111-143 | Only slot `i & 7` changes, and it now holds the value. |
| `SmallLists.SmallList.Get` | Assets/Scripts/PrimitiveRenderer/PrimitiveRenderer.cs:145-178 | Returns the content of slot `i & 7`. |
| `SmallLists.SmallList.Add` | Assets/Scripts/PrimitiveRenderer/PrimitiveRenderer.cs:106-109 | Stores the value in slot `Count & 7` and increases `Count` by one. No other slot changes. |
| `Batching.MaterialFor` | Assets/Scripts/PrimitiveRenderer/PrimitiveRenderer.cs:396-403 | The text material if and only if the texture is the font texture, and the textured material otherwise. |
| `Batching.OpenSubMeshEffect` | Assets/Scripts/PrimitiveRenderer/PrimitiveRenderer.cs:386-404 | A new entry is added exactly when the list is empty or the last start differs from the index count. Earlier entries are unchanged. The last entry then starts at the index count and carries the current texture, the matrix, and the material chosen by the font-texture test. |
| `Batching.OpenSubMeshBatched` | Assets/Scripts/PrimitiveRenderer/PrimitiveRenderer.cs:386-394 | Opening a sub-mesh keeps the starts non-decreasing and within the index buffer. |
| `Batching.BatchedGrow` | Assets/Scripts/PrimitiveRenderer/PrimitiveRenderer.cs:418-433 | Appending indices keeps a batched sub-mesh list batched. |
| `Batching.DrawCalls` | Assets/Scripts/PrimitiveRenderer/PrimitiveRenderer.cs:325-349 | There is one draw call per sub-mesh. |
| `Batching.DrawCallsPrefix` | Assets/Scripts/PrimitiveRenderer/PrimitiveRenderer.cs:323-349 | The triangles of the first k draw calls, joined, are the index slice from the first start to the end of range k. |
| `Batching.DrawCallsPartition` | Assets/Scripts/PrimitiveRenderer/PrimitiveRenderer.cs:313-349 | The index ranges of the draw calls, joined in order, are the index buffer from the first start to its end. Call i carries sub-mesh i's texture, material and matrix, and covers the range [start_i, start_{i+1}) up to the sentinel. |
| `Batching.SubMeshList.constructor` | Assets/Scripts/PrimitiveRenderer/PrimitiveRenderer.cs:30-35 | The list is empty and has the given capacity. |
| `Batching.SubMeshList.Add` | Assets/Scripts/PrimitiveRenderer/PrimitiveRenderer.cs:46-55 | The count grows by exactly one. Capacity doubles when the count exceeds it. Earlier entries are preserved, and the new entry's start index is the argument. |
| `Batching.SubMeshList.Clear` | Assets/Scripts/PrimitiveRenderer/PrimitiveRenderer.cs:56-59 | The count becomes 0. |
| `Batching.SubMeshList.SetMaterial` | Assets/Scripts/PrimitiveRenderer/PrimitiveRenderer.cs:61-64 | Only the material of the indexed entry changes. |
| `Batching.SubMeshList.SetTexture` | Assets/Scripts/PrimitiveRenderer/PrimitiveRenderer.cs:65-68 | Only the texture of the indexed entry changes. |
| `Batching.SubMeshList.SetMatrix` | Assets/Scripts/PrimitiveRenderer/PrimitiveRenderer.cs:69-72 | Only the matrix of the indexed entry changes. |
| `Batching.SubMeshList.GetEntry` | Assets/Scripts/PrimitiveRenderer/PrimitiveRenderer.cs:74-89 | Returns the stored entry: its material, texture, start index and matrix. |
| `Batching.OpenSubMesh` | Assets/Scripts/PrimitiveRenderer/PrimitiveRenderer.cs:375-404 | `SetTexture` reuses a last sub-mesh with no indices yet, or opens a new one. Either way, the list grows by at most one, the earlier entries are kept, and the last entry starts at the index count with the new texture. |
| `Geometry.Clamp01` | Assets/Scripts/PrimitiveRenderer/PrimitiveRenderer.cs:187-192 | The interpolation parameter is clamped into [0, 1] and left alone inside it, as Unity's `Lerp` does. |
| `Geometry.Lerp` | Assets/Scripts/PrimitiveRenderer/PrimitiveRenderer.cs:187-192 | `Vertex.Lerp` gives the first vertex for t ≤ 0 and the second for t ≥ 1. |
| `Geometry.MixBetween` | Assets/Scripts/PrimitiveRenderer/PrimitiveRenderer.cs:189-191 | For t in [0, 1], an interpolated coordinate lies between its two ends. |
| `Geometry.MixStrict` | Assets/Scripts/PrimitiveRenderer/PrimitiveRenderer.cs:189-191 | For t in [0, 1], interpolating two values strictly on one side of a bound stays strictly on that side. |
| `Geometry.MixSame` | Assets/Scripts/PrimitiveRenderer/PrimitiveRenderer.cs:189-191 | Interpolating a value with itself gives that value. |
| `Clipping.CrossingParameterInRange` | Assets/Scripts/PrimitiveRenderer/PrimitiveRenderer2D.Mask.cs:46-59 | When an edge crosses the boundary, the denominator `prev − vertex` on the clipped axis is non-zero and the parameter t lies in [0, 1]. |
| `Clipping.Crossing` | Assets/Scripts/PrimitiveRenderer/PrimitiveRenderer2D.Mask.cs:48-49 | The interpolated vertex lies exactly on the boundary. |
| `Clipping.Cross` | Assets/Scripts/PrimitiveRenderer/PrimitiveRenderer2D.Mask.cs:48-50 | Computes the crossing vertex of the edge prev→vertex. |
| `Clipping.EmitStep` | Assets/Scripts/PrimitiveRenderer/PrimitiveRenderer2D.Mask.cs:44-62 | One iteration of a pass adds to the output list exactly the vertices `Step` yields: an optional crossing, then the vertex if it is inside. |
| `Clipping.ClipPass` | Assets/Scripts/PrimitiveRenderer/PrimitiveRenderer2D.Mask.cs:39-63 | One pass fills the other list with the pass of the source items against one half-plane, as the eight-slot list shows it. |
| `Clipping.PassCount` | Assets/Scripts/PrimitiveRenderer/PrimitiveRenderer2D.Mask.cs:39-63 | A pass outputs one vertex per kept input vertex plus one per boundary crossing. |
| `Clipping.PassInside` | Assets/Scripts/PrimitiveRenderer/PrimitiveRenderer2D.Mask.cs:39-63 | Every vertex a pass outputs lies inside its half-plane. |
| `Clipping.PassAllInside` | Assets/Scripts/PrimitiveRenderer/PrimitiveRenderer2D.Mask.cs:44-63 | If every input vertex is inside the half-plane, the pass outputs the input unchanged and in order. |
| `Clipping.PassAllOutside` | Assets/Scripts/PrimitiveRenderer/PrimitiveRenderer2D.Mask.cs:55-60 | If every input vertex is outside the half-plane, the pass outputs nothing. |
| `Clipping.CrossingBetween` | Assets/Scripts/PrimitiveRenderer/PrimitiveRenderer2D.Mask.cs:46-59 | A crossing vertex lies on the same side of any other edge as both ends of its segment, whenever the two ends agree. |
| `Clipping.PassKeepsHalfPlane` | Assets/Scripts/PrimitiveRenderer/PrimitiveRenderer2D.Mask.cs:72-161 | A later pass keeps inside every half-plane that all its input vertices were inside. |
| `Clipping.PassKeepsOutside` | Assets/Scripts/PrimitiveRenderer/PrimitiveRenderer2D.Mask.cs:72-161 | A later pass keeps outside a half-plane that all its input vertices were outside. |
| `Clipping.PassThenWrap` | Assets/Scripts/PrimitiveRenderer/PrimitiveRenderer2D.Mask.cs:39-161 | After a pass and the eight-slot wrap, every vertex is inside this pass's half-plane and all earlier passes' half-planes. |
| `Clipping.PassThenWrapOutside` | Assets/Scripts/PrimitiveRenderer/PrimitiveRenderer2D.Mask.cs:39-161 | After a pass and the wrap, vertices that were all outside another half-plane are still all outside it. |
| `Clipping.ClippedInsideMask` | Assets/Scripts/PrimitiveRenderer/PrimitiveRenderer2D.Mask.cs:34-161 | When the clipped list has at least 3 vertices, every one of them lies inside the mask rectangle. |
| `Clipping.ClipInsideIsIdentity` | Assets/Scripts/PrimitiveRenderer/PrimitiveRenderer2D.Mask.cs:34-161 | A polygon of 3 to 8 vertices entirely inside the mask is returned unchanged: same vertices, same order. |
| `Clipping.ClipOutsideEdge` | Assets/Scripts/PrimitiveRenderer/PrimitiveRenderer2D.Mask.cs:34-161 | A polygon entirely outside one mask edge clips to at most 2 vertices, so nothing is drawn. |
| `Clipping.Pass` | Assets/Scripts/PrimitiveRenderer/PrimitiveRenderer2D.Mask.cs:40-63 | Every vertex one clipping pass keeps or creates lies inside that edge of the mask. |
| `Emission.FanIndices` | Assets/Scripts/PrimitiveRenderer/PrimitiveRenderer.cs:450-464 | A polygon of n vertices gets 3·(n−2) indices when n ≥ 3, and none otherwise. |
| `Emission.FanIndicesPair` | Assets/Scripts/PrimitiveRenderer/PrimitiveRenderer.cs:450-457 | Two more vertices add the quad indices (vc, vc+n−1, vc+n, vc+n+1). |
| `Emission.FanShape` | Assets/Scripts/PrimitiveRenderer/PrimitiveRenderer.cs:435-465 | Triangle k of the fan is (vc, vc+k+1, vc+k+2). So every triangle contains the first vertex, and every index lies in [vc, vc+n). |
| `Emission.PolygonPrefixStart` | Assets/Scripts/PrimitiveRenderer/PrimitiveRenderer.cs:445-448 | The first two vertices are appended with no indices. |
| `Emission.PolygonPrefixPair` | Assets/Scripts/PrimitiveRenderer/PrimitiveRenderer.cs:450-457 | One loop iteration appends vertices i−1 and i and one quad of indices. |
| `Emission.PolygonPrefixLast` | Assets/Scripts/PrimitiveRenderer/PrimitiveRenderer.cs:459-464 | For an odd count, the last vertex and one triangle are appended. |
| `Emission.PolygonPrefixWhole` | Assets/Scripts/PrimitiveRenderer/PrimitiveRenderer.cs:435-465 | Running the loop to the end gives `AppendPolygon`: every list vertex in order, plus the fan indices. |
| `Emission.AppendPolygonWellFormed` | Assets/Scripts/PrimitiveRenderer/PrimitiveRenderer.cs:435-465 | Appending a polygon keeps every index valid and in whole triangles. It adds 3·(n−2) indices for n ≥ 3, each naming one of the n new vertices. |
| `Emission.SmallPolygons` | Assets/Scripts/PrimitiveRenderer/PrimitiveRenderer.cs:418-433 | The 3- and 4-index forms of `AddIndices` after three or four vertices give the fan of a triangle or quad. |
| `Emission.UnmaskedIsPolygon` | Assets/Scripts/PrimitiveRenderer/PrimitiveRenderer2D.Triangle.cs:8-18 | Without a mask, a triangle or quad appends its vertices in order and the indices (vc, vc+1, vc+2) or (vc, vc+1, vc+2, vc, vc+2, vc+3). |
| `Emission.FillPolygonInside` | Assets/Scripts/PrimitiveRenderer/PrimitiveRenderer2D.Triangle.cs:20-26 | A masked triangle or quad entirely inside the mask emits the same as without a mask. |
| `Emission.FillPolygonOutside` | Assets/Scripts/PrimitiveRenderer/PrimitiveRenderer2D.Triangle.cs:20-26 | A masked triangle or quad entirely outside one mask edge emits nothing. |
| `Emission.FillPolygonMasked` | Assets/Scripts/PrimitiveRenderer/PrimitiveRenderer2D.Triangle.cs:20-26 | A masked triangle or quad keeps the buffer well formed and the earlier vertices unchanged. Every new vertex lies inside the mask, and every new index refers only to vertices this call appended. |
| `Emission.AppendInsideMask` | Assets/Scripts/PrimitiveRenderer/PrimitiveRenderer2D.Triangle.cs:25-26 | Appending a clipped polygon adds only vertices inside the mask, and indices that name only them. |
| `Emission.RejectsIffDisjoint` | Assets/Scripts/PrimitiveRenderer/PrimitiveRenderer2D.Rectangle.cs:46-55 | The reject test holds exactly when the mask and the rectangle do not intersect; rectangles that only touch the mask are kept. Otherwise `drawRect` lies inside both. |
| `Emission.FillRectShape` | Assets/Scripts/PrimitiveRenderer/PrimitiveRenderer2D.Rectangle.cs:180-280 | A rejected rectangle emits nothing. Otherwise exactly 4 vertices are emitted at the corners of the mask ∩ rectangle (or of the rectangle without a mask), with the 6 quad indices. A rectangle inside the mask emits as without one. |
| `Emission.ReinterpolateUnclipped` | Assets/Scripts/PrimitiveRenderer/PrimitiveRenderer2D.Rectangle.cs:138-167 | An unclipped rectangle keeps its original UVs and colours, both as written and corrected. |
| `Emission.ReinterpolateKeepsColor` | Assets/Scripts/PrimitiveRenderer/PrimitiveRenderer2D.Rectangle.cs:138-167 | In the uv-only form, re-interpolation never changes the corners' single colour. |
| `Emission.ReinterpolateKeepsPositions` | Assets/Scripts/PrimitiveRenderer/PrimitiveRenderer2D.Rectangle.cs:236-273 | Re-interpolation changes only UVs and colours, never positions. |
| `Emission.FillRectSolidAgrees` | Assets/Scripts/PrimitiveRenderer/PrimitiveRenderer2D.Rectangle.cs:40-77 | `FillRectangle(Vector4, Vector2)` emits nothing when rejected. When there is no mask, or the rectangle lies inside the mask, it emits what the general form emits with one uv and the current colour on all corners. |
| `Emission.FillRectSolidUnclipped` | Assets/Scripts/PrimitiveRenderer/PrimitiveRenderer2D.Rectangle.cs:62-75 | Counterexample: with mask (0,0,5,5), the rectangle (0,0,10,10) emits a corner outside the mask. |
| `Emission.ReinterpolateSkewed` | Assets/Scripts/PrimitiveRenderer/PrimitiveRenderer2D.Rectangle.cs:138-167 | Counterexample: a uv gradient 0→1 across (0,0,4,1), clipped to x in [1,3], gets 13/16 at the right corner instead of 3/4. |
| `Emission.ReinterpolateCorrectedExact` | Assets/Scripts/PrimitiveRenderer/PrimitiveRenderer2D.Rectangle.cs:138-167 | Corrected: after clipping, a horizontal gradient has at the left and right corners exactly its values at the clipped x positions. |
| `Emission.HorizontalLineRect` | Assets/Scripts/PrimitiveRenderer/PrimitiveRenderer2D.Line.cs:7-11 | The filled rectangle starts at leftX with the given length. Its thickness is the line width, centred on y. |
| `Emission.VerticalLineRect` | Assets/Scripts/PrimitiveRenderer/PrimitiveRenderer2D.Line.cs:13-17 | The filled rectangle starts at topY with the given length. Its thickness is the line width, centred on x. |
| `Emission.BorderCoversBand` | Assets/Scripts/PrimitiveRenderer/PrimitiveRenderer2D.Rectangle.cs:347-357 | The four lines of `DrawRectangle` cover exactly the points within half a line width of the outline. |
| `Emission.InsideBorderLeaves` | Assets/Scripts/PrimitiveRenderer/PrimitiveRenderer2D.Rectangle.cs:362-372 | Counterexample: `DrawRectangleInside` of (0,0,10,10) with width 2 covers the point (5,−1), which is outside the rectangle. |
| `Emission.InsideBorderCorrectedCoversBand` | Assets/Scripts/PrimitiveRenderer/PrimitiveRenderer2D.Rectangle.cs:362-372 | Corrected: the four lines cover exactly the points of the rectangle within one line width of its edges. |
| `Emission.FillPolygon` | Assets/Scripts/PrimitiveRenderer/PrimitiveRenderer2D.Triangle.cs:6-27 | A triangle or quad never shrinks the buffers. Without a mask it adds its 3 or 4 vertices and 3 or 6 indices. |
| `Emission.FillRect` | Assets/Scripts/PrimitiveRenderer/PrimitiveRenderer2D.Rectangle.cs:180-280 | A rectangle adds 4 vertices and 6 indices, or nothing when the mask rejects it. |
| `Emission.FillRectSolid` | Assets/Scripts/PrimitiveRenderer/PrimitiveRenderer2D.Rectangle.cs:40-77 | The one-uv, one-colour rectangle adds 4 vertices and 6 indices, or nothing when the mask rejects it. |
| `Emission.Reinterpolate` | Assets/Scripts/PrimitiveRenderer/PrimitiveRenderer2D.Rectangle.cs:236-273 | As written, re-interpolation moves no corner: the four positions are those of the unclipped quad. |
| `Emission.ReinterpolateCorrected` | Assets/Scripts/PrimitiveRenderer/PrimitiveRenderer2D.Rectangle.cs:236-273 | Corrected re-interpolation moves no corner either: the four positions are kept. |
| `Emission.BorderRects` | Assets/Scripts/PrimitiveRenderer/PrimitiveRenderer2D.Rectangle.cs:347-357 | `DrawRectangle` draws four rectangles: the top and bottom edges widened by half the line width at each end, and the left and right edges between them. |
| `Emission.InsideBorderRects` | Assets/Scripts/PrimitiveRenderer/PrimitiveRenderer2D.Rectangle.cs:362-372 | `DrawRectangleInside` draws four rectangles: the top and bottom lines from the left edge to half a line width past the right edge, and the sides starting one line width below the top. |
| `TextLayout.FormatOrDefault` | Assets/Scripts/PrimitiveRenderer/PrimitiveRenderer2D.Text.cs:16-36 | A missing format means Left, Top, Nothing, Normal, size 20 and line height 30. A given format is used as is. |
| `TextLayout.Split` | Assets/Scripts/PrimitiveRenderer/PrimitiveRenderer2D.Text.cs:199-224 | Every text has at least one line. |
| `TextLayout.SplitJoin` | Assets/Scripts/PrimitiveRenderer/PrimitiveRenderer2D.Text.cs:199-224 | The lines joined with '\n' give back the text, and no line contains '\n'. |
| `TextLayout.SplitCount` | Assets/Scripts/PrimitiveRenderer/PrimitiveRenderer2D.Text.cs:205-213 | The number of lines is one more than the number of '\n'. |
| `TextLayout.MaxAdvance` | Assets/Scripts/PrimitiveRenderer/PrimitiveRenderer2D.Text.cs:226-229 | The widest line's advance is never negative. |
| `TextLayout.MaxAdvanceIsMax` | Assets/Scripts/PrimitiveRenderer/PrimitiveRenderer2D.Text.cs:207-229 | It is at least every line's advance, and it equals some line's advance unless it is 0. |
| `TextLayout.StackedIsProduct` | Assets/Scripts/PrimitiveRenderer/PrimitiveRenderer2D.Text.cs:195-213 | Adding the line height once per line gives line height × number of lines. |
| `TextLayout.MeasureWhole` | Assets/Scripts/PrimitiveRenderer/PrimitiveRenderer2D.Text.cs:156-165 | Empty text measures (0, 0). |
| `TextLayout.MeasureHeight` | Assets/Scripts/PrimitiveRenderer/PrimitiveRenderer2D.Text.cs:195-213 | The measured height is LineHeight × (1 + number of '\n' in [start, end)). |
| `TextLayout.MeasureWidth` | Assets/Scripts/PrimitiveRenderer/PrimitiveRenderer2D.Text.cs:197-231 | The measured width is non-negative and at least each line's summed glyph advance times FontSize / font.lineHeight. |
| `TextLayout.TallyIsLines` | Assets/Scripts/PrimitiveRenderer/PrimitiveRenderer2D.Text.cs:197-229 | The measuring loop's state after any prefix consists of three things. The first is the widest finished line's advance. The second is the current line's advance, where control characters and missing glyphs add nothing. The third is the line count. |
| `TextLayout.TallyOfStep` | Assets/Scripts/PrimitiveRenderer/PrimitiveRenderer2D.Text.cs:199-224 | One loop iteration updates the tally as the loop body does. |
| `TextLayout.MeasureFromTally` | Assets/Scripts/PrimitiveRenderer/PrimitiveRenderer2D.Text.cs:195-231 | The measurement is the larger of the finished and current advances, scaled, by the stacked line height. |
| `TextLayout.ShrinkScaleBounds` | Assets/Scripts/PrimitiveRenderer/PrimitiveRenderer2D.Text.cs:46-70 | As written, the shrink scale is in [0, 1]. It is 1 exactly when either axis fits. When both overflow, the shrunk text still reaches or exceeds the area on both axes. |
| `TextLayout.ShrinkKeepsOverflow` | Assets/Scripts/PrimitiveRenderer/PrimitiveRenderer2D.Text.cs:54-64 | Example: text 200 wide and 30 high in a 100×100 area is not shrunk at all. |
| `TextLayout.ShrinkStillOverflows` | Assets/Scripts/PrimitiveRenderer/PrimitiveRenderer2D.Text.cs:64 | Counterexample: text 200×200 in a 100×50 area is scaled by 0.5, leaving it 100 high in a 50-high area. |
| `TextLayout.ShrinkScaleFittingFits` | Assets/Scripts/PrimitiveRenderer/PrimitiveRenderer2D.Text.cs:46-70 | Corrected: the smaller per-axis scale is in [0, 1] and is 1 exactly when both axes fit. The scaled text fits the area on both axes. |
| `TextLayout.MiddleTop` | Assets/Scripts/PrimitiveRenderer/PrimitiveRenderer2D.Text.cs:72-75 | Middle alignment leaves equal gaps above and below the measured text. |
| `TextLayout.TypesetStep` | Assets/Scripts/PrimitiveRenderer/PrimitiveRenderer2D.Text.cs:127-153 | One character appends its glyph quad at the current pen and moves the pen as the loop body does. |
| `TextLayout.PenAtY` | Assets/Scripts/PrimitiveRenderer/PrimitiveRenderer2D.Text.cs:125-136 | The pen's y is the top plus FontSize plus one LineHeight per '\n' passed. |
| `TextLayout.PenAtX` | Assets/Scripts/PrimitiveRenderer/PrimitiveRenderer2D.Text.cs:124-151 | The pen's x is the left edge plus the current line's scaled advance: a '\n' resets it, and other control characters do not move it. |
| `TextLayout.IndexOf` | Assets/Scripts/PrimitiveRenderer/PrimitiveRenderer2D.Text.cs:95 | Finds the first occurrence at or after start, and finds none exactly when there is none. |
| `TextLayout.LineEnd` | Assets/Scripts/PrimitiveRenderer/PrimitiveRenderer2D.Text.cs:95-101 | A line ends between its start and the end of the text. |
| `TextLayout.LineEndIsIndexOf` | Assets/Scripts/PrimitiveRenderer/PrimitiveRenderer2D.Text.cs:95-101 | The line ends at the next '\n', or at the end of the text when there is none. |
| `TextLayout.LineIsSingle` | Assets/Scripts/PrimitiveRenderer/PrimitiveRenderer2D.Text.cs:95-103 | The text between a start and its line end is one line. |
| `TextLayout.LineMeasure` | Assets/Scripts/PrimitiveRenderer/PrimitiveRenderer2D.Text.cs:103 | A single line measures as its scaled glyph advance. |
| `TextLayout.CenterFromStep` | Assets/Scripts/PrimitiveRenderer/PrimitiveRenderer2D.Text.cs:93-114 | One iteration of the centring loop draws the line and goes on one LineHeight lower after its '\n', or stops at the end of the text. |
| `TextLayout.CenteredLineSymmetric` | Assets/Scripts/PrimitiveRenderer/PrimitiveRenderer2D.Text.cs:104 | A centred line has equal margins on the left and on the right of the area. |
| `TextLayout.IsControl` | Assets/Scripts/PrimitiveRenderer/PrimitiveRenderer2D.Text.cs:129-138 | '\n' is a control character and printable ASCII is not; a control character draws nothing. |
| `TextLayout.GlyphAdvance` | Assets/Scripts/PrimitiveRenderer/PrimitiveRenderer2D.Text.cs:140-151 | A control character, or one the font has no glyph for in the style, advances the pen by nothing. Any other character advances it by the glyph's advance. |
| `TextLayout.Measure` | Assets/Scripts/PrimitiveRenderer/PrimitiveRenderer2D.Text.cs:171-232 | Empty text measures (0, 0), and the width is non-negative when FontSize is; its height is given by `MeasureHeight`. |
| `TextLayout.MeasureLines` | Assets/Scripts/PrimitiveRenderer/PrimitiveRenderer2D.Text.cs:195-231 | The height is one LineHeight added per line (LineHeight × their count by `StackedIsProduct`), and the width is non-negative when FontSize is. |
| `TextLayout.ShrinkScale` | Assets/Scripts/PrimitiveRenderer/PrimitiveRenderer2D.Text.cs:46-70 | As written, with `Math.Max`: for non-negative sizes the factor is at most 1, and it is 1 exactly when the text fits along either axis. |
| `TextLayout.ShrinkScaleFitting` | Assets/Scripts/PrimitiveRenderer/PrimitiveRenderer2D.Text.cs:46-70 | Corrected, with the smaller factor: at most 1, and 1 exactly when the text fits along both axes. |
| `TextLayout.Shrunk` | Assets/Scripts/PrimitiveRenderer/PrimitiveRenderer2D.Text.cs:64-69 | Only the Shrink overflow changes the format, and only when the factor is not 1. Only FontSize and LineHeight change. |
| `TextLayout.ShrunkKeepsRatio` | Assets/Scripts/PrimitiveRenderer/PrimitiveRenderer2D.Text.cs:65-69 | FontSize and LineHeight are scaled by the same factor, so their ratio is kept. |
| `TextLayout.NextX` | Assets/Scripts/PrimitiveRenderer/PrimitiveRenderer2D.Text.cs:130-151 | After '\n' the pen returns to the left edge. Other control characters leave x where it was. |
| `TextLayout.NextY` | Assets/Scripts/PrimitiveRenderer/PrimitiveRenderer2D.Text.cs:130-138 | Only '\n' moves the pen down, and by exactly one LineHeight. |
| `TextLayout.PenAt` | Assets/Scripts/PrimitiveRenderer/PrimitiveRenderer2D.Text.cs:124-152 | Right after a '\n' the pen is at the left edge. Before any '\n', the baseline is the top plus FontSize. |
| `TextLayout.TypesetRange` | Assets/Scripts/PrimitiveRenderer/PrimitiveRenderer2D.Text.cs:119-154 | `DrawTextInternal` only appends: the vertex and index buffers never shrink. |
| `TextLayout.CenterFrom` | Assets/Scripts/PrimitiveRenderer/PrimitiveRenderer2D.Text.cs:87-115 | The centring loop only appends: the vertex and index buffers never shrink. |
| `VirtualScreen.ReferenceFromHeight` | Assets/Scripts/PrimitiveRenderer/PrimitiveRenderer2D.cs:72-82 | The height is the given one. The scale maps the screen height to it, and the screen width to the reference width. |
| `VirtualScreen.ReferenceFromWidth` | Assets/Scripts/PrimitiveRenderer/PrimitiveRenderer2D.cs:84-94 | The width is the given one. The scale maps the screen width to it, and the screen height to the reference height. |
| `VirtualScreen.AspectPreserved` | Assets/Scripts/PrimitiveRenderer/PrimitiveRenderer2D.cs:72-94 | Both setters keep refW / refH = screenW / screenH. |
| `VirtualScreen.InitialReference` | Assets/Scripts/PrimitiveRenderer/PrimitiveRenderer2D.cs:46-53 | For aspect ≥ 16/9 the height is 640; otherwise the width is 1136. |
| `VirtualScreen.InitialReferenceCovers` | Assets/Scripts/PrimitiveRenderer/PrimitiveRenderer2D.cs:46-53 | When the camera aspect is the screen's, the virtual screen is at least 1136 wide and more than 639 high. |
| `VirtualScreen.CameraTransform` | Assets/Scripts/PrimitiveRenderer/PrimitiveRenderer2D.cs:103-110 | The y scale is the negated x scale, and scale × refH = 2 × orthographicSize. |
| `VirtualScreen.CameraTransformCorners` | Assets/Scripts/PrimitiveRenderer/PrimitiveRenderer2D.cs:103-110 | Virtual (0,0) maps to (−halfW, halfH), and (refW, refH) maps to (halfW, −halfH). |
| `VirtualScreen.ScreenToVirtualRoundTrip` | Assets/Scripts/DebugUi/DebugUiManager.cs:191-197 | The screen-to-virtual mapping and its inverse undo each other. |
| `VirtualScreen.ScreenCornersToVirtual` | Assets/Scripts/DebugUi/DebugUiManager.cs:191-197 | The screen's bottom-left maps to virtual (0,0), and its top-right to (refW, refH). |
| `Renderer.WhiteRectsUnmasked` | Assets/Scripts/PrimitiveRenderer/PrimitiveRenderer2D.Rectangle.cs:338-342 | Without a mask, n white rectangles add 4n vertices and 6n indices, each under a font-texture sub-mesh. |
| `Renderer.PrimitiveRenderer2D.constructor` | Assets/Scripts/PrimitiveRenderer/PrimitiveRenderer2D.cs:38-54 | The constructor leaves: empty buffers and sub-mesh list, no texture, no mask, and the white uv of the font. The reference screen follows the aspect rule, and the matrix is the camera transform. |
| `Renderer.PrimitiveRenderer2D.AddVertex` | Assets/Scripts/PrimitiveRenderer/PrimitiveRenderer.cs:406-411 | Appends exactly the one vertex, keeping the three vertex lists the same length. The indices do not change. |
| `Renderer.PrimitiveRenderer2D.AddTriangleIndices` | Assets/Scripts/PrimitiveRenderer/PrimitiveRenderer.cs:418-423 | Appends exactly [i0, i1, i2]. Nothing else changes. |
| `Renderer.PrimitiveRenderer2D.AddQuadIndices` | Assets/Scripts/PrimitiveRenderer/PrimitiveRenderer.cs:425-433 | Appends exactly [i0, i1, i2, i0, i2, i3]. Nothing else changes. |
| `Renderer.PrimitiveRenderer2D.AddPolygon` | Assets/Scripts/PrimitiveRenderer/PrimitiveRenderer.cs:435-465 | Appends nothing for at most 2 vertices. Otherwise it appends the list's vertices in order and the fan indices, as `AppendPolygon` says. |
| `Renderer.PrimitiveRenderer2D.AddFanStart` | Assets/Scripts/PrimitiveRenderer/PrimitiveRenderer.cs:442-448 | Appends the first two list vertices. |
| `Renderer.PrimitiveRenderer2D.AddFanPair` | Assets/Scripts/PrimitiveRenderer/PrimitiveRenderer.cs:450-457 | Appends list vertices i−1 and i and their quad of indices. |
| `Renderer.PrimitiveRenderer2D.AddFanLast` | Assets/Scripts/PrimitiveRenderer/PrimitiveRenderer.cs:459-464 | Appends the last vertex of an odd-sized list and its triangle. |
| `Renderer.PrimitiveRenderer2D.EmitTriangle` | Assets/Scripts/PrimitiveRenderer/PrimitiveRenderer2D.Triangle.cs:10-15 | Appends v0, v1, v2 and the indices (vc, vc+1, vc+2). |
| `Renderer.PrimitiveRenderer2D.EmitQuad` | Assets/Scripts/PrimitiveRenderer/PrimitiveRenderer2D.Rectangle.cs:14-20 | Appends v0 to v3 and the indices (vc, vc+1, vc+2, vc, vc+2, vc+3). |
| `Renderer.PrimitiveRenderer2D.SutherlandHodgman` | Assets/Scripts/PrimitiveRenderer/PrimitiveRenderer2D.Mask.cs:34-161 | The list ends up holding the four-pass clip of its old items against the mask, including the early exits. |
| `Renderer.PrimitiveRenderer2D.ClipFromTop` | Assets/Scripts/PrimitiveRenderer/PrimitiveRenderer2D.Mask.cs:72-161 | The top, right and bottom passes finish the clip that the left pass began. |
| `Renderer.PrimitiveRenderer2D.ClipFromRight` | Assets/Scripts/PrimitiveRenderer/PrimitiveRenderer2D.Mask.cs:103-161 | The right and bottom passes finish the clip. |
| `Renderer.PrimitiveRenderer2D.ClipBottom` | Assets/Scripts/PrimitiveRenderer/PrimitiveRenderer2D.Mask.cs:137-161 | The bottom pass finishes the clip. |
| `Renderer.PrimitiveRenderer2D.NewList` | Assets/Scripts/PrimitiveRenderer/PrimitiveRenderer2D.Triangle.cs:20-23 | A fresh list holding the given vertices in order. |
| `Renderer.PrimitiveRenderer2D.FillTriangle` | Assets/Scripts/PrimitiveRenderer/PrimitiveRenderer2D.Triangle.cs:6-27 | Appends the triangle unmasked, or its clip followed by `AddPolygon` when masked. |
| `Renderer.PrimitiveRenderer2D.FillRectangleVertices` | Assets/Scripts/PrimitiveRenderer/PrimitiveRenderer2D.Rectangle.cs:10-33 | Appends the quad unmasked, or its clip followed by `AddPolygon` when masked. |
| `Renderer.PrimitiveRenderer2D.FillRectangleColors` | Assets/Scripts/PrimitiveRenderer/PrimitiveRenderer2D.Rectangle.cs:180-280 | Appends what the reject-and-intersect form with per-corner UVs and colours emits, including the sequential re-interpolation. |
| `Renderer.PrimitiveRenderer2D.FillRectangleUv` | Assets/Scripts/PrimitiveRenderer/PrimitiveRenderer2D.Rectangle.cs:83-174 | Appends the same with the current colour on every corner and only UVs re-interpolated. |
| `Renderer.PrimitiveRenderer2D.FillRectangleSolid` | Assets/Scripts/PrimitiveRenderer/PrimitiveRenderer2D.Rectangle.cs:40-77 | Appends nothing when rejected. Otherwise it appends the unclipped corners with one uv and the current colour. |
| `Renderer.PrimitiveRenderer2D.FillRectangleWhite` | Assets/Scripts/PrimitiveRenderer/PrimitiveRenderer2D.Rectangle.cs:338-342 | Resets the texture to the font texture. Then it appends the rectangle with the white uv and the current colour. |
| `Renderer.PrimitiveRenderer2D.FillTrianglePoints` | Assets/Scripts/PrimitiveRenderer/PrimitiveRenderer2D.Rectangle.cs:282-305 | Resets the texture to the font texture. Then it fills the triangle of white-uv vertices in the current colour. |
| `Renderer.PrimitiveRenderer2D.FillRectanglePoints` | Assets/Scripts/PrimitiveRenderer/PrimitiveRenderer2D.Rectangle.cs:307-336 | Resets the texture to the font texture. Then it fills the quad of white-uv vertices in the current colour. |
| `Renderer.PrimitiveRenderer2D.DrawHorizontalLine` | Assets/Scripts/PrimitiveRenderer/PrimitiveRenderer2D.Line.cs:7-11 | Fills (leftX, y − w/2, leftX + length, y + w/2) as a white rectangle. |
| `Renderer.PrimitiveRenderer2D.DrawVerticalLine` | Assets/Scripts/PrimitiveRenderer/PrimitiveRenderer2D.Line.cs:13-17 | Fills (x − w/2, topY, x + w/2, topY + length) as a white rectangle. |
| `Renderer.PrimitiveRenderer2D.DrawRectangle` | Assets/Scripts/PrimitiveRenderer/PrimitiveRenderer2D.Rectangle.cs:347-357 | Draws exactly four lines: horizontal at y and w from x − lw/2 with length width + lw, then vertical at x and z from y + lw/2 with length height − lw. |
| `Renderer.PrimitiveRenderer2D.DrawHorizontalPair` | Assets/Scripts/PrimitiveRenderer/PrimitiveRenderer2D.Rectangle.cs:353-354 | Draws the two horizontal lines in order. |
| `Renderer.PrimitiveRenderer2D.DrawVerticalPair` | Assets/Scripts/PrimitiveRenderer/PrimitiveRenderer2D.Rectangle.cs:355-356 | Draws the two vertical lines in order. |
| `Renderer.PrimitiveRenderer2D.DrawRectangleInside` | Assets/Scripts/PrimitiveRenderer/PrimitiveRenderer2D.Rectangle.cs:362-372 | Draws exactly four lines: horizontal from x with length width + lw/2, then vertical from y + lw with length height − lw. |
| `Renderer.PrimitiveRenderer2D.MeasureTextRange` | Assets/Scripts/PrimitiveRenderer/PrimitiveRenderer2D.Text.cs:171-232 | Returns the measurement of [start, end): (0, 0) for empty text, otherwise the widest scaled line by the stacked line height. |
| `Renderer.PrimitiveRenderer2D.TallyRange` | Assets/Scripts/PrimitiveRenderer/PrimitiveRenderer2D.Text.cs:195-229 | The loop ends with the tally of the range and a height of one LineHeight per line. |
| `Renderer.PrimitiveRenderer2D.MeasureText` | Assets/Scripts/PrimitiveRenderer/PrimitiveRenderer2D.Text.cs:156-165 | Returns (0, 0) for empty text, and otherwise the measurement of the whole text. |
| `Renderer.PrimitiveRenderer2D.LayOutText` | Assets/Scripts/PrimitiveRenderer/PrimitiveRenderer2D.Text.cs:26-77 | Returns the format after shrinking, the top after middle alignment (using the unshrunk size) and the line-gap offset, and the font scale. |
| `Renderer.PrimitiveRenderer2D.ShrinkToArea` | Assets/Scripts/PrimitiveRenderer/PrimitiveRenderer2D.Text.cs:46-70 | The shrink step of `DrawText` computes exactly `Shrunk`: FontSize and LineHeight scaled by the `ShrinkScale` factor unless it is one. |
| `Renderer.PrimitiveRenderer2D.DrawText` | Assets/Scripts/PrimitiveRenderer/PrimitiveRenderer2D.Text.cs:26-117 | Resets the texture to the font texture. Then it typesets the text with that layout: left-aligned as a whole, or centred line by line. |
| `Renderer.PrimitiveRenderer2D.DrawCentered` | Assets/Scripts/PrimitiveRenderer/PrimitiveRenderer2D.Text.cs:87-115 | Draws every line centred in the area, each one LineHeight below the previous. |
| `Renderer.PrimitiveRenderer2D.DrawCenteredLine` | Assets/Scripts/PrimitiveRenderer/PrimitiveRenderer2D.Text.cs:95-113 | Draws the line from start to its end, centred. It says whether that was the end of the text; otherwise it returns the start of the next line, just past the '\n', and a top one LineHeight lower, from which centring the rest completes the text. |
| `Renderer.PrimitiveRenderer2D.FindLineEnd` | Assets/Scripts/PrimitiveRenderer/PrimitiveRenderer2D.Text.cs:95-101 | The line ends at the first '\n' from start, or at the end of the text, which is then flagged as the end of the string. |
| `Renderer.PrimitiveRenderer2D.TypesetText` | Assets/Scripts/PrimitiveRenderer/PrimitiveRenderer2D.Text.cs:79-116 | Opens the font-texture sub-mesh at the current index count, then appends `TypesetRange` of the whole text for Left alignment or `CenterFrom` for Center, from the pen at the area's left edge and the given top. |
| `Renderer.PrimitiveRenderer2D.DrawLines` | Assets/Scripts/PrimitiveRenderer/PrimitiveRenderer2D.Text.cs:81-116 | The switch on the alignment: Left typesets the whole text from the area's left edge, Center centres each line. |
| `Renderer.PrimitiveRenderer2D.DrawLine` | Assets/Scripts/PrimitiveRenderer/PrimitiveRenderer2D.Text.cs:103-105 | Typesets a line from x = area.x + (areaWidth − lineWidth)/2. |
| `Renderer.PrimitiveRenderer2D.DrawTextInternal` | Assets/Scripts/PrimitiveRenderer/PrimitiveRenderer2D.Text.cs:119-154 | Appends one quad per found glyph in [start, end), along the pen. |
| `Renderer.PrimitiveRenderer2D.TypesetCharacter` | Assets/Scripts/PrimitiveRenderer/PrimitiveRenderer2D.Text.cs:129-152 | A '\n' moves to the left edge one LineHeight down. Other control characters do nothing. A found glyph appends its quad and advances x by advance × scale. |
| `Renderer.PrimitiveRenderer2D.AddSubMesh` | Assets/Scripts/PrimitiveRenderer/PrimitiveRenderer.cs:386-404 | The sub-mesh list becomes `OpenSubMesh` of the old list at the current index count, texture and matrix. |
| `Renderer.PrimitiveRenderer2D.OpenIfNeeded` | Assets/Scripts/PrimitiveRenderer/PrimitiveRenderer.cs:388-391 | After this, the last entry starts at the index count. Earlier entries are unchanged. |
| `Renderer.PrimitiveRenderer2D.DescribeLast` | Assets/Scripts/PrimitiveRenderer/PrimitiveRenderer.cs:393-403 | The last entry gets the current texture, the matrix and the material for that texture. It keeps its start. |
| `Renderer.PrimitiveRenderer2D.SetTexture` | Assets/Scripts/PrimitiveRenderer/PrimitiveRenderer.cs:375-379 | Sets the current texture, then opens or overwrites the sub-mesh for it. |
| `Renderer.PrimitiveRenderer2D.ResetTexture` | Assets/Scripts/PrimitiveRenderer/PrimitiveRenderer.cs:381-384 | Sets the font texture as the current texture. |
| `Renderer.PrimitiveRenderer2D.Draw` | Assets/Scripts/PrimitiveRenderer/PrimitiveRenderer.cs:308-358 | With no sub-meshes it issues no draws. Otherwise it issues one call per sub-mesh over the partitioned index ranges and gives the mesh the old buffers. In both cases every buffer and the sub-mesh list end empty and the texture ends null. |
| `Renderer.PrimitiveRenderer2D.IssueDrawCalls` | Assets/Scripts/PrimitiveRenderer/PrimitiveRenderer.cs:323-349 | The loop issues exactly `DrawCalls` of the entries and the index buffer. |
| `Renderer.PrimitiveRenderer2D.CopyIndices` | Assets/Scripts/PrimitiveRenderer/PrimitiveRenderer.cs:336-340 | Copies exactly the index slice [start, end). |
| `Renderer.PrimitiveRenderer2D.Mask` | Assets/Scripts/PrimitiveRenderer/PrimitiveRenderer2D.Mask.cs:9-12 | Returns the stored rectangle exactly when `hasMask` is set. |
| `Renderer.PrimitiveRenderer2D.SetMask` | Assets/Scripts/PrimitiveRenderer/PrimitiveRenderer2D.Mask.cs:13-24 | Setting null clears `hasMask` and leaves the rectangle alone. Setting a value stores it, so the getter returns what was set. |
| `Renderer.PrimitiveRenderer2D.SetReferenceScreenHeight` | Assets/Scripts/PrimitiveRenderer/PrimitiveRenderer2D.cs:72-82 | The reference becomes `ReferenceFromHeight`. The matrix follows the camera, and is left unchanged without one. |
| `Renderer.PrimitiveRenderer2D.SetReferenceScreenWidth` | Assets/Scripts/PrimitiveRenderer/PrimitiveRenderer2D.cs:84-94 | The reference becomes `ReferenceFromWidth`. The matrix follows the camera, and is left unchanged without one. |
| `Renderer.PrimitiveRenderer2D.InitializeTransform` | Assets/Scripts/PrimitiveRenderer/PrimitiveRenderer2D.cs:96-111 | With no camera, the transform fields and the matrix are unchanged. Otherwise the matrix is the camera transform, built from the scale and offsets it stores. |
| `Renderer.ReinterpolateCorners` | Assets/Scripts/PrimitiveRenderer/PrimitiveRenderer2D.Rectangle.cs:236-273 | The four step-by-step reassignments compute `Reinterpolate`, as written. |
| `Renderer.ReinterpolateUvs` | Assets/Scripts/PrimitiveRenderer/PrimitiveRenderer2D.Rectangle.cs:138-167 | The uv-only reassignments compute the same, with colours untouched. |
| `Renderer.ClipEndsAfterLeft` | Assets/Scripts/PrimitiveRenderer/PrimitiveRenderer2D.Mask.cs:65-70 | A left pass leaving at most 2 vertices ends the clip with an empty list. |
| `Renderer.ClipEndsAfterTop` | Assets/Scripts/PrimitiveRenderer/PrimitiveRenderer2D.Mask.cs:98-101 | A top pass leaving at most 2 vertices ends the clip with those vertices. |
| `Renderer.ClipEndsAfterRight` | Assets/Scripts/PrimitiveRenderer/PrimitiveRenderer2D.Mask.cs:130-135 | A right pass leaving at most 2 vertices ends the clip with an empty list. |
| `Renderer.ClipEndsAfterBottom` | Assets/Scripts/PrimitiveRenderer/PrimitiveRenderer2D.Mask.cs:137-161 | Otherwise the clip is the bottom pass's output. |
| `Renderer.WhiteRectAppends` | Assets/Scripts/PrimitiveRenderer/PrimitiveRenderer2D.Rectangle.cs:338-342 | `FillRectangle(Vector4)` adds six indices unless the mask rejects the rectangle, and leaves the font texture current from the index count it started at. |
| `Renderer.FitsShrinkInArea` | Assets/Scripts/PrimitiveRenderer/PrimitiveRenderer2D.Text.cs:46-70 | The requirement on shrinking always holds for a non-negative FontSize in an area of non-negative size, whatever the text. |
| `Renderer.TextCanvas` | Assets/Scripts/PrimitiveRenderer/PrimitiveRenderer2D.Text.cs:26-117 | `DrawText` leaves the font texture current, in a sub-mesh that starts at the index count before the text. |
| `DebugTree.HitTest` | Assets/Scripts/DebugUi/DebugUiControl.cs:193-223 | Returns the recursive hit predicate. It is false when disabled; otherwise it is true for an event-enabled control containing the point in its closed box, or when some child hits. |
| `DebugTree.HitHasEnabledPath` | Assets/Scripts/DebugUi/DebugUiControl.cs:193-223 | A hit has a witness: a path through enabled controls to an event-enabled control that contains the point. |
| `DebugTree.EnabledPathHits` | Assets/Scripts/DebugUi/DebugUiControl.cs:193-223 | Any such path makes the root hit. |
| `DebugTree.HitsIffEnabledPath` | Assets/Scripts/DebugUi/DebugUiControl.cs:193-223 | A hit occurs if and only if such a path exists. |
| `DebugTree.DrawRecursive` | Assets/Scripts/DebugUi/DebugUiControl.cs:172-187 | Draws in `DrawOrder`: nothing for a disabled subtree, and otherwise the control, then its children first to last. |
| `DebugTree.DrawChildrenMembers` | Assets/Scripts/DebugUi/DebugUiControl.cs:181-186 | A control is drawn by the first k children exactly when one of them draws it. |
| `DebugTree.DrawnHasEnabledPath` | Assets/Scripts/DebugUi/DebugUiControl.cs:172-187 | Every drawn control is reached through enabled controls only. |
| `DebugTree.EnabledPathDrawn` | Assets/Scripts/DebugUi/DebugUiControl.cs:172-187 | Every control reached through enabled controls is drawn. |
| `DebugTree.DrawnIffEnabledPath` | Assets/Scripts/DebugUi/DebugUiControl.cs:172-187 | A control is drawn if and only if every control on its path is enabled. |
| `DebugTree.UpdatedChildren` | Assets/Scripts/DebugUi/DebugUiControl.cs:158-163 | Updating children keeps their number. |
| `DebugTree.UpdatedChildrenAt` | Assets/Scripts/DebugUi/DebugUiControl.cs:158-163 | Child j becomes that child updated from its parent's global position. |
| `DebugTree.Update` | Assets/Scripts/DebugUi/DebugUiControl.cs:153-166 | Returns the control with Global = parent.Global + Local, and every child updated from it. |
| `DebugTree.UpdateRoot` | Assets/Scripts/DebugUi/DebugUiControl.cs:11-19 | The root keeps its own position and updates every child from it. |
| `DebugTree.UpdatedGlobalIsSumOfLocals` | Assets/Scripts/DebugUi/DebugUiControl.cs:153-166 | After an update, every control's global position is the parent's global position plus the local positions along its path. Nothing else about the control changes. |
| `DebugTree.Hits` | Assets/Scripts/DebugUi/DebugUiControl.cs:193-223 | A disabled control is never hit. An enabled, event-enabled control is hit at every point inside its rectangle. |
| `DebugTree.DrawOrder` | Assets/Scripts/DebugUi/DebugUiControl.cs:172-187 | A disabled control draws nothing, its subtree included. An enabled one draws itself first. |
| `DebugTree.Updated` | Assets/Scripts/DebugUi/DebugUiControl.cs:153-166 | `Update` sets GlobalX/GlobalY to the parent's global position plus the local one. It keeps the number of children and changes nothing else about the control. |
| `DebugUi.IdCounter.constructor` | Assets/Scripts/DebugUi/DebugUiControl.cs:7 | The counter starts at 0. |
| `DebugUi.IdCounter.Next` | Assets/Scripts/DebugUi/DebugUiControl.cs:99 | Returns the count and increments it, so ids strictly increase in creation order. |
| `DebugUi.Control.constructor` | Assets/Scripts/DebugUi/DebugUiControl.cs:96-108 | The id is the next counter value, and the control is enabled with no links. When a manager is given, the control is appended to its instances. If that manager counts with the same counter and its list was sequential (`Manager.Sequential`: sorted by id, every id below the counter), the list is still sequential. |
| `DebugUi.Control.Root` | Assets/Scripts/DebugUi/DebugUiControl.cs:110-112 | The root takes id 0 without touching the counter. It is enabled, with no children and no parent. |
| `DebugUi.Control.AddChild` | Assets/Scripts/DebugUi/DebugUiControl.cs:131-135 | Sets the parent and appends at the tail. The sibling chain stays consistent: first.prev and last.next are null, next and prev agree, and the order is insertion order. |
| `DebugUi.Control.LinkToTail` | Assets/Scripts/DebugUi/DebugUiControl.cs:283-299 | The child becomes the last in the chain, its prev is the old last child and its next is null. The chain stays consistent. |
| `DebugUi.Control.DisposeLinks` | Assets/Scripts/DebugUi/DebugUiControl.cs:124-128 | Clears parent, sibling and child links. |
| `DebugUi.Control.RemoveAllChildren` | Assets/Scripts/DebugUi/DebugUiControl.cs:137-148 | Disposes every child's links and leaves firstChild and lastChild null. |
| `DebugUi.Control.AdjustSize` | Assets/Scripts/DebugUi/DebugUiControl.cs:225-243 | Width = max(0, largest LocalX + Width of a child) + 2·BorderWidth, and likewise for Height. |
| `DebugUi.Control.ReceiveMessage` | Assets/Scripts/DebugUi/DebugUiControl.cs:270-281 | `OnClick` is invoked exactly for a "click" message when it is set. |
| `DebugUi.MaxRightIsMax` | Assets/Scripts/DebugUi/DebugUiControl.cs:227-239 | The width loop's maximum is at least 0 and at least every child's right edge, and it equals one of them unless it is 0. |
| `DebugUi.MaxBottomIsMax` | Assets/Scripts/DebugUi/DebugUiControl.cs:227-239 | The same for the children's bottom edges. |
| `DebugUi.Panel.constructor` | Assets/Scripts/DebugUi/DebugUiPanel.cs:14-28 | Sets the size, border and colours given. nextX = nextY = borderWidth and currentLineHeight = 0. The manager's list stays sequential, as for `Control.constructor`. |
| `DebugUi.Panel.AddChildAuto` | Assets/Scripts/DebugUi/DebugUiPanel.cs:30-39 | Places the child at (nextX, nextY) and appends it as the last child. nextX grows by its width, currentLineHeight becomes the max with its height, and nextY is unchanged. |
| `DebugUi.Panel.MovePast` | Assets/Scripts/DebugUi/DebugUiPanel.cs:37-38 | Moves the cursor past a placed control. |
| `DebugUi.Panel.BreakLine` | Assets/Scripts/DebugUi/DebugUiPanel.cs:41-46 | nextX = BorderWidth, nextY grows by currentLineHeight + LineSpacing, and currentLineHeight = 0. |
| `DebugUi.Panel.ReportedSize` | Assets/Scripts/DebugUi/DebugUiPanel.cs:71-72 | After `AdjustSize`, the reported width and height (size minus twice the border) are the children's extent. |
| `DebugUi.ReportedSizeCoversChildren` | Assets/Scripts/DebugUi/DebugUiPanel.cs:71-72 | After `AdjustSize`, every child lies within the reported width and height. |
| `FlowLayout.Start` | Assets/Scripts/DebugUi/DebugUiPanel.cs:25-27 | The cursor starts at the border width on both axes with an empty line. |
| `FlowLayout.Max` | Assets/Scripts/DebugUi/DebugUiPanel.cs:38 | `Math.Max`: at least both arguments, and equal to one of them. |
| `FlowLayout.LineHeightNonNegative` | Assets/Scripts/DebugUi/DebugUiPanel.cs:37-45 | The current line height never becomes negative. |
| `FlowLayout.PlacedControlsDoNotOverlap` | Assets/Scripts/DebugUi/DebugUiPanel.cs:30-46 | Take a control of non-negative size and the cursor at any later step. If a line break came between them, the cursor is below the control. Otherwise the cursor is on the same line, to the right of the control, and the line is at least as tall as the control. |
| `DebugUi.RemoveFirstCount` | Assets/Scripts/DebugUi/DebugUiManager.cs:116-119 | `List.Remove` takes away one occurrence of the control. |
| `DebugUi.RemoveFirstIncreasing` | Assets/Scripts/DebugUi/DebugUiManager.cs:116-119 | Removing a control keeps the list sorted by id. |
| `DebugUi.MidPoint` | Assets/Scripts/DebugUi/DebugUiManager.cs:217 | The probe index lies within [first, last]. |
| `DebugUi.ProbeAsWritten` | Assets/Scripts/DebugUi/DebugUiManager.cs:215-233 | One iteration as written either finds the id at the probe index, or stops because first > last, or moves `first` while `last` stays. |
| `DebugUi.GetControlAsWritten` | Assets/Scripts/DebugUi/DebugUiManager.cs:210-237 | The loop as written, run for a bounded number of iterations. Whatever it finds has the requested id. |
| `DebugUi.GetControlAsWrittenLoops` | Assets/Scripts/DebugUi/DebugUiManager.cs:229-232 | Counterexample: searching id 0 in ids [0, 1, 2] never ends, whatever the number of iterations allowed. |
| `DebugUi.Manager.constructor` | Assets/Scripts/DebugUi/DebugUiManager.cs:72-77 | The manager gets the renderer, an empty root and no instances. The empty list is sequential for the id counter, so every list built by the constructors and `OnDispose` is sorted by id. |
| `DebugUi.Manager.OnCreate` | Assets/Scripts/DebugUi/DebugUiManager.cs:110-114 | Appends the control. The list stays sorted by id when the new id exceeds all earlier ones, which `Control.constructor` guarantees through `Manager.Sequential`. |
| `DebugUi.Manager.OnDispose` | Assets/Scripts/DebugUi/DebugUiManager.cs:116-119 | Removes the first occurrence of the control. The list stays sorted and stays sequential. |
| `DebugUi.Manager.Add` | Assets/Scripts/DebugUi/DebugUiManager.cs:100-103 | Appends the control as the root's last child. |
| `DebugUi.Manager.GetControl` | Assets/Scripts/DebugUi/DebugUiManager.cs:210-237 | Corrected binary search. A returned control is an instance with the requested id. On a sorted list, null means no instance has that id. |
| `DebugUi.Manager.SendMessage` | Assets/Scripts/DebugUi/DebugUiManager.cs:122-134 | Delivers to the control with the message's id. `OnClick` runs exactly for "click" when it is set. Not found means no instance has the id. |
| `DebugUi.Manager.ConvertCoordFromUnityScreen` | Assets/Scripts/DebugUi/DebugUiManager.cs:191-197 | Returns the virtual-screen point of a screen position: the y axis is flipped and both axes are scaled, so the screen's corners map to the reference screen's corners. |
| `JsonText.HexDigit` | Assets/Scripts/DebugUi/DebugUiControl.cs:58 | A hex digit is printable and is neither a quote nor a backslash. |
| `JsonText.DigitValueOfHexDigit` | Assets/Scripts/DebugUi/DebugUiControl.cs:58 | Each lowercase hex digit reads back as its value. |
| `JsonText.Hex4Value` | Assets/Scripts/DebugUi/DebugUiControl.cs:57-58 | The four digits of `x4` read back as the character's code. |
| `JsonText.BodyAsWrittenSnoc` | Assets/Scripts/DebugUi/DebugUiControl.cs:44-60 | The escaped text of s + [c] is the escaped s followed by the escape of c. |
| `JsonText.WriteEscapedString` | Assets/Scripts/DebugUi/DebugUiControl.cs:34-63 | Writes `""` for null or empty text. Otherwise it writes the text quoted, with printable ASCII kept, `"` preceded by a backslash, and every other char as \u plus four lowercase hex digits. |
| `JsonText.AsWrittenAgreesWithoutBackslash` | Assets/Scripts/DebugUi/DebugUiControl.cs:44-60 | For text without a backslash, the escaper as written equals the corrected one, and its output decodes back to the text. |
| `JsonText.BackslashBreaksRoundTrip` | Assets/Scripts/DebugUi/DebugUiControl.cs:47-53 | Counterexample: a lone backslash is written as `"\"`, which does not decode as a JSON string. |
| `JsonText.DecodeEscape` | Assets/Scripts/DebugUi/DebugUiControl.cs:44-60 | Corrected: decoding one escaped character gives back that character. |
| `JsonText.BodyRoundTrip` | Assets/Scripts/DebugUi/DebugUiControl.cs:42-62 | Corrected: decoding the escaped text up to the closing quote gives the text back. |
| `JsonText.QuotedRoundTrip` | Assets/Scripts/DebugUi/DebugUiControl.cs:34-63 | Corrected: decoding the written string gives back the text, or the empty text for null. |
| `JsonText.ColorRGBA` | Assets/Scripts/DebugUi/DebugUiControl.cs:65-68 | The colour text is 11 characters: a quote, '#', eight hex digits, then a quote. |
| `JsonText.ParseHex2` | Assets/Scripts/DebugUi/DebugUiControl.cs:67 | Two lowercase hex digits read back as the channel byte. |
| `JsonText.ColorRoundTrip` | Assets/Scripts/DebugUi/DebugUiControl.cs:65-68 | Parsing `"#rrggbbaa"` gives back the colour. |
| `JsonText.JoinedInOrder` | Assets/Scripts/DebugUi/DebugUiControl.cs:250-268 | Child k's JSON appears at its offset, preceded by a comma when k > 0, and the parts appear in child order. |
| `JsonText.ChildrenToJson` | Assets/Scripts/DebugUi/DebugUiControl.cs:250-268 | Writes `"children":[` plus the children's JSON comma-separated, then `]`. With no children it faults, as the unconditional dereference of `firstChild` does. |
| `JsonText.EscapeAsWritten` | Assets/Scripts/DebugUi/DebugUiControl.cs:45-58 | As written, a character is kept alone exactly when it is printable and not a quote, so a backslash stays bare. Every other character is written as two or more units starting with a backslash. |
| `JsonText.QuotedAsWritten` | Assets/Scripts/DebugUi/DebugUiControl.cs:34-63 | As written, the output is quoted at both ends and is at least two units longer than the text. |
| `JsonText.Escape` | Assets/Scripts/DebugUi/DebugUiControl.cs:45-58 | Corrected, per section 7 of RFC 8259: a character is kept alone exactly when it is printable and neither a quote nor a backslash. Every other character starts with a backslash. |
| `JsonText.Quoted` | Assets/Scripts/DebugUi/DebugUiControl.cs:34-63 | Corrected: the output is quoted at both ends and is at least two units longer than the text. |
| `JsonText.ChildrenJson` | Assets/Scripts/DebugUi/DebugUiControl.cs:250-268 | A control without children fails, as the loop dereferences a null first child. Otherwise the output starts with `"children":[` and ends with `]`. |
| `HttpHead.IndexOf` | Assets/Scripts/DebugWebServer/DebugHttpServer.cs:85 | Finds the first ':' if there is one, and reports none exactly when there is none. |
| `HttpHead.IndexOfFirst` | Assets/Scripts/DebugWebServer/DebugHttpServer.cs:85 | Any first occurrence is what is found. |
| `HttpHead.MatchesRequestLine` | Assets/Scripts/DebugWebServer/DebugHttpServer.cs:135 | Every line of the form `[A-Z]+ [^ ]+ HTTP/1.1` matches, with its method token and uri. |
| `HttpHead.MatchedIsRequestLine` | Assets/Scripts/DebugWebServer/DebugHttpServer.cs:135 | Every match is a line of that form. |
| `HttpHead.MatchRequestLineIff` | Assets/Scripts/DebugWebServer/DebugHttpServer.cs:135 | A line matches with a given token and uri if and only if it has that form with them. |
| `HttpHead.MethodOf` | Assets/Scripts/DebugWebServer/DebugHttpServer.cs:60-71 | "GET" gives GET, "POST" gives POST, and any other token gives Other. |
| `HttpHead.TrimStartDrops` | Assets/Scripts/DebugWebServer/DebugHttpServer.cs:92 | Trimming the start drops exactly the leading white space. |
| `HttpHead.TrimEndDrops` | Assets/Scripts/DebugWebServer/DebugHttpServer.cs:92 | Trimming the end drops exactly the trailing white space. |
| `HttpHead.TrimKeepsMiddle` | Assets/Scripts/DebugWebServer/DebugHttpServer.cs:92-99 | `Trim` is a middle slice with only white space around it. A non-empty result starts and ends with non-white space. |
| `HttpHead.HeaderField` | Assets/Scripts/DebugWebServer/DebugHttpServer.cs:85-99 | A field comes only from a line containing ':' and has a non-empty key. Lines without ':' or with an empty key are skipped. |
| `HttpHead.HeadEnd` | Assets/Scripts/DebugWebServer/DebugHttpServer.cs:76-83 | Header parsing stops at the first empty line or at the end of the stream. |
| `HttpHead.CollectSucceedsIff` | Assets/Scripts/DebugWebServer/DebugHttpServer.cs:99 | Collecting the headers succeeds if and only if no key is repeated; `Dictionary.Add` throws on a repeat. |
| `HttpHead.CollectKeys` | Assets/Scripts/DebugWebServer/DebugHttpServer.cs:92-99 | The collected keys are exactly the keys of the field lines. |
| `HttpHead.CollectHolds` | Assets/Scripts/DebugWebServer/DebugHttpServer.cs:92-99 | Each field line's key maps to its trimmed value. |
| `HttpHead.CollectPrefixFails` | Assets/Scripts/DebugWebServer/DebugHttpServer.cs:99 | Once a repeated key throws, the later lines change nothing. |
| `HttpHead.RepeatedKeyFails` | Assets/Scripts/DebugWebServer/DebugHttpServer.cs:92-99 | A field line before the empty line whose key was already added makes the whole head fail with that key. |
| `HttpHead.ReadHead` | Assets/Scripts/DebugWebServer/DebugHttpServer.cs:44-103 | The constructor's loop computes `ParseHead`. An unmatched request line gives Other with null fields. Otherwise it gives the method, the uri, the headers up to the empty line, and the rest of the stream as the body. A repeated key is an error. |
| `HttpHead.ToReasonPhrase` | Assets/Scripts/DebugWebServer/DebugHttpServer.cs:175-194 | A code outside the six named ones gives "". |
| `HttpHead.ReasonPhrasesFollowRfc` | Assets/Scripts/DebugWebServer/DebugHttpServer.cs:175-194 | For each of the six codes, the phrase is the three digits, a space and the reason phrase of section 15 of RFC 9110. |
| `HttpHead.Context.constructor` | Assets/Scripts/DebugWebServer/DebugHttpServer.cs:44-47 | The response stream starts empty. |
| `HttpHead.Context.WriteStatus` | Assets/Scripts/DebugWebServer/DebugHttpServer.cs:113-118 | Appends exactly "HTTP/1.1 " + reason phrase + "\r\n" to the response. |
| `HttpHead.TrimStart` | Assets/Scripts/DebugWebServer/DebugHttpServer.cs:92 | What is left is no longer than the text and does not start with white space. |
| `HttpHead.TrimEnd` | Assets/Scripts/DebugWebServer/DebugHttpServer.cs:92 | What is left is no longer than the text, starts where the text starts, and does not end with white space. |
| `HttpHead.Trim` | Assets/Scripts/DebugWebServer/DebugHttpServer.cs:92 | `String.Trim` leaves a text that is no longer than the original and has no white space at either end. |
| `HttpHead.Collect` | Assets/Scripts/DebugWebServer/DebugHttpServer.cs:76-100 | A failing field loop reports the repeated key, which is never empty. |
| `HttpHead.ParseHead` | Assets/Scripts/DebugWebServer/DebugHttpServer.cs:44-103 | No request line is an error. A request line that does not match gives the unmatched context, and nothing else does. |

## Left out

- Unity engine and GPU calls are not modelled: `Mesh`, `CommandBuffer`, `Material`, `MaterialPropertyBlock`, `camera.AddCommandBuffer`, `Font.textureRebuilt` and `RequestCharactersInTexture`. The draw list is a sequence of records, each holding a texture, matrix, material and index slice. The mesh is the buffers it would receive.
- `OnFontTextureRebuilt` (taking the white uv from the font's "■" glyph) is reduced to a function of the abstract font that the constructor reads once. Re-taking the uv when the texture is rebuilt is an engine callback.
- Font metrics (advance, glyph box, UV corners, `font.lineHeight`) are an abstract function. Which glyphs exist is part of it.
- Float rounding and `Color32` byte rounding are not modelled; everything is exact reals. Unity's `Lerp` clamping of t is modelled.
- `Renderer.PrimitiveRenderer2D.SutherlandHodgman`: the claim that a triangle or convex quad never produces more than 8 vertices in a pass, so the eight-slot list never wraps, is not proved, because convexity is not modelled. The clipper is modelled with the wrap as written. The lemma that an inside polygon is returned unchanged assumes at most 8 vertices.
- `Renderer.PrimitiveRenderer2D.constructor`: `Screen.width`/`Screen.height` and the camera are parameters. `Renderer.PrimitiveRenderer2D.SetReferenceScreenHeight` and `SetReferenceScreenWidth` take the screen size as arguments.
- `DebugTree.HitTest`, `DebugTree.DrawRecursive` and `DebugTree.Update` walk a tree of values, not the heap-linked controls of `DebugUi.Control`. The model therefore does not capture that `Update` changes the controls in place, or any aliasing between controls. The per-control draw of subclasses is the control's id in the draw order.
- `DebugUi.Control.RemoveAllChildren` clears each child's links (`DisposeLinks`) but does not recurse into grandchildren or notify the manager. The manager side of `Dispose` is `DebugUi.Manager.OnDispose`.
- `UnlinkSelf` in DebugUiControl.cs is not part of this model. Nothing in the core calls it, and it dereferences both siblings unconditionally.
- The thin UI subclasses are not part of this model: DebugUiText.cs, DebugUiButton.cs and DebugUiColoredControl.cs. Neither is the numeric JSON of `DebugUiPanel.ToJson`, which uses culture-dependent float formatting; only its reported width and height are modelled.
- Unity input plumbing in `DebugUiManager` is not modelled: the input event handlers, `IsRaycastLocationValid`, `OnPopulateMesh`, `Create`, `ManualUpdate` and `OutputHierarchy`. Neither are the `Dispose` methods, which only drop references.
- DebugWebServer.cs (socket listening), ServerManager.cs (routing and cross-thread queue) and Test.cs (demo wiring) are not part of this model.
- In `DebugHttpServer`, the socket poll `Disconnected`, `WriteDate` (wall clock), `Close`/`Dispose` and the `Handler` stream and exception plumbing are not modelled. The reader is the sequence of its lines.
- `HttpHead.Context.WriteStatus` states the exact text written in terms of `ToReasonPhrase`. That each phrase follows RFC 9110 is stated once, in `HttpHead.ReasonPhrasesFollowRfc`, not repeated on the method.
- `DebugUi.GetControlAsWritten` is the source's loop with an iteration bound (fuel), because as written it need not terminate. `DebugUi.Manager.GetControl` is the corrected search.
- `DebugUi.Manager.SendMessage` uses the corrected `GetControl`. The source's `SendMessage` calls the search as written, so with ids [0, 1, 2] a message for id 0 never returns (`DebugUi.GetControlAsWrittenLoops`). The model does not capture that hang.
- `Renderer.PrimitiveRenderer2D.DrawText` (with `LayOutText`, `TextFormatIn`, `TextTop`, `TextPen` and `TextCanvas`) requires `FitsShrink`. This excludes one input the source accepts: a Shrink format whose measured text has zero width (or height) while the area's width (or height) is negative. The source then divides by zero and gets an infinite float scale; the model has no infinities. Null text is not expressible either; the source throws on it in `RequestCharactersInTexture` and `text.Length`.
- `Renderer.PrimitiveRenderer2D.SetReferenceScreenHeight` requires a non-zero reference height. For 0 the source divides by zero and its float coordinate transform becomes infinite or NaN, which exact reals cannot represent.
- `Renderer.PrimitiveRenderer2D.SetReferenceScreenWidth` requires a non-zero reference width, for the same reason.

## Findings

| source | as written | input that shows it | evidently intended | confidence | as-written member | corrected member |
|---|---|---|---|---|---|---|
| Assets/Scripts/DebugUi/DebugUiManager.cs:229-232 | When the middle id exceeds the target, `first = i - 1` | ids [0, 1, 2], search for 0: with first = 0 and last = 2 the probe is index 1, whose id is too large, so first is set to 0 again and the loop repeats forever | `last = i - 1`, so the range shrinks every iteration | high, not executed | `DebugUi.GetControlAsWrittenLoops` | `DebugUi.Manager.GetControl` |
| Assets/Scripts/DebugUi/DebugUiControl.cs:47-53 | Only `"` is escaped among printable characters | the text `\` is written as `"\"`, which is not a complete JSON string | backslash escaped as `\\`, as section 7 of RFC 8259 requires | high, not executed | `JsonText.BackslashBreaksRoundTrip` | `JsonText.QuotedRoundTrip` |
| Assets/Scripts/PrimitiveRenderer/PrimitiveRenderer2D.Text.cs:64 | Shrink scale is `Math.Max(scaleX, scaleY)` | 200×200 text in a 100×50 area: scale 0.5 leaves the text 100 high | `Math.Min`, so the text fits on both axes | medium, not executed | `TextLayout.ShrinkStillOverflows` | `TextLayout.ShrinkScaleFittingFits` |
| Assets/Scripts/PrimitiveRenderer/PrimitiveRenderer2D.Rectangle.cs:154-159 | The right-edge parameter is taken over the whole width, but applied to corners already moved by the left edge | UV 0→1 across x in [0,4], clipped to [1,3]: the right corner gets 13/16 | 3/4, the gradient's value at x = 3 | medium, not executed | `Emission.ReinterpolateSkewed` | `Emission.ReinterpolateCorrectedExact` |
| Assets/Scripts/PrimitiveRenderer/PrimitiveRenderer2D.Rectangle.cs:368-371 | The inside border's horizontal lines are centred on the edges and run width + lw/2 from x | rectangle (0,0,10,10) with line width 2 covers (5,−1) | a border entirely inside the rectangle, lw thick | low, not executed | `Emission.InsideBorderLeaves` | `Emission.InsideBorderCorrectedCoversBand` |
