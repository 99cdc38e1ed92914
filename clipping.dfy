/**
 * The Sutherland-Hodgman clipper of PrimitiveRenderer2D.Mask.cs: four half-plane passes
 * (left, top, right, bottom) over a small polygon, each keeping the vertices inside its half-plane
 * and inserting an interpolated vertex wherever an edge crosses the boundary.
 */
module Clipping {
  import opened Geometry
  import opened SmallLists

  datatype Edge = Left | Top | Right | Bottom

  /** The coordinate a pass compares: x for the left and right passes, y for the others. */
  function Coord(v: Vertex, e: Edge): real
  {
    if e == Left || e == Right then v.position.x else v.position.y
  }

  /** The left and top passes keep `coord >= bound`, the right and bottom passes `coord <= bound`. */
  predicate Inside(v: Vertex, e: Edge, bound: real)
  {
    if e == Left || e == Top then Coord(v, e) >= bound else Coord(v, e) <= bound
  }

  /** The mask side each pass clips against: `mask.x`, `mask.y`, `mask.z`, `mask.w`. */
  function MaskBound(m: Rect, e: Edge): real
  {
    match e
    case Left => m.x
    case Top => m.y
    case Right => m.z
    case Bottom => m.w
  }

  predicate InsideMask(v: Vertex, m: Rect)
  {
    m.x <= v.position.x <= m.z && m.y <= v.position.y <= m.w
  }

  /**
   * The interpolation parameter `(bound - vertex) / (prev - vertex)`. It is only computed for an
   * edge that crosses the boundary, where the denominator is non-zero.
   */
  function CrossingParameter(v: Vertex, prev: Vertex, e: Edge, bound: real): real
    requires Inside(v, e, bound) != Inside(prev, e, bound)
  {
    (bound - Coord(v, e)) / (Coord(prev, e) - Coord(v, e))
  }

  /** At a crossing the parameter lies in [0, 1], so Unity's clamping in `Lerp` never changes it. */
  lemma CrossingParameterInRange(v: Vertex, prev: Vertex, e: Edge, bound: real)
    requires Inside(v, e, bound) != Inside(prev, e, bound)
    ensures Coord(prev, e) != Coord(v, e)
    ensures 0.0 <= CrossingParameter(v, prev, e, bound) <= 1.0
  {
    var d := Coord(prev, e) - Coord(v, e);
    var n := bound - Coord(v, e);
    if d > 0.0 {
      QuotientInUnit(n, d);
    } else {
      assert n / d == (-n) / (-d);
      QuotientInUnit(-n, -d);
    }
  }

  /** A quotient of a numerator between zero and a positive denominator lies in [0, 1]. */
  lemma QuotientInUnit(n: real, d: real)
    requires 0.0 < d && 0.0 <= n <= d
    ensures 0.0 <= n / d <= 1.0
  {
    assert (d - n) / d == d / d - n / d;
    assert d / d == 1.0;
    MulNonNegativeQuotient(n, d);
    MulNonNegativeQuotient(d - n, d);
  }

  lemma MulNonNegativeQuotient(a: real, b: real)
    requires 0.0 <= a && 0.0 < b
    ensures 0.0 <= a / b
  {
  }

  /** The vertex inserted where the edge from prev to v crosses the boundary: it lies on the boundary. */
  function Crossing(v: Vertex, prev: Vertex, e: Edge, bound: real): (r: Vertex)
    requires Inside(v, e, bound) != Inside(prev, e, bound)
    ensures Coord(r, e) == bound
  {
    var t := CrossingParameter(v, prev, e, bound);
    CrossingParameterInRange(v, prev, e, bound);
    var d := Coord(prev, e) - Coord(v, e);
    assert d * t == bound - Coord(v, e);
    Lerp(v, prev, t)
  }

  /** What one pass emits for vertex v whose predecessor (cyclically) is prev. */
  function Step(v: Vertex, prev: Vertex, e: Edge, bound: real): seq<Vertex>
  {
    if Inside(v, e, bound) then
      (if !Inside(prev, e, bound) then [Crossing(v, prev, e, bound)] else []) + [v]
    else if Inside(prev, e, bound) then
      [Crossing(v, prev, e, bound)]
    else
      []
  }

  /** The predecessor of vertex i in the closed polygon: the last vertex for the first one. */
  function Prev(s: seq<Vertex>, i: nat): Vertex
    requires i < |s|
  {
    if i == 0 then s[|s| - 1] else s[i - 1]
  }

  /** The output of a pass after its first n vertices. */
  function PassPrefix(s: seq<Vertex>, e: Edge, bound: real, n: nat): seq<Vertex>
    requires n <= |s|
  {
    if n == 0 then [] else PassPrefix(s, e, bound, n - 1) + Step(s[n - 1], Prev(s, n - 1), e, bound)
  }

  /** One half-plane pass over the whole polygon. */
  function Pass(s: seq<Vertex>, e: Edge, bound: real): (r: seq<Vertex>)
    ensures forall u :: u in r ==> Inside(u, e, bound)
  {
    PassInside(s, e, bound, |s|);
    PassPrefix(s, e, bound, |s|)
  }

  /**
   * One pass of `SutherlandHodgman`: walks the source list with a running predecessor (the last
   * vertex first), adding the kept vertices and the crossings to a cleared destination list.
   */
  method ClipPass(src: SmallList<Vertex>, dst: SmallList<Vertex>, e: Edge, bound: real)
    requires src.Valid() && dst.Valid() && dst.count == 0 && src.slots != dst.slots
    modifies dst`count, dst.slots
    ensures dst.Valid() && dst.Items() == Wrap(Pass(src.Items(), e, bound))
  {
    ghost var s := src.Items();
    ghost var out: seq<Vertex> := [];
    var prev := src.Get(src.count - 1);
    var i := 0;
    while i < src.count
      invariant 0 <= i <= src.count && s == src.Items()
      invariant out == PassPrefix(s, e, bound, i)
      invariant dst.count == |out| && Holds(dst.slots[..], out)
      invariant i < src.count ==> prev == Prev(s, i)
    {
      var vertex := src.Get(i);
      EmitStep(dst, vertex, prev, e, bound, out);
      out := out + Step(vertex, prev, e, bound);
      prev := vertex;
      i := i + 1;
    }
    dst.ShowsWrap(out);
  }

  /** The body of a pass for one vertex: the crossing into or out of the half-plane, then the vertex if it is kept. */
  method EmitStep(dst: SmallList<Vertex>, vertex: Vertex, prev: Vertex, e: Edge, bound: real, ghost out: seq<Vertex>)
    requires dst.Valid() && dst.count == |out| && Holds(dst.slots[..], out)
    modifies dst`count, dst.slots
    ensures dst.Valid() && dst.count == |out + Step(vertex, prev, e, bound)|
    ensures Holds(dst.slots[..], out + Step(vertex, prev, e, bound))
  {
    if Inside(vertex, e, bound) {
      ghost var mid := out;
      if !Inside(prev, e, bound) {
        var temporary := Cross(vertex, prev, e, bound);
        HoldsAdd(dst.slots[..], out, temporary);
        dst.Add(temporary);
        mid := out + [temporary];
      }
      HoldsAdd(dst.slots[..], mid, vertex);
      dst.Add(vertex);
      assert mid + [vertex] == out + Step(vertex, prev, e, bound);
    } else if Inside(prev, e, bound) {
      var temporary := Cross(vertex, prev, e, bound);
      HoldsAdd(dst.slots[..], out, temporary);
      dst.Add(temporary);
    }
  }

  /** The crossing as the pass computes it: the parameter `(bound - vertex) / (prev - vertex)`, then `Vertex.Lerp`. */
  method Cross(vertex: Vertex, prev: Vertex, e: Edge, bound: real) returns (temporary: Vertex)
    requires Inside(vertex, e, bound) != Inside(prev, e, bound)
    ensures temporary == Crossing(vertex, prev, e, bound)
  {
    CrossingParameterInRange(vertex, prev, e, bound);
    var t := (bound - Coord(vertex, e)) / (Coord(prev, e) - Coord(vertex, e));
    temporary := Lerp(vertex, prev, t);
  }

  /** Number of input vertices among the first n that lie inside the half-plane. */
  function KeptCount(s: seq<Vertex>, e: Edge, bound: real, n: nat): nat
    requires n <= |s|
  {
    if n == 0 then 0 else KeptCount(s, e, bound, n - 1) + (if Inside(s[n - 1], e, bound) then 1 else 0)
  }

  /** Number of edges into the first n vertices that cross the boundary. */
  function CrossCount(s: seq<Vertex>, e: Edge, bound: real, n: nat): nat
    requires n <= |s|
  {
    if n == 0 then 0
    else CrossCount(s, e, bound, n - 1) + (if Inside(s[n - 1], e, bound) != Inside(Prev(s, n - 1), e, bound) then 1 else 0)
  }

  /** A pass emits one vertex per kept input vertex plus one per crossing edge. */
  lemma {:induction false} PassCount(s: seq<Vertex>, e: Edge, bound: real, n: nat)
    requires n <= |s|
    ensures |PassPrefix(s, e, bound, n)| == KeptCount(s, e, bound, n) + CrossCount(s, e, bound, n)
  {
    if n > 0 {
      PassCount(s, e, bound, n - 1);
    }
  }

  /** Everything a pass emits lies inside its half-plane. */
  lemma {:induction false} PassInside(s: seq<Vertex>, e: Edge, bound: real, n: nat)
    requires n <= |s|
    ensures forall u :: u in PassPrefix(s, e, bound, n) ==> Inside(u, e, bound)
  {
    if n > 0 {
      PassInside(s, e, bound, n - 1);
    }
  }

  /** A pass over a polygon entirely inside its half-plane returns the polygon unchanged. */
  lemma {:induction false} PassAllInside(s: seq<Vertex>, e: Edge, bound: real, n: nat)
    requires n <= |s|
    requires forall v :: v in s ==> Inside(v, e, bound)
    ensures PassPrefix(s, e, bound, n) == s[..n]
  {
    if n > 0 {
      PassAllInside(s, e, bound, n - 1);
      assert s[..n] == s[..n - 1] + [s[n - 1]];
    }
  }

  /** A pass over a polygon entirely outside its half-plane returns nothing. */
  lemma {:induction false} PassAllOutside(s: seq<Vertex>, e: Edge, bound: real, n: nat)
    requires n <= |s|
    requires forall v :: v in s ==> !Inside(v, e, bound)
    ensures PassPrefix(s, e, bound, n) == []
  {
    if n > 0 {
      PassAllOutside(s, e, bound, n - 1);
      assert s[n - 1] in s && Prev(s, n - 1) in s;
      assert Step(s[n - 1], Prev(s, n - 1), e, bound) == [];
    }
  }

  /** A crossing vertex lies between its two end points in every coordinate that a pass compares. */
  lemma CrossingBetween(v: Vertex, prev: Vertex, e: Edge, bound: real, e2: Edge, bound2: real)
    requires Inside(v, e, bound) != Inside(prev, e, bound)
    ensures Inside(v, e2, bound2) && Inside(prev, e2, bound2) ==> Inside(Crossing(v, prev, e, bound), e2, bound2)
    ensures !Inside(v, e2, bound2) && !Inside(prev, e2, bound2) ==> !Inside(Crossing(v, prev, e, bound), e2, bound2)
  {
    var t := CrossingParameter(v, prev, e, bound);
    CrossingParameterInRange(v, prev, e, bound);
    MixBetween(Coord(v, e2), Coord(prev, e2), t);
    MixStrict(Coord(v, e2), Coord(prev, e2), t, bound2);
  }

  /** A pass keeps a polygon inside any half-plane the polygon was already inside. */
  lemma {:induction false} PassKeepsHalfPlane(s: seq<Vertex>, e: Edge, bound: real, e2: Edge, bound2: real, n: nat)
    requires n <= |s|
    requires forall v :: v in s ==> Inside(v, e2, bound2)
    ensures forall u :: u in PassPrefix(s, e, bound, n) ==> Inside(u, e2, bound2)
  {
    if n > 0 {
      PassKeepsHalfPlane(s, e, bound, e2, bound2, n - 1);
      var v, p := s[n - 1], Prev(s, n - 1);
      if Inside(v, e, bound) != Inside(p, e, bound) {
        CrossingBetween(v, p, e, bound, e2, bound2);
      }
    }
  }

  /** A pass keeps a polygon outside any half-plane the polygon was already entirely outside. */
  lemma {:induction false} PassKeepsOutside(s: seq<Vertex>, e: Edge, bound: real, e2: Edge, bound2: real, n: nat)
    requires n <= |s|
    requires forall v :: v in s ==> !Inside(v, e2, bound2)
    ensures forall u :: u in PassPrefix(s, e, bound, n) ==> !Inside(u, e2, bound2)
  {
    if n > 0 {
      PassKeepsOutside(s, e, bound, e2, bound2, n - 1);
      var v, p := s[n - 1], Prev(s, n - 1);
      if Inside(v, e, bound) != Inside(p, e, bound) {
        CrossingBetween(v, p, e, bound, e2, bound2);
      }
    }
  }

  /**
   * The list `SutherlandHodgman` leaves behind. Each pass result is what an eight-slot list shows
   * after receiving it (`Wrap`). A pass that yields at most two vertices ends the clip: the list is
   * then left empty after the first and third passes and holding those vertices after the second.
   */
  function SutherlandHodgman(s: seq<Vertex>, m: Rect): seq<Vertex>
  {
    var p1 := Wrap(Pass(s, Left, m.x));
    if |p1| <= 2 then [] else
    var p2 := Wrap(Pass(p1, Top, m.y));
    if |p2| <= 2 then p2 else
    var p3 := Wrap(Pass(p2, Right, m.z));
    if |p3| <= 2 then [] else
    Wrap(Pass(p3, Bottom, m.w))
  }

  /** Every vertex of a pass result lies inside that pass's half-plane and all earlier ones. */
  lemma PassThenWrap(s: seq<Vertex>, e: Edge, bound: real, earlier: set<Edge>, m: Rect)
    requires forall v, e2 :: v in s && e2 in earlier ==> Inside(v, e2, MaskBound(m, e2))
    requires bound == MaskBound(m, e)
    ensures forall u, e2 :: u in Wrap(Pass(s, e, bound)) && e2 in earlier + {e} ==> Inside(u, e2, MaskBound(m, e2))
  {
    var out := Pass(s, e, bound);
    PassInside(s, e, bound, |s|);
    forall e2 | e2 in earlier
      ensures forall u :: u in out ==> Inside(u, e2, MaskBound(m, e2))
    {
      PassKeepsHalfPlane(s, e, bound, e2, MaskBound(m, e2), |s|);
    }
  }

  /** When the clipper leaves a polygon (three or more vertices), every vertex lies inside the mask. */
  lemma ClippedInsideMask(s: seq<Vertex>, m: Rect)
    requires |SutherlandHodgman(s, m)| >= 3
    ensures forall v :: v in SutherlandHodgman(s, m) ==> InsideMask(v, m)
  {
    PassThenWrap(s, Left, m.x, {}, m);
    var p1 := Wrap(Pass(s, Left, m.x));
    PassThenWrap(p1, Top, m.y, {Left}, m);
    var p2 := Wrap(Pass(p1, Top, m.y));
    PassThenWrap(p2, Right, m.z, {Left, Top}, m);
    var p3 := Wrap(Pass(p2, Right, m.z));
    PassThenWrap(p3, Bottom, m.w, {Left, Top, Right}, m);
    var r := SutherlandHodgman(s, m);
    forall v | v in r
      ensures InsideMask(v, m)
    {
      assert Inside(v, Left, m.x) && Inside(v, Top, m.y) && Inside(v, Right, m.z) && Inside(v, Bottom, m.w);
    }
  }

  /** A polygon of three to eight vertices entirely inside the mask comes out unchanged. */
  lemma ClipInsideIsIdentity(s: seq<Vertex>, m: Rect)
    requires 3 <= |s| <= 8
    requires forall v :: v in s ==> InsideMask(v, m)
    ensures SutherlandHodgman(s, m) == s
  {
    PassWrapInside(s, Left, m.x);
    PassWrapInside(s, Top, m.y);
    PassWrapInside(s, Right, m.z);
    PassWrapInside(s, Bottom, m.w);
  }

  /** A pass and the eight-slot wrap leave a small polygon inside the half-plane unchanged. */
  lemma PassWrapInside(s: seq<Vertex>, e: Edge, bound: real)
    requires |s| <= 8
    requires forall v :: v in s ==> Inside(v, e, bound)
    ensures Wrap(Pass(s, e, bound)) == s
  {
    PassAllInside(s, e, bound, |s|);
    assert s[..|s|] == s;
  }

  lemma InsideMaskEdge(v: Vertex, m: Rect, e: Edge)
    requires InsideMask(v, m)
    ensures Inside(v, e, MaskBound(m, e))
  {
  }

  /** A pass followed by the eight-slot wrap keeps a polygon outside a half-plane it was entirely outside. */
  lemma PassThenWrapOutside(s: seq<Vertex>, e: Edge, bound: real, e2: Edge, bound2: real)
    requires forall v :: v in s ==> !Inside(v, e2, bound2)
    ensures forall u :: u in Wrap(Pass(s, e, bound)) ==> !Inside(u, e2, bound2)
  {
    PassKeepsOutside(s, e, bound, e2, bound2, |s|);
  }

  /** A polygon entirely outside one side of the mask leaves at most two vertices, so nothing is drawn. */
  lemma ClipOutsideEdge(s: seq<Vertex>, m: Rect, e: Edge)
    requires forall v :: v in s ==> !Inside(v, e, MaskBound(m, e))
    ensures |SutherlandHodgman(s, m)| <= 2
  {
    var b := MaskBound(m, e);
    var p1 := Wrap(Pass(s, Left, m.x));
    PassThenWrapOutside(s, Left, m.x, e, b);
    var p2 := Wrap(Pass(p1, Top, m.y));
    PassThenWrapOutside(p1, Top, m.y, e, b);
    var p3 := Wrap(Pass(p2, Right, m.z));
    PassThenWrapOutside(p2, Right, m.z, e, b);
    var p4 := Wrap(Pass(p3, Bottom, m.w));
    PassThenWrapOutside(p3, Bottom, m.w, e, b);
    var r := SutherlandHodgman(s, m);
    assert r == [] || r == p2 || r == p4;
    if |r| >= 3 {
      ClippedInsideMask(s, m);
      var u := r[0];
      InsideMaskEdge(u, m, e);
      assert false;
    }
  }
}
