/**
 * The sub-mesh list of PrimitiveRenderer.cs (`SubMesh`, `SubMeshList`) and the per-frame
 * partition of the index buffer into draw calls that `AddSubMesh` and `Draw` build from it.
 */
module Batching {
  import opened Geometry

  /** A texture reference; `NullTexture` is C#'s null. */
  datatype Texture = NullTexture | TextureHandle(id: nat)

  datatype Material = NullMaterial | TextMaterial | TexturedMaterial

  /**
   * A `Matrix4x4` of the translate-then-scale form the renderer builds: it maps (x, y) to
   * (offsetX + scaleX * x, offsetY + scaleY * y). A zero-initialised `Matrix4x4` is `ZeroMatrix`.
   */
  datatype Transform = Transform(scaleX: real, scaleY: real, offsetX: real, offsetY: real)

  const Identity := Transform(1.0, 1.0, 0.0, 0.0)
  const ZeroMatrix := Transform(0.0, 0.0, 0.0, 0.0)

  function Apply(m: Transform, p: Vec2): Vec2
  {
    Vec2(m.offsetX + m.scaleX * p.x, m.offsetY + m.scaleY * p.y)
  }

  datatype SubMesh = SubMesh(material: Material, texture: Texture, startIndex: int, matrix: Transform)

  /** The value of a zero-initialised `SubMesh` struct. */
  const EmptySubMesh := SubMesh(NullMaterial, NullTexture, 0, ZeroMatrix)

  /** One `commandBuffer.DrawMesh` call: the sub-mesh slot, its matrix, material, texture and triangles. */
  datatype DrawCall = DrawCall(subMeshIndex: nat, matrix: Transform, material: Material, texture: Texture, triangles: seq<int>)

  /** What the renderer uploads to its `Mesh`: the vertex streams and the triangles of every sub-mesh slot. */
  datatype Mesh = Mesh(vertices: seq<Vec3>, uvs: seq<Vec2>, colors: seq<Rgba>, triangles: seq<seq<int>>)

  const EmptyMesh := Mesh([], [], [], [])

  /** The material `AddSubMesh` selects: the text material exactly for the font texture. */
  function MaterialFor(texture: Texture, fontTexture: Texture): (m: Material)
    ensures m == TextMaterial <==> texture == fontTexture
    ensures m == TexturedMaterial <==> texture != fontTexture
  {
    if texture == fontTexture then TextMaterial else TexturedMaterial
  }

  /**
   * Sub-mesh starts are strictly increasing and lie within the index buffer: the invariant the
   * renderer keeps between `Draw` calls.
   */
  ghost predicate Batched(entries: seq<SubMesh>, indexCount: int)
  {
    (forall i, j :: 0 <= i < j < |entries| ==> entries[i].startIndex < entries[j].startIndex) &&
    (forall i :: 0 <= i < |entries| ==> 0 <= entries[i].startIndex <= indexCount)
  }

  /**
   * The sub-mesh list after `AddSubMesh` with `indexCount` indices emitted: a new entry is opened
   * when there is none or the last one already has indices; otherwise the last entry is reused.
   */
  function OpenSubMesh(entries: seq<SubMesh>, indexCount: int, texture: Texture, matrix: Transform, fontTexture: Texture): (r: seq<SubMesh>)
    ensures 1 <= |r| && |entries| <= |r| <= |entries| + 1 && r[|r| - 1].startIndex == indexCount && r[|r| - 1].texture == texture
  {
    Kept(entries, indexCount) + [SubMesh(MaterialFor(texture, fontTexture), texture, indexCount, matrix)]
  }

  /** The entries `AddSubMesh` leaves in front of the one it describes: all but an empty last one. */
  function Kept(entries: seq<SubMesh>, indexCount: int): seq<SubMesh>
  {
    if entries != [] && entries[|entries| - 1].startIndex == indexCount then entries[..|entries| - 1] else entries
  }

  /**
   * `AddSubMesh` opens a sub-mesh exactly when there is none or the last one's start differs from
   * the index count, never loses an earlier entry, and describes the current texture and matrix
   * in its last entry.
   */
  lemma OpenSubMeshEffect(entries: seq<SubMesh>, indexCount: int, texture: Texture, matrix: Transform, fontTexture: Texture)
    ensures var r := OpenSubMesh(entries, indexCount, texture, matrix, fontTexture);
      var isNew := entries == [] || entries[|entries| - 1].startIndex != indexCount;
      && |r| == (if isNew then |entries| + 1 else |entries|)
      && r[..|r| - 1] == entries[..|r| - 1]
      && r[|r| - 1].startIndex == indexCount
      && r[|r| - 1].texture == texture && r[|r| - 1].matrix == matrix
      && (r[|r| - 1].material == TextMaterial <==> texture == fontTexture)
  {
  }

  /** `AddSubMesh` keeps the sub-mesh starts increasing and inside the index buffer. */
  lemma OpenSubMeshBatched(entries: seq<SubMesh>, indexCount: int, texture: Texture, matrix: Transform, fontTexture: Texture)
    requires Batched(entries, indexCount) && 0 <= indexCount
    ensures Batched(OpenSubMesh(entries, indexCount, texture, matrix, fontTexture), indexCount)
  {
    var r := OpenSubMesh(entries, indexCount, texture, matrix, fontTexture);
    var kept := Kept(entries, indexCount);
    assert r == kept + [r[|r| - 1]];
    forall i | 0 <= i < |kept|
      ensures kept[i].startIndex < indexCount
    {
      if kept == entries {
        assert entries[i].startIndex <= entries[|entries| - 1].startIndex;
      } else {
        assert entries[i].startIndex < entries[|entries| - 1].startIndex;
      }
    }
  }

  /** Appending indices keeps the sub-mesh list batched. */
  lemma BatchedGrow(entries: seq<SubMesh>, indexCount: int, more: int)
    requires Batched(entries, indexCount) && indexCount <= more
    ensures Batched(entries, more)
  {
  }

  /** The end of the index range of sub-mesh i: the next start, or the buffer end for the last one. */
  function RangeEnd(entries: seq<SubMesh>, i: nat, indexCount: int): int
    requires i < |entries|
  {
    if i + 1 < |entries| then entries[i + 1].startIndex else indexCount
  }

  /** The draw calls `Draw` issues for a non-empty sub-mesh list, one per sub-mesh in order. */
  function DrawCalls(entries: seq<SubMesh>, indices: seq<int>): (r: seq<DrawCall>)
    requires Batched(entries, |indices|)
    ensures |r| == |entries|
  {
    seq(|entries|, i requires 0 <= i < |entries| =>
      DrawCall(i, entries[i].matrix, entries[i].material, entries[i].texture,
               indices[entries[i].startIndex .. RangeEnd(entries, i, |indices|)]))
  }

  function AllTriangles(calls: seq<DrawCall>): seq<int>
  {
    if calls == [] then [] else AllTriangles(calls[..|calls| - 1]) + calls[|calls| - 1].triangles
  }

  /**
   * The draw calls of the first k sub-meshes cover exactly the indices from the first start to
   * the start of sub-mesh k (or the buffer end).
   */
  lemma {:induction false} DrawCallsPrefix(entries: seq<SubMesh>, indices: seq<int>, k: nat)
    requires Batched(entries, |indices|) && 0 < k <= |entries|
    ensures AllTriangles(DrawCalls(entries, indices)[..k]) == indices[entries[0].startIndex .. RangeEnd(entries, k - 1, |indices|)]
  {
    var calls := DrawCalls(entries, indices);
    assert calls[..k][..k - 1] == calls[..k - 1];
    if k > 1 {
      DrawCallsPrefix(entries, indices, k - 1);
      assert RangeEnd(entries, k - 2, |indices|) == entries[k - 1].startIndex;
      var a := entries[0].startIndex;
      var b := entries[k - 1].startIndex;
      var c := RangeEnd(entries, k - 1, |indices|);
      assert indices[a..b] + indices[b..c] == indices[a..c];
    }
  }

  /**
   * The draw calls partition the index buffer from the first sub-mesh's start to its end: their
   * triangle lists, concatenated in order, are exactly that suffix, and each call carries its
   * sub-mesh's texture, material and matrix.
   */
  lemma DrawCallsPartition(entries: seq<SubMesh>, indices: seq<int>)
    requires Batched(entries, |indices|) && entries != []
    ensures AllTriangles(DrawCalls(entries, indices)) == indices[entries[0].startIndex..]
    ensures forall i :: 0 <= i < |entries| ==>
      var call := DrawCalls(entries, indices)[i];
      call.subMeshIndex == i && call.texture == entries[i].texture &&
      call.material == entries[i].material && call.matrix == entries[i].matrix &&
      |call.triangles| == RangeEnd(entries, i, |indices|) - entries[i].startIndex
  {
    var calls := DrawCalls(entries, indices);
    DrawCallsPrefix(entries, indices, |entries|);
    assert calls[..|entries|] == calls;
  }

  /**
   * `SubMeshList` of PrimitiveRenderer.cs: a growable array of sub-mesh records whose capacity
   * doubles when an `Add` exceeds it. `Clear` only resets the count, so later `Add`s reuse slots
   * whose other fields still hold older values.
   */
  class SubMeshList {
    var count: nat
    var capacity: nat
    var items: array<SubMesh>

    ghost predicate Valid()
      reads this
    {
      items.Length == capacity && count <= capacity && 0 < capacity
    }

    /** The sub-meshes in use. */
    function Entries(): seq<SubMesh>
      reads this, items
      requires Valid()
    {
      items[..count]
    }

    constructor (capacity: nat)
      requires 0 < capacity
      ensures Valid() && fresh(items) && count == 0 && this.capacity == capacity
    {
      count := 0;
      items := new SubMesh[capacity](_ => EmptySubMesh);
      this.capacity := capacity;
    }

    /**
     * `Add` increases the count by one, doubling the capacity when it is exceeded, keeps every
     * entry stored earlier and gives the new entry the start index passed in.
     */
    method Add(startIndex: int)
      requires Valid()
      modifies this, items
      ensures Valid()
      ensures items == old(items) || fresh(items)
      ensures count == old(count) + 1
      ensures capacity == if old(count) + 1 > old(capacity) then 2 * old(capacity) else old(capacity)
      ensures Entries()[..old(count)] == old(Entries())
      ensures Entries() == old(Entries()) + [Entries()[old(count)]] && Entries()[old(count)].startIndex == startIndex
      ensures Entries()[old(count)] == old(if count < capacity then items[count] else EmptySubMesh).(startIndex := startIndex)
    {
      count := count + 1;
      if count > capacity {
        capacity := capacity * 2;
        var grown := new SubMesh[capacity](_ => EmptySubMesh);
        forall k | 0 <= k < items.Length {
          grown[k] := items[k];
        }
        items := grown;
      }
      items[count - 1] := items[count - 1].(startIndex := startIndex);
    }

    method Clear()
      modifies this`count
      ensures count == 0
    {
      count := 0;
    }

    method SetMaterial(index: nat, material: Material)
      requires Valid() && index < capacity
      modifies items
      ensures items[..] == old(items[..])[index := old(items[index]).(material := material)]
      ensures index < count ==> Entries() == old(Entries())[index := old(items[index]).(material := material)]
    {
      items[index] := items[index].(material := material);
    }

    method SetTexture(index: nat, texture: Texture)
      requires Valid() && index < capacity
      modifies items
      ensures items[..] == old(items[..])[index := old(items[index]).(texture := texture)]
      ensures index < count ==> Entries() == old(Entries())[index := old(items[index]).(texture := texture)]
    {
      items[index] := items[index].(texture := texture);
    }

    method SetMatrix(index: nat, matrix: Transform)
      requires Valid() && index < capacity
      modifies items
      ensures items[..] == old(items[..])[index := old(items[index]).(matrix := matrix)]
      ensures index < count ==> Entries() == old(Entries())[index := old(items[index]).(matrix := matrix)]
    {
      items[index] := items[index].(matrix := matrix);
    }

    method GetEntry(index: nat) returns (entry: SubMesh)
      requires Valid() && index < capacity
      ensures entry == items[index]
    {
      entry := items[index];
    }
  }
}
