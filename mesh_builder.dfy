/**
 * Mesh building: FbxImporter04.ProcessUVs (FbxImporter04.cs, lines 110-190)
 * and the vertex / triangle transfer of ProcessMesh (lines 192-238).
 *
 * Guarded blocks (`#if UNI_18848`, `#if UNI_18850`) are modelled ENABLED.
 * ProcessUVs is read with the `}` of line 161 closing the layer loop, as the
 * braces do. Line 135 tests `fbxFirstUVSet != null`, so the first UV set is
 * never recorded and the secondary-set fallback of lines 167-187 is never
 * entered; ProcessUVs keeps that, and ChannelAfterIntended states what the
 * fallback would do with the test the other way round.
 */
module MeshBuilder {
  import opened Wrappers
  import opened Geometry
  import opened UvDecoder

  /**
   * FbxLayer as the UV code sees it: `uvs` is GetUVs () (the diffuse set);
   * `typedUVs[t]` is GetUVs for the t-th type tag counted from
   * eTextureEmissive up to, not including, eTypeCount.
   */
  datatype Layer = Layer(uvs: Option<LayerElementUV>, typedUVs: seq<Option<LayerElementUV>>)

  /** FbxMesh: control points, polygons (each a list of control-point indices), layers (a null layer is None). */
  datatype FbxMesh = FbxMesh(controlPoints: seq<Vec3>, polygons: seq<seq<int>>, layers: seq<Option<Layer>>)

  /** GetPolygonVertices (): the polygons' vertex indices, concatenated in order. */
  function PolygonVertices(polygons: seq<seq<int>>): seq<int> {
    if polygons == [] then []
    else PolygonVertices(polygons[..|polygons| - 1]) + polygons[|polygons| - 1]
  }

  /** `polygonIndexCount` of line 123: three per polygon, assuming triangles. */
  function PolygonIndexCount(m: FbxMesh): nat {
    |m.polygons| * 3
  }

  /** For triangles only, the flat list has three entries per polygon, and vertex j of polygon p sits at 3p+j. */
  lemma {:induction false} TriangleVertices(polygons: seq<seq<int>>)
    requires forall p :: 0 <= p < |polygons| ==> |polygons[p]| == 3
    ensures |PolygonVertices(polygons)| == 3 * |polygons|
    ensures forall p, j :: 0 <= p < |polygons| && 0 <= j < 3 ==> PolygonVertices(polygons)[3 * p + j] == polygons[p][j]
  {
    if polygons != [] {
      var front := polygons[..|polygons| - 1];
      TriangleVertices(front);
      assert forall p :: 0 <= p < |front| ==> front[p] == polygons[p];
    }
  }

  /** The UV sets the layer loop meets, in layer order: null layers and layers without UVs are skipped. */
  function UVSets(layers: seq<Option<Layer>>): seq<LayerElementUV> {
    if layers == [] then []
    else
      var last := layers[|layers| - 1];
      UVSets(layers[..|layers| - 1]) + (if last.Some? && last.value.uvs.Some? then [last.value.uvs.value] else [])
  }

  /** The sets met in a prefix of the layers are a prefix of all the sets met. */
  lemma {:induction false} UVSetsPrefix(layers: seq<Option<Layer>>, i: nat)
    requires i <= |layers|
    ensures UVSets(layers[..i]) <= UVSets(layers)
    decreases |layers| - i
  {
    if i < |layers| {
      UVSetsPrefix(layers, i + 1);
      assert layers[..i + 1][..i] == layers[..i];
    } else {
      assert layers[..i] == layers;
    }
  }

  /** One more layer adds its UV set, if it has one, to the sets met so far. */
  lemma UVSetsStep(layers: seq<Option<Layer>>, i: nat)
    requires i < |layers|
    ensures UVSets(layers[..i + 1]) <= UVSets(layers)
    ensures UVSets(layers[..i + 1]) ==
            UVSets(layers[..i]) + (if layers[i].Some? && layers[i].value.uvs.Some? then [layers[i].value.uvs.value] else [])
  {
    assert layers[..i + 1][..i] == layers[..i];
    UVSetsPrefix(layers, i + 1);
  }

  /** A null layer, or a layer without UVs, takes no UV slot: removing it changes nothing. */
  lemma {:induction false} SkippedLayerTakesNoSlot(layers: seq<Option<Layer>>, i: nat)
    requires i < |layers| && (layers[i].None? || layers[i].value.uvs.None?)
    ensures UVSets(layers) == UVSets(layers[..i] + layers[i + 1..])
    decreases |layers|
  {
    var n := |layers|;
    if i == n - 1 {
      assert layers[..i] + layers[i + 1..] == layers[..n - 1];
    } else {
      var front := layers[..n - 1];
      SkippedLayerTakesNoSlot(front, i);
      var shorter := layers[..i] + layers[i + 1..];
      assert shorter[..|shorter| - 1] == front[..i] + front[i + 1..];
      assert shorter[|shorter| - 1] == layers[n - 1];
    }
  }

  /**
   * How many slots the loop fills before it stops: it breaks when
   * `uvsetIndex == maxUVs` (line 159), which a maxUVs of zero or less
   * never meets.
   */
  function FilledSlots(setCount: nat, maxUVs: int): (r: nat)
    ensures r <= setCount
    ensures 0 < maxUVs ==> r <= maxUVs
  {
    if 0 < maxUVs < setCount then maxUVs else setCount
  }

  /** The decoder's demands, for every set the loop hands to ProcessUVSet (slots 0 to 3 only). */
  predicate UVsAddressable(m: FbxMesh, maxUVs: int) {
    var sets := UVSets(m.layers);
    forall k :: 0 <= k < |sets| && k < 4 && k < FilledSlots(|sets|, maxUVs) ==>
      Addressable(sets[k], PolygonVertices(m.polygons), PolygonIndexCount(m), |m.controlPoints|)
  }

  /** Decoding of one UV set against this mesh's polygon vertices (the arguments of lines 144-153). */
  function Decode(m: FbxMesh, e: LayerElementUV): Option<seq<UV>>
    requires Addressable(e, PolygonVertices(m.polygons), PolygonIndexCount(m), |m.controlPoints|)
  {
    DecodeUVSet(e, PolygonVertices(m.polygons), PolygonIndexCount(m), |m.controlPoints|)
  }

  /**
   * Slot k (uv, uv2, uv3, uv4) after ProcessUVs as written: the decoding of
   * the k-th UV set when the loop reached it, otherwise what it held before.
   */
  function ChannelAfter(m: FbxMesh, maxUVs: int, k: nat, before: Option<seq<UV>>): Option<seq<UV>>
    requires k < 4 && UVsAddressable(m, maxUVs)
  {
    var sets := UVSets(m.layers);
    if k < FilledSlots(|sets|, maxUVs) then Decode(m, sets[k]) else before
  }

  /** The search of lines 172-177: the first non-null typed UV set, from eTextureEmissive on. */
  function SecondaryUVSet(typedUVs: seq<Option<LayerElementUV>>): (r: Option<LayerElementUV>)
    ensures r.None? <==> forall t :: 0 <= t < |typedUVs| ==> typedUVs[t].None?
    ensures r.Some? ==> exists t :: 0 <= t < |typedUVs| && typedUVs[t] == r && forall s :: 0 <= s < t ==> typedUVs[s].None?
  {
    if typedUVs == [] then None
    else if typedUVs[0].Some? then typedUVs[0]
    else
      var r := SecondaryUVSet(typedUVs[1..]);
      assert forall t :: 1 <= t < |typedUVs| ==> typedUVs[t] == typedUVs[1..][t - 1];
      r
  }

  /** The layer the first UV set came from: what `fbxFirstUVLayer` would hold had line 135 tested `== null`. */
  function FirstUVLayer(layers: seq<Option<Layer>>): (r: Option<Layer>)
    ensures r.Some? <==> |UVSets(layers)| > 0
    ensures r.Some? ==> r.value.uvs == Some(UVSets(layers)[0])
    ensures r.Some? ==> exists i :: 0 <= i < |layers| && layers[i] == r && UVSets(layers[..i]) == []
  {
    if layers == [] then None
    else
      var front := layers[..|layers| - 1];
      var last := layers[|layers| - 1];
      var r := FirstUVLayer(front);
      assert forall i :: 0 <= i <= |front| ==> front[..i] == layers[..i];
      if r.Some? then r
      else if last.Some? && last.value.uvs.Some? then
        assert layers[|layers| - 1] == last && layers[..|layers| - 1] == front;
        last
      else None
  }

  /** The secondary set the intended fallback would decode, if any. */
  function IntendedSecondary(m: FbxMesh, maxUVs: int): Option<LayerElementUV> {
    var first := FirstUVLayer(m.layers);
    if FilledSlots(|UVSets(m.layers)|, maxUVs) == 1 && first.Some? then SecondaryUVSet(first.value.typedUVs)
    else None
  }

  predicate SecondaryAddressable(m: FbxMesh, maxUVs: int) {
    var s := IntendedSecondary(m, maxUVs);
    s.Some? ==> Addressable(s.value, PolygonVertices(m.polygons), PolygonIndexCount(m), |m.controlPoints|)
  }

  /**
   * Slot k after ProcessUVs with line 135 corrected to `== null`: when the
   * loop filled exactly one slot, uv2 takes the first emissive-or-later UV
   * set of the first UV layer, when there is one (lines 167-187).
   */
  function ChannelAfterIntended(m: FbxMesh, maxUVs: int, k: nat, before: Option<seq<UV>>): Option<seq<UV>>
    requires k < 4 && UVsAddressable(m, maxUVs) && SecondaryAddressable(m, maxUVs)
  {
    var s := IntendedSecondary(m, maxUVs);
    if k == 1 && s.Some? then Decode(m, s.value) else ChannelAfter(m, maxUVs, k, before)
  }

  /**
   * The intended fallback: a mesh whose only UV set sits on a layer that also
   * carries a typed set from eTextureEmissive on gets that set decoded into
   * uv2, while uv keeps the diffuse set and uv3, uv4 are untouched.
   */
  lemma IntendedFallbackFillsUV2(m: FbxMesh, maxUVs: int, before: seq<Option<seq<UV>>>)
    requires |UVSets(m.layers)| == 1 && UVsAddressable(m, maxUVs) && SecondaryAddressable(m, maxUVs)
    requires |before| == 4
    requires FirstUVLayer(m.layers).Some? && SecondaryUVSet(FirstUVLayer(m.layers).value.typedUVs).Some?
    ensures var s := SecondaryUVSet(FirstUVLayer(m.layers).value.typedUVs).value;
            && ChannelAfterIntended(m, maxUVs, 1, before[1]) == Decode(m, s)
            && ChannelAfterIntended(m, maxUVs, 0, before[0]) == Decode(m, UVSets(m.layers)[0])
            && ChannelAfterIntended(m, maxUVs, 2, before[2]) == before[2]
            && ChannelAfterIntended(m, maxUVs, 3, before[3]) == before[3]
  {
  }

  /**
   * Counterexample to the code as written: one layer whose diffuse set is
   * accompanied by an emissive set. As written uv2 is never assigned; with
   * line 135 corrected it receives the emissive set.
   */
  lemma FallbackNeverFiresAsWritten()
    ensures var p := UV(Num(0.25), Num(0.75));
            var q := UV(Num(0.5), Num(0.5));
            var diffuse := LayerElementUV(Direct, ByControlPoint, [p, p, p], []);
            var emissive := LayerElementUV(Direct, ByControlPoint, [q, q, q], []);
            var o := Vec3(0.0, 0.0, 0.0);
            var m := FbxMesh([o, o, o], [[0, 1, 2]], [Some(Layer(Some(diffuse), [Some(emissive)]))]);
            && UVsAddressable(m, 4) && SecondaryAddressable(m, 4)
            && ChannelAfter(m, 4, 1, None) == None
            && ChannelAfterIntended(m, 4, 1, None) == Some([q, q, q])
  {
    var p := UV(Num(0.25), Num(0.75));
    var q := UV(Num(0.5), Num(0.5));
    var diffuse := LayerElementUV(Direct, ByControlPoint, [p, p, p], []);
    var emissive := LayerElementUV(Direct, ByControlPoint, [q, q, q], []);
    var o := Vec3(0.0, 0.0, 0.0);
    var layers := [Some(Layer(Some(diffuse), [Some(emissive)]))];
    var m := FbxMesh([o, o, o], [[0, 1, 2]], layers);
    assert layers[..0] == [];
    assert UVSets(layers) == [diffuse];
    assert PolygonVertices(m.polygons) == [0, 1, 2] by {
      assert m.polygons[..0] == [];
    }
    assert Addressable(emissive, [0, 1, 2], 3, 3);
    assert Decode(m, emissive).value == [q, q, q];
  }

  /** The engine-side mesh as ProcessMesh leaves it (UnityEngine.Mesh's vertices, triangles and four UV channels). */
  datatype MeshData = MeshData(
    vertices: seq<Vec3>,
    triangles: seq<int>,
    uv: Option<seq<UV>>,
    uv2: Option<seq<UV>>,
    uv3: Option<seq<UV>>,
    uv4: Option<seq<UV>>)

  /** UnityEngine.Mesh: the fields ProcessMesh and ProcessUVs assign. An absent channel is None. */
  class UnityMesh {
    var vertices: seq<Vec3>
    var triangles: seq<int>
    var uv: Option<seq<UV>>
    var uv2: Option<seq<UV>>
    var uv3: Option<seq<UV>>
    var uv4: Option<seq<UV>>

    constructor ()
      ensures vertices == [] && triangles == []
      ensures uv.None? && uv2.None? && uv3.None? && uv4.None?
    {
      vertices, triangles := [], [];
      uv, uv2, uv3, uv4 := None, None, None, None;
    }

    /** UV channel k: uv, uv2, uv3 or uv4. */
    function Channel(k: nat): Option<seq<UV>>
      requires k < 4
      reads this
    {
      if k == 0 then uv else if k == 1 then uv2 else if k == 2 then uv3 else uv4
    }

    /** The `switch (uvsetIndex)` of lines 141-156: slots 0 to 3 name uv to uv4, any other slot is ignored. */
    method SetChannel(k: nat, value: Option<seq<UV>>)
      modifies this
      ensures vertices == old(vertices) && triangles == old(triangles)
      ensures forall j :: 0 <= j < 4 ==> Channel(j) == if j == k then value else old(Channel(j))
    {
      if k == 0 {
        uv := value;
      } else if k == 1 {
        uv2 := value;
      } else if k == 2 {
        uv3 := value;
      } else if k == 3 {
        uv4 := value;
      }
    }

    function Data(): MeshData
      reads this
    {
      MeshData(vertices, triangles, uv, uv2, uv3, uv4)
    }
  }

  /**
   * One case of the switch of lines 141-156: the UV set decoded by
   * ProcessUVSet against the mesh's polygon vertices, stored in slot `slot`.
   */
  method StoreUVSet(fbxMesh: FbxMesh, unityMesh: UnityMesh, slot: nat, e: LayerElementUV,
                    polygonVertexIndices: seq<int>, polygonIndexCount: nat, vertexCount: int)
    requires slot < 4
    requires polygonVertexIndices == PolygonVertices(fbxMesh.polygons)
    requires polygonIndexCount == PolygonIndexCount(fbxMesh) && vertexCount == |fbxMesh.controlPoints|
    requires Addressable(e, polygonVertexIndices, polygonIndexCount, vertexCount)
    modifies unityMesh
    ensures unityMesh.vertices == old(unityMesh.vertices) && unityMesh.triangles == old(unityMesh.triangles)
    ensures forall k :: 0 <= k < 4 ==> unityMesh.Channel(k) == if k == slot then Decode(fbxMesh, e) else old(unityMesh.Channel(k))
  {
    var decoded := ProcessUVSet(e, polygonVertexIndices, polygonIndexCount, vertexCount);
    unityMesh.SetChannel(slot, decoded);
  }

  /**
   * ProcessUVs: walks the layers in order, handing each UV set to
   * ProcessUVSet and storing the result in uv, uv2, uv3, uv4 by the running
   * `uvsetIndex`; stops once `uvsetIndex == maxUVs`.
   */
  method ProcessUVs(fbxMesh: FbxMesh, unityMesh: UnityMesh, maxUVs: int := 4)
    requires UVsAddressable(fbxMesh, maxUVs)
    modifies unityMesh
    ensures unityMesh.vertices == old(unityMesh.vertices) && unityMesh.triangles == old(unityMesh.triangles)
    ensures forall k :: 0 <= k < 4 ==> unityMesh.Channel(k) == ChannelAfter(fbxMesh, maxUVs, k, old(unityMesh.Channel(k)))
  {
    var uvsetIndex := 0;
    var fbxFirstUVSet: Option<LayerElementUV> := None;
    var fbxFirstUVLayer: Option<Layer> := None;

    var polygonVertexIndices := PolygonVertices(fbxMesh.polygons);
    var polygonIndexCount := |fbxMesh.polygons| * 3;
    var vertexCount := |fbxMesh.controlPoints|;
    ghost var layers := fbxMesh.layers;
    ghost var sets := UVSets(layers);
    for i := 0 to |fbxMesh.layers|
      invariant uvsetIndex == |UVSets(layers[..i])| <= |sets|
      invariant 0 < maxUVs ==> uvsetIndex < maxUVs
      invariant fbxFirstUVSet.None?
      invariant unityMesh.vertices == old(unityMesh.vertices) && unityMesh.triangles == old(unityMesh.triangles)
      invariant forall k :: 0 <= k < 4 ==>
        unityMesh.Channel(k) == if k < uvsetIndex then ChannelAfter(fbxMesh, maxUVs, k, None) else old(unityMesh.Channel(k))
    {
      UVSetsStep(layers, i);
      var fbxLayer := fbxMesh.layers[i];
      if fbxLayer.None? {
        continue;
      }
      var fbxUVSet := fbxLayer.value.uvs;
      if fbxUVSet.None? {
        continue;
      }
      if fbxFirstUVSet.Some? {
        fbxFirstUVSet := fbxUVSet;
        fbxFirstUVLayer := fbxLayer;
      }
      assert sets[uvsetIndex] == fbxUVSet.value;
      if uvsetIndex < 4 {
        StoreUVSet(fbxMesh, unityMesh, uvsetIndex, fbxUVSet.value, polygonVertexIndices, polygonIndexCount, vertexCount);
      }
      uvsetIndex := uvsetIndex + 1;
      if uvsetIndex == maxUVs {
        assert uvsetIndex == FilledSlots(|sets|, maxUVs);
        break;
      }
    }
    assert layers[..|layers|] == layers;
    assert uvsetIndex == FilledSlots(|sets|, maxUVs);
    if uvsetIndex == 1 && fbxFirstUVSet.Some? {
      // Lines 167-187: fbxFirstUVSet is still null here, so the secondary-set search never runs.
      assert false;
    }
  }

  /** Reference definition of ProcessMesh's output for a node that has a mesh. */
  function BuildMesh(m: FbxMesh): MeshData
    requires UVsAddressable(m, 4)
  {
    MeshData(
      m.controlPoints,
      PolygonVertices(m.polygons),
      ChannelAfter(m, 4, 0, None),
      ChannelAfter(m, 4, 1, None),
      ChannelAfter(m, 4, 2, None),
      ChannelAfter(m, 4, 3, None))
  }

  /**
   * What the built mesh holds: one vertex per control point in index order;
   * the polygons' vertices in order, three per triangle; and every UV channel
   * that is present aligned with the polygon-vertex list, not with the control points.
   */
  lemma BuildMeshShape(m: FbxMesh)
    requires UVsAddressable(m, 4)
    ensures var d := BuildMesh(m);
            && |d.vertices| == |m.controlPoints|
            && (forall i :: 0 <= i < |m.controlPoints| ==> d.vertices[i] == m.controlPoints[i])
            && (forall c :: c in [d.uv, d.uv2, d.uv3, d.uv4] && c.Some? ==> |c.value| == 3 * |m.polygons|)
    ensures (forall p :: 0 <= p < |m.polygons| ==> |m.polygons[p]| == 3) ==>
            && |BuildMesh(m).triangles| == 3 * |m.polygons|
            && forall p, j :: 0 <= p < |m.polygons| && 0 <= j < 3 ==> BuildMesh(m).triangles[3 * p + j] == m.polygons[p][j]
  {
    if forall p :: 0 <= p < |m.polygons| ==> |m.polygons[p]| == 3 {
      TriangleVertices(m.polygons);
    }
  }

  /**
   * ProcessMesh: a node without a mesh gets nothing; otherwise the control
   * points are copied one by one, the polygon vertices appended polygon by
   * polygon, and the UV channels assigned by ProcessUVs with four slots.
   * Debug.Assert (polySize == 3) only logs in the editor, so larger polygons
   * are appended whole.
   */
  method ProcessMesh(fbxMesh: Option<FbxMesh>) returns (r: Option<MeshData>)
    requires fbxMesh.Some? ==> UVsAddressable(fbxMesh.value, 4)
    ensures fbxMesh.None? ==> r.None?
    ensures fbxMesh.Some? ==> r == Some(BuildMesh(fbxMesh.value))
  {
    if fbxMesh.None? {
      return None;
    }
    var m := fbxMesh.value;
    var unityMesh := new UnityMesh();

    var unityVertices: seq<Vec3> := [];
    for i := 0 to |m.controlPoints|
      invariant unityVertices == m.controlPoints[..i]
    {
      unityVertices := unityVertices + [m.controlPoints[i]];
    }

    var unityTriangleIndices: seq<int> := [];
    for polyIndex := 0 to |m.polygons|
      invariant unityTriangleIndices == PolygonVertices(m.polygons[..polyIndex])
    {
      var polySize := |m.polygons[polyIndex]|;
      for polyVertexIndex := 0 to polySize
        invariant unityTriangleIndices == PolygonVertices(m.polygons[..polyIndex]) + m.polygons[polyIndex][..polyVertexIndex]
      {
        unityTriangleIndices := unityTriangleIndices + [m.polygons[polyIndex][polyVertexIndex]];
      }
      assert m.polygons[..polyIndex + 1][..polyIndex] == m.polygons[..polyIndex];
    }
    assert m.controlPoints[..|m.controlPoints|] == m.controlPoints;
    assert m.polygons[..|m.polygons|] == m.polygons;

    unityMesh.vertices := unityVertices;
    unityMesh.triangles := unityTriangleIndices;
    ProcessUVs(m, unityMesh);
    assert unityMesh.Channel(0) == ChannelAfter(m, 4, 0, None);
    assert unityMesh.Channel(1) == ChannelAfter(m, 4, 1, None);
    assert unityMesh.Channel(2) == ChannelAfter(m, 4, 2, None);
    assert unityMesh.Channel(3) == ChannelAfter(m, 4, 3, None);
    r := Some(unityMesh.Data());
  }
}
