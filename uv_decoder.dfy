/**
 * UV set decoding: FbxImporter04.ProcessUVSet (FbxImporter04.cs, lines 52-108).
 *
 * The C# file guards the SDK calls with `#if UNI_18850`, and lines 1-4 leave
 * that symbol undefined; this model follows the code with every guarded block
 * ENABLED, which is the algorithm the example illustrates.
 *
 * One deviation, recorded as a finding: line 96 calls `GetAt (0, value)`
 * without `out`, so the struct `value` cannot receive slot 0 and every
 * all-same position stays (0,0). AllSameAsWritten keeps that reading; the
 * decoder used everywhere else broadcasts slot 0, as the branch intends.
 */
module UvDecoder {
  import opened Wrappers
  import opened Geometry

  /** FbxLayerElement.EReferenceMode. */
  datatype ReferenceMode = Direct | Index | IndexToDirect

  /** FbxLayerElement.EMappingMode. */
  datatype MappingMode = NoMapping | ByControlPoint | ByPolygonVertex | ByPolygon | ByEdge | AllSame

  /** FbxLayerElementUV: its two modes, its direct array and its index array. */
  datatype LayerElementUV = LayerElementUV(
    referenceMode: ReferenceMode,
    mappingMode: MappingMode,
    directArray: seq<UV>,
    indexArray: seq<int>)

  /** `isDirect` (line 63): only eDirect counts as direct; eIndex and eIndexToDirect go through the index array. */
  predicate IsDirect(e: LayerElementUV) {
    e.referenceMode == Direct
  }

  /**
   * The position in the polygon-vertex list read for output slot i
   * (lines 75-79): i itself when direct, the index array's entry i otherwise.
   */
  function IndexFor(e: LayerElementUV, i: nat): int
    requires !IsDirect(e) ==> i < |e.indexArray|
  {
    if IsDirect(e) then i else e.indexArray[i]
  }

  /**
   * Every lookup of the by-control-point loop (lines 74-90) lands inside its
   * array. The C# code would throw, or hand the SDK an out-of-range slot,
   * otherwise; no other branch reads an array, so nothing else is demanded.
   */
  predicate Addressable(e: LayerElementUV, indices: seq<int>, indexCount: nat, vertexCount: int) {
    e.mappingMode == ByControlPoint && |e.directArray| == vertexCount ==>
      && (!IsDirect(e) ==> indexCount <= |e.indexArray|)
      && forall i :: 0 <= i < indexCount ==>
           && 0 <= IndexFor(e, i) < |indices|
           && 0 <= indices[IndexFor(e, i)] < |e.directArray|
  }

  /** The NaN guard of lines 85-89. */
  function Sanitize(p: UV): (r: UV)
    ensures !HasNaN(r)
    ensures HasNaN(p) ==> r == ZeroUV
    ensures !HasNaN(p) ==> r == p
  {
    if HasNaN(p) then ZeroUV else p
  }

  /** The direct-array entry the by-control-point branch fetches for slot i (line 83). */
  function ControlPointUV(e: LayerElementUV, indices: seq<int>, indexCount: nat, i: nat): UV
    requires e.mappingMode == ByControlPoint
    requires Addressable(e, indices, indexCount, |e.directArray|)
    requires i < indexCount
  {
    e.directArray[indices[IndexFor(e, i)]]
  }

  /**
   * Reference definition of ProcessUVSet: None is the `return null` of
   * line 71; otherwise the array of `indexCount` UVs the method returns.
   */
  function DecodeUVSet(e: LayerElementUV, indices: seq<int>, indexCount: nat, vertexCount: int): (r: Option<seq<UV>>)
    requires Addressable(e, indices, indexCount, vertexCount)
    ensures r.None? <==> e.mappingMode == ByControlPoint && |e.directArray| != vertexCount
    ensures r.Some? ==> |r.value| == indexCount
  {
    match e.mappingMode
    case ByControlPoint =>
      if |e.directArray| != vertexCount then None
      else Some(seq(indexCount, i requires 0 <= i < indexCount => Sanitize(ControlPointUV(e, indices, indexCount, i))))
    case AllSame =>
      Some(seq(indexCount, _ => if |e.directArray| > 0 then e.directArray[0] else ZeroUV))
    case _ =>
      Some(seq(indexCount, _ => ZeroUV))
  }

  /**
   * ProcessUVSet: fills a zero-initialised Vector2[indexCount] (line 57) in a
   * loop and returns it, or returns null when a by-control-point direct array
   * does not hold exactly one entry per control point.
   */
  method ProcessUVSet(element: LayerElementUV, indices: seq<int>, indexCount: nat, vertexCount: int)
    returns (r: Option<seq<UV>>)
    requires Addressable(element, indices, indexCount, vertexCount)
    ensures r == DecodeUVSet(element, indices, indexCount, vertexCount)
  {
    var result := new UV[indexCount](_ => ZeroUV);
    var isDirect := element.referenceMode == Direct;
    var elementArray := element.directArray;
    var indexArray := if isDirect then [] else element.indexArray;

    if element.mappingMode == ByControlPoint {
      if |elementArray| != vertexCount {
        return None;
      }
      for i := 0 to indexCount
        invariant forall k :: 0 <= k < i ==> result[k] == Sanitize(ControlPointUV(element, indices, indexCount, k))
      {
        var index := i;
        if !isDirect {
          index := indexArray[i];
        }
        assert index == IndexFor(element, i);
        result[i] := elementArray[indices[index]];
        if HasNaN(result[i]) {
          // "invalid UV detected": the position is reset to (0,0)
          result[i] := ZeroUV;
        }
      }
    } else if element.mappingMode == AllSame {
      // GetAt (0, value) succeeds exactly when slot 0 exists
      if |elementArray| > 0 {
        var value := elementArray[0];
        for i := 0 to indexCount
          invariant forall k :: 0 <= k < i ==> result[k] == value
        {
          result[i] := value;
        }
      }
    } else {
      // "unsupported UV-to-Component mapping mode": logged, the zero-filled array is still returned
    }
    assert result[..] == DecodeUVSet(element, indices, indexCount, vertexCount).value;
    return Some(result[..]);
  }

  /** Property of the by-control-point branch: each slot is the looked-up UV, or (0,0) where that UV has a NaN; never NaN. */
  lemma ControlPointSlots(e: LayerElementUV, indices: seq<int>, indexCount: nat, vertexCount: int, i: nat)
    requires Addressable(e, indices, indexCount, vertexCount)
    requires e.mappingMode == ByControlPoint && |e.directArray| == vertexCount
    requires i < indexCount
    ensures DecodeUVSet(e, indices, indexCount, vertexCount).Some?
    ensures var r := DecodeUVSet(e, indices, indexCount, vertexCount).value;
            var k := if IsDirect(e) then i else e.indexArray[i];
            && 0 <= k < |indices|
            && !HasNaN(r[i])
            && (HasNaN(e.directArray[indices[k]]) ==> r[i] == ZeroUV)
            && (!HasNaN(e.directArray[indices[k]]) ==> r[i] == e.directArray[indices[k]])
  {
    assert (if IsDirect(e) then i else e.indexArray[i]) == IndexFor(e, i);
  }

  /** Property of the all-same branch: every slot holds the value of slot 0 (zeros when there is no slot 0). */
  lemma AllSameBroadcasts(e: LayerElementUV, indices: seq<int>, indexCount: nat, vertexCount: int)
    requires e.mappingMode == AllSame
    ensures DecodeUVSet(e, indices, indexCount, vertexCount).Some?
    ensures var r := DecodeUVSet(e, indices, indexCount, vertexCount).value;
            forall i :: 0 <= i < indexCount ==> r[i] == (if |e.directArray| > 0 then e.directArray[0] else ZeroUV)
  {
  }

  /** Every other mapping mode is an error that still yields an all-zero array, never null. */
  lemma UnsupportedModeIsZeroFilled(e: LayerElementUV, indices: seq<int>, indexCount: nat, vertexCount: int)
    requires e.mappingMode != ByControlPoint && e.mappingMode != AllSame
    ensures DecodeUVSet(e, indices, indexCount, vertexCount) == Some(seq(indexCount, _ => ZeroUV))
  {
  }

  /**
   * The all-same branch (lines 92-102) read as written: `value` is passed to
   * GetAt without `out`, so the callee gets a copy and `value` keeps the
   * (0,0) it was built with.
   */
  function AllSameAsWritten(e: LayerElementUV, indexCount: nat): (r: seq<UV>)
    requires e.mappingMode == AllSame
    ensures |r| == indexCount
  {
    var value := ZeroUV;
    if |e.directArray| > 0 then seq(indexCount, _ => value) else seq(indexCount, _ => ZeroUV)
  }

  /**
   * Counterexample: one all-same UV (0.5, 0.5) over six positions. The code
   * as written yields six (0,0); the intended decoder yields six (0.5, 0.5).
   */
  lemma AllSameAsWrittenDropsSlot0()
    ensures var half := UV(Num(0.5), Num(0.5));
            var e := LayerElementUV(Direct, AllSame, [half], []);
            && AllSameAsWritten(e, 6)[0] == ZeroUV
            && DecodeUVSet(e, [], 6, 0) == Some([half, half, half, half, half, half])
  {
    var half := UV(Num(0.5), Num(0.5));
    var e := LayerElementUV(Direct, AllSame, [half], []);
    assert DecodeUVSet(e, [], 6, 0).value == [half, half, half, half, half, half];
  }
}
