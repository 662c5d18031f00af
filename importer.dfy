/**
 * FbxImporter04's driver: the unit conversion that rescales the source scene
 * in place (ConvertScene), the depth-first walk that creates one Unity
 * object per source node (ProcessNode), ProcessScene's sequence of steps and
 * the count ImportAll hands back.
 *
 * The `#if UNI_18844` and `#if UNI_18892` blocks are modelled as compiled in:
 * the conversion factor comes from GetConversionFactorTo and the three
 * `lclTrs *= scaleFactor` statements all run. The SDK's settings objects are
 * not modelled; what the importer learns from them is passed in: whether the
 * file's system unit equals Unity's, whether its axis system equals Unity's,
 * the conversion factor, and whether Initialize and Import succeeded.
 */
module Importer {
  import opened Wrappers
  import opened Geometry
  import opened MeshBuilder
  import opened SceneGraph

  /** A Unity GameObject as the importer leaves it: its name, the index of its parent object, its mesh. */
  datatype GameObject = GameObject(name: string, parent: Option<nat>, mesh: Option<MeshData>)

  /** Every mesh of the scene meets ProcessMesh's demands on its UV sets. */
  predicate MeshesAddressable(meshes: seq<Option<FbxMesh>>) {
    forall v :: 0 <= v < |meshes| && meshes[v].Some? ==> UVsAddressable(meshes[v].value, 4)
  }

  /** The mesh ProcessMesh attaches for a node's mesh (nothing for a node without one). */
  function MeshOf(m: Option<FbxMesh>): Option<MeshData>
    requires m.Some? ==> UVsAddressable(m.value, 4)
  {
    if m.None? then None else Some(BuildMesh(m.value))
  }

  /** The mesh ProcessMesh attaches to each node's object, by node. */
  function BuiltMeshes(meshes: seq<Option<FbxMesh>>): seq<Option<MeshData>>
    requires MeshesAddressable(meshes)
  {
    seq(|meshes|, v requires 0 <= v < |meshes| => MeshOf(meshes[v]))
  }

  /**
   * The objects ProcessNode (v, parentObj) appends when `base` objects exist
   * already: v's own object at index base, then its children's subtrees in child order.
   */
  function Walk(h: Hierarchy, built: seq<Option<MeshData>>, v: nat, parentObj: Option<nat>, base: nat): (r: seq<GameObject>)
    requires WellFormed(h) && v < Size(h) && |built| == Size(h)
    ensures |r| == |PreOrder(h, v)|
    decreases Size(h) - v, 1, 0
  {
    ChildrenOf(h, v);
    [GameObject(h.names[v], parentObj, built[v])] + WalkChildren(h, built, v, h.children[v], base)
  }

  /** The subtrees of the children cs of v, whose object sits at index base, one after the other. */
  function WalkChildren(h: Hierarchy, built: seq<Option<MeshData>>, v: nat, cs: seq<nat>, base: nat): (r: seq<GameObject>)
    requires WellFormed(h) && v < Size(h) && |built| == Size(h)
    requires forall c :: c in cs ==> v < c < Size(h)
    ensures |r| == |PreOrderOf(h, v, cs)|
    decreases Size(h) - v, 0, |cs|
  {
    if cs == [] then []
    else
      var front, last := cs[..|cs| - 1], cs[|cs| - 1];
      assert last in cs && forall c :: c in front ==> c in cs;
      var done := WalkChildren(h, built, v, front, base);
      done + Walk(h, built, last, Some(base), base + 1 + |done|)
  }

  /**
   * Every object after the first hangs under an object created before it
   * (index base + j, j < i), namely the object of its node's parent in the listing p.
   */
  predicate ParentsEarlier(parentOf: seq<int>, w: seq<GameObject>, p: seq<nat>, base: nat) {
    && |w| == |p|
    && (forall i :: 0 <= i < |p| ==> p[i] < |parentOf|)
    && forall i :: 0 < i < |w| ==> HangsEarlier(parentOf, w, p, base, i)
  }

  /** Object i, if it is not the first, hangs under the earlier object of its node's parent. */
  predicate HangsEarlier(parentOf: seq<int>, w: seq<GameObject>, p: seq<nat>, base: nat, i: int) {
    0 < i < |w| && |w| == |p| && p[i] < |parentOf| ==>
      && w[i].parent.Some? && base <= w[i].parent.value < base + i
      && p[w[i].parent.value - base] == parentOf[p[i]]
  }

  /**
   * Every object of a children's walk hangs under v's object (index base) or
   * under a later one created before it, namely the object of its node's parent in [v] + q.
   */
  predicate ParentsWithin(parentOf: seq<int>, w: seq<GameObject>, v: nat, q: seq<nat>, base: nat) {
    && |w| == |q|
    && (forall i :: 0 <= i < |q| ==> q[i] < |parentOf|)
    && forall i :: 0 <= i < |w| ==> HangsWithin(parentOf, w, v, q, base, i)
  }

  /** Object i of a children's walk hangs under v's object or under the earlier object of its node's parent. */
  predicate HangsWithin(parentOf: seq<int>, w: seq<GameObject>, v: nat, q: seq<nat>, base: nat, i: int) {
    0 <= i < |w| && |w| == |q| && q[i] < |parentOf| ==>
      && w[i].parent.Some? && base <= w[i].parent.value <= base + i
      && ([v] + q)[w[i].parent.value - base] == parentOf[q[i]]
  }

  /** Object i is named after node p[i] and carries the mesh built for that node. */
  predicate Mirrors(h: Hierarchy, built: seq<Option<MeshData>>, w: seq<GameObject>, p: seq<nat>)
    requires |built| == |h.names|
    requires |w| == |p| && forall i :: 0 <= i < |p| ==> p[i] < |h.names|
  {
    forall i :: 0 <= i < |w| ==> w[i].name == h.names[p[i]] && w[i].mesh == built[p[i]]
  }

  lemma MirrorsConcat(h: Hierarchy, built: seq<Option<MeshData>>, w1: seq<GameObject>, p1: seq<nat>, w2: seq<GameObject>, p2: seq<nat>)
    requires |built| == |h.names|
    requires |w1| == |p1| && forall i :: 0 <= i < |p1| ==> p1[i] < |h.names|
    requires |w2| == |p2| && forall i :: 0 <= i < |p2| ==> p2[i] < |h.names|
    requires Mirrors(h, built, w1, p1) && Mirrors(h, built, w2, p2)
    ensures forall i :: 0 <= i < |p1 + p2| ==> (p1 + p2)[i] < |h.names|
    ensures Mirrors(h, built, w1 + w2, p1 + p2)
  {
    var w, p := w1 + w2, p1 + p2;
    forall i | 0 <= i < |p|
      ensures p[i] < |h.names|
      ensures w[i].name == h.names[p[i]] && w[i].mesh == built[p[i]]
    {
      if i < |w1| {
        assert w[i] == w1[i] && p[i] == p1[i];
      } else {
        assert w[i] == w2[i - |w1|] && p[i] == p2[i - |w1|];
      }
    }
  }

  /** The walk creates one object per node of the subtree, in pre-order, named after it and carrying its mesh. */
  lemma {:induction false} WalkMirrorsPreOrder(h: Hierarchy, built: seq<Option<MeshData>>, v: nat, parentObj: Option<nat>, base: nat)
    requires WellFormed(h) && v < Size(h) && |built| == Size(h)
    ensures Mirrors(h, built, Walk(h, built, v, parentObj, base), PreOrder(h, v))
    decreases Size(h) - v, 1, 0
  {
    ChildrenOf(h, v);
    var cs := h.children[v];
    WalkChildrenMirrorsPreOrder(h, built, v, cs, base);
    MirrorsConcat(h, built, [GameObject(h.names[v], parentObj, built[v])], [v],
                  WalkChildren(h, built, v, cs, base), PreOrderOf(h, v, cs));
  }

  /** The children's walk creates their subtrees' objects in the order PreOrderOf lists the nodes. */
  lemma {:induction false} WalkChildrenMirrorsPreOrder(h: Hierarchy, built: seq<Option<MeshData>>, v: nat, cs: seq<nat>, base: nat)
    requires WellFormed(h) && v < Size(h) && |built| == Size(h)
    requires forall c :: c in cs ==> v < c < Size(h)
    ensures Mirrors(h, built, WalkChildren(h, built, v, cs, base), PreOrderOf(h, v, cs))
    decreases Size(h) - v, 0, |cs|
  {
    if cs != [] {
      var front, last := cs[..|cs| - 1], cs[|cs| - 1];
      assert last in cs && forall c :: c in front ==> c in cs;
      WalkChildrenMirrorsPreOrder(h, built, v, front, base);
      var done := WalkChildren(h, built, v, front, base);
      WalkMirrorsPreOrder(h, built, last, Some(base), base + 1 + |done|);
      MirrorsConcat(h, built, done, PreOrderOf(h, v, front),
                    Walk(h, built, last, Some(base), base + 1 + |done|), PreOrder(h, last));
    }
  }

  /**
   * The first object of the walk hangs under parentObj and every later one
   * under the object created earlier for its node's parent.
   */
  lemma {:induction false} WalkParentsFollowTree(h: Hierarchy, built: seq<Option<MeshData>>, v: nat, parentObj: Option<nat>, base: nat)
    requires WellFormed(h) && v < Size(h) && |built| == Size(h)
    ensures Walk(h, built, v, parentObj, base)[0].parent == parentObj
    ensures ParentsEarlier(h.parent, Walk(h, built, v, parentObj, base), PreOrder(h, v), base)
    decreases Size(h) - v, 1, 0
  {
    ChildrenOf(h, v);
    var cs := h.children[v];
    WalkChildrenParentsFollowTree(h, built, v, cs, base);
    ParentsEarlierCons(h.parent, GameObject(h.names[v], parentObj, built[v]), v,
                       WalkChildren(h, built, v, cs, base), PreOrderOf(h, v, cs), base);
  }

  /** Putting v's object in front of its children's walk keeps every later object under an earlier one. */
  lemma ParentsEarlierCons(parentOf: seq<int>, o: GameObject, v: nat, wc: seq<GameObject>, pc: seq<nat>, base: nat)
    requires v < |parentOf| && ParentsWithin(parentOf, wc, v, pc, base)
    ensures ParentsEarlier(parentOf, [o] + wc, [v] + pc, base)
  {
    var w, p := [o] + wc, [v] + pc;
    forall i | 0 <= i < |p|
      ensures p[i] < |parentOf|
    {
      if i > 0 {
        assert p[i] == pc[i - 1];
      }
    }
    forall i
      ensures HangsEarlier(parentOf, w, p, base, i)
    {
      if 0 < i < |w| {
        assert HangsWithin(parentOf, wc, v, pc, base, i - 1);
        assert w[i] == wc[i - 1] && p[i] == pc[i - 1];
      }
    }
  }

  /** Each object of the children's walk hangs under v's object or under the earlier object of its node's parent. */
  lemma {:induction false} WalkChildrenParentsFollowTree(h: Hierarchy, built: seq<Option<MeshData>>, v: nat, cs: seq<nat>, base: nat)
    requires WellFormed(h) && v < Size(h) && |built| == Size(h)
    requires forall c :: c in cs ==> v < c < Size(h) && h.parent[c] == v
    ensures ParentsWithin(h.parent, WalkChildren(h, built, v, cs, base), v, PreOrderOf(h, v, cs), base)
    decreases Size(h) - v, 0, |cs|
  {
    if cs != [] {
      var front, last := cs[..|cs| - 1], cs[|cs| - 1];
      assert last in cs && forall c :: c in front ==> c in cs;
      WalkChildrenParentsFollowTree(h, built, v, front, base);
      var done := WalkChildren(h, built, v, front, base);
      var next := base + 1 + |done|;
      WalkParentsFollowTree(h, built, last, Some(base), next);
      var wl, ql := Walk(h, built, last, Some(base), next), PreOrder(h, last);
      ParentsWithinConcat(h.parent, v, WalkChildren(h, built, v, cs, base), PreOrderOf(h, v, cs),
                          done, PreOrderOf(h, v, front), wl, ql, base);
    }
  }

  /** Appending the walk of one more child keeps every object under the object of its node's parent. */
  lemma ParentsWithinConcat(parentOf: seq<int>, v: nat, w: seq<GameObject>, q: seq<nat>,
                            done: seq<GameObject>, qf: seq<nat>, wl: seq<GameObject>, ql: seq<nat>, base: nat)
    requires w == done + wl && q == qf + ql
    requires ParentsWithin(parentOf, done, v, qf, base)
    requires ParentsEarlier(parentOf, wl, ql, base + 1 + |done|)
    requires |wl| > 0 && wl[0].parent == Some(base) && parentOf[ql[0]] == v
    ensures ParentsWithin(parentOf, w, v, q, base)
  {
    var next := base + 1 + |done|;
    forall i | 0 <= i < |q|
      ensures q[i] < |parentOf|
    {
      if i >= |qf| {
        assert q[i] == ql[i - |qf|];
      }
    }
    forall i
      ensures HangsWithin(parentOf, w, v, q, base, i)
    {
      if 0 <= i < |done| {
        assert HangsWithin(parentOf, done, v, qf, base, i);
        assert w[i] == done[i] && q[i] == qf[i];
        assert ([v] + qf)[w[i].parent.value - base] == ([v] + q)[w[i].parent.value - base];
      } else if |done| <= i < |w| {
        var k := i - |done|;
        assert w[i] == wl[k] && q[i] == ql[k];
        if k > 0 {
          assert HangsEarlier(parentOf, wl, ql, next, k);
          var j := wl[k].parent.value - next;
          assert ([v] + q)[1 + |done| + j] == ql[j];
        }
      }
    }
  }

  /**
   * The objects created from the root: exactly one per node of the scene, the
   * root's object without a parent and every other object under the object of
   * its node's parent, created earlier.
   */
  lemma WalkCoversScene(h: Hierarchy, built: seq<Option<MeshData>>, base: nat)
    requires WellFormed(h) && |built| == Size(h)
    ensures var w, p := Walk(h, built, 0, None, base), PreOrder(h, 0);
            && |w| == |p| == Size(h)
            && (forall x: nat :: x < Size(h) <==> x in p)
            && Distinct(p)
            && Mirrors(h, built, w, p)
            && w[0].parent.None?
            && ParentsEarlier(h.parent, w, p, base)
  {
    WalkMirrorsPreOrder(h, built, 0, None, base);
    WalkParentsFollowTree(h, built, 0, None, base);
    PreOrderCoversScene(h);
  }

  /** A mesh after ConvertScene: every control point multiplied by the factor once. */
  function ScaleMesh(m: FbxMesh, factor: real): FbxMesh {
    m.(controlPoints := seq(|m.controlPoints|, i requires 0 <= i < |m.controlPoints| => Scale(m.controlPoints[i], factor)))
  }

  /** Each node's LclTranslation after ConvertScene with a factor other than one. */
  function RescaledTranslations(ts: seq<Vec3>, factor: real): seq<Vec3> {
    seq(|ts|, v requires 0 <= v < |ts| => ScaleThrice(ts[v], factor))
  }

  /** Each node's mesh after ConvertScene with a factor other than one. */
  function RescaledMeshes(ms: seq<Option<FbxMesh>>, factor: real): seq<Option<FbxMesh>> {
    seq(|ms|, v requires 0 <= v < |ms| => ScaleMeshSlot(ms[v], factor))
  }

  /**
   * The unit conversion as written: translations end up multiplied by the
   * cube of the factor, control points by the factor; polygons and UV layers
   * are untouched, so every mesh stays fit for ProcessMesh.
   */
  lemma RescaleEffect(ts: seq<Vec3>, ms: seq<Option<FbxMesh>>, factor: real)
    requires MeshesAddressable(ms)
    ensures |RescaledTranslations(ts, factor)| == |ts|
    ensures forall v :: 0 <= v < |ts| ==> RescaledTranslations(ts, factor)[v] == Scale(ts[v], factor * factor * factor)
    ensures |RescaledMeshes(ms, factor)| == |ms| && MeshesAddressable(RescaledMeshes(ms, factor))
    ensures forall v :: 0 <= v < |ms| ==> RescaledMeshes(ms, factor)[v].Some? == ms[v].Some?
    ensures forall v, i :: 0 <= v < |ms| && ms[v].Some? && 0 <= i < |ms[v].value.controlPoints| ==>
              var r := RescaledMeshes(ms, factor)[v].value;
              && |r.controlPoints| == |ms[v].value.controlPoints|
              && r.controlPoints[i] == Scale(ms[v].value.controlPoints[i], factor)
              && r.polygons == ms[v].value.polygons && r.layers == ms[v].value.layers
  {
    forall v | 0 <= v < |ts|
      ensures RescaledTranslations(ts, factor)[v] == Scale(ts[v], factor * factor * factor)
    {
      ScaleThriceIsCube(ts[v], factor);
    }
    var rs := RescaledMeshes(ms, factor);
    forall v | 0 <= v < |rs| && rs[v].Some?
      ensures UVsAddressable(rs[v].value, 4)
    {
      var m := ms[v].value;
      assert rs[v].value == ScaleMesh(m, factor);
      assert UVsAddressable(m, 4);
    }
  }

  /** With a factor of one the conversion would change nothing, so skipping it loses nothing. */
  lemma UnitFactorIsIdentity(ts: seq<Vec3>, ms: seq<Option<FbxMesh>>)
    ensures RescaledTranslations(ts, 1.0) == ts
    ensures RescaledMeshes(ms, 1.0) == ms
  {
    forall v | 0 <= v < |ts|
      ensures RescaledTranslations(ts, 1.0)[v] == ts[v]
    {
      ScaleByOne(ts[v]);
    }
    forall v | 0 <= v < |ms| && ms[v].Some?
      ensures ScaleMesh(ms[v].value, 1.0) == ms[v].value
    {
      var m := ms[v].value;
      forall i | 0 <= i < |m.controlPoints|
        ensures ScaleMesh(m, 1.0).controlPoints[i] == m.controlPoints[i]
      {
        ScaleByOne(m.controlPoints[i]);
      }
    }
  }

  /** The control points of v's mesh, the first `done` of them already multiplied by the factor. */
  function PartlyScaled(cps: seq<Vec3>, factor: real, done: nat): seq<Vec3> {
    seq(|cps|, i requires 0 <= i < |cps| => if i < done then Scale(cps[i], factor) else cps[i])
  }

  /** The control-point loop of ConvertScene for node v: each point read, multiplied and written back. */
  method RescaleControlPoints(scene: FbxScene, v: nat, scaleFactor: real)
    requires scene.Valid() && v < Size(scene.hierarchy) && scene.meshes[v].Some?
    modifies scene
    ensures scene.Valid()
    ensures scene.translations == old(scene.translations)
    ensures scene.meshes == old(scene.meshes)[v := Some(ScaleMesh(old(scene.meshes[v].value), scaleFactor))]
  {
    ghost var m := scene.meshes[v].value;
    var count := |scene.meshes[v].value.controlPoints|;
    assert m.(controlPoints := PartlyScaled(m.controlPoints, scaleFactor, 0)) == m;
    for i := 0 to count
      invariant scene.Valid()
      invariant scene.translations == old(scene.translations)
      invariant scene.meshes == old(scene.meshes)[v := Some(m.(controlPoints := PartlyScaled(m.controlPoints, scaleFactor, i)))]
    {
      var fbxVector4 := scene.meshes[v].value.controlPoints[i];
      fbxVector4 := Scale(fbxVector4, scaleFactor);
      scene.SetControlPointAt(v, fbxVector4, i);
      assert scene.meshes[v].value.controlPoints == PartlyScaled(m.controlPoints, scaleFactor, i + 1);
    }
    assert PartlyScaled(m.controlPoints, scaleFactor, count) == ScaleMesh(m, scaleFactor).controlPoints;
  }

  /** One node's work in ConvertScene: its translation multiplied by the factor three times, then its mesh's control points once. */
  method RescaleNode(scene: FbxScene, fbxNode: nat, scaleFactor: real)
    requires scene.Valid() && fbxNode < Size(scene.hierarchy)
    modifies scene
    ensures scene.Valid()
    ensures scene.translations == old(scene.translations)[fbxNode := ScaleThrice(old(scene.translations[fbxNode]), scaleFactor)]
    ensures scene.meshes == old(scene.meshes)[fbxNode := ScaleMeshSlot(old(scene.meshes[fbxNode]), scaleFactor)]
  {
    var lclTrs := scene.translations[fbxNode];
    lclTrs := Scale(lclTrs, scaleFactor);
    lclTrs := Scale(lclTrs, scaleFactor);
    lclTrs := Scale(lclTrs, scaleFactor);
    scene.SetTranslation(fbxNode, lclTrs);
    if scene.meshes[fbxNode].Some? {
      RescaleControlPoints(scene, fbxNode, scaleFactor);
    }
  }

  /** A node's mesh slot after its control points are multiplied by the factor (no mesh stays no mesh). */
  function ScaleMeshSlot(m: Option<FbxMesh>, factor: real): Option<FbxMesh> {
    if m.Some? then Some(ScaleMesh(m.value, factor)) else None
  }

  /** The translations part-way through ConvertScene: the nodes in `visited` are rescaled, the others not yet. */
  function TranslationsAfter(ts: seq<Vec3>, visited: seq<nat>, factor: real): seq<Vec3> {
    seq(|ts|, v requires 0 <= v < |ts| => if v in visited then ScaleThrice(ts[v], factor) else ts[v])
  }

  /** The meshes part-way through ConvertScene: those of the nodes in `visited` are rescaled, the others not yet. */
  function MeshesAfter(ms: seq<Option<FbxMesh>>, visited: seq<nat>, factor: real): seq<Option<FbxMesh>> {
    seq(|ms|, v requires 0 <= v < |ms| => if v in visited then ScaleMeshSlot(ms[v], factor) else ms[v])
  }

  /** Visiting one more node rescales that node, which had not been rescaled yet, and no other. */
  lemma VisitOneMore(ts: seq<Vec3>, ms: seq<Option<FbxMesh>>, visited: seq<nat>, q: nat, factor: real)
    requires q < |ts| && q < |ms| && q !in visited
    ensures TranslationsAfter(ts, visited, factor)[q] == ts[q]
    ensures MeshesAfter(ms, visited, factor)[q] == ms[q]
    ensures TranslationsAfter(ts, visited + [q], factor) == TranslationsAfter(ts, visited, factor)[q := ScaleThrice(ts[q], factor)]
    ensures MeshesAfter(ms, visited + [q], factor) == MeshesAfter(ms, visited, factor)[q := ScaleMeshSlot(ms[q], factor)]
  {
  }

  /** Before any visit nothing is rescaled; once every node is visited, all are. */
  lemma VisitBounds(ts: seq<Vec3>, ms: seq<Option<FbxMesh>>, visited: seq<nat>, factor: real)
    ensures TranslationsAfter(ts, [], factor) == ts && MeshesAfter(ms, [], factor) == ms
    ensures (forall v :: 0 <= v < |ts| ==> v in visited) ==> TranslationsAfter(ts, visited, factor) == RescaledTranslations(ts, factor)
    ensures (forall v :: 0 <= v < |ms| ==> v in visited) ==> MeshesAfter(ms, visited, factor) == RescaledMeshes(ms, factor)
  {
  }

  /**
   * The breadth-first queue of ConvertScene with the nodes already visited:
   * together they list distinct nodes, hold the root, and a node other than
   * the root is in either exactly when its parent has been visited.
   */
  predicate Frontier(h: Hierarchy, visited: seq<nat>, queue: seq<nat>) {
    && WellFormed(h)
    && (forall x :: x in visited + queue ==> x < Size(h))
    && Distinct(visited + queue)
    && 0 in visited + queue
    && forall j :: 0 < j < Size(h) ==> (j in visited + queue <==> h.parent[j] in visited)
  }

  /**
   * One turn of the queue: the node at its head has not been visited, and
   * visiting it and queueing its children keeps the frontier.
   */
  lemma {:induction false} FrontierStep(h: Hierarchy, visited: seq<nat>, queue: seq<nat>)
    requires Frontier(h, visited, queue) && queue != []
    ensures queue[0] < Size(h) && queue[0] !in visited && |visited| < Size(h)
    ensures Frontier(h, visited + [queue[0]], queue[1..] + h.children[queue[0]])
  {
    var n := Size(h);
    var node, rest := queue[0], queue[1..];
    assert node in visited + queue;
    var children := h.children[node];
    DistinctListingBound(visited + queue, n);
    assert visited + queue == visited + [node] + rest;
    DistinctSplit(visited, queue);
    ChildrenOf(h, node);
    forall c | c in children
      ensures c !in visited + [node] + rest
    {
      assert 0 < c < n && h.parent[c] == node;
    }
    DistinctConcat(visited + [node] + rest, children);
    var visited', queue' := visited + [node], rest + children;
    assert visited' + queue' == visited + [node] + rest + children;
    forall j | 0 < j < n
      ensures j in visited' + queue' <==> h.parent[j] in visited'
    {
      if h.parent[j] == node {
        assert j in children;
      } else {
        assert j in visited' + queue' <==> j in visited + [node] + rest;
      }
    }
  }

  /** Once the queue is empty, every node has been visited. */
  lemma FrontierDone(h: Hierarchy, visited: seq<nat>)
    requires Frontier(h, visited, [])
    ensures forall v :: 0 <= v < Size(h) ==> v in visited
  {
    assert visited + [] == visited;
    forall v | 0 <= v < Size(h)
      ensures v in visited
    {
      ParentClosedCoversScene(h, visited, v);
    }
  }

  /** The enqueue loop of ConvertScene: each child appended to the queue in order. */
  method Enqueue(fbxNodes: seq<nat>, children: seq<nat>) returns (r: seq<nat>)
    ensures r == fbxNodes + children
  {
    r := fbxNodes;
    for i := 0 to |children|
      invariant r == fbxNodes + children[..i]
    {
      r := r + [children[i]];
    }
    assert children[..|children|] == children;
  }

  /**
   * ConvertScene: nothing happens for a factor of one; otherwise the nodes
   * are visited breadth first from the root, each once, and each node's
   * translation is multiplied by the factor three times and its mesh's control
   * points once. The visit order is ghost: it shows that the queue reaches
   * every node and no node twice.
   */
  method ConvertScene(scene: FbxScene, scaleFactor: real)
    requires scene.Valid()
    modifies scene
    ensures scene.Valid()
    ensures scene.translations == RescaledTranslations(old(scene.translations), scaleFactor)
    ensures scene.meshes == RescaledMeshes(old(scene.meshes), scaleFactor)
    ensures scaleFactor == 1.0 ==> scene.translations == old(scene.translations) && scene.meshes == old(scene.meshes)
  {
    if scaleFactor == 1.0 {
      UnitFactorIsIdentity(scene.translations, scene.meshes);
      return;
    }
    var h := scene.hierarchy;
    ghost var ts0, ms0 := scene.translations, scene.meshes;
    var fbxNodes: seq<nat> := [0];
    ghost var visited: seq<nat> := [];
    VisitBounds(ts0, ms0, visited, scaleFactor);
    assert Frontier(h, visited, fbxNodes);
    while |fbxNodes| > 0
      invariant scene.Valid() && scene.hierarchy == h
      invariant Frontier(h, visited, fbxNodes)
      invariant scene.translations == TranslationsAfter(ts0, visited, scaleFactor)
      invariant scene.meshes == MeshesAfter(ms0, visited, scaleFactor)
      decreases Size(h) - |visited|
    {
      FrontierStep(h, visited, fbxNodes);
      var fbxNode := fbxNodes[0];
      VisitOneMore(ts0, ms0, visited, fbxNode, scaleFactor);
      RescaleNode(scene, fbxNode, scaleFactor);
      fbxNodes := Enqueue(fbxNodes[1..], h.children[fbxNode]);
      visited := visited + [fbxNode];
    }
    FrontierDone(h, visited);
    VisitBounds(ts0, ms0, visited, scaleFactor);
  }

  /**
   * The first part of ProcessNode for one node: a GameObject named after the
   * node, placed under unityParentObj when there is one, and given the mesh
   * ProcessMesh builds from the node's mesh.
   */
  method NewNodeObject(scene: FbxScene, fbxNode: nat, unityParentObj: Option<nat>) returns (unityGo: GameObject)
    requires scene.Valid() && fbxNode < Size(scene.hierarchy) && MeshesAddressable(scene.meshes)
    ensures unityGo.name == scene.hierarchy.names[fbxNode]
    ensures unityGo.parent == unityParentObj
    ensures scene.meshes[fbxNode].None? ==> unityGo.mesh.None?
    ensures scene.meshes[fbxNode].Some? ==> unityGo.mesh == Some(BuildMesh(scene.meshes[fbxNode].value))
  {
    var name := scene.hierarchy.names[fbxNode];
    unityGo := GameObject(name, None, None);
    if unityParentObj.Some? {
      unityGo := unityGo.(parent := unityParentObj);
    }
    var mesh := ProcessMesh(scene.meshes[fbxNode]);
    unityGo := unityGo.(mesh := mesh);
  }

  /** One more child: its subtree's listing and its walk follow those of the children before it. */
  lemma WalkChildrenStep(h: Hierarchy, built: seq<Option<MeshData>>, v: nat, cs: seq<nat>, i: nat, base: nat)
    requires WellFormed(h) && v < Size(h) && |built| == Size(h)
    requires forall c :: c in cs ==> v < c < Size(h)
    requires i < |cs|
    ensures forall c :: c in cs[..i] ==> v < c < Size(h)
    ensures v < cs[i] < Size(h) && cs[..i + 1] == cs[..i] + [cs[i]]
    ensures PreOrderOf(h, v, cs[..i + 1]) == PreOrderOf(h, v, cs[..i]) + PreOrder(h, cs[i])
    ensures var done := WalkChildren(h, built, v, cs[..i], base);
            WalkChildren(h, built, v, cs[..i + 1], base) == done + Walk(h, built, cs[i], Some(base), base + 1 + |done|)
  {
    assert cs[i] in cs && forall c :: c in cs[..i] ==> c in cs;
    assert cs[..i + 1][..i] == cs[..i];
  }

  lemma AppendAssoc<T>(a: seq<T>, b: seq<T>, c: seq<T>)
    ensures a + (b + c) == (a + b) + c
  {
  }

  /**
   * The importer object: NumNodes, and the Unity objects it has created so far
   * (index i of `created` is the i-th GameObject made; parents refer to these indices).
   */
  class FbxImporter {
    var numNodes: int
    var created: seq<GameObject>

    constructor ()
      ensures numNodes == 0 && created == []
    {
      numNodes := 0;
      created := [];
    }

    /**
     * ProcessNode: a GameObject named after the node, counted in NumNodes,
     * parented under unityParentObj when there is one and given the node's
     * mesh, then the children processed in order under it.
     */
    method ProcessNode(scene: FbxScene, fbxNode: nat, unityParentObj: Option<nat>)
      requires scene.Valid() && fbxNode < Size(scene.hierarchy) && MeshesAddressable(scene.meshes)
      modifies this
      ensures numNodes == old(numNodes) + |PreOrder(scene.hierarchy, fbxNode)|
      ensures created == old(created) + Walk(scene.hierarchy, BuiltMeshes(scene.meshes), fbxNode, unityParentObj, old(|created|))
      decreases Size(scene.hierarchy) - fbxNode, 1
    {
      var unityGo := NewNodeObject(scene, fbxNode, unityParentObj);
      numNodes := numNodes + 1;
      var index := |created|;
      created := created + [unityGo];
      ProcessChildren(scene, fbxNode, index);
      AppendAssoc(old(created), [unityGo], WalkChildren(scene.hierarchy, BuiltMeshes(scene.meshes), fbxNode, scene.hierarchy.children[fbxNode], index));
    }

    /**
     * The loop at the end of ProcessNode: each child of the node, in order,
     * processed with the node's object (index `index`) as parent.
     */
    method ProcessChildren(scene: FbxScene, fbxNode: nat, index: nat)
      requires scene.Valid() && fbxNode < Size(scene.hierarchy) && MeshesAddressable(scene.meshes)
      requires |created| == index + 1
      modifies this
      ensures numNodes == old(numNodes) + |PreOrderOf(scene.hierarchy, fbxNode, scene.hierarchy.children[fbxNode])|
      ensures created == old(created) + WalkChildren(scene.hierarchy, BuiltMeshes(scene.meshes), fbxNode, scene.hierarchy.children[fbxNode], index)
      decreases Size(scene.hierarchy) - fbxNode, 0
    {
      var h := scene.hierarchy;
      ghost var built := BuiltMeshes(scene.meshes);
      var children := h.children[fbxNode];
      ChildrenOf(h, fbxNode);
      for i := 0 to |children|
        invariant numNodes == old(numNodes) + |PreOrderOf(h, fbxNode, children[..i])|
        invariant created == old(created) + WalkChildren(h, built, fbxNode, children[..i], index)
      {
        WalkChildrenStep(h, built, fbxNode, children, i, index);
        ghost var done := WalkChildren(h, built, fbxNode, children[..i], index);
        ProcessNode(scene, children[i], Some(index));
        AppendAssoc(old(created), done, Walk(h, built, children[i], Some(index), index + 1 + |done|));
      }
      assert children[..|children|] == children;
    }

    /**
     * ProcessScene: rescale the scene only when its system unit differs from
     * Unity's, warn (the result) when its axis system differs, then walk the
     * nodes from the root with no parent object.
     */
    method ProcessScene(scene: FbxScene, unitsMatch: bool, axisMatches: bool, scaleFactor: real) returns (axisWarning: bool)
      requires scene.Valid() && MeshesAddressable(scene.meshes)
      modifies this, scene
      ensures scene.Valid() && MeshesAddressable(scene.meshes)
      ensures unitsMatch ==> scene.translations == old(scene.translations) && scene.meshes == old(scene.meshes)
      ensures !unitsMatch ==> && scene.translations == RescaledTranslations(old(scene.translations), scaleFactor)
                              && scene.meshes == RescaledMeshes(old(scene.meshes), scaleFactor)
      ensures axisWarning == !axisMatches
      ensures numNodes == old(numNodes) + Size(scene.hierarchy)
      ensures created == old(created) + Walk(scene.hierarchy, BuiltMeshes(scene.meshes), 0, None, old(|created|))
    {
      if !unitsMatch {
        RescaleEffect(scene.translations, scene.meshes, scaleFactor);
        ConvertScene(scene, scaleFactor);
      }
      axisWarning := !axisMatches;
      PreOrderCoversScene(scene.hierarchy);
      ProcessNode(scene, 0, None);
    }

    /**
     * ImportAll's result: 0 when Initialize or Import fails (nothing is
     * processed then), otherwise NumNodes after ProcessScene, which counts
     * every node of the scene on top of what the importer had counted before.
     */
    method ImportAll(scene: FbxScene, initialized: bool, imported: bool, unitsMatch: bool, axisMatches: bool, scaleFactor: real)
      returns (count: int)
      requires scene.Valid() && MeshesAddressable(scene.meshes)
      modifies this, scene
      ensures scene.Valid() && MeshesAddressable(scene.meshes)
      ensures !(initialized && imported) ==>
                && count == 0 && numNodes == old(numNodes) && created == old(created)
                && scene.translations == old(scene.translations) && scene.meshes == old(scene.meshes)
      ensures initialized && imported && unitsMatch ==>
                scene.translations == old(scene.translations) && scene.meshes == old(scene.meshes)
      ensures initialized && imported && !unitsMatch ==>
                && scene.translations == RescaledTranslations(old(scene.translations), scaleFactor)
                && scene.meshes == RescaledMeshes(old(scene.meshes), scaleFactor)
      ensures initialized && imported ==>
                && count == numNodes == old(numNodes) + Size(scene.hierarchy)
                && created == old(created) + Walk(scene.hierarchy, BuiltMeshes(scene.meshes), 0, None, old(|created|))
    {
      if !initialized {
        return 0;
      }
      var status := imported;
      if status {
        var _ := ProcessScene(scene, unitsMatch, axisMatches, scaleFactor);
      }
      count := if status then numNodes else 0;
    }
  }
}
