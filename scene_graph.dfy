/**
 * The source scene the importer walks: FbxScene / FbxNode as an arena of
 * nodes numbered 0 to n-1, node 0 being GetRootNode (). Each node's parent
 * has a smaller number than the node (every tree can be numbered so), which
 * is what makes the recursions below terminate.
 */
module SceneGraph {
  import opened Wrappers
  import opened Geometry
  import opened MeshBuilder

  /** The fixed shape of the scene: names, GetChild (i) lists and the parent links. */
  datatype Hierarchy = Hierarchy(names: seq<string>, children: seq<seq<nat>>, parent: seq<int>)

  function Size(h: Hierarchy): nat {
    |h.names|
  }

  predicate Distinct<T(==)>(s: seq<T>) {
    forall i, j :: 0 <= i < j < |s| ==> s[i] != s[j]
  }

  /** A tree rooted at node 0: child lists and parent links agree, and no node is listed twice. */
  predicate WellFormed(h: Hierarchy) {
    var n := |h.names|;
    && n > 0
    && |h.children| == n
    && |h.parent| == n
    && h.parent[0] == -1
    && (forall j :: 0 < j < n ==> 0 <= h.parent[j] < j && j in h.children[h.parent[j]])
    && (forall p, k :: 0 <= p < n && 0 <= k < |h.children[p]| ==>
          p < h.children[p][k] < n && h.parent[h.children[p][k]] == p)
    && (forall p :: 0 <= p < n ==> Distinct(h.children[p]))
  }

  /** Node x is node a or lies below it. */
  predicate Descends(h: Hierarchy, x: nat, a: nat)
    requires WellFormed(h) && x < Size(h)
    decreases x
  {
    x == a || (x != 0 && Descends(h, h.parent[x], a))
  }

  /** Pre-order listing of the subtree at v: v, then its children's subtrees in child order. */
  function PreOrder(h: Hierarchy, v: nat): (r: seq<nat>)
    requires WellFormed(h) && v < Size(h)
    ensures |r| > 0 && r[0] == v
    ensures forall i :: 0 <= i < |r| ==> v <= r[i] < Size(h)
    decreases Size(h) - v, 1, 0
  {
    [v] + PreOrderOf(h, v, h.children[v])
  }

  /** The subtrees of the children cs of v, listed one after the other. */
  function PreOrderOf(h: Hierarchy, v: nat, cs: seq<nat>): (r: seq<nat>)
    requires WellFormed(h) && v < Size(h)
    requires forall c :: c in cs ==> v < c < Size(h)
    ensures forall i :: 0 <= i < |r| ==> v < r[i] < Size(h)
    decreases Size(h) - v, 0, |cs|
  {
    if cs == [] then []
    else
      var front, last := cs[..|cs| - 1], cs[|cs| - 1];
      assert last in cs && forall c :: c in front ==> c in cs;
      PreOrderOf(h, v, front) + PreOrder(h, last)
  }

  /** The children of v carry larger numbers than v and name v as their parent. */
  lemma ChildrenOf(h: Hierarchy, v: nat)
    requires WellFormed(h) && v < Size(h)
    ensures forall c :: c in h.children[v] ==> v < c < Size(h) && h.parent[c] == v
  {
    forall c | c in h.children[v]
      ensures v < c < Size(h) && h.parent[c] == v
    {
      var k :| 0 <= k < |h.children[v]| && h.children[v][k] == c;
    }
  }

  /** A node lies below its ancestors only: they carry smaller numbers. */
  lemma {:induction false} DescendsOrdered(h: Hierarchy, x: nat, a: nat)
    requires WellFormed(h) && x < Size(h) && Descends(h, x, a)
    ensures a <= x
    decreases x
  {
    if x != a {
      DescendsOrdered(h, h.parent[x], a);
    }
  }

  /** Every node lies below the root. */
  lemma {:induction false} DescendsFromRoot(h: Hierarchy, x: nat)
    requires WellFormed(h) && x < Size(h)
    ensures Descends(h, x, 0)
    decreases x
  {
    if x != 0 {
      DescendsFromRoot(h, h.parent[x]);
    }
  }

  /** Two ancestors of the same node lie one below the other (a node has one parent). */
  lemma {:induction false} DescendsComparable(h: Hierarchy, x: nat, a: nat, b: nat)
    requires WellFormed(h) && x < Size(h) && a < Size(h) && b < Size(h)
    requires Descends(h, x, a) && Descends(h, x, b)
    ensures Descends(h, a, b) || Descends(h, b, a)
    decreases x
  {
    if x != a && x != b {
      DescendsComparable(h, h.parent[x], a, b);
    }
  }

  /** Two distinct children of the same node: neither lies below the other. */
  lemma SiblingsApart(h: Hierarchy, c: nat, d: nat)
    requires WellFormed(h) && 0 < c < Size(h) && 0 < d < Size(h) && c != d
    requires h.parent[c] == h.parent[d]
    ensures !Descends(h, c, d) && !Descends(h, d, c)
  {
    if Descends(h, c, d) {
      DescendsOrdered(h, h.parent[c], d);
    }
    if Descends(h, d, c) {
      DescendsOrdered(h, h.parent[d], c);
    }
  }

  /** Below a child of v is below v. */
  lemma {:induction false} DescendsViaChild(h: Hierarchy, x: nat, c: nat, v: nat)
    requires WellFormed(h) && x < Size(h) && c < Size(h) && v < Size(h)
    requires h.parent[c] == v && Descends(h, x, c)
    ensures Descends(h, x, v)
    decreases x
  {
    if x != c {
      DescendsViaChild(h, h.parent[x], c, v);
    }
  }

  /** Strictly below v means below one of v's children. */
  lemma {:induction false} ChildOnPath(h: Hierarchy, x: nat, v: nat) returns (c: nat)
    requires WellFormed(h) && x < Size(h) && v < Size(h)
    requires x != v && Descends(h, x, v)
    ensures c in h.children[v] && c < Size(h) && Descends(h, x, c)
    decreases x
  {
    var p := h.parent[x];
    if p == v {
      c := x;
    } else {
      c := ChildOnPath(h, p, v);
    }
  }

  /** The pre-order of v lists exactly the nodes below v. */
  lemma {:induction false} PreOrderMembers(h: Hierarchy, v: nat)
    requires WellFormed(h) && v < Size(h)
    ensures forall x :: x in PreOrder(h, v) ==> x < Size(h) && Descends(h, x, v)
    ensures forall x: nat :: x < Size(h) && Descends(h, x, v) ==> x in PreOrder(h, v)
    decreases Size(h) - v, 1, 0
  {
    var cs := h.children[v];
    ChildrenOf(h, v);
    PreOrderOfMembers(h, v, cs);
    forall x | x in PreOrder(h, v)
      ensures x < Size(h) && Descends(h, x, v)
    {
      if x != v {
        assert x in PreOrderOf(h, v, cs);
        var c :| c in cs && Descends(h, x, c);
        DescendsViaChild(h, x, c, v);
      }
    }
    forall x: nat | x < Size(h) && Descends(h, x, v)
      ensures x in PreOrder(h, v)
    {
      if x != v {
        var c := ChildOnPath(h, x, v);
      }
    }
  }

  /** The listing of the children cs holds exactly the nodes below one of them. */
  lemma {:induction false} PreOrderOfMembers(h: Hierarchy, v: nat, cs: seq<nat>)
    requires WellFormed(h) && v < Size(h)
    requires forall c :: c in cs ==> v < c < Size(h)
    ensures forall x :: x in PreOrderOf(h, v, cs) ==> x < Size(h) && exists c :: c in cs && Descends(h, x, c)
    ensures forall x: nat, c :: x < Size(h) && c in cs && Descends(h, x, c) ==> x in PreOrderOf(h, v, cs)
    decreases Size(h) - v, 0, |cs|
  {
    if cs != [] {
      var front := cs[..|cs| - 1];
      var last := cs[|cs| - 1];
      assert forall c :: c in cs <==> c in front || c == last;
      assert last in cs;
      PreOrderOfMembers(h, v, front);
      PreOrderMembers(h, last);
    }
  }

  lemma DistinctConcat<T>(a: seq<T>, b: seq<T>)
    requires Distinct(a) && Distinct(b)
    requires forall x :: x in a ==> x !in b
    ensures Distinct(a + b)
  {
    var ab := a + b;
    forall i, j | 0 <= i < j < |ab|
      ensures ab[i] != ab[j]
    {
      if i < |a| && |a| <= j {
        assert ab[i] in a && ab[j] in b;
      }
    }
  }

  /** The pre-order of v lists no node twice. */
  lemma {:induction false} PreOrderDistinct(h: Hierarchy, v: nat)
    requires WellFormed(h) && v < Size(h)
    ensures Distinct(PreOrder(h, v))
    decreases Size(h) - v, 1, 0
  {
    var cs := h.children[v];
    ChildrenOf(h, v);
    PreOrderOfDistinct(h, v, cs);
    PreOrderOfMembers(h, v, cs);
    forall x | x in PreOrderOf(h, v, cs)
      ensures x != v
    {
      var c :| c in cs && Descends(h, x, c);
      DescendsOrdered(h, x, c);
    }
    DistinctConcat([v], PreOrderOf(h, v, cs));
  }

  /** The subtrees of distinct children of v are disjoint, so their listing has no repeats. */
  lemma {:induction false} PreOrderOfDistinct(h: Hierarchy, v: nat, cs: seq<nat>)
    requires WellFormed(h) && v < Size(h)
    requires forall c :: c in cs ==> v < c < Size(h) && h.parent[c] == v
    requires Distinct(cs)
    ensures Distinct(PreOrderOf(h, v, cs))
    decreases Size(h) - v, 0, |cs|
  {
    if cs != [] {
      var front := cs[..|cs| - 1];
      var last := cs[|cs| - 1];
      assert forall c :: c in front ==> c in cs;
      assert last in cs;
      PreOrderOfDistinct(h, v, front);
      PreOrderDistinct(h, last);
      PreOrderOfMembers(h, v, front);
      PreOrderMembers(h, last);
      forall x | x in PreOrderOf(h, v, front)
        ensures x !in PreOrder(h, last)
      {
        if x in PreOrder(h, last) {
          var c :| c in front && Descends(h, x, c);
          assert c != last by {
            var i :| 0 <= i < |front| && front[i] == c;
            assert cs[i] == c;
          }
          SiblingsApart(h, c, last);
          DescendsComparable(h, x, c, last);
        }
      }
      DistinctConcat(PreOrderOf(h, v, front), PreOrder(h, last));
    }
  }

  /** The node numbers 0 to n-1. */
  function NodeSet(n: nat): set<nat> {
    if n == 0 then {} else NodeSet(n - 1) + {n - 1}
  }

  lemma {:induction false} NodeSetSize(n: nat)
    ensures |NodeSet(n)| == n
    ensures forall x: nat :: x in NodeSet(n) <==> x < n
  {
    if n > 0 {
      NodeSetSize(n - 1);
    }
  }

  lemma {:induction false} DistinctSetSize(s: seq<nat>)
    requires Distinct(s)
    ensures |set x: nat | x in s| == |s|
  {
    if s != [] {
      var front := s[..|s| - 1];
      var last := s[|s| - 1];
      assert Distinct(front);
      DistinctSetSize(front);
      var earlier: set<nat> := set x: nat | x in front;
      assert |earlier| == |front|;
      assert last !in earlier;
      var all: set<nat> := set x: nat | x in s;
      assert all == earlier + {last};
      assert |all| == |earlier| + 1;
    }
  }

  /** A repeat-free listing of exactly the nodes 0 to n-1 has n entries. */
  lemma DistinctListingSize(s: seq<nat>, n: nat)
    requires Distinct(s)
    requires forall x: nat :: x in s <==> x < n
    ensures |s| == n
  {
    DistinctSetSize(s);
    NodeSetSize(n);
    assert (set x: nat | x in s) == NodeSet(n);
  }

  /** A repeat-free listing of nodes below n has at most n entries. */
  lemma DistinctListingBound(s: seq<nat>, n: nat)
    requires Distinct(s)
    requires forall x :: x in s ==> x < n
    ensures |s| <= n
  {
    DistinctSetSize(s);
    NodeSetSize(n);
    SubsetSize((set x: nat | x in s), NodeSet(n));
  }

  lemma {:induction false} SubsetSize(a: set<nat>, b: set<nat>)
    requires a <= b
    ensures |a| <= |b|
    decreases b
  {
    if b != {} {
      var x :| x in b;
      SubsetSize(a - {x}, b - {x});
    }
  }

  /** Two halves of a repeat-free listing share no node. */
  lemma DistinctSplit<T>(a: seq<T>, b: seq<T>)
    requires Distinct(a + b)
    ensures Distinct(a) && Distinct(b)
    ensures forall x :: x in a ==> x !in b
  {
    var ab := a + b;
    assert forall i :: 0 <= i < |a| ==> ab[i] == a[i];
    assert forall j :: 0 <= j < |b| ==> ab[|a| + j] == b[j];
  }

  /** The pre-order from the root lists every node of the scene exactly once. */
  lemma PreOrderCoversScene(h: Hierarchy)
    requires WellFormed(h)
    ensures Distinct(PreOrder(h, 0))
    ensures forall x: nat :: x in PreOrder(h, 0) <==> x < Size(h)
    ensures |PreOrder(h, 0)| == Size(h)
  {
    PreOrderDistinct(h, 0);
    PreOrderMembers(h, 0);
    forall x: nat | x < Size(h)
      ensures x in PreOrder(h, 0)
    {
      DescendsFromRoot(h, x);
    }
    assert forall x: nat :: x in PreOrder(h, 0) <==> x < Size(h);
    DistinctListingSize(PreOrder(h, 0), Size(h));
  }

  /** A set of nodes holding the root and closed under "child of a member" holds every node. */
  lemma {:induction false} ParentClosedCoversScene(h: Hierarchy, s: seq<nat>, x: nat)
    requires WellFormed(h) && 0 in s
    requires forall j :: 0 < j < Size(h) && h.parent[j] in s ==> j in s
    requires x < Size(h)
    ensures x in s
    decreases x
  {
    if x != 0 {
      ParentClosedCoversScene(h, s, h.parent[x]);
    }
  }

  /**
   * The FbxScene as the importer sees it: the hierarchy, and the two things
   * ConvertScene writes back, each node's LclTranslation and its mesh's
   * control points (a node without a mesh holds None).
   */
  class FbxScene {
    const hierarchy: Hierarchy
    var translations: seq<Vec3>
    var meshes: seq<Option<FbxMesh>>

    ghost predicate Valid()
      reads this
    {
      WellFormed(hierarchy) && |translations| == Size(hierarchy) && |meshes| == Size(hierarchy)
    }

    constructor (h: Hierarchy, translations: seq<Vec3>, meshes: seq<Option<FbxMesh>>)
      requires WellFormed(h) && |translations| == Size(h) && |meshes| == Size(h)
      ensures Valid()
      ensures hierarchy == h && this.translations == translations && this.meshes == meshes
    {
      hierarchy := h;
      this.translations := translations;
      this.meshes := meshes;
    }

    /** LclTranslation.Set on node v. */
    method SetTranslation(v: nat, t: Vec3)
      requires Valid() && v < Size(hierarchy)
      modifies this
      ensures Valid()
      ensures translations == old(translations)[v := t] && meshes == old(meshes)
    {
      translations := translations[v := t];
    }

    /** SetControlPointAt (p, i) on node v's mesh. */
    method SetControlPointAt(v: nat, p: Vec3, i: nat)
      requires Valid() && v < Size(hierarchy)
      requires meshes[v].Some? && i < |meshes[v].value.controlPoints|
      modifies this
      ensures Valid()
      ensures translations == old(translations)
      ensures var m := old(meshes[v].value);
              meshes == old(meshes)[v := Some(m.(controlPoints := m.controlPoints[i := p]))]
    {
      var m := meshes[v].value;
      meshes := meshes[v := Some(m.(controlPoints := m.controlPoints[i := p]))];
    }
  }
}
