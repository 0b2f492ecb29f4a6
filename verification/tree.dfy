/** The node hierarchy (`Tree`): nodes are ids in a map, each recording its parent,
    its children in insertion order, the scene and camera it belongs to, and which
    kind of node it is. The source walks parent and child links without a bound;
    those walks terminate only on an acyclic hierarchy, so each takes a rank map
    that witnesses it (`depth` grows away from the root, `height` towards it). */
module SceneTree {
  import opened Wrappers

  type Id = nat

  /** The node subclasses the engine distinguishes; a sprite carries the hash of
      its texture, when it has one. */
  datatype Kind = Plain | Shape | Sprite(texture: Option<int>) | Text | Light | Camera

  datatype NodeRec = NodeRec(parent: Option<Id>, children: seq<Id>, scene: Option<Id>, camera: Option<Id>, kind: Kind)

  type Graph = map<Id, NodeRec>

  /** Every parent and child a node names is itself in the graph. */
  ghost predicate Closed(g: Graph)
  {
    forall id :: id in g ==>
      && (g[id].parent.Some? ==> g[id].parent.value in g)
      && (forall c :: c in g[id].children ==> c in g)
  }

  /** `depth` witnesses that parent links never cycle. */
  ghost predicate DepthRanked(g: Graph, depth: map<Id, nat>)
  {
    && Closed(g)
    && (forall id :: id in g ==> id in depth)
    && (forall id :: id in g && g[id].parent.Some? ==> g[id].parent.value in depth && depth[g[id].parent.value] < depth[id])
  }

  /** `height` witnesses that child links never cycle. */
  ghost predicate HeightRanked(g: Graph, height: map<Id, nat>)
  {
    && Closed(g)
    && (forall id :: id in g ==> id in height)
    && (forall id, c :: id in g && c in g[id].children ==> c in height && height[c] < height[id])
  }

  /** Parent and child links agree, and no node is listed twice among its parent's
      children: the hierarchy `add(node:)` builds. */
  ghost predicate Consistent(g: Graph)
  {
    && Closed(g)
    && (forall p, c :: p in g && c in g[p].children ==> g[c].parent == Some(p))
    && (forall c :: c in g && g[c].parent.Some? ==> g[c].parent.value in g && c in g[g[c].parent.value].children)
    && (forall p :: p in g ==> NoDup(g[p].children))
  }

  ghost predicate NoDup<T>(s: seq<T>)
  {
    forall i, j :: 0 <= i < j < |s| ==> s[i] != s[j]
  }

  /** The rest of a duplicate-free list is duplicate-free and misses its head. */
  lemma NoDupTail<T>(s: seq<T>)
    requires NoDup(s) && s != []
    ensures NoDup(s[1..]) && s[0] !in s[1..]
  {
    var t := s[1..];
    assert forall a, b :: 0 <= a < b < |t| ==> t[a] == s[a + 1] && t[b] == s[b + 1];
  }

  /** `allParents`: the parent, its parent, and so on up to a root. */
  function AllParents(g: Graph, depth: map<Id, nat>, id: Id): (r: seq<Id>)
    requires DepthRanked(g, depth) && id in g
    ensures forall k :: 0 <= k < |r| ==> r[k] in g && depth[r[k]] < depth[id]
    ensures |r| == 0 <==> g[id].parent.None?
    ensures r != [] ==> r[0] == g[id].parent.value && g[r[|r| - 1]].parent.None?
    ensures forall k :: 0 <= k < |r| - 1 ==> g[r[k]].parent == Some(r[k + 1])
    ensures forall i, j :: 0 <= i < j < |r| ==> depth[r[j]] < depth[r[i]]
    decreases depth[id]
  {
    match g[id].parent
    case None => []
    case Some(p) => [p] + AllParents(g, depth, p)
  }

  /** A chain that starts at the parent, follows parent links and ends at a root is
      the one `allParents` returns. */
  lemma {:induction false} ParentChainUnique(g: Graph, depth: map<Id, nat>, id: Id, chain: seq<Id>)
    requires DepthRanked(g, depth) && id in g
    requires forall k :: 0 <= k < |chain| ==> chain[k] in g
    requires |chain| == 0 <==> g[id].parent.None?
    requires chain != [] ==> chain[0] == g[id].parent.value && g[chain[|chain| - 1]].parent.None?
    requires forall k :: 0 <= k < |chain| - 1 ==> g[chain[k]].parent == Some(chain[k + 1])
    ensures chain == AllParents(g, depth, id)
    decreases |chain|
  {
    if chain != [] {
      var rest := chain[1..];
      assert rest != [] ==> g[chain[0]].parent == Some(rest[0]) && rest[|rest| - 1] == chain[|chain| - 1];
      ParentChainUnique(g, depth, chain[0], rest);
    }
  }

  /** What `allParents` returns does not depend on which witness shows it ends. */
  lemma {:induction false} AllParentsWitness(g: Graph, d1: map<Id, nat>, d2: map<Id, nat>, id: Id)
    requires DepthRanked(g, d1) && DepthRanked(g, d2) && id in g
    ensures AllParents(g, d1, id) == AllParents(g, d2, id)
  {
    var r := AllParents(g, d1, id);
    ParentChainUnique(g, d2, id, r);
  }

  /** A node is never its own ancestor, and no ancestor is listed twice. */
  lemma AllParentsSimple(g: Graph, depth: map<Id, nat>, id: Id)
    requires DepthRanked(g, depth) && id in g
    ensures id !in AllParents(g, depth, id)
    ensures NoDup(AllParents(g, depth, id))
  {
  }

  /** `allNodes`: the direct children, then each child's `allNodes` in child order. */
  function Descendants(g: Graph, height: map<Id, nat>, id: Id): (r: seq<Id>)
    requires HeightRanked(g, height) && id in g
    ensures |r| >= |g[id].children| && r[..|g[id].children|] == g[id].children
    ensures forall x :: x in r ==> x in g && height[x] < height[id]
    decreases height[id], 1, 0
  {
    g[id].children + Flatten(g, height, g[id].children, height[id])
  }

  /** The `allNodes` of each of `ids`, concatenated (the `flatMap`). */
  function Flatten(g: Graph, height: map<Id, nat>, ids: seq<Id>, bound: nat): (r: seq<Id>)
    requires HeightRanked(g, height)
    requires forall i :: i in ids ==> i in g && height[i] < bound
    ensures forall x :: x in r ==> x in g && height[x] < bound
    decreases bound, 0, |ids|
  {
    if ids == [] then [] else Descendants(g, height, ids[0]) + Flatten(g, height, ids[1..], bound)
  }

  /** A leaf has no descendants. */
  lemma DescendantsOfLeaf(g: Graph, height: map<Id, nat>, id: Id)
    requires HeightRanked(g, height) && id in g && g[id].children == []
    ensures Descendants(g, height, id) == []
  {
  }

  /** The flattened list holds exactly what one of the lists holds. */
  lemma {:induction false} FlattenMember(g: Graph, height: map<Id, nat>, ids: seq<Id>, bound: nat, x: Id)
    requires HeightRanked(g, height)
    requires forall i :: i in ids ==> i in g && height[i] < bound
    ensures x in Flatten(g, height, ids, bound) <==> exists i :: i in ids && x in Descendants(g, height, i)
    decreases |ids|
  {
    if ids != [] {
      FlattenMember(g, height, ids[1..], bound, x);
      assert forall i :: i in ids <==> i == ids[0] || i in ids[1..];
    }
  }

  /** A descendant's descendants are descendants. */
  lemma {:induction false} DescendantsTransitive(g: Graph, height: map<Id, nat>, id: Id, y: Id, z: Id)
    requires HeightRanked(g, height) && id in g
    requires y in Descendants(g, height, id) && z in Descendants(g, height, y)
    ensures z in Descendants(g, height, id)
    decreases height[id]
  {
    var children := g[id].children;
    if y in children {
      FlattenMember(g, height, children, height[id], z);
    } else {
      FlattenMember(g, height, children, height[id], y);
      var c :| c in children && y in Descendants(g, height, c);
      DescendantsTransitive(g, height, c, y, z);
      FlattenMember(g, height, children, height[id], z);
    }
  }

  /** On a consistent hierarchy, the parent of a node on another's ancestor chain is
      on that chain too. */
  lemma ChainClosed(g: Graph, depth: map<Id, nat>, x: Id, a: Id)
    requires DepthRanked(g, depth) && x in g
    requires a in AllParents(g, depth, x) && g[a].parent.Some?
    ensures g[a].parent.value in AllParents(g, depth, x)
  {
    var r := AllParents(g, depth, x);
    var k :| 0 <= k < |r| && r[k] == a;
    assert k + 1 < |r|;
    assert r[k + 1] == g[a].parent.value;
  }

  /** Past an ancestor, the chain only holds nodes no deeper than that ancestor's
      parent. */
  lemma ChainAfter(g: Graph, depth: map<Id, nat>, x: Id, i: nat)
    requires DepthRanked(g, depth) && x in g
    requires i < |AllParents(g, depth, x)| && g[AllParents(g, depth, x)[i]].parent.Some?
    ensures var r := AllParents(g, depth, x);
            forall j :: i < j < |r| ==> depth[r[j]] <= depth[g[r[i]].parent.value]
  {
    var r := AllParents(g, depth, x);
    assert i + 1 < |r|;
  }

  /** Two different children of one parent never both lie on an ancestor chain. */
  lemma SiblingsNotBothAncestors(g: Graph, depth: map<Id, nat>, x: Id, a: Id, b: Id)
    requires DepthRanked(g, depth) && x in g
    requires a != b && a in g && b in g && g[a].parent.Some? && g[a].parent == g[b].parent
    ensures !(a in AllParents(g, depth, x) && b in AllParents(g, depth, x))
  {
    var r := AllParents(g, depth, x);
    forall i, j | 0 <= i < |r| && 0 <= j < |r| && r[i] == a && r[j] == b
      ensures false
    {
      if i < j {
        ChainAfter(g, depth, x, i);
      } else {
        ChainAfter(g, depth, x, j);
      }
    }
  }

  /** On a consistent hierarchy, `allNodes` holds exactly the nodes that have `id`
      among their ancestors. */
  lemma {:induction false} DescendantsAreBelow(g: Graph, depth: map<Id, nat>, height: map<Id, nat>, id: Id, x: Id)
    requires Consistent(g) && DepthRanked(g, depth) && HeightRanked(g, height) && id in g && x in g
    ensures x in Descendants(g, height, id) <==> id in AllParents(g, depth, x)
  {
    if x in Descendants(g, height, id) {
      DescendantBelow(g, depth, height, id, x);
    }
    if id in AllParents(g, depth, x) {
      AncestorAbove(g, depth, height, id, x);
    }
  }

  /** A child's chain of ancestors starts at its parent. */
  lemma ChildBelow(g: Graph, depth: map<Id, nat>, p: Id, x: Id)
    requires Consistent(g) && DepthRanked(g, depth) && p in g && x in g[p].children
    ensures x in g && p in AllParents(g, depth, x)
  {
    assert g[x].parent == Some(p);
    assert AllParents(g, depth, x)[0] == p;
  }

  lemma {:induction false} DescendantBelow(g: Graph, depth: map<Id, nat>, height: map<Id, nat>, id: Id, x: Id)
    requires Consistent(g) && DepthRanked(g, depth) && HeightRanked(g, height) && id in g
    requires x in Descendants(g, height, id)
    ensures x in g && id in AllParents(g, depth, x)
    decreases height[id]
  {
    var children := g[id].children;
    if x in children {
      ChildBelow(g, depth, id, x);
    } else {
      FlattenMember(g, height, children, height[id], x);
      var c :| c in children && x in Descendants(g, height, c);
      DescendantBelow(g, depth, height, c, x);
      assert g[c].parent == Some(id);
      ChainClosed(g, depth, x, c);
    }
  }

  lemma {:induction false} AncestorAbove(g: Graph, depth: map<Id, nat>, height: map<Id, nat>, id: Id, x: Id)
    requires Consistent(g) && DepthRanked(g, depth) && HeightRanked(g, height) && id in g && x in g
    requires id in AllParents(g, depth, x)
    ensures x in Descendants(g, height, id)
    decreases depth[x]
  {
    var p := g[x].parent.value;
    assert x in g[p].children;
    if p != id {
      AncestorAbove(g, depth, height, id, p);
      FlattenMember(g, height, g[p].children, height[p], x);
      DescendantsTransitive(g, height, id, p, x);
    }
  }

  /** Concatenating two duplicate-free, disjoint lists gives a duplicate-free list. */
  lemma NoDupConcat<T>(a: seq<T>, b: seq<T>)
    requires NoDup(a) && NoDup(b) && forall x :: x in a ==> x !in b
    ensures NoDup(a + b)
  {
    var r := a + b;
    forall i, j | 0 <= i < j < |r|
      ensures r[i] != r[j]
    {
      if j < |a| {
        assert r[i] == a[i] && r[j] == a[j];
      } else if i >= |a| {
        assert r[i] == b[i - |a|] && r[j] == b[j - |a|];
      } else {
        assert r[i] in a && r[j] in b;
      }
    }
  }

  /** A child of `p` is not below any child of `p`. */
  lemma ChildNotBelowChild(g: Graph, depth: map<Id, nat>, height: map<Id, nat>, p: Id, x: Id, c: Id)
    requires Consistent(g) && DepthRanked(g, depth) && HeightRanked(g, height) && p in g
    requires x in g[p].children && c in g[p].children
    ensures x !in Descendants(g, height, c)
  {
    ChildDeeper(g, depth, p, c);
    if x in Descendants(g, height, c) {
      DescendantBelow(g, depth, height, c, x);
      AncestorsOfChild(g, depth, p, x);
    }
  }

  /** A child lies deeper than its parent. */
  lemma ChildDeeper(g: Graph, depth: map<Id, nat>, p: Id, c: Id)
    requires Consistent(g) && DepthRanked(g, depth) && p in g && c in g[p].children
    ensures p in depth && c in depth && depth[p] < depth[c]
  {
    assert g[c].parent == Some(p);
  }

  /** Every ancestor of a child of `p` is `p` or above it. */
  lemma AncestorsOfChild(g: Graph, depth: map<Id, nat>, p: Id, x: Id)
    requires Consistent(g) && DepthRanked(g, depth) && p in g && x in g[p].children
    ensures forall a :: a in AllParents(g, depth, x) ==> depth[a] <= depth[p]
  {
    var ap := AllParents(g, depth, x);
    assert g[x].parent == Some(p);
    forall a | a in ap
      ensures depth[a] <= depth[p]
    {
      var i :| 0 <= i < |ap| && ap[i] == a;
      if i > 0 {
        assert depth[ap[i]] < depth[ap[0]];
      }
    }
  }

  /** Nothing lies below two different children of one parent. */
  lemma BelowOneChildOnly(g: Graph, depth: map<Id, nat>, height: map<Id, nat>, a: Id, b: Id, x: Id)
    requires Consistent(g) && DepthRanked(g, depth) && HeightRanked(g, height)
    requires a in g && b in g && a != b && g[a].parent.Some? && g[a].parent == g[b].parent
    ensures !(x in Descendants(g, height, a) && x in Descendants(g, height, b))
  {
    if x in Descendants(g, height, a) && x in Descendants(g, height, b) {
      DescendantBelow(g, depth, height, a, x);
      DescendantBelow(g, depth, height, b, x);
      SiblingsNotBothAncestors(g, depth, x, a, b);
    }
  }

  /** On a consistent hierarchy `allNodes` lists every descendant exactly once, and
      never the node itself. */
  lemma {:induction false} DescendantsOnce(g: Graph, depth: map<Id, nat>, height: map<Id, nat>, id: Id)
    requires Consistent(g) && DepthRanked(g, depth) && HeightRanked(g, height) && id in g
    ensures NoDup(Descendants(g, height, id))
    ensures id !in Descendants(g, height, id)
    decreases height[id], 1
  {
    var children := g[id].children;
    var rest := Flatten(g, height, children, height[id]);
    FlattenOnce(g, depth, height, id, children);
    forall x | x in children
      ensures x !in rest
    {
      FlattenMember(g, height, children, height[id], x);
      forall c | c in children
        ensures x !in Descendants(g, height, c)
      {
        ChildNotBelowChild(g, depth, height, id, x, c);
      }
    }
    NoDupConcat(children, rest);
  }

  /** The flattening of a run of siblings lists nothing twice. */
  lemma {:induction false} FlattenOnce(g: Graph, depth: map<Id, nat>, height: map<Id, nat>, parent: Id, ids: seq<Id>)
    requires Consistent(g) && DepthRanked(g, depth) && HeightRanked(g, height) && parent in g
    requires NoDup(ids) && forall i :: i in ids ==> i in g[parent].children
    ensures NoDup(Flatten(g, height, ids, height[parent]))
    decreases height[parent], 0, |ids|
  {
    if ids != [] {
      var head := Descendants(g, height, ids[0]);
      var tail := Flatten(g, height, ids[1..], height[parent]);
      DescendantsOnce(g, depth, height, ids[0]);
      FlattenOnce(g, depth, height, parent, ids[1..]);
      forall x | x in head
        ensures x !in tail
      {
        FlattenMember(g, height, ids[1..], height[parent], x);
        forall c | c in ids[1..]
          ensures x !in Descendants(g, height, c)
        {
          assert g[ids[0]].parent == Some(parent) && g[c].parent == Some(parent);
          BelowOneChildOnly(g, depth, height, ids[0], c, x);
        }
      }
      NoDupConcat(head, tail);
    }
  }
}
