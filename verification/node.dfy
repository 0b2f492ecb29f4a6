/** `Node`'s tree operations: attaching a child (which hands the child's whole subtree
    the parent's scene and, where unset, its camera), detaching a direct child, and
    `removeFromParent`. The `+=` and `-=` operators of `Tree` are these same `add`
    and `remove` calls. */
module SceneNode {
  import opened Wrappers
  import opened SceneTree
  import ArrayExt

  /** The camera a node ends up with when its new parent's camera is `camera`:
      its own if it has one. */
  function Inherit(own: Option<Id>, camera: Option<Id>): Option<Id>
  {
    if own.None? then camera else own
  }

  /** The nodes of `below` take `scene`, and `camera` where they have none. */
  function Spread(g: Graph, below: seq<Id>, scene: Option<Id>, camera: Option<Id>): (r: Graph)
    ensures r.Keys == g.Keys
    ensures forall d :: d in g && d in below ==>
              r[d] == g[d].(scene := scene, camera := Inherit(g[d].camera, camera))
    ensures forall d :: d in g && d !in below ==> r[d] == g[d]
  {
    map d | d in g :: if d in below then g[d].(scene := scene, camera := Inherit(g[d].camera, camera)) else g[d]
  }

  /** The accepted branch of `add(node:)`, given the nodes below the child. */
  function Attach(g: Graph, below: seq<Id>, self: Id, child: Id): (r: Graph)
    requires self in g && child in g
    ensures r.Keys == g.Keys
    ensures forall d :: d in g ==> r[d].kind == g[d].kind
    ensures && r[child].parent == Some(self)
            && r[self].children == g[self].children + [child]
            && (forall d :: d in g && d != self ==> r[d].children == g[d].children)
            && (forall d :: d in g && d != child ==> r[d].parent == g[d].parent)
    ensures && (forall d :: d in g && (d == child || d in below) ==>
                  r[d].scene == g[self].scene && r[d].camera == Inherit(g[d].camera, g[self].camera))
            && (forall d :: d in g && d != child && d !in below && d != self ==> r[d] == g[d])
  {
    var scene, camera := g[self].scene, g[self].camera;
    var g1 := Spread(g, below, scene, camera);
    var c := g1[child].(scene := scene, parent := Some(self), camera := Inherit(g1[child].camera, camera));
    var g2 := g1[child := c];
    g2[self := g2[self].(children := g2[self].children + [child])]
  }

  /** `add(node:)` on `self`. A child that already has a parent or a scene is left
      alone; otherwise it and every node below it take `self`'s scene and, where
      they have none, its camera, and it becomes `self`'s last child. */
  function Add(g: Graph, height: map<Id, nat>, self: Id, child: Id): (r: Graph)
    requires HeightRanked(g, height) && self in g && child in g
    ensures g[child].parent.Some? || g[child].scene.Some? ==> r == g
    ensures g[child].parent.None? && g[child].scene.None? ==>
              r == Attach(g, Descendants(g, height, child), self, child)
  {
    if g[child].parent.Some? || g[child].scene.Some? then g
    else Attach(g, Descendants(g, height, child), self, child)
  }

  // ----- acyclicity -----

  /** `self` is `x` or lies below it. */
  ghost predicate Reaches(g: Graph, height: map<Id, nat>, x: Id, self: Id)
    requires HeightRanked(g, height) && x in g
  {
    x == self || self in Descendants(g, height, x)
  }

  /** A height witness for `g` once `child` hangs below `self`: every node from
      which `self` can be reached is lifted by `child`'s height plus one. */
  ghost function Raise(g: Graph, height: map<Id, nat>, self: Id, child: Id): map<Id, nat>
    requires HeightRanked(g, height) && child in g
  {
    map x | x in height :: if x in g && Reaches(g, height, x, self) then height[x] + height[child] + 1 else height[x]
  }

  /** A parent reaches whatever its children reach. */
  lemma ReachesUp(g: Graph, height: map<Id, nat>, p: Id, c: Id, self: Id)
    requires HeightRanked(g, height) && p in g && c in g[p].children
    requires Reaches(g, height, c, self)
    ensures Reaches(g, height, p, self)
  {
    var below := Descendants(g, height, p);
    assert below[..|g[p].children|] == g[p].children;
    assert c in below;
    if c != self {
      DescendantsTransitive(g, height, p, c, self);
    }
  }

  /** Lifting keeps every existing link ranked. */
  lemma RaiseRanksLinks(g: Graph, height: map<Id, nat>, self: Id, child: Id)
    requires HeightRanked(g, height) && child in g
    ensures var h := Raise(g, height, self, child);
            forall p, c :: p in g && c in g[p].children ==> c in h && p in h && h[c] < h[p]
  {
    forall p, c | p in g && c in g[p].children
      ensures c in Raise(g, height, self, child) && p in Raise(g, height, self, child)
              && Raise(g, height, self, child)[c] < Raise(g, height, self, child)[p]
    {
      if Reaches(g, height, c, self) {
        ReachesUp(g, height, p, c, self);
      }
    }
  }

  /** `add(node:)` keeps the hierarchy free of cycles when `self` is neither the
      child nor below it: `Raise` witnesses the result. Added nodes can thus be
      added to in turn. */
  lemma AddKeepsRanked(g: Graph, height: map<Id, nat>, self: Id, child: Id)
    requires HeightRanked(g, height) && self in g && child in g
    requires self !in [child] + Descendants(g, height, child)
    ensures HeightRanked(Add(g, height, self, child), Raise(g, height, self, child))
  {
    var h := Raise(g, height, self, child);
    RaiseRanksLinks(g, height, self, child);
    RaiseRanksNewLink(g, height, self, child);
    if g[child].parent.None? && g[child].scene.None? {
      AttachKeepsRanked(g, Descendants(g, height, child), self, child, h);
    }
  }

  /** `Raise` puts `self` above `child`. */
  lemma RaiseRanksNewLink(g: Graph, height: map<Id, nat>, self: Id, child: Id)
    requires HeightRanked(g, height) && self in g && child in g
    requires self !in [child] + Descendants(g, height, child)
    ensures var h := Raise(g, height, self, child);
            forall id :: id in g ==> id in h
    ensures var h := Raise(g, height, self, child);
            child in h && self in h && h[child] < h[self]
  {
    assert !Reaches(g, height, child, self);
    assert Reaches(g, height, self, self);
  }

  /** Attaching `child` below `self` keeps a witness that ranks every old link and
      puts `self` above `child`. */
  lemma AttachKeepsRanked(g: Graph, below: seq<Id>, self: Id, child: Id, h: map<Id, nat>)
    requires Closed(g) && self in g && child in g
    requires forall id :: id in g ==> id in h
    requires forall p, c :: p in g && c in g[p].children ==> c in h && p in h && h[c] < h[p]
    requires child in h && self in h && h[child] < h[self]
    ensures HeightRanked(Attach(g, below, self, child), h)
  {
    AttachLinks(g, below, self, child);
  }

  /** The links after attaching: the old ones and `self` to `child`. */
  lemma AttachLinks(g: Graph, below: seq<Id>, self: Id, child: Id)
    requires Closed(g) && self in g && child in g
    ensures var r := Attach(g, below, self, child);
            && r.Keys == g.Keys
            && Closed(r)
            && forall p, c :: p in r && c in r[p].children ==> c in g[p].children || (p == self && c == child)
  {
    var r := Attach(g, below, self, child);
    forall p, c | p in r && c in r[p].children
      ensures c in g[p].children || (p == self && c == child)
    {
      if p != self {
        assert r[p].children == g[p].children;
      }
    }
  }

  /** Under a height witness for a graph whose links include `g`'s, everything below
      a node in `g` ranks lower than it. */
  lemma {:induction false} BelowRanksLower(g: Graph, height: map<Id, nat>, r: Graph, h: map<Id, nat>, x: Id, y: Id)
    requires HeightRanked(g, height) && HeightRanked(r, h) && x in g
    requires forall p, c :: p in g && c in g[p].children ==> p in r && c in r[p].children
    requires y in Descendants(g, height, x)
    ensures x in h && y in h && h[y] < h[x]
    decreases height[x]
  {
    var children := g[x].children;
    if y !in children {
      FlattenMember(g, height, children, height[x], y);
      var c :| c in children && y in Descendants(g, height, c);
      BelowRanksLower(g, height, r, h, c, y);
    }
  }

  /** `add(node:)` accepts a parentless child outside any scene even when `self` is
      that child or lies below it, as in `n.add(node: n)`; the result has a cycle,
      on which `allNodes` and `allParents` never return: no height witness exists. */
  lemma AddIntoOwnSubtree(g: Graph, height: map<Id, nat>, self: Id, child: Id)
    requires HeightRanked(g, height) && self in g && child in g
    requires g[child].parent.None? && g[child].scene.None?
    requires self in [child] + Descendants(g, height, child)
    ensures var r := Add(g, height, self, child);
            child in r[self].children && forall h :: !HeightRanked(r, h)
  {
    var r := Add(g, height, self, child);
    forall h | HeightRanked(r, h)
      ensures false
    {
      assert h[child] < h[self];
      if self != child {
        forall p, c | p in g && c in g[p].children
          ensures p in r && c in r[p].children
        {
          if p == self {
            assert r[p].children == g[p].children + [child];
          }
        }
        BelowRanksLower(g, height, r, h, child, self);
      }
    }
  }

  /** `add(node:)` as evidently intended: a child that `self` is, or lies below, is
      refused like one that already has a parent. */
  function AddChecked(g: Graph, height: map<Id, nat>, self: Id, child: Id): (r: Graph)
    requires HeightRanked(g, height) && self in g && child in g
    ensures self in [child] + Descendants(g, height, child) ==> r == g
    ensures self !in [child] + Descendants(g, height, child) ==> r == Add(g, height, self, child)
  {
    if self in [child] + Descendants(g, height, child) then g else Add(g, height, self, child)
  }

  /** The intended `add` never builds a cycle, so it can be applied again. */
  lemma AddCheckedKeepsRanked(g: Graph, height: map<Id, nat>, self: Id, child: Id)
    requires HeightRanked(g, height) && self in g && child in g
    ensures HeightRanked(AddChecked(g, height, self, child),
                         if self in [child] + Descendants(g, height, child) then height else Raise(g, height, self, child))
  {
    if self !in [child] + Descendants(g, height, child) {
      AddKeepsRanked(g, height, self, child);
    }
  }

  /** Attaching a parentless node keeps parent and child links in agreement. */
  lemma AttachKeepsConsistent(g: Graph, below: seq<Id>, self: Id, child: Id)
    requires Consistent(g) && self in g && child in g && g[child].parent.None?
    ensures Consistent(Attach(g, below, self, child))
  {
    AttachChildLinks(g, below, self, child);
    AttachParentLinks(g, below, self, child);
    AttachNoDup(g, below, self, child);
  }

  /** After attaching, every listed child names its lister as parent. */
  lemma AttachChildLinks(g: Graph, below: seq<Id>, self: Id, child: Id)
    requires Consistent(g) && self in g && child in g && g[child].parent.None?
    ensures var r := Attach(g, below, self, child);
            && Closed(r)
            && forall p, c :: p in r && c in r[p].children ==> r[c].parent == Some(p)
  {
    var r := Attach(g, below, self, child);
    forall p, c | p in r && c in r[p].children
      ensures c in r && r[c].parent == Some(p)
    {
      if p != self {
        assert c in g[p].children;
      } else if c != child {
        assert c in g[self].children;
      }
    }
  }

  /** After attaching, every parent link is matched by a child entry. */
  lemma AttachParentLinks(g: Graph, below: seq<Id>, self: Id, child: Id)
    requires Consistent(g) && self in g && child in g && g[child].parent.None?
    ensures var r := Attach(g, below, self, child);
            forall c :: c in r && r[c].parent.Some? ==> r[c].parent.value in r && c in r[r[c].parent.value].children
  {
    var r := Attach(g, below, self, child);
    forall c | c in r && r[c].parent.Some?
      ensures r[c].parent.value in r && c in r[r[c].parent.value].children
    {
      if c != child {
        var p := g[c].parent.value;
        assert c in g[p].children;
      }
    }
  }

  /** After attaching, no child list repeats a node. */
  lemma AttachNoDup(g: Graph, below: seq<Id>, self: Id, child: Id)
    requires Consistent(g) && self in g && child in g && g[child].parent.None?
    ensures var r := Attach(g, below, self, child);
            forall p :: p in r ==> NoDup(r[p].children)
  {
    var r := Attach(g, below, self, child);
    assert child !in g[self].children;
    forall p | p in r
      ensures NoDup(r[p].children)
    {
      if p == self {
        var s := r[p].children;
        forall i, j | 0 <= i < j < |s|
          ensures s[i] != s[j]
        {
          if j == |s| - 1 {
            assert s[i] in g[self].children;
          }
        }
      }
    }
  }

  /** What `remove(node:)` did. */
  datatype Removal =
    | NotChild
    | Delegated(scene: Id)
    | Removed(node: Id)

  /** `remove(node:)` on `self`: nothing for no node or one that is not a direct
      child; a child in a scene is handed to that scene's `remove`; any other child is
      dropped from `nodes` (its first occurrence) and returned, its parent link left
      as it was. */
  function Remove(g: Graph, self: Id, node: Option<Id>): (r: (Removal, Graph))
    requires self in g && (node.Some? ==> node.value in g)
    ensures r.0.NotChild? <==> node.None? || node.value !in g[self].children
    ensures r.0.Delegated? <==> node.Some? && node.value in g[self].children && g[node.value].scene.Some?
    ensures r.0.Delegated? ==> r.0.scene == g[node.value].scene.value
    ensures !r.0.Removed? ==> r.1 == g
    ensures r.0.Removed? ==>
              && r.0.node == node.value
              && r.1 == g[self := g[self].(children := ArrayExt.Remove(g[self].children, node.value).1)]
              && |r.1[self].children| == |g[self].children| - 1
              && r.1[node.value].parent == g[node.value].parent
  {
    if node.None? then (NotChild, g)
    else
      match ArrayExt.Find(g[self].children, node.value)
      case None => (NotChild, g)
      case Some(_) =>
        if g[node.value].scene.Some? then (Delegated(g[node.value].scene.value), g)
        else
          ArrayExt.RemoveDropsOne(g[self].children, node.value);
          (Removed(node.value), g[self := g[self].(children := ArrayExt.Remove(g[self].children, node.value).1)])
  }

  /** `removeFromParent()`: nothing for a root, otherwise the parent's `remove`. */
  function RemoveFromParent(g: Graph, id: Id): (r: (Removal, Graph))
    requires Closed(g) && id in g
    ensures r.1.Keys == g.Keys
    ensures g[id].parent.None? ==> r == (NotChild, g)
    ensures Consistent(g) && g[id].parent.Some? ==>
              if g[id].scene.Some? then r.0 == Delegated(g[id].scene.value) && r.1 == g
              else r.0 == Removed(id) && id !in r.1[g[id].parent.value].children
  {
    match g[id].parent
    case None => (NotChild, g)
    case Some(p) =>
      var r := Remove(g, p, Some(id));
      assert Consistent(g) && r.0.Removed? ==> id !in r.1[p].children by {
        if Consistent(g) && r.0.Removed? {
          RemovedIsGone(g[p].children, id);
        }
      }
      r
  }

  /** Removing a child listed once leaves no copy of it. */
  lemma RemovedIsGone(s: seq<Id>, x: Id)
    requires x in s && NoDup(s)
    ensures x !in ArrayExt.Remove(s, x).1
  {
    var i := ArrayExt.Find(s, x).value;
    var r := ArrayExt.Remove(s, x).1;
    forall j | 0 <= j < |r|
      ensures r[j] != x
    {
      ArrayExt.RemoveShifts(s, x, j);
    }
  }

  /** Attaching a node to a parent outside any scene and removing it again gives
      the parent back its children, but the removed node keeps its parent link. */
  lemma AttachThenRemove(g: Graph, below: seq<Id>, self: Id, child: Id)
    requires self in g && child in g && g[self].scene.None? && child !in g[self].children
    ensures var back := Remove(Attach(g, below, self, child), self, Some(child));
            && back.0 == Removed(child)
            && back.1.Keys == g.Keys
            && back.1[child].parent == Some(self)
            && (forall d :: d in g && d != child ==> back.1[d].parent == g[d].parent)
            && forall d :: d in g ==> back.1[d].children == g[d].children
  {
    var added := Attach(g, below, self, child);
    var s := added[self].children;
    assert s == g[self].children + [child];
    ArrayExt.FindUnique(s, child, |s| - 1);
    assert s[..|s| - 1] == g[self].children;
  }

  /** Two graphs with the same nodes and the same child lists share height witnesses. */
  lemma SameChildrenRanked(g: Graph, h: Graph, height: map<Id, nat>)
    requires HeightRanked(g, height) && h.Keys == g.Keys
    requires forall d :: d in h && h[d].parent.Some? ==> h[d].parent.value in h
    requires forall d :: d in g ==> h[d].children == g[d].children
    ensures HeightRanked(h, height)
  {
    forall id, c | id in h && c in h[id].children
      ensures c in height && height[c] < height[id]
    {
      assert c in g[id].children;
    }
  }

  /** After an `add` and a `remove` outside any scene, the parent has its children
      back, yet every later `add` of the removed node is ignored. */
  lemma AddThenRemove(g: Graph, height: map<Id, nat>, self: Id, child: Id, other: Id)
    requires HeightRanked(g, height) && self in g && child in g && other in g
    requires g[child].parent.None? && g[child].scene.None? && g[self].scene.None?
    requires child !in g[self].children
    ensures var back := Remove(Add(g, height, self, child), self, Some(child));
            && back.0 == Removed(child)
            && back.1[self].children == g[self].children
            && HeightRanked(back.1, height)
            && Add(back.1, height, other, child) == back.1
  {
    var below := Descendants(g, height, child);
    AttachThenRemove(g, below, self, child);
    var back := Remove(Attach(g, below, self, child), self, Some(child));
    assert forall d :: d in back.1 && back.1[d].parent.Some? ==> back.1[d].parent.value in back.1 by {
      forall d | d in back.1 && back.1[d].parent.Some?
        ensures back.1[d].parent.value in back.1
      {
        if d != child {
          assert back.1[d].parent == g[d].parent;
        }
      }
    }
    SameChildrenRanked(g, back.1, height);
  }
}
