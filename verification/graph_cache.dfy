/** `GraphCache`: the per-kind lists a scene keeps for rendering. Shapes, text and
    lights are flat lists; sprites are grouped by the hash of their texture, each
    group with a running index and a vertex buffer into which each sprite's quad is
    copied at the slot of its index. A buffer is modelled by which sprite's quad sits
    at which byte offset; the sprite and light indices the cache assigns share one
    map from node to index. */
module GraphCache {
  import opened Wrappers
  import opened SceneTree
  import ArrayExt
  import Quad
  import Buffer

  /** The number of sprite quads a texture's buffer is made for. */
  const SpriteCapacity: nat := 500

  /** Byte offset to the sprite whose quad was copied there. */
  type Slots = map<int, Id>

  datatype Cache = Cache(
    allNodes: seq<Id>,
    shapes: seq<Id>,
    sprites: map<int, seq<Id>>,
    spriteIndex: map<int, int>,
    buffers: map<int, Slots>,
    texts: seq<Id>,
    lights: seq<Id>,
    lightIndex: int,
    index: map<Id, int>)

  /** A new scene's cache. */
  function Empty(): Cache
  {
    Cache([], [], map[], map[], map[], [], [], 0, map[])
  }

  /** The key a sprite is grouped under: its texture's hash, or -1 without one. */
  function SpriteKey(k: Kind): int
    requires k.Sprite?
  {
    k.texture.GetOr(-1)
  }

  /** The byte offset `buffer.add(data:size:offset:)` writes a sprite quad to:
      `offset` counts whole quads. */
  function Slot(offset: int): (r: int)
    ensures r == 160 * offset
  {
    Quad.QuadSize * offset
  }

  function Write(slots: Slots, offset: int, sprite: Id): Slots
  {
    slots[Slot(offset) := sprite]
  }

  /** The shape nodes of `ids`, in order. */
  function Shapes(g: Graph, ids: seq<Id>): (r: seq<Id>)
    requires forall i :: i in ids ==> i in g
  {
    if ids == [] then [] else (if g[ids[0]].kind.Shape? then [ids[0]] else []) + Shapes(g, ids[1..])
  }

  /** The text nodes of `ids`, in order. */
  function Texts(g: Graph, ids: seq<Id>): (r: seq<Id>)
    requires forall i :: i in ids ==> i in g
  {
    if ids == [] then [] else (if g[ids[0]].kind.Text? then [ids[0]] else []) + Texts(g, ids[1..])
  }

  /** The light nodes of `ids`, in order. */
  function Lights(g: Graph, ids: seq<Id>): (r: seq<Id>)
    requires forall i :: i in ids ==> i in g
  {
    if ids == [] then [] else (if g[ids[0]].kind.Light? then [ids[0]] else []) + Lights(g, ids[1..])
  }

  /** Each per-kind list holds exactly the nodes of that kind. */
  lemma {:induction false} KindListsMembers(g: Graph, ids: seq<Id>)
    requires forall i :: i in ids ==> i in g
    ensures forall x :: x in Shapes(g, ids) <==> x in ids && g[x].kind.Shape?
    ensures forall x :: x in Texts(g, ids) <==> x in ids && g[x].kind.Text?
    ensures forall x :: x in Lights(g, ids) <==> x in ids && g[x].kind.Light?
    decreases |ids|
  {
    if ids != [] {
      KindListsMembers(g, ids[1..]);
      assert forall x :: x in ids <==> x == ids[0] || x in ids[1..];
    }
  }

  /** The sprite branch of `add(node:)`: a group that exists grows by one, with the
      next index and the next slot; otherwise a new group starts at index 0 with a
      fresh buffer. */
  function FileSprite(c: Cache, key: int, id: Id): Cache
  {
    if key in c.sprites && key in c.spriteIndex && key in c.buffers then
      var newIndex := c.spriteIndex[key] + 1;
      c.(index := c.index[id := newIndex],
         spriteIndex := c.spriteIndex[key := newIndex],
         sprites := c.sprites[key := c.sprites[key] + [id]],
         buffers := c.buffers[key := Write(c.buffers[key], newIndex, id)])
    else
      c.(index := c.index[id := 0],
         spriteIndex := c.spriteIndex[key := 0],
         sprites := c.sprites[key := [id]],
         buffers := c.buffers[key := Write(map[], 0, id)])
  }

  /** One node's step of `add(node:)`: shapes, text and lights join their lists, a
      light taking the running light index; sprites go to their group. */
  function AddOne(c: Cache, g: Graph, id: Id): (r: Cache)
    requires id in g
    ensures r.allNodes == c.allNodes
    ensures r.shapes == c.shapes + (if g[id].kind.Shape? then [id] else [])
    ensures r.texts == c.texts + (if g[id].kind.Text? then [id] else [])
    ensures r.lights == c.lights + (if g[id].kind.Light? then [id] else [])
    ensures r.lightIndex == c.lightIndex + (if g[id].kind.Light? then 1 else 0)
    ensures g[id].kind.Light? ==> id in r.index && r.index[id] == c.lightIndex
    ensures forall x :: x in c.index && x != id ==> x in r.index && r.index[x] == c.index[x]
    ensures !g[id].kind.Sprite? ==>
              r.sprites == c.sprites && r.spriteIndex == c.spriteIndex && r.buffers == c.buffers
    ensures g[id].kind.Sprite? ==>
              var key := SpriteKey(g[id].kind);
              var grows := key in c.sprites && key in c.spriteIndex && key in c.buffers;
              && key in r.sprites && key in r.spriteIndex && key in r.buffers && id in r.index
              && r.sprites[key] == (if grows then c.sprites[key] + [id] else [id])
              && r.index[id] == r.spriteIndex[key] == (if grows then c.spriteIndex[key] + 1 else 0)
              && Slot(r.index[id]) in r.buffers[key] && r.buffers[key][Slot(r.index[id])] == id
              && (forall k :: k in c.sprites && k != key ==> k in r.sprites && r.sprites[k] == c.sprites[k])
  {
    match g[id].kind
    case Shape => c.(shapes := c.shapes + [id])
    case Sprite(_) => FileSprite(c, SpriteKey(g[id].kind), id)
    case Text => c.(texts := c.texts + [id])
    case Light => c.(index := c.index[id := c.lightIndex], lightIndex := c.lightIndex + 1, lights := c.lights + [id])
    case _ => c
  }

  /** The `forEach` of `add(node:)`. */
  function AddEach(c: Cache, g: Graph, ids: seq<Id>): (r: Cache)
    requires forall i :: i in ids ==> i in g
    ensures r.allNodes == c.allNodes
    ensures r.lightIndex == c.lightIndex + |Lights(g, ids)|
    decreases |ids|
  {
    if ids == [] then c
    else AddEach(AddOne(c, g, ids[0]), g, ids[1..])
  }

  /** Filing in turn lists each kind's nodes in the order they come. */
  lemma {:induction false} AddEachFiles(c: Cache, g: Graph, ids: seq<Id>)
    requires forall i :: i in ids ==> i in g
    ensures var r := AddEach(c, g, ids);
            && r.shapes == c.shapes + Shapes(g, ids)
            && r.texts == c.texts + Texts(g, ids)
            && r.lights == c.lights + Lights(g, ids)
    decreases |ids|
  {
    if ids != [] {
      FilesInOrder(c, g, ids);
      AddEachFiles(AddOne(c, g, ids[0]), g, ids[1..]);
    }
  }

  /** Filing the first node and then the rest lists each kind in order. */
  lemma FilesInOrder(c: Cache, g: Graph, ids: seq<Id>)
    requires (forall i :: i in ids ==> i in g) && ids != []
    ensures var next := AddOne(c, g, ids[0]);
            && c.shapes + Shapes(g, ids) == next.shapes + Shapes(g, ids[1..])
            && c.texts + Texts(g, ids) == next.texts + Texts(g, ids[1..])
            && c.lights + Lights(g, ids) == next.lights + Lights(g, ids[1..])
  {
    ShapesInOrder(c, g, ids);
    TextsInOrder(c, g, ids);
    LightsInOrder(c, g, ids);
  }

  lemma ShapesInOrder(c: Cache, g: Graph, ids: seq<Id>)
    requires (forall i :: i in ids ==> i in g) && ids != []
    ensures c.shapes + Shapes(g, ids) == AddOne(c, g, ids[0]).shapes + Shapes(g, ids[1..])
  {
    var x, rest := ids[0], Shapes(g, ids[1..]);
    if g[x].kind.Shape? {
      assert Shapes(g, ids) == [x] + rest;
      ArrayExt.ConcatAssoc(c.shapes, [x], rest);
    } else {
      assert Shapes(g, ids) == rest;
    }
  }

  lemma TextsInOrder(c: Cache, g: Graph, ids: seq<Id>)
    requires (forall i :: i in ids ==> i in g) && ids != []
    ensures c.texts + Texts(g, ids) == AddOne(c, g, ids[0]).texts + Texts(g, ids[1..])
  {
    var x, rest := ids[0], Texts(g, ids[1..]);
    if g[x].kind.Text? {
      assert Texts(g, ids) == [x] + rest;
      ArrayExt.ConcatAssoc(c.texts, [x], rest);
    } else {
      assert Texts(g, ids) == rest;
    }
  }

  lemma LightsInOrder(c: Cache, g: Graph, ids: seq<Id>)
    requires (forall i :: i in ids ==> i in g) && ids != []
    ensures c.lights + Lights(g, ids) == AddOne(c, g, ids[0]).lights + Lights(g, ids[1..])
  {
    var x, rest := ids[0], Lights(g, ids[1..]);
    if g[x].kind.Light? {
      assert Lights(g, ids) == [x] + rest;
      ArrayExt.ConcatAssoc(c.lights, [x], rest);
    } else {
      assert Lights(g, ids) == rest;
    }
  }

  /** `add(node:)`: the node and everything below it join `allNodes`, then each is
      filed by kind. */
  function Add(c: Cache, g: Graph, height: map<Id, nat>, id: Id): (r: Cache)
    requires HeightRanked(g, height) && id in g
    ensures r.allNodes == c.allNodes + [id] + Descendants(g, height, id)
    ensures var added := [id] + Descendants(g, height, id);
            && r.shapes == c.shapes + Shapes(g, added)
            && r.texts == c.texts + Texts(g, added)
            && r.lights == c.lights + Lights(g, added)
            && r.lightIndex == c.lightIndex + |Lights(g, added)|
  {
    var added := [id] + Descendants(g, height, id);
    AddEachFiles(c.(allNodes := c.allNodes + added), g, added);
    AddEach(c.(allNodes := c.allNodes + added), g, added)
  }

  /** Filing nodes other than `x` leaves `x`'s index alone. */
  lemma {:induction false} AddEachKeepsIndex(c: Cache, g: Graph, ids: seq<Id>, x: Id)
    requires (forall i :: i in ids ==> i in g) && x !in ids && x in c.index
    ensures x in AddEach(c, g, ids).index && AddEach(c, g, ids).index[x] == c.index[x]
    decreases |ids|
  {
    if ids != [] {
      AddEachKeepsIndex(AddOne(c, g, ids[0]), g, ids[1..], x);
    }
  }

  lemma AddEachStep(c: Cache, g: Graph, ids: seq<Id>)
    requires (forall i :: i in ids ==> i in g) && ids != []
    ensures AddEach(c, g, ids) == AddEach(AddOne(c, g, ids[0]), g, ids[1..])
  {
  }

  /** Lights added together receive consecutive indices from the running counter:
      the `j`-th light among `ids` gets the counter's value plus `j`. */
  lemma {:induction false} LightIndexAssigned(c: Cache, g: Graph, ids: seq<Id>, j: nat)
    requires (forall i :: i in ids ==> i in g) && NoDup(ids) && j < |Lights(g, ids)|
    ensures Lights(g, ids)[j] in AddEach(c, g, ids).index
    ensures AddEach(c, g, ids).index[Lights(g, ids)[j]] == c.lightIndex + j
    decreases |ids|
  {
    var x, tail := ids[0], ids[1..];
    var next := AddOne(c, g, x);
    AddEachStep(c, g, ids);
    NoDupTail(ids);
    var lights, rest := Lights(g, ids), Lights(g, tail);
    var r := AddEach(next, g, tail);
    assert AddEach(c, g, ids) == r;
    if g[x].kind.Light? {
      assert lights == [x] + rest;
      if j == 0 {
        AddEachKeepsIndex(next, g, tail, x);
        assert lights[j] == x;
        assert x in r.index && r.index[x] == c.lightIndex + j;
      } else {
        LightIndexAssigned(next, g, tail, j - 1);
        ArrayExt.ConsIndex(x, rest, j);
        assert rest[j - 1] in r.index && r.index[rest[j - 1]] == c.lightIndex + j;
      }
    } else {
      assert lights == rest;
      LightIndexAssigned(next, g, tail, j);
      assert lights[j] == rest[j];
      assert rest[j] in r.index && r.index[rest[j]] == c.lightIndex + j;
    }
  }

  /** The sprite group `key` is dense: its sprites sit in list order at indices
      0, 1, ..., the counter holds the last index, and each sprite's quad is in the
      group's buffer at the slot of its index. */
  ghost predicate GroupInv(c: Cache, g: Graph, key: int)
    requires key in c.sprites
  {
    var nodes := c.sprites[key];
    && key in c.spriteIndex && key in c.buffers
    && c.spriteIndex[key] == |nodes| - 1
    && (forall x :: x in nodes ==> x in g && g[x].kind.Sprite? && SpriteKey(g[x].kind) == key)
    && (forall j :: 0 <= j < |nodes| ==> nodes[j] in c.index && c.index[nodes[j]] == j)
    && (forall j :: 0 <= j < |nodes| ==> Slot(j) in c.buffers[key] && c.buffers[key][Slot(j)] == nodes[j])
  }

  /** Every sprite group is dense. */
  ghost predicate SpriteInv(c: Cache, g: Graph)
  {
    forall key :: key in c.sprites ==> GroupInv(c, g, key)
  }

  /** `id` is in no sprite group. */
  ghost predicate Unfiled(c: Cache, id: Id)
  {
    forall key :: key in c.sprites ==> id !in c.sprites[key]
  }

  /** A dense group stays dense when its list, counter and buffer are kept and its
      sprites keep their indices. */
  lemma GroupInvTransfer(c: Cache, r: Cache, g: Graph, key: int)
    requires key in c.sprites && GroupInv(c, g, key)
    requires key in r.sprites && r.sprites[key] == c.sprites[key]
    requires key in r.spriteIndex && r.spriteIndex[key] == c.spriteIndex[key]
    requires key in r.buffers && r.buffers[key] == c.buffers[key]
    requires forall x :: x in c.sprites[key] ==> x in r.index && r.index[x] == c.index[x]
    ensures GroupInv(r, g, key)
  {
  }

  lemma EmptyInv(g: Graph)
    ensures SpriteInv(Empty(), g)
  {
  }

  /** Filing a sprite not yet in any group keeps every group dense. */
  lemma FileSpriteKeepsInv(c: Cache, g: Graph, id: Id)
    requires SpriteInv(c, g) && id in g && g[id].kind.Sprite? && Unfiled(c, id)
    ensures SpriteInv(FileSprite(c, SpriteKey(g[id].kind), id), g)
  {
    var key := SpriteKey(g[id].kind);
    var r := FileSprite(c, key, id);
    forall k | k in r.sprites
      ensures GroupInv(r, g, k)
    {
      if k != key {
        GroupInvTransfer(c, r, g, k);
      } else if key in c.sprites {
        var nodes := r.sprites[key];
        assert nodes == c.sprites[key] + [id];
        forall j | 0 <= j < |nodes|
          ensures nodes[j] in r.index && r.index[nodes[j]] == j
          ensures Slot(j) in r.buffers[key] && r.buffers[key][Slot(j)] == nodes[j]
        {
          if j < |nodes| - 1 {
            assert nodes[j] == c.sprites[key][j];
          }
        }
      }
    }
  }

  /** Filing a node not yet in any sprite group keeps every group dense. */
  lemma AddOneKeepsInv(c: Cache, g: Graph, id: Id)
    requires SpriteInv(c, g) && id in g && Unfiled(c, id)
    ensures SpriteInv(AddOne(c, g, id), g)
  {
    if g[id].kind.Sprite? {
      FileSpriteKeepsInv(c, g, id);
    } else {
      var r := AddOne(c, g, id);
      forall k | k in r.sprites
        ensures GroupInv(r, g, k)
      {
        GroupInvTransfer(c, r, g, k);
      }
    }
  }

  /** Filing one node leaves every other node out of the sprite groups it was out of. */
  lemma AddOneKeepsUnfiled(c: Cache, g: Graph, id: Id, y: Id)
    requires id in g && y != id && Unfiled(c, y)
    ensures Unfiled(AddOne(c, g, id), y)
  {
  }

  /** Filing nodes none of which is in a sprite group, each once, keeps every group
      dense. */
  lemma {:induction false} AddEachKeepsInv(c: Cache, g: Graph, ids: seq<Id>)
    requires forall i :: i in ids ==> i in g
    requires SpriteInv(c, g) && NoDup(ids) && forall i :: i in ids ==> Unfiled(c, i)
    ensures SpriteInv(AddEach(c, g, ids), g)
    decreases |ids|
  {
    if ids != [] {
      var next := AddOne(c, g, ids[0]);
      AddOneKeepsInv(c, g, ids[0]);
      forall i | i in ids[1..]
        ensures Unfiled(next, i)
      {
        AddOneKeepsUnfiled(c, g, ids[0], i);
      }
      NoDupTail(ids);
      AddEachKeepsInv(next, g, ids[1..]);
    }
  }

  /** A node and the nodes below it, listed once each. */
  lemma SubtreeOnce(g: Graph, depth: map<Id, nat>, height: map<Id, nat>, id: Id)
    requires Consistent(g) && DepthRanked(g, depth) && HeightRanked(g, height) && id in g
    ensures NoDup([id] + Descendants(g, height, id))
  {
    var below := Descendants(g, height, id);
    var t := [id] + below;
    DescendantsOnce(g, depth, height, id);
    forall a, b | 0 <= a < b < |t|
      ensures t[a] != t[b]
    {
      if a > 0 {
        assert t[a] == below[a - 1] && t[b] == below[b - 1];
      } else {
        assert t[b] in below;
      }
    }
  }

  /** On a consistent hierarchy, adding a subtree none of whose nodes is in a sprite
      group keeps every group dense. */
  lemma AddKeepsInv(c: Cache, g: Graph, depth: map<Id, nat>, height: map<Id, nat>, id: Id)
    requires Consistent(g) && DepthRanked(g, depth) && HeightRanked(g, height) && id in g
    requires SpriteInv(c, g) && Unfiled(c, id) && forall x :: x in Descendants(g, height, id) ==> Unfiled(c, x)
    ensures SpriteInv(Add(c, g, height, id), g)
  {
    var added := [id] + Descendants(g, height, id);
    SubtreeOnce(g, depth, height, id);
    AddEachKeepsInv(c.(allNodes := c.allNodes + added), g, added);
  }

  /** The slots of a realigned group: sprite `i` is copied with offset `i`, or, when
      `doubled`, with offset `i * quad.size`. */
  function Rewrite(slots: Slots, nodes: seq<Id>, doubled: bool): (r: Slots)
    ensures !doubled ==> forall i :: 0 <= i < |nodes| ==> Slot(i) in r && r[Slot(i)] == nodes[i]
    ensures doubled ==> forall i :: 0 <= i < |nodes| ==> Slot(Slot(i)) in r && r[Slot(Slot(i))] == nodes[i]
    ensures doubled ==> forall o :: o in slots && 0 < o < Slot(Slot(1)) ==> o in r && r[o] == slots[o]
    decreases |nodes|
  {
    if nodes == [] then slots
    else
      var i := |nodes| - 1;
      Write(Rewrite(slots, nodes[..i], doubled), if doubled then Slot(i) else i, nodes[i])
  }

  /** The indices of a realigned group: sprite `i` gets index `i`. */
  function Reindex(index: map<Id, int>, nodes: seq<Id>): (r: map<Id, int>)
    ensures forall x :: x in nodes ==> x in r
    ensures forall x :: x in index && x !in nodes ==> x in r && r[x] == index[x]
    ensures NoDup(nodes) ==> forall i :: 0 <= i < |nodes| ==> r[nodes[i]] == i
    decreases |nodes|
  {
    if nodes == [] then index
    else
      var i := |nodes| - 1;
      var prev := nodes[..i];
      assert forall x :: x in nodes ==> x in prev || x == nodes[i];
      assert forall x :: x in prev ==> x in nodes;
      assert NoDup(nodes) ==> nodes[i] !in prev && NoDup(prev) by {
        if NoDup(nodes) {
          assert forall a, b :: 0 <= a < b < |prev| ==> prev[a] == nodes[a] && prev[b] == nodes[b];
        }
      }
      Reindex(index, prev)[nodes[i] := i]
  }

  /** `realignData(key:)` as written: sprite `i` gets index `i` but its quad is
      copied with offset `i * quad.size`, which `Buffer.add` multiplies by the quad
      size once more; and the counter is set to the group's size. */
  function RealignAsWritten(c: Cache, key: int): (r: Cache)
    ensures !(key in c.sprites && key in c.buffers) ==> r == c
    ensures key in c.sprites && key in c.buffers ==>
              var nodes := c.sprites[key];
              && r.sprites == c.sprites
              && key in r.spriteIndex && r.spriteIndex[key] == |nodes|
              && key in r.buffers
              && (forall i :: 0 <= i < |nodes| ==>
                    Slot(Slot(i)) in r.buffers[key] && r.buffers[key][Slot(Slot(i))] == nodes[i])
              && (forall o :: o in c.buffers[key] && 0 < o < Slot(Slot(1)) ==>
                    o in r.buffers[key] && r.buffers[key][o] == c.buffers[key][o])
              && (forall x :: x in nodes ==> x in r.index)
              && (NoDup(nodes) ==> forall i :: 0 <= i < |nodes| ==> r.index[nodes[i]] == i)
  {
    if key !in c.sprites || key !in c.buffers then c
    else
      var nodes := c.sprites[key];
      c.(index := Reindex(c.index, nodes),
         buffers := c.buffers[key := Rewrite(c.buffers[key], nodes, true)],
         spriteIndex := c.spriteIndex[key := |nodes|])
  }

  /** `realignData(key:)` as intended: sprite `i` gets index `i` and its quad the
      slot `i`, and the counter holds the last index, so the next sprite continues
      the run. Nothing else changes. */
  function Realign(c: Cache, key: int): (r: Cache)
    ensures !(key in c.sprites && key in c.buffers) ==> r == c
    ensures key in c.sprites && key in c.buffers ==>
              var nodes := c.sprites[key];
              && r.(index := c.index, spriteIndex := c.spriteIndex, buffers := c.buffers) == c
              && key in r.spriteIndex && r.spriteIndex[key] == |nodes| - 1
              && key in r.buffers
              && (forall i :: 0 <= i < |nodes| ==> Slot(i) in r.buffers[key] && r.buffers[key][Slot(i)] == nodes[i])
              && (forall x :: x in nodes ==> x in r.index)
              && (NoDup(nodes) ==> forall i :: 0 <= i < |nodes| ==> r.index[nodes[i]] == i)
              && (forall x :: x in c.index && x !in nodes ==> x in r.index && r.index[x] == c.index[x])
              && (forall k :: k != key && k in c.spriteIndex ==> k in r.spriteIndex && r.spriteIndex[k] == c.spriteIndex[k])
              && (forall k :: k != key && k in c.buffers ==> k in r.buffers && r.buffers[k] == c.buffers[k])
  {
    if key !in c.sprites || key !in c.buffers then c
    else
      var nodes := c.sprites[key];
      c.(index := Reindex(c.index, nodes),
         buffers := c.buffers[key := Rewrite(c.buffers[key], nodes, false)],
         spriteIndex := c.spriteIndex[key := |nodes| - 1])
  }

  /** `remove(node:)` as written. A node `allNodes` does not hold is ignored; else its
      first occurrence leaves `allNodes`, and only a `Renderable` node (shape, sprite,
      text) leaves its kind's list: a light node is not `Renderable`, so it stays
      among the lights. */
  function RemoveAsWritten(c: Cache, g: Graph, id: Id): (r: Cache)
    requires id in g
    ensures id !in c.allNodes ==> r == c
    ensures id in c.allNodes ==> r.allNodes == ArrayExt.Remove(c.allNodes, id).1
    ensures id in c.allNodes ==>
              && r.shapes == (if g[id].kind.Shape? then ArrayExt.Remove(c.shapes, id).1 else c.shapes)
              && r.texts == (if g[id].kind.Text? then ArrayExt.Remove(c.texts, id).1 else c.texts)
              && r.lights == c.lights && r.lightIndex == c.lightIndex
  {
    match ArrayExt.Find(c.allNodes, id)
    case None => c
    case Some(_) =>
      var c1 := c.(allNodes := ArrayExt.Remove(c.allNodes, id).1);
      match g[id].kind
      case Shape => c1.(shapes := ArrayExt.Remove(c1.shapes, id).1)
      case Sprite(_) =>
        var key := SpriteKey(g[id].kind);
        if key in c1.sprites then
          RealignAsWritten(c1.(sprites := c1.sprites[key := ArrayExt.Remove(c1.sprites[key], id).1]), key)
        else c1
      case Text => c1.(texts := ArrayExt.Remove(c1.texts, id).1)
      case _ => c1
  }

  /** The sprite branch of `remove(node:)`, as intended. */
  function UnfileSprite(c: Cache, key: int, id: Id): Cache
  {
    if key in c.sprites then Realign(c.(sprites := c.sprites[key := ArrayExt.Remove(c.sprites[key], id).1]), key)
    else c
  }

  /** `remove(node:)` as intended: the same, with the intended realignment, and with
      the light branch the source spells out taking effect. */
  function Remove(c: Cache, g: Graph, id: Id): (r: Cache)
    requires id in g
    ensures id !in c.allNodes ==> r == c
    ensures id in c.allNodes ==> r.allNodes == ArrayExt.Remove(c.allNodes, id).1
    ensures id in c.allNodes ==>
              && r.shapes == (if g[id].kind.Shape? then ArrayExt.Remove(c.shapes, id).1 else c.shapes)
              && r.texts == (if g[id].kind.Text? then ArrayExt.Remove(c.texts, id).1 else c.texts)
              && r.lights == (if g[id].kind.Light? then ArrayExt.Remove(c.lights, id).1 else c.lights)
              && r.lightIndex == c.lightIndex - (if g[id].kind.Light? then 1 else 0)
  {
    match ArrayExt.Find(c.allNodes, id)
    case None => c
    case Some(_) =>
      var c1 := c.(allNodes := ArrayExt.Remove(c.allNodes, id).1);
      match g[id].kind
      case Shape => c1.(shapes := ArrayExt.Remove(c1.shapes, id).1)
      case Sprite(_) => UnfileSprite(c1, SpriteKey(g[id].kind), id)
      case Text => c1.(texts := ArrayExt.Remove(c1.texts, id).1)
      case Light => c1.(lightIndex := c1.lightIndex - 1, lights := ArrayExt.Remove(c1.lights, id).1)
      case _ => c1
  }

  /** A dense group lists each sprite once. */
  lemma GroupNoDup(c: Cache, g: Graph, key: int)
    requires key in c.sprites && GroupInv(c, g, key)
    ensures NoDup(c.sprites[key])
  {
    var s := c.sprites[key];
    forall i, j | 0 <= i < j < |s|
      ensures s[i] != s[j]
    {
      assert c.index[s[i]] == i && c.index[s[j]] == j;
    }
  }

  /** Removal keeps a duplicate-free list duplicate-free and takes nothing but `x`. */
  lemma RemoveKeepsNoDup(s: seq<Id>, x: Id)
    requires NoDup(s)
    ensures NoDup(ArrayExt.Remove(s, x).1)
    ensures forall y :: y in ArrayExt.Remove(s, x).1 ==> y in s
  {
    if x in s {
      var r := ArrayExt.Remove(s, x).1;
      var i := ArrayExt.Find(s, x).value;
      forall a, b | 0 <= a < b < |r|
        ensures r[a] != r[b]
      {
        ArrayExt.RemoveShifts(s, x, a);
        ArrayExt.RemoveShifts(s, x, b);
      }
      forall y | y in r
        ensures y in s
      {
        ArrayExt.RemoveDropsOne(s, x);
        assert multiset(r)[y] > 0;
      }
    }
  }

  /** Taking a sprite out of its group and realigning keeps every group dense. */
  lemma UnfileSpriteKeepsInv(c: Cache, g: Graph, key: int, id: Id)
    requires SpriteInv(c, g)
    ensures SpriteInv(UnfileSprite(c, key, id), g)
  {
    if key in c.sprites {
      var group := c.sprites[key];
      var nodes := ArrayExt.Remove(group, id).1;
      var c2 := c.(sprites := c.sprites[key := nodes]);
      var r := Realign(c2, key);
      GroupNoDup(c, g, key);
      RemoveKeepsNoDup(group, id);
      forall k | k in r.sprites
        ensures GroupInv(r, g, k)
      {
        if k != key {
          forall x | x in c.sprites[k]
            ensures x in r.index && r.index[x] == c.index[x]
          {
            assert x !in nodes;
          }
          GroupInvTransfer(c, r, g, k);
        }
      }
    }
  }

  /** Removing a node keeps every sprite group dense. */
  lemma RemoveKeepsInv(c: Cache, g: Graph, id: Id)
    requires SpriteInv(c, g) && id in g
    ensures SpriteInv(Remove(c, g, id), g)
  {
    if id in c.allNodes {
      var c1 := c.(allNodes := ArrayExt.Remove(c.allNodes, id).1);
      SameGroupsInv(c, c1, g);
      if g[id].kind.Sprite? {
        var key := SpriteKey(g[id].kind);
        UnfileSpriteKeepsInv(c1, g, key, id);
        assert Remove(c, g, id) == UnfileSprite(c1, key, id);
      } else {
        var r := Remove(c, g, id);
        assert r.sprites == c.sprites && r.spriteIndex == c.spriteIndex;
        assert r.buffers == c.buffers && r.index == c.index;
        SameGroupsInv(c, r, g);
      }
    }
  }

  /** The groups' density depends only on the groups, counters, buffers and indices. */
  lemma SameGroupsInv(c: Cache, r: Cache, g: Graph)
    requires SpriteInv(c, g)
    requires r.sprites == c.sprites && r.spriteIndex == c.spriteIndex
    requires r.buffers == c.buffers && r.index == c.index
    ensures SpriteInv(r, g)
  {
    forall k | k in r.sprites
      ensures GroupInv(r, g, k)
    {
      GroupInvTransfer(c, r, g, k);
    }
  }

  /** The intended removal takes a light out of the lights and gives its index back. */
  lemma RemoveLight(c: Cache, g: Graph, id: Id)
    requires id in g && g[id].kind.Light? && id in c.allNodes && id in c.lights && NoDup(c.lights)
    ensures id !in Remove(c, g, id).lights
    ensures |Remove(c, g, id).lights| == |c.lights| - 1
    ensures Remove(c, g, id).lightIndex == c.lightIndex - 1
  {
    ArrayExt.RemoveDropsOne(c.lights, id);
    var r := ArrayExt.Remove(c.lights, id).1;
    forall j | 0 <= j < |r|
      ensures r[j] != id
    {
      ArrayExt.RemoveShifts(c.lights, id, j);
    }
  }

  /** As written, a tracked light leaves `allNodes` but stays among the lights, and
      the light counter does not move back. */
  lemma RemoveAsWrittenKeepsLight(c: Cache, g: Graph, id: Id)
    requires id in g && g[id].kind.Light? && id in c.allNodes
    ensures RemoveAsWritten(c, g, id).lights == c.lights
    ensures RemoveAsWritten(c, g, id).lightIndex == c.lightIndex
    ensures RemoveAsWritten(c, g, id).allNodes == ArrayExt.Remove(c.allNodes, id).1
  {
  }

  /** `remove(node:)` under `reading`: as written, or as intended. Either way an
      untracked node changes nothing, and a tracked one leaves `allNodes` and, for
      a shape or text, its kind's list; the two differ on lights and sprites. */
  function RemoveBy(c: Cache, g: Graph, id: Id, reading: Reading): (r: Cache)
    requires id in g
    ensures id !in c.allNodes ==> r == c
    ensures id in c.allNodes ==>
              && r.allNodes == ArrayExt.Remove(c.allNodes, id).1
              && r.shapes == (if g[id].kind.Shape? then ArrayExt.Remove(c.shapes, id).1 else c.shapes)
              && r.texts == (if g[id].kind.Text? then ArrayExt.Remove(c.texts, id).1 else c.texts)
    ensures reading.AsWritten? ==> r == RemoveAsWritten(c, g, id)
    ensures reading.Intended? ==> r == Remove(c, g, id)
  {
    match reading
    case AsWritten => RemoveAsWritten(c, g, id)
    case Intended => Remove(c, g, id)
  }

  /** The `forEach` of `update(node:)`. */
  function RemoveEach(c: Cache, g: Graph, ids: seq<Id>, reading: Reading): (r: Cache)
    requires forall i :: i in ids ==> i in g
    decreases |ids|
  {
    if ids == [] then c else RemoveEach(RemoveBy(c, g, ids[0], reading), g, ids[1..], reading)
  }

  /** Removing nodes one at a time keeps every sprite group dense. */
  lemma {:induction false} RemoveEachKeepsInv(c: Cache, g: Graph, ids: seq<Id>)
    requires (forall i :: i in ids ==> i in g) && SpriteInv(c, g)
    ensures SpriteInv(RemoveEach(c, g, ids, Intended), g)
    decreases |ids|
  {
    if ids != [] {
      RemoveKeepsInv(c, g, ids[0]);
      RemoveEachKeepsInv(Remove(c, g, ids[0]), g, ids[1..]);
    }
  }

  /** `update(node:)`, removing with `remove(node:)` under `reading`: nothing for a
      node `allNodes` does not hold; otherwise every node below it is removed, then
      the node itself. */
  function Update(c: Cache, g: Graph, height: map<Id, nat>, id: Id, reading: Reading): (r: Cache)
    requires HeightRanked(g, height) && id in g
    ensures id !in c.allNodes ==> r == c
    ensures id in c.allNodes ==>
              r == RemoveBy(RemoveEach(c, g, Descendants(g, height, id), reading), g, id, reading)
  {
    if ArrayExt.Find(c.allNodes, id).None? then c
    else RemoveBy(RemoveEach(c, g, Descendants(g, height, id), reading), g, id, reading)
  }

  /** The intended `update(node:)` keeps every sprite group dense.
      `UpdateAsWrittenBreaksInv` shows the source's does not. */
  lemma UpdateKeepsInv(c: Cache, g: Graph, height: map<Id, nat>, id: Id)
    requires HeightRanked(g, height) && id in g && SpriteInv(c, g)
    ensures SpriteInv(Update(c, g, height, id, Intended), g)
  {
    if id in c.allNodes {
      var below := Descendants(g, height, id);
      RemoveEachKeepsInv(c, g, below);
      RemoveKeepsInv(RemoveEach(c, g, below, Intended), g, id);
    }
  }

  /** As written, `update` on the first sprite of a dense group of three or more,
      a sprite with no children, leaves the group not dense. */
  lemma UpdateAsWrittenBreaksInv(c: Cache, g: Graph, height: map<Id, nat>, key: int)
    requires HeightRanked(g, height) && SpriteInv(c, g)
    requires key in c.sprites && |c.sprites[key]| >= 3
    requires c.sprites[key][0] in c.allNodes && g[c.sprites[key][0]].children == []
    ensures !SpriteInv(Update(c, g, height, c.sprites[key][0], AsWritten), g)
  {
    var id := c.sprites[key][0];
    DescendantsOfLeaf(g, height, id);
    RealignOffsetCounterexample(c, g, key);
  }

  /** As written, `update` on a tracked light with no children keeps it among the
      lights and leaves the light counter where it was; as intended, the light
      leaves the lights and the counter moves back by one. */
  lemma UpdateLight(c: Cache, g: Graph, height: map<Id, nat>, id: Id)
    requires HeightRanked(g, height) && id in g && g[id].kind.Light? && g[id].children == []
    requires id in c.allNodes && id in c.lights && NoDup(c.lights)
    ensures Update(c, g, height, id, AsWritten).lights == c.lights
    ensures Update(c, g, height, id, AsWritten).lightIndex == c.lightIndex
    ensures id !in Update(c, g, height, id, Intended).lights
    ensures Update(c, g, height, id, Intended).lightIndex == c.lightIndex - 1
  {
    DescendantsOfLeaf(g, height, id);
    RemoveAsWrittenKeepsLight(c, g, id);
    RemoveLight(c, g, id);
  }

  /** Removing from `s + t` something `s` does not hold removes it from `t`. */
  lemma RemoveFromTail(s: seq<Id>, t: seq<Id>, x: Id)
    requires x !in s && x in t
    ensures ArrayExt.Remove(s + t, x).1 == s + ArrayExt.Remove(t, x).1
  {
    var i := ArrayExt.Find(t, x).value;
    var j := |s| + i;
    ArrayExt.SliceConcat(s, t, i);
    ArrayExt.SliceConcat(s, t, i + 1);
    ArrayExt.FindUnique(s + t, x, j);
    ArrayExt.ConcatAssoc(s, t[..i], t[i + 1..]);
  }

  /** Removing the first occurrence of each of `xs` in turn. */
  function RemoveAll(s: seq<Id>, xs: seq<Id>): seq<Id>
    decreases |xs|
  {
    if xs == [] then s else RemoveAll(ArrayExt.Remove(s, xs[0]).1, xs[1..])
  }

  /** Removing nodes one at a time removes them from `allNodes` one at a time. */
  lemma {:induction false} RemoveEachNodes(c: Cache, g: Graph, xs: seq<Id>, reading: Reading)
    requires forall i :: i in xs ==> i in g
    ensures RemoveEach(c, g, xs, reading).allNodes == RemoveAll(c.allNodes, xs)
    decreases |xs|
  {
    if xs != [] {
      RemoveEachNodes(RemoveBy(c, g, xs[0], reading), g, xs[1..], reading);
    }
  }

  /** Removing, one by one, every node of a duplicate-free tail leaves the head. */
  lemma {:induction false} RemoveAllOfTail(s: seq<Id>, t: seq<Id>, xs: seq<Id>)
    requires NoDup(t) && NoDup(xs) && |xs| == |t|
    requires forall x :: x in t ==> x !in s
    requires forall x :: x in xs ==> x in t
    ensures RemoveAll(s + t, xs) == s
    decreases |xs|
  {
    if xs != [] {
      var x := xs[0];
      var t' := ArrayExt.Remove(t, x).1;
      RemoveFromTail(s, t, x);
      RemoveKeepsNoDup(t, x);
      ArrayExt.RemoveDropsOne(t, x);
      forall y | y in xs[1..]
        ensures y in t'
      {
        var k :| 0 <= k < |xs[1..]| && xs[1..][k] == y;
        assert xs[k + 1] == y;
        assert y in t && y != x;
        assert multiset(t)[y] > 0;
      }
      NoDupTail(xs);
      RemoveAllOfTail(s, t', xs[1..]);
    }
  }

  /** Removing two runs of nodes one after the other is removing them together. */
  lemma {:induction false} RemoveEachAppend(c: Cache, g: Graph, a: seq<Id>, b: seq<Id>, reading: Reading)
    requires forall i :: i in a + b ==> i in g
    ensures RemoveEach(c, g, a + b, reading) == RemoveEach(RemoveEach(c, g, a, reading), g, b, reading)
    decreases |a|
  {
    if a != [] {
      assert (a + b)[1..] == a[1..] + b;
      RemoveEachAppend(RemoveBy(c, g, a[0], reading), g, a[1..], b, reading);
    } else {
      assert a + b == b;
    }
  }

  /** `update` on a tracked node removes its descendants and then the node, one
      after the other. */
  lemma UpdateRemovesSubtree(c: Cache, g: Graph, height: map<Id, nat>, id: Id, reading: Reading)
    requires HeightRanked(g, height) && id in g && id in c.allNodes
    ensures Update(c, g, height, id, reading) == RemoveEach(c, g, Descendants(g, height, id) + [id], reading)
  {
    var below := Descendants(g, height, id);
    RemoveEachAppend(c, g, below, [id], reading);
  }

  /** On a consistent hierarchy, `update` right after `add`, with nothing of the
      subtree tracked before, gives `allNodes` back as it was, as written and as
      intended alike. */
  lemma AddThenUpdate(c: Cache, g: Graph, depth: map<Id, nat>, height: map<Id, nat>, id: Id, reading: Reading)
    requires Consistent(g) && DepthRanked(g, depth) && HeightRanked(g, height) && id in g
    requires id !in c.allNodes && forall x :: x in Descendants(g, height, id) ==> x !in c.allNodes
    ensures Update(Add(c, g, height, id), g, height, id, reading).allNodes == c.allNodes
  {
    var below := Descendants(g, height, id);
    var added := Add(c, g, height, id);
    var t := [id] + below;
    SubtreeOnce(g, depth, height, id);
    DescendantsOnce(g, depth, height, id);
    assert added.allNodes == c.allNodes + t;
    var xs := below + [id];
    NoDupConcat(below, [id]);
    assert forall x :: x in xs ==> x in t;
    RemoveAllOfTail(c.allNodes, t, xs);
    UpdateRemovesSubtree(added, g, height, id, reading);
    RemoveEachNodes(added, g, xs, reading);
  }

  /** As written, removing the first sprite of a dense group of three or more breaks
      the group: its new second sprite has index 1, but the slot of index 1 still
      holds the sprite that was second before, since the realigned quads went to
      `Slot(Slot(i))`. `RemoveKeepsInv` shows the intended removal keeps every
      group dense. */
  lemma RealignOffsetCounterexample(c: Cache, g: Graph, key: int)
    requires SpriteInv(c, g) && key in c.sprites && |c.sprites[key]| >= 3 && c.sprites[key][0] in c.allNodes
    ensures var group := c.sprites[key];
            var r := RemoveAsWritten(c, g, group[0]);
            && key in r.sprites && r.sprites[key] == group[1..]
            && key in r.buffers && Slot(1) in r.buffers[key]
            && r.buffers[key][Slot(1)] == group[1] != r.sprites[key][1]
            && !SpriteInv(r, g)
  {
    var group := c.sprites[key];
    RemoveFirstAsWritten(c, g, key);
    GroupNoDup(c, g, key);
    var r := RemoveAsWritten(c, g, group[0]);
    assert r.sprites[key][1] == group[2];
    SlotMismatch(r, g, key);
  }

  /** A group whose slot 1 holds another sprite than its second is not dense. */
  lemma SlotMismatch(c: Cache, g: Graph, key: int)
    requires key in c.sprites && key in c.buffers && |c.sprites[key]| >= 2
    requires Slot(1) in c.buffers[key] && c.buffers[key][Slot(1)] != c.sprites[key][1]
    ensures !SpriteInv(c, g)
  {
    assert !GroupInv(c, g, key);
  }

  /** Removing the first sprite of a dense group as written leaves the rest of the
      group listed, with the second sprite's quad still in slot 1. */
  lemma RemoveFirstAsWritten(c: Cache, g: Graph, key: int)
    requires SpriteInv(c, g) && key in c.sprites && |c.sprites[key]| >= 2 && c.sprites[key][0] in c.allNodes
    ensures var group := c.sprites[key];
            var r := RemoveAsWritten(c, g, group[0]);
            && key in r.sprites && r.sprites[key] == group[1..]
            && key in r.buffers && Slot(1) in r.buffers[key]
            && r.buffers[key][Slot(1)] == group[1]
  {
    var group := c.sprites[key];
    var id := group[0];
    assert GroupInv(c, g, key);
    ArrayExt.FindUnique(group, id, 0);
    var nodes := group[1..];
    assert ArrayExt.Remove(group, id).1 == nodes;
    var c1 := c.(allNodes := ArrayExt.Remove(c.allNodes, id).1);
    var c2 := c1.(sprites := c1.sprites[key := nodes]);
    assert RemoveAsWritten(c, g, id) == RealignAsWritten(c2, key);
  }

  /** As written, the counter after a removal is one past the group's last index, so
      the next sprite of that texture is given an index one past its position in the
      group. */
  lemma RealignCountCounterexample(c: Cache, g: Graph, key: int, newcomer: Id)
    requires SpriteInv(c, g) && key in c.sprites && |c.sprites[key]| >= 1 && c.sprites[key][0] in c.allNodes
    requires newcomer in g && g[newcomer].kind == Sprite(Some(key)) && Unfiled(c, newcomer)
    ensures var group := c.sprites[key];
            var r := AddOne(RemoveAsWritten(c, g, group[0]), g, newcomer);
            && key in r.sprites && r.sprites[key] == group[1..] + [newcomer]
            && newcomer in r.index && r.index[newcomer] == |group|
  {
    var group := c.sprites[key];
    var id := group[0];
    assert GroupInv(c, g, key);
    ArrayExt.FindUnique(group, id, 0);
    var nodes := group[1..];
    assert ArrayExt.Remove(group, id).1 == nodes;
    var c1 := c.(allNodes := ArrayExt.Remove(c.allNodes, id).1);
    var c2 := c1.(sprites := c1.sprites[key := nodes]);
    assert RemoveAsWritten(c, g, id) == RealignAsWritten(c2, key);
  }

  /** As intended, the next sprite of the texture continues the run: its index is its
      position in the group. */
  lemma RemoveThenAddContinues(c: Cache, g: Graph, key: int, newcomer: Id)
    requires SpriteInv(c, g) && key in c.sprites && |c.sprites[key]| >= 1 && c.sprites[key][0] in c.allNodes
    requires newcomer in g && g[newcomer].kind == Sprite(Some(key)) && Unfiled(c, newcomer)
    ensures var group := c.sprites[key];
            var fixed := AddOne(Remove(c, g, group[0]), g, newcomer);
            && key in fixed.sprites && fixed.sprites[key] == group[1..] + [newcomer]
            && newcomer in fixed.index && fixed.index[newcomer] == |group| - 1
  {
    var group := c.sprites[key];
    var id := group[0];
    assert GroupInv(c, g, key);
    ArrayExt.FindUnique(group, id, 0);
    var nodes := group[1..];
    assert ArrayExt.Remove(group, id).1 == nodes;
    var c1 := c.(allNodes := ArrayExt.Remove(c.allNodes, id).1);
    var c2 := c1.(sprites := c1.sprites[key := nodes]);
    assert Remove(c, g, id) == Realign(c2, key);
  }

  /** A group's buffer spans `SpriteCapacity` quads per frame. As written, the fifth
      sprite's realigned quad already falls outside it; the intended slot fits. */
  lemma RealignOffsetOverruns(quad: seq<int>)
    requires |quad| == Quad.QuadSize
    ensures var b := Buffer.NewBuffer(Quad.QuadSize * SpriteCapacity);
            && Buffer.Add(b, quad, Quad.QuadSize, Slot(4)).Failure?
            && Buffer.Add(b, quad, Quad.QuadSize, 4).Success?
  {
  }

  /** Every intended slot of a group of at most `SpriteCapacity` sprites fits the
      buffer. */
  lemma SlotsFit(quad: seq<int>, i: nat)
    requires |quad| == Quad.QuadSize && i < SpriteCapacity
    ensures Buffer.Add(Buffer.NewBuffer(Quad.QuadSize * SpriteCapacity), quad, Quad.QuadSize, i).Success?
  {
    Buffer.AddFits(Buffer.NewBuffer(Quad.QuadSize * SpriteCapacity), quad, Quad.QuadSize, i);
  }

  /** A group's buffer has room for `SpriteCapacity` quads a frame: the quad of the
      sprite at index `i` fits exactly when `0 <= i < SpriteCapacity`. So from the
      501st sprite of a group on, the copy `add(node:)` makes runs past the buffer. */
  lemma SlotFitsExactly(quad: seq<int>, i: int)
    requires |quad| == Quad.QuadSize
    ensures Buffer.Add(Buffer.NewBuffer(Quad.QuadSize * SpriteCapacity), quad, Quad.QuadSize, i).Success?
            <==> 0 <= i < SpriteCapacity
  {
  }

  /** The 501st sprite filed in one group gets index 500, whose quad the buffer has
      no room for. */
  lemma FiveHundredFirstSpriteOverruns(c: Cache, g: Graph, id: Id, quad: seq<int>)
    requires id in g && g[id].kind.Sprite? && |quad| == Quad.QuadSize
    requires var key := SpriteKey(g[id].kind);
             key in c.sprites && key in c.spriteIndex && key in c.buffers && c.spriteIndex[key] == SpriteCapacity - 1
    ensures var r := AddOne(c, g, id);
            && r.index[id] == SpriteCapacity
            && Buffer.Add(Buffer.NewBuffer(Quad.QuadSize * SpriteCapacity), quad, Quad.QuadSize, r.index[id]).Failure?
  {
    SlotFitsExactly(quad, SpriteCapacity);
  }
}
