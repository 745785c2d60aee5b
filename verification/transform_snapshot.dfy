/** The snapshot a PoolablePrefab takes of its transform subtree, and its
    restoration. The walk order of the stack-based traversal and the effect of
    writing the snapshot back are given here as functions; the handle's
    methods are proved against them. */
module TransformSnapshot {
  import opened Engine

  /** A transform and its children, in the order the engine enumerates them. */
  datatype TransformTree = Node(id: int, children: seq<TransformTree>)

  /** One recorded entry of the snapshot list. */
  datatype InitialGOState = InitialGOState(
    transform: int,
    parentTransform: Option<int>,
    active: bool,
    position: Vec3,
    rotation: Rotation,
    scale: Vec3)

  /** The order in which a walk that pops a node, records it, and pushes its
      children in enumeration order visits the subtree of `t`: the root, then
      the children's subtrees from the last child to the first. */
  function VisitOrder(t: TransformTree): seq<int>
    decreases t
  {
    [t.id] + PendingOrder(t.children)
  }

  /** The nodes still to be visited when `stack` (top = last element) is pending. */
  function PendingOrder(stack: seq<TransformTree>): seq<int>
    decreases stack
  {
    if stack == [] then []
    else VisitOrder(stack[|stack| - 1]) + PendingOrder(stack[..|stack| - 1])
  }

  /** The nodes of a subtree, counted with multiplicity and without order. */
  function Nodes(t: TransformTree): multiset<int>
    decreases t
  {
    multiset{t.id} + ForestNodes(t.children)
  }

  function ForestNodes(ts: seq<TransformTree>): multiset<int>
    decreases ts
  {
    if ts == [] then multiset{} else Nodes(ts[0]) + ForestNodes(ts[1..])
  }

  /** Pushing `b` on top of `a` puts b's nodes before a's in the walk. */
  lemma {:induction false} PendingOrderAppend(a: seq<TransformTree>, b: seq<TransformTree>)
    ensures PendingOrder(a + b) == PendingOrder(b) + PendingOrder(a)
    decreases |b|
  {
    if b == [] {
      assert a + b == a;
    } else {
      var n := |b| - 1;
      assert (a + b)[|a + b| - 1] == b[n];
      assert (a + b)[..|a + b| - 1] == a + b[..n];
      PendingOrderAppend(a, b[..n]);
    }
  }

  /** One step of the walk: popping the top node visits it first, and the
      pending order afterwards is that of the rest of the stack with the
      node's children pushed on top. */
  lemma PopVisitsTop(stack: seq<TransformTree>)
    requires stack != []
    ensures PendingOrder(stack) ==
              [stack[|stack| - 1].id] + PendingOrder(stack[..|stack| - 1] + stack[|stack| - 1].children)
  {
    var top := stack[|stack| - 1];
    PendingOrderAppend(stack[..|stack| - 1], top.children);
  }

  lemma {:induction false} ForestNodesAppend(a: seq<TransformTree>, t: TransformTree)
    ensures ForestNodes(a + [t]) == ForestNodes(a) + Nodes(t)
    decreases |a|
  {
    if a == [] {
      assert [] + [t] == [t];
      assert [t][1..] == [];
    } else {
      assert (a + [t])[0] == a[0];
      assert (a + [t])[1..] == a[1..] + [t];
      ForestNodesAppend(a[1..], t);
    }
  }

  /** The walk visits every node of the subtree exactly as often as it occurs
      in it (once each, in a hierarchy), starting at the root. */
  lemma {:induction false} VisitOrderCoversTree(t: TransformTree)
    ensures |VisitOrder(t)| > 0 && VisitOrder(t)[0] == t.id
    ensures multiset(VisitOrder(t)) == Nodes(t)
    decreases t, 1
  {
    PendingOrderCoversForest(t.children);
  }

  lemma {:induction false} PendingOrderCoversForest(ts: seq<TransformTree>)
    ensures multiset(PendingOrder(ts)) == ForestNodes(ts)
    decreases ts, 0
  {
    if ts != [] {
      var n := |ts| - 1;
      VisitOrderCoversTree(ts[n]);
      PendingOrderCoversForest(ts[..n]);
      assert ts == ts[..n] + [ts[n]];
      ForestNodesAppend(ts[..n], ts[n]);
    }
  }

  /** `t` is the whole transform subtree of its root in the object table:
      every node is a live object, every child names its node as parent, and
      every live object whose parent is a node of `t` is among that node's
      children. */
  ghost predicate IsSubtree(objects: map<int, GameObjectState>, t: TransformTree)
    decreases t
  {
    t.id in objects &&
    (forall c :: c in t.children ==> c.id in objects && objects[c.id].parent == Some(t.id) && IsSubtree(objects, c)) &&
    (forall k :: k in objects && objects[k].parent == Some(t.id) ==> exists c :: c in t.children && c.id == k)
  }

  /** The entry recorded for object `id` in state `s`. */
  function Record(id: int, s: GameObjectState): InitialGOState
  {
    InitialGOState(id, s.parent, s.active, s.position, s.rotation, s.scale)
  }

  /** The entry the snapshot records for object `id` of the table. */
  function Capture(objects: map<int, GameObjectState>, id: int): InitialGOState
    requires id in objects
  {
    Record(id, objects[id])
  }

  /** The state a node is given when `entry` is written back: active flag,
      parent, position and rotation, scale. */
  function Applied(entry: InitialGOState): GameObjectState
  {
    GameObjectState(entry.active, entry.parentTransform, entry.position, entry.rotation, entry.scale)
  }

  lemma CaptureThenApply(objects: map<int, GameObjectState>, id: int)
    requires id in objects
    ensures Applied(Capture(objects, id)) == objects[id]
  {
  }

  /** Writing one entry back; a node that no longer exists is left alone. */
  function RestoreOne(objects: map<int, GameObjectState>, entry: InitialGOState): map<int, GameObjectState>
  {
    if entry.transform in objects then objects[entry.transform := Applied(entry)] else objects
  }

  /** Writing back a whole snapshot list, in list order. */
  function Restore(objects: map<int, GameObjectState>, entries: seq<InitialGOState>): map<int, GameObjectState>
    decreases |entries|
  {
    if entries == [] then objects
    else RestoreOne(Restore(objects, entries[..|entries| - 1]), entries[|entries| - 1])
  }

  /** Restoring never creates or destroys objects, and leaves every node that
      has no entry in the list as it was. */
  lemma {:induction false} RestoreTouchesOnlyRecorded(objects: map<int, GameObjectState>, entries: seq<InitialGOState>)
    ensures Restore(objects, entries).Keys == objects.Keys
    ensures forall id :: id in objects && (forall k :: 0 <= k < |entries| ==> entries[k].transform != id) ==>
              Restore(objects, entries)[id] == objects[id]
    decreases |entries|
  {
    if entries != [] {
      var n := |entries| - 1;
      RestoreTouchesOnlyRecorded(objects, entries[..n]);
      forall id | id in objects && (forall k :: 0 <= k < |entries| ==> entries[k].transform != id)
        ensures Restore(objects, entries)[id] == objects[id]
      {
        assert forall k :: 0 <= k < n ==> entries[..n][k] == entries[k];
      }
    }
  }

  /** The snapshot of the nodes `ids`, one entry per id, in order. */
  function CaptureAll(objects: map<int, GameObjectState>, ids: seq<int>): (entries: seq<InitialGOState>)
    requires forall k :: 0 <= k < |ids| ==> ids[k] in objects
    ensures |entries| == |ids|
    ensures forall k :: 0 <= k < |ids| ==> entries[k].transform == ids[k] && Applied(entries[k]) == objects[ids[k]]
  {
    seq(|ids|, k requires 0 <= k < |ids| => Capture(objects, ids[k]))
  }

  /** A node without children is recorded as a single entry. */
  lemma CaptureLeaf(objects: map<int, GameObjectState>, id: int)
    requires id in objects
    ensures VisitOrder(Node(id, [])) == [id]
    ensures CaptureAll(objects, VisitOrder(Node(id, []))) == [Record(id, objects[id])]
  {
    assert VisitOrder(Node(id, [])) == [id];
  }

  /** Round trip: however the recorded nodes were changed since the snapshot
      was taken, restoring it gives every recorded node that still exists
      exactly the state it had when captured. */
  lemma {:induction false} RestoreCaptured(before: map<int, GameObjectState>, now: map<int, GameObjectState>, ids: seq<int>)
    requires forall k :: 0 <= k < |ids| ==> ids[k] in before
    ensures Restore(now, CaptureAll(before, ids)).Keys == now.Keys
    ensures forall k :: 0 <= k < |ids| && ids[k] in now ==> Restore(now, CaptureAll(before, ids))[ids[k]] == before[ids[k]]
    decreases |ids|
  {
    if ids != [] {
      var n := |ids| - 1;
      var entries := CaptureAll(before, ids);
      RestoreTouchesOnlyRecorded(now, entries);
      assert entries[..n] == CaptureAll(before, ids[..n]);
      RestoreCaptured(before, now, ids[..n]);
      RestoreTouchesOnlyRecorded(now, entries[..n]);
      forall k | 0 <= k < |ids| && ids[k] in now
        ensures Restore(now, entries)[ids[k]] == before[ids[k]]
      {
        if ids[k] != ids[n] {
          assert ids[..n][k] == ids[k];
        }
      }
    }
  }
}
