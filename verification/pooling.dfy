/** The prefab pools: PoolablePrefab (the component on every pooled
    instance), PrefabPool (one pool of clones of one prefab) and
    PrefabPoolManager (the registry that routes requests by prefab id).

    The engine's object table is the shared `Scene`; a component is an object
    holding the id of its GameObject. The static members of the source classes
    (the loan counter, the manager count, the current manager and the quit
    flag) are objects shared by reference. */
module Pooling {
  import opened Engine
  import opened TransformSnapshot
  import opened PoolSpec

  /** The process-wide loan counter, shared by every pool. */
  class LoanCounter {
    var next: uint64

    constructor ()
      ensures next == 1
    {
      next := 1;
    }

    ghost predicate Valid()
      reads this
    {
      next < LoanModulus
    }
  }

  /** The static members of the manager class: how many managers have woken,
      the current manager, and whether the application is quitting. */
  class ManagerStatics {
    var managerCount: int
    var manager: PrefabPoolManager?
    var canQuit: bool

    constructor ()
      ensures managerCount == 0 && manager == null && !canQuit
    {
      managerCount := 0;
      manager := null;
      canQuit := false;
    }

    /** The engine's truth test on the current manager. */
    predicate HasManager(scene: Scene)
      reads this, scene
    {
      manager != null && scene.Alive(manager.gameObject)
    }
  }

  /** A new, empty GameObject made a child of `parent`: active, at the
      origin, unrotated, at unit scale. */
  function NewChildState(parent: int): GameObjectState
  {
    GameObjectState(true, Some(parent), Origin, IdentityRotation, Vec3(1.0, 1.0, 1.0))
  }

  /** The component on a pooled instance: its prefab, the id of its current
      loan (0 when not on loan) and the snapshot of its transform subtree. */
  class PoolablePrefab {
    const scene: Scene
    const gameObject: int
    var prefab: Option<int>
    var pooledInstanceId: uint64
    var initialGOStates: Option<seq<InitialGOState>>

    constructor (scene: Scene, gameObject: int, prefab: Option<int>)
      ensures this.scene == scene && this.gameObject == gameObject && this.prefab == prefab
      ensures pooledInstanceId == 0 && initialGOStates == None
    {
      this.scene := scene;
      this.gameObject := gameObject;
      this.prefab := prefab;
      pooledInstanceId := 0;
      initialGOStates := None;
    }

    /** The truth test on the `prefab` reference: it names a live object. */
    predicate HasPrefab()
      reads this, scene
    {
      prefab.Some? && scene.Alive(prefab.value)
    }

    /** The recorded list (empty while nothing is cached). */
    function States(): seq<InitialGOState>
      reads this
    {
      if initialGOStates.Some? then initialGOStates.value else []
    }

    /** Records the subtree rooted at this object with an explicit stack: pop a
        transform, record it, push its children in order. Only the first call
        records anything. */
    method CacheActiveStates(subtree: TransformTree) returns (cached: bool)
      requires subtree.id == gameObject && IsSubtree(scene.objects, subtree)
      requires forall k :: 0 <= k < |VisitOrder(subtree)| ==> VisitOrder(subtree)[k] in scene.objects
      modifies this`initialGOStates
      ensures cached <==> old(initialGOStates).None?
      ensures cached ==> initialGOStates == Some(CaptureAll(scene.objects, VisitOrder(subtree)))
      ensures !cached ==> initialGOStates == old(initialGOStates)
    {
      if initialGOStates.Some? {
        return false;
      }
      var states: seq<InitialGOState> := [];
      var transforms := [subtree];
      ghost var visited: seq<int> := [];
      while |transforms| > 0
        invariant visited + PendingOrder(transforms) == VisitOrder(subtree)
        invariant |states| == |visited|
        invariant forall k :: 0 <= k < |visited| ==>
                    visited[k] in scene.objects && states[k] == Capture(scene.objects, visited[k])
        decreases |PendingOrder(transforms)|
      {
        PopVisitsTop(transforms);
        var currTrans := transforms[|transforms| - 1];
        transforms := transforms[..|transforms| - 1];
        ghost var below := transforms;
        assert VisitOrder(subtree) == (visited + [currTrans.id]) + PendingOrder(below + currTrans.children);
        assert VisitOrder(subtree)[|visited|] == currTrans.id;
        states := states + [Capture(scene.objects, currTrans.id)];
        visited := visited + [currTrans.id];
        var i := 0;
        while i < |currTrans.children|
          invariant 0 <= i <= |currTrans.children|
          invariant transforms == below + currTrans.children[..i]
        {
          transforms := transforms + [currTrans.children[i]];
          i := i + 1;
        }
        assert currTrans.children[..i] == currTrans.children;
      }
      assert visited == VisitOrder(subtree);
      assert states == CaptureAll(scene.objects, visited);
      initialGOStates := Some(states);
      cached := true;
    }

    /** Writes every recorded entry back, in list order: active flag, parent,
        position and rotation, then scale. */
    method ResetActiveStates()
      requires initialGOStates.Some?
      modifies scene`objects
      ensures scene.objects == Restore(old(scene.objects), States())
    {
      var entries := States();
      var i := 0;
      while i < |entries|
        invariant 0 <= i <= |entries|
        invariant scene.objects == Restore(old(scene.objects), entries[..i])
      {
        var state := entries[i];
        if state.transform in scene.objects {
          var s := scene.objects[state.transform];
          s := s.(active := state.active);
          s := s.(parent := state.parentTransform);
          s := s.(position := state.position, rotation := state.rotation);
          s := s.(scale := state.scale);
          scene.objects := scene.objects[state.transform := s];
        }
        assert entries[..i + 1][..i] == entries[..i];
        i := i + 1;
      }
      assert entries[..i] == entries;
    }

    /** The `Prefab` setter: the reference is only replaced while it is unset
        or still points at this object itself (which is what a clone's copy of
        the prefab's self-reference becomes). */
    method SetPrefab(value: Option<int>)
      modifies this`prefab
      ensures old(!HasPrefab() || prefab == Some(gameObject)) ==> prefab == value
      ensures old(HasPrefab() && prefab != Some(gameObject)) ==> prefab == old(prefab)
    {
      if !HasPrefab() || prefab == Some(gameObject) {
        prefab := value;
      }
    }

    /** The pool a return or removal is routed to: the pool registered for
        this handle's prefab at the current manager; none when the prefab
        reference or the manager is missing. */
    function TargetPool(statics: ManagerStatics): PrefabPool?
      reads this, statics, scene, statics.manager
    {
      if HasPrefab() && statics.HasManager(scene) then statics.manager.PoolOfPrefab(prefab) else null
    }

    /** Gives this instance back to its pool; on success the loan id is
        cleared and the recorded states are written back. */
    method ReturnToPool(statics: ManagerStatics) returns (returned: bool)
      requires TargetPool(statics) != null && TargetPool(statics).Accepts(gameObject) ==> initialGOStates.Some?
      requires statics.manager != null ==> statics.manager.scene == scene && statics.manager.Valid()
      modifies this`pooledInstanceId, scene`objects, ManagedPools(statics)`pooled
      ensures statics.manager != null ==> statics.manager.Valid()
      ensures var p := old(TargetPool(statics));
        returned == (p != null && old(p.Accepts(gameObject))) &&
        (returned ==> gameObject in old(scene.objects) && pooledInstanceId == 0 &&
                      p.pooled == old(p.pooled) + {gameObject} &&
                      scene.objects == Restore(old(p.StoredScene(gameObject)), States())) &&
        (!returned ==> pooledInstanceId == old(pooledInstanceId) && scene.objects == old(scene.objects))
      ensures forall q :: q in ManagedPools(statics) && (q != old(TargetPool(statics)) || !returned) ==>
                q.pooled == old(q.pooled)
    {
      if !HasPrefab() {
        return false;
      } else if !statics.HasManager(scene) {
        return false;
      }
      returned := statics.manager.StoreInstanceOfPrefab(prefab, gameObject);
      if returned {
        pooledInstanceId := 0;
        ResetActiveStates();
      }
    }

    /** Makes its pool forget this instance; on success the loan id is cleared. */
    method RemoveFromPool(statics: ManagerStatics) returns (removed: bool)
      requires statics.manager != null ==> statics.manager.scene == scene && statics.manager.Valid()
      modifies this`pooledInstanceId, ManagedPools(statics)`pooled, ManagedPools(statics)`pool
      ensures statics.manager != null ==> statics.manager.Valid()
      ensures var p := old(TargetPool(statics));
        removed == (p != null && scene.Alive(gameObject)) &&
        (removed ==> pooledInstanceId == 0 &&
                     p.pooled == old(p.pooled) - {gameObject} && p.pool == old(p.pool) - {gameObject}) &&
        (!removed ==> pooledInstanceId == old(pooledInstanceId))
      ensures forall q :: q in ManagedPools(statics) && (q != old(TargetPool(statics)) || !removed) ==>
                q.pooled == old(q.pooled) && q.pool == old(q.pool)
    {
      if !HasPrefab() {
        return false;
      } else if !statics.HasManager(scene) {
        return false;
      }
      removed := statics.manager.RemoveInstanceOfPrefab(prefab, gameObject);
      if removed {
        pooledInstanceId := 0;
      }
    }

    /** When the component is destroyed outside of application quit, its
        instance is removed from its pool. */
    method OnDestroy(statics: ManagerStatics)
      requires statics.manager != null ==> statics.manager.scene == scene && statics.manager.Valid()
      modifies this`pooledInstanceId, ManagedPools(statics)`pooled, ManagedPools(statics)`pool
      ensures statics.manager != null ==> statics.manager.Valid()
      ensures statics.canQuit ==>
                pooledInstanceId == old(pooledInstanceId) &&
                forall q :: q in ManagedPools(statics) ==> q.pooled == old(q.pooled) && q.pool == old(q.pool)
      ensures !statics.canQuit ==>
                var p := old(TargetPool(statics));
                var removed := p != null && scene.Alive(gameObject);
                (removed ==> pooledInstanceId == 0 &&
                             p.pooled == old(p.pooled) - {gameObject} && p.pool == old(p.pool) - {gameObject}) &&
                (!removed ==> pooledInstanceId == old(pooledInstanceId))
    {
      if !statics.canQuit {
        var _ := RemoveFromPool(statics);
      }
    }
  }

  /** The pools of the current manager, if there is one. */
  ghost function ManagedPools(statics: ManagerStatics): set<PrefabPool>
    reads statics, statics.manager
  {
    if statics.manager == null then {} else statics.manager.Pools()
  }

  /** An object put away in a pool: deactivated, under the pool root `root`,
      at the root's position `at`. */
  function ParkedState(s: GameObjectState, root: Option<int>, at: Vec3): GameObjectState
  {
    s.(active := false, parent := root, position := at)
  }

  /** The snapshot a clone of `template` ends up with: its Awake records it as
      instantiated when the template is active; otherwise nothing is cached
      until the growth step records it parked. */
  function CloneSnapshot(key: int, template: GameObjectState, parked: GameObjectState): seq<InitialGOState>
  {
    [Record(key, if template.active then template else parked)]
  }

  /** What a return writes back on a clone: exactly the state its snapshot
      holds. So a clone of an active prefab, whose snapshot was taken when it
      was instantiated, comes back active, at the prefab's position and
      outside the pool root; a clone of an inactive prefab comes back parked.
      No other object changes. */
  lemma {:induction false} ReturnedCloneState(objects: map<int, GameObjectState>, key: int,
                                              template: GameObjectState, parked: GameObjectState)
    requires key in objects
    ensures var r := Restore(objects, CloneSnapshot(key, template, parked));
      r.Keys == objects.Keys &&
      r[key] == (if template.active then template else parked) &&
      forall k :: k in objects && k != key ==> r[k] == objects[k]
  {
    var entries := CloneSnapshot(key, template, parked);
    assert entries[..0] == [];
  }

  /** A handle as a growth step leaves it: pointing at the pool's prefab,
      not on loan, holding the given snapshot. */
  ghost predicate CloneHandle(h: PoolablePrefab, prefab: Option<int>, snapshot: seq<InitialGOState>)
    reads h
  {
    h.prefab == prefab && h.pooledInstanceId == 0 && h.initialGOStates == Some(snapshot)
  }

  /** The handles a pool's map holds. */
  function Handles(m: map<int, PoolablePrefab>): set<PoolablePrefab>
  {
    set k | k in m :: m[k]
  }

  /** Two steps that each keep every existing entry keep them together. */
  lemma KeepsEntries(m0: map<int, GameObjectState>, m1: map<int, GameObjectState>, m2: map<int, GameObjectState>)
    requires forall k :: k in m0 ==> k in m1 && m1[k] == m0[k]
    requires forall k :: k in m1 ==> k in m2 && m2[k] == m1[k]
    ensures forall k :: k in m0 ==> k in m2 && m2[k] == m0[k]
  {
  }

  /** The keys a growth step added, from the loop's membership facts. */
  lemma AddedKeys(keys0: set<int>, keys: set<int>, added: set<int>)
    requires forall k :: k in keys <==> k in keys0 || k in added
    requires forall k :: k in added ==> k !in keys0
    ensures keys - keys0 == added
  {
    forall k
      ensures k in keys - keys0 <==> k in added
    {
      assert k in keys <==> k in keys0 || k in added;
    }
  }

  /** One pool of inactive clones of one prefab. `pool` maps the instance id
      of every clone the pool knows to its handle; `pooled` holds the ids
      available for loan; `poolSize` is the count the growth cap is checked
      against. */
  class PrefabPool {
    const scene: Scene
    const counter: LoanCounter
    var prefab: Option<int>
    var initialSize: int
    var growAmount: int
    var maxSize: int
    var pool: map<int, PoolablePrefab>
    var pooled: set<int>
    var poolSize: int
    var root: Option<int>

    /** A pool as deserialised: the configured prefab, the default sizes,
        nothing created yet. */
    constructor (scene: Scene, counter: LoanCounter, prefab: Option<int>)
      ensures this.scene == scene && this.counter == counter && this.prefab == prefab
      ensures initialSize == 8 && growAmount == 8 && maxSize == 128
      ensures pool == map[] && pooled == {} && poolSize == 0 && root == None
    {
      this.scene := scene;
      this.counter := counter;
      this.prefab := prefab;
      initialSize := 8;
      growAmount := 8;
      maxSize := 128;
      pool := map[];
      pooled := {};
      poolSize := 0;
      root := None;
    }

    /** Every available id is a known instance, the counted size is never
        negative, and each handle belongs to the scene object its key names
        (a clone, never a prefab asset). */
    ghost predicate Valid()
      reads this
    {
      pooled <= pool.Keys && 0 <= poolSize &&
      forall k :: k in pool ==> pool[k].gameObject == k && pool[k].scene == scene && !scene.IsPrefab(k)
    }

    predicate PrefabLive()
      reads this
    {
      prefab.Some? && scene.IsPrefab(prefab.value)
    }

    /** What an instantiated clone starts as: the prefab's state at scene root. */
    function Template(): GameObjectState
      requires PrefabLive()
      reads this
    {
      scene.assets[prefab.value].(parent := None)
    }

    /** The pool root's world position; the origin when there is no root. */
    function RootPosition(): Vec3
      reads this, scene
    {
      if root.Some? && root.value in scene.objects then scene.objects[root.value].position else Origin
    }

    function RootIds(): set<int>
      reads this
    {
      if root.Some? then {root.value} else {}
    }

    /** The object table after `key` is put away. */
    function StoredScene(key: int): map<int, GameObjectState>
      requires key in scene.objects
      reads this, scene
    {
      scene.objects[key := ParkedState(scene.objects[key], root, RootPosition())]
    }

    /** An available id the pool can actually lend: its handle's object
        exists and is inactive. */
    predicate Usable(k: int)
      reads this, scene
    {
      k in pool && pool[k].gameObject in scene.objects && !scene.objects[pool[k].gameObject].active
    }

    predicate AllPooledUsable()
      reads this, scene
    {
      forall k :: k in pooled ==> Usable(k)
    }

    /** Whether StoreInstance takes `instance` back. */
    predicate Accepts(instance: int)
      reads this, scene
    {
      scene.Alive(instance) && Some(instance) != prefab && instance in pool
    }

    /** What Initialize leaves behind when called with the pool's own
        prefab and sizes: the prefab and sizes are kept; with a live manager
        (`managerObject` is the object of the live manager, if any) a fresh
        root under the manager's object and one growth step of `initialSize`,
        every new clone parked at the root and available; without one, nothing
        changes. Known instances are kept either way. */
    twostate predicate InitializedInPlace(managerObject: Option<int>)
      reads this, scene
    {
      prefab == old(prefab) && PrefabLive() &&
      initialSize == old(initialSize) && growAmount == old(growAmount) && maxSize == old(maxSize) &&
      (managerObject.None? ==> root == old(root) && poolSize == old(poolSize) && pool == old(pool) && pooled == old(pooled)) &&
      (managerObject.Some? ==>
         root.Some? && root.value !in old(scene.objects) && root.value in scene.objects &&
         scene.objects[root.value] == NewChildState(managerObject.value) &&
         var c := GrowCount(initialSize, maxSize, old(poolSize));
         poolSize == old(poolSize) + (if c > 0 then c else 0)) &&
      (forall k :: k in old(pool) ==> k in pool && pool[k] == old(pool[k])) &&
      (forall k :: k in pooled <==> k in old(pooled) || (k in pool && k !in old(pool))) &&
      (forall k :: k in pool && k !in old(pool) ==>
         k in scene.objects && scene.objects[k] == ParkedState(Template(), root, Origin))
    }

    /** Sets the pool up under the current manager: adopts `prefabArg` when
        it is a live prefab, creates the pool root as a child of the
        manager's object, takes each non-negative size argument, and runs one
        growth step of `initialSize`. Without a live manager nothing happens. */
    method Initialize(prefabArg: Option<int>, initialSizeArg: int, growAmountArg: int, maxSizeArg: int,
                      statics: ManagerStatics)
      requires Valid()
      requires statics.HasManager(scene) ==> (prefabArg.Some? && scene.IsPrefab(prefabArg.value)) || PrefabLive()
      modifies this`prefab, this`root, this`initialSize, this`growAmount, this`maxSize
      modifies this`pool, this`pooled, this`poolSize, scene`objects
      ensures Valid()
      ensures !old(statics.HasManager(scene)) ==> unchanged(this) && scene.objects == old(scene.objects)
      ensures old(statics.HasManager(scene)) ==>
                prefab == (if prefabArg.Some? && scene.IsPrefab(prefabArg.value) then prefabArg else old(prefab)) &&
                initialSize == (if initialSizeArg >= 0 then initialSizeArg else old(initialSize)) &&
                growAmount == (if growAmountArg >= 0 then growAmountArg else old(growAmount)) &&
                maxSize == (if maxSizeArg >= 0 then maxSizeArg else old(maxSize)) &&
                root.Some? && root.value !in old(scene.objects) && root.value !in pool &&
                root.value in scene.objects && scene.objects[root.value] == NewChildState(statics.manager.gameObject) &&
                var c := GrowCount(initialSize, maxSize, old(poolSize));
                poolSize == old(poolSize) + (if c > 0 then c else 0)
      ensures forall k :: k in pooled <==> k in old(pooled) || (k in pool && k !in old(pool))
      ensures forall k :: k in old(pool) ==> k in pool && pool[k] == old(pool[k])
      ensures forall k :: k in old(scene.objects) ==> k in scene.objects && scene.objects[k] == old(scene.objects[k])
      ensures forall k :: k in pool && k !in old(pool) ==>
                fresh(pool[k]) && PrefabLive() && k in scene.objects &&
                scene.objects[k] == ParkedState(Template(), root, Origin)
    {
      if !statics.HasManager(scene) {
        return;
      }
      if prefabArg.Some? && scene.IsPrefab(prefabArg.value) {
        prefab := prefabArg;
      }
      // the prefab asset's own handle is pointed at the prefab; assets are
      // not part of the object table
      ghost var objects0 := scene.objects;
      CreateRoot(statics.manager.gameObject);
      ghost var objects1 := scene.objects;
      SetSizes(initialSizeArg, growAmountArg, maxSizeArg);
      GrowUnderNewRoot();
      KeepsEntries(objects0, objects1, scene.objects);
    }

    /** The growth step of initialisation, `CreateInstances(initialSize)`,
        stated by what initialisation relies on: with the root at the origin,
        every new clone is parked there and made available. */
    method GrowUnderNewRoot()
      requires Valid() && PrefabLive() && RootPosition() == Origin
      modifies this`pool, this`pooled, this`poolSize, scene`objects
      ensures Valid()
      ensures var c := GrowCount(initialSize, maxSize, old(poolSize));
        poolSize == old(poolSize) + (if c > 0 then c else 0)
      ensures forall k :: k in pooled <==> k in old(pooled) || (k in pool && k !in old(pool))
      ensures forall k :: k in old(pool) ==> k in pool && pool[k] == old(pool[k])
      ensures forall k :: k in old(scene.objects) ==> k in scene.objects && scene.objects[k] == old(scene.objects[k])
      ensures forall k :: k in pool && k !in old(pool) ==>
                fresh(pool[k]) && k !in RootIds() && k in scene.objects &&
                scene.objects[k] == ParkedState(Template(), root, Origin)
    {
      CreateInstances(initialSize);
    }

    /** Takes each size argument that is not negative. */
    method SetSizes(initialSizeArg: int, growAmountArg: int, maxSizeArg: int)
      modifies this`initialSize, this`growAmount, this`maxSize
      ensures initialSize == (if initialSizeArg >= 0 then initialSizeArg else old(initialSize))
      ensures growAmount == (if growAmountArg >= 0 then growAmountArg else old(growAmount))
      ensures maxSize == (if maxSizeArg >= 0 then maxSizeArg else old(maxSize))
    {
      if initialSizeArg >= 0 {
        initialSize := initialSizeArg;
      }
      if growAmountArg >= 0 {
        growAmount := growAmountArg;
      }
      if maxSizeArg >= 0 {
        maxSize := maxSizeArg;
      }
    }

    /** Creates a new pool root under `parent` and makes it the pool's root. */
    method CreateRoot(parent: int)
      modifies this`root, scene`objects
      ensures root.Some? && root.value !in old(scene.objects) && root.value !in pool && !scene.IsPrefab(root.value)
      ensures scene.objects == old(scene.objects)[root.value := NewChildState(parent)]
      ensures RootPosition() == Origin
    {
      var rootId := FreshId(scene.objects.Keys + scene.assets.Keys + pool.Keys);
      scene.objects := scene.objects[rootId := NewChildState(parent)];
      root := Some(rootId);
    }

    /** Rebuilds the available set from scratch: every known instance whose
        object exists and is inactive. */
    method SanitizeAvailableGameObjects()
      requires Valid()
      modifies this`pooled
      ensures Valid()
      ensures forall k :: k in pooled <==> Usable(k)
    {
      pooled := {};
      var rest := pool.Keys;
      while rest != {}
        invariant rest <= pool.Keys && pooled <= pool.Keys
        invariant forall k :: k in pooled <==> k !in rest && Usable(k)
        decreases rest
      {
        ElementOfNonEmpty(rest);
        var key :| key in rest;
        var handle := pool[key];
        if !scene.Alive(handle.gameObject) {
        } else if !scene.objects[handle.gameObject].active {
          pooled := pooled + {key};
        }
        rest := rest - {key};
      }
    }

    /** The engine's `Instantiate(prefab)`: a new root-level copy of the
        prefab with its own handle. The copy's reference to the prefab itself
        is remapped to the copy, and, the copy being active exactly when the
        prefab is, its Awake caches its states inside the call. */
    method Instantiate() returns (key: int, handle: PoolablePrefab)
      requires PrefabLive()
      modifies scene`objects
      ensures key !in old(scene.objects) && key !in pool && key !in RootIds() && !scene.IsPrefab(key)
      ensures scene.objects == old(scene.objects)[key := Template()]
      ensures forall k :: k in old(scene.objects) ==> old(scene.objects)[k].parent != Some(key)
      ensures fresh(handle) && handle.scene == scene && handle.gameObject == key
      ensures handle.prefab == Some(key) && handle.pooledInstanceId == 0
      ensures handle.initialGOStates == if Template().active then Some([Record(key, Template())]) else None
    {
      key := FreshId(scene.objects.Keys + scene.assets.Keys + pool.Keys + RootIds() + ParentIds(scene.objects));
      assert forall k :: k in scene.objects && scene.objects[k].parent.Some? ==>
               scene.objects[k].parent.value in ParentIds(scene.objects);
      scene.objects := scene.objects[key := Template()];
      handle := new PoolablePrefab(scene, key, Some(key));
      if Template().active {
        CaptureLeaf(scene.objects, key);
        var _ := handle.CacheActiveStates(Node(key, []));
      }
    }

    /** One pass of the growth loop: instantiate the prefab, point the
        clone's handle at the prefab, park the clone, cache its states and make
        it available. */
    method AddClone() returns (key: int)
      requires Valid() && PrefabLive()
      modifies this`pool, this`pooled, scene`objects
      ensures Valid()
      ensures key !in old(pool) && key !in old(scene.objects) && key !in old(pooled) && key !in RootIds()
      ensures key in pool && pool == old(pool)[key := pool[key]] && pooled == old(pooled) + {key}
      ensures RootPosition() == old(RootPosition())
      ensures var parked := ParkedState(Template(), root, old(RootPosition()));
        scene.objects == old(scene.objects)[key := parked] &&
        fresh(pool[key]) && CloneHandle(pool[key], prefab, CloneSnapshot(key, Template(), parked))
    {
      var rootPosition := RootPosition();
      var poolHandle;
      key, poolHandle := Instantiate();
      poolHandle.SetPrefab(prefab);
      var s := scene.objects[key];
      s := s.(active := false);
      s := s.(parent := root);
      s := s.(position := RootPosition());
      scene.objects := scene.objects[key := s];
      CaptureLeaf(scene.objects, key);
      var _ := poolHandle.CacheActiveStates(Node(key, []));
      pooled := pooled + {key};
      pool := pool[key := poolHandle];
    }

    /** The creation loop of a growth step: its counter runs from `n` down
        to 0 inclusive, so it makes `n + 1` clones. */
    method CloneLoop(n: int) returns (ghost added: set<int>)
      requires Valid() && PrefabLive() && n >= 0
      modifies this`pool, this`pooled, scene`objects
      ensures Valid() && |added| == n + 1
      ensures forall k :: k in pool <==> k in old(pool) || k in added
      ensures forall k :: k in added ==> k !in old(pool) && k !in old(scene.objects)
      ensures forall k :: k in pooled <==> k in old(pooled) || k in added
      ensures forall k :: k in scene.objects <==> k in old(scene.objects) || k in added
      ensures forall k :: k in old(pool) ==> pool[k] == old(pool[k])
      ensures forall k :: k in old(scene.objects) ==> scene.objects[k] == old(scene.objects[k])
      ensures forall k :: k in added ==>
                k !in RootIds() && fresh(pool[k]) &&
                var parked := ParkedState(Template(), root, old(RootPosition()));
                scene.objects[k] == parked && CloneHandle(pool[k], prefab, CloneSnapshot(k, Template(), parked))
    {
      added := {};
      ghost var template := Template();
      ghost var parked := ParkedState(template, root, RootPosition());
      var i := n;
      while i >= 0
        invariant -1 <= i <= n && |added| == n - i
        invariant forall k :: k in pool <==> k in old(pool) || k in added
        invariant forall k :: k in added ==> k !in old(pool) && k !in old(scene.objects)
        invariant forall k :: k in pooled <==> k in old(pooled) || k in added
        invariant forall k :: k in scene.objects <==> k in old(scene.objects) || k in added
        invariant forall k :: k in old(pool) ==> pool[k] == old(pool[k])
        invariant forall k :: k in old(scene.objects) ==> scene.objects[k] == old(scene.objects[k])
        invariant RootPosition() == old(RootPosition())
        invariant Valid()
        invariant forall k :: k in added ==>
                    k !in RootIds() && fresh(pool[k]) && scene.objects[k] == parked &&
                    CloneHandle(pool[k], prefab, CloneSnapshot(k, template, parked))
      {
        var key := AddClone();
        added := added + {key};
        i := i - 1;
      }
    }

    /** One growth step. The request is clamped to at least 1 and to the room
        below `maxSize`; nothing happens without a prefab or without room.
        Otherwise the loop creates ONE MORE clone than the clamped count,
        while the counted size grows by the count only. */
    method CreateInstances(count: int)
      requires Valid()
      modifies this`pool, this`pooled, this`poolSize, scene`objects
      ensures Valid()
      ensures var c := GrowCount(count, maxSize, old(poolSize));
        if !PrefabLive() || c <= 0 then
          pool == old(pool) && pooled == old(pooled) && poolSize == old(poolSize) &&
          scene.objects == old(scene.objects)
        else
          poolSize == old(poolSize) + c && |pool.Keys - old(pool.Keys)| == c + 1 &&
          pool.Keys - old(pool.Keys) != {}
      ensures forall k :: k in pooled <==> k in old(pooled) || (k in pool && k !in old(pool))
      ensures forall k :: k in scene.objects <==> k in old(scene.objects) || (k in pool && k !in old(pool))
      ensures forall k :: k in old(pool) ==> k in pool && pool[k] == old(pool[k])
      ensures forall k :: k in old(scene.objects) ==> k in scene.objects && scene.objects[k] == old(scene.objects[k])
      ensures forall k :: k in pooled && k !in old(pooled) ==> Usable(k)
      ensures forall k :: k in pool && k !in old(pool) ==>
                k !in old(scene.objects) && k !in RootIds() && fresh(pool[k]) && PrefabLive() &&
                var parked := ParkedState(Template(), root, old(RootPosition()));
                scene.objects[k] == parked && CloneHandle(pool[k], prefab, CloneSnapshot(k, Template(), parked))
    {
      if !PrefabLive() {
        return;
      }
      var n := count;
      if n <= 0 {
        n := 1;
      }
      n := if n < maxSize - poolSize then n else maxSize - poolSize;
      assert n == GrowCount(count, maxSize, poolSize);
      if n <= 0 {
        return;
      }
      ghost var added := CloneLoop(n);
      AddedKeys(old(pool.Keys), pool.Keys, added);
      poolSize := poolSize + n;
    }

    /** The growth step lending takes, `CreateInstances(growAmount)`, stated
        by what lending relies on: known ids keep their handles, every id it
        makes available is a new one that can be lent, no existing object
        changes, and it adds nothing only when the pool cannot grow. */
    method Expand()
      requires Valid()
      modifies this`pool, this`pooled, this`poolSize, scene`objects
      ensures Valid()
      ensures forall k :: k in old(pool) ==> k in pool && pool[k] == old(pool[k])
      ensures forall h :: h in Handles(pool) ==> h in old(Handles(pool)) || fresh(h)
      ensures old(pooled) <= pooled
      ensures forall k :: k in pooled && k !in old(pooled) ==> k !in old(pool) && Usable(k)
      ensures forall k :: k in old(scene.objects) ==> k in scene.objects && scene.objects[k] == old(scene.objects[k])
      ensures pooled == old(pooled) ==> !PrefabLive() || GrowCount(growAmount, maxSize, poolSize) <= 0
    {
      CreateInstances(growAmount);
      if PrefabLive() && GrowCount(growAmount, maxSize, old(poolSize)) > 0 {
        ElementOfNonEmpty(pool.Keys - old(pool.Keys));
        var k :| k in pool.Keys - old(pool.Keys);
        assert k in pooled && k !in old(pooled);
      }
      assert forall k :: k in old(pooled) ==> k in pooled;
      forall h | h in Handles(pool)
        ensures h in old(Handles(pool)) || fresh(h)
      {
        var k :| k in pool && pool[k] == h;
      }
    }

    /** Takes an instance back: refused when the reference is dead, when it is
        the prefab itself, or when the pool never made it; otherwise the
        instance is parked and made available again. */
    method StoreInstance(instance: int) returns (ok: bool)
      requires Valid()
      modifies this`pooled, scene`objects
      ensures Valid()
      ensures ok == old(Accepts(instance))
      ensures ok ==> instance in old(scene.objects) && pooled == old(pooled) + {instance} &&
                     scene.objects == old(StoredScene(instance))
      ensures !ok ==> pooled == old(pooled) && scene.objects == old(scene.objects)
    {
      if !scene.Alive(instance) {
        return false;
      }
      var key := instance;
      if Some(instance) == prefab {
        return false;
      } else if key !in pool {
        return false;
      }
      var rootPosition := RootPosition();
      var s := scene.objects[instance];
      s := s.(active := false);
      s := s.(parent := root);
      s := s.(position := rootPosition);
      scene.objects := scene.objects[instance := s];
      pooled := pooled + {key};
      ok := true;
    }

    /** Forgets an instance: a live reference is dropped from both the
        available set and the instance map, whether or not the pool knew it. */
    method RemoveInstance(instance: int) returns (ok: bool)
      requires Valid()
      modifies this`pooled, this`pool
      ensures Valid()
      ensures ok == scene.Alive(instance)
      ensures ok ==> pooled == old(pooled) - {instance} && pool == old(pool) - {instance}
      ensures !ok ==> pooled == old(pooled) && pool == old(pool)
    {
      if !scene.Alive(instance) {
        return false;
      }
      var key := instance;
      pooled := pooled - {key};
      pool := pool - {key};
      ok := true;
    }

    /** The scan over the available set, in the set's own (unspecified) order:
        it stops at the first id it can lend, and every id it passes over
        before that is one it cannot lend. */
    method ScanPooled() returns (found: bool, keyToUse: int, keysToRemove: set<int>)
      requires Valid()
      ensures keysToRemove <= pooled
      ensures forall k :: k in keysToRemove ==> !Usable(k)
      ensures found ==> keyToUse in pooled && keyToUse !in keysToRemove && Usable(keyToUse)
      ensures !found ==> keysToRemove == pooled
    {
      found, keyToUse, keysToRemove := false, -1, {};
      var rest := pooled;
      while rest != {}
        invariant rest <= pooled && keysToRemove <= pooled && keysToRemove !! rest
        invariant forall k :: k in keysToRemove ==> !Usable(k)
        invariant forall k :: k in pooled ==> k in rest || k in keysToRemove
        invariant !found
        decreases rest
      {
        ElementOfNonEmpty(rest);
        var key :| key in rest;
        if key in pool {
          var poolablePrefab := pool[key];
          if scene.Alive(poolablePrefab.gameObject) && !scene.objects[poolablePrefab.gameObject].active {
            found, keyToUse := true, key;
            break;
          }
        }
        // an id that cannot be lent is dropped from the available set
        keysToRemove := keysToRemove + {key};
        rest := rest - {key};
      }
      if !found {
        assert forall k :: k in pooled ==> k in keysToRemove;
      }
    }

    /** Hands out the available instance `key`: it leaves the available
        set, is stamped with the current loan id, the counter advances, and the
        object is unparented, moved to `position` and activated. */
    method Lend(key: int, position: Vec3) returns (handle: PoolablePrefab)
      requires Valid() && counter.Valid() && key in pooled && Usable(key)
      modifies this`pooled, scene`objects, counter`next, {pool[key]}`pooledInstanceId
      ensures Valid() && counter.Valid()
      ensures handle == pool[key] && handle.gameObject == key && key in old(scene.objects)
      ensures pooled == old(pooled) - {key}
      ensures scene.objects == old(scene.objects)[key := old(scene.objects[key]).(parent := None, position := position, active := true)]
      ensures handle.pooledInstanceId == old(counter.next) && counter.next == NextLoanId(old(counter.next))
    {
      pooled := pooled - {key};
      var poolablePrefab := pool[key];
      poolablePrefab.pooledInstanceId := counter.next;
      counter.next := NextLoanId(counter.next);
      var obj := scene.objects[poolablePrefab.gameObject];
      obj := obj.(parent := None);
      obj := obj.(position := position);
      obj := obj.(active := true);
      scene.objects := scene.objects[poolablePrefab.gameObject := obj];
      handle := poolablePrefab;
    }

    /** `key` is out on loan: known, not available, its object live, active,
        unparented and at `position`, its handle stamped with `loanId`, and
        the counter moved past that id. */
    ghost predicate LentAt(key: int, position: Vec3, loanId: uint64)
      reads this, scene, counter, Handles(pool)
    {
      key in pool && key !in pooled && key in scene.objects && scene.objects[key].active &&
      scene.objects[key].parent == None && scene.objects[key].position == position &&
      pool[key].pooledInstanceId == loanId && counter.next == NextLoanId(loanId)
    }

    /** Lends an instance and hands out its GameObject rather than its handle. */
    method GetInstance(position: Vec3, expandPoolIfEmpty: bool) returns (instance: Option<int>)
      requires Valid() && counter.Valid()
      modifies this`pool, this`pooled, this`poolSize, scene`objects, counter`next, Handles(pool)`pooledInstanceId
      ensures Valid() && counter.Valid()
      ensures forall k :: k in old(pool) ==> k in pool && pool[k] == old(pool[k])
      ensures forall k :: k in old(pool) && instance != Some(k) ==> pool[k].pooledInstanceId == old(pool[k].pooledInstanceId)
      ensures forall k :: k in old(pooled) && k !in pooled && instance != Some(k) ==> !old(Usable(k))
      ensures forall k :: k in old(scene.objects) && instance != Some(k) ==>
                k in scene.objects && scene.objects[k] == old(scene.objects[k])
      ensures forall k :: k in pooled ==> k in old(pooled) || k !in old(pool)
      ensures instance.None? ==> pooled == {} && counter.next == old(counter.next)
      ensures instance.None? && expandPoolIfEmpty ==> !PrefabLive() || GrowCount(growAmount, maxSize, poolSize) <= 0
      ensures instance.Some? ==>
                var key := instance.value;
                key in pool && key !in pooled && (key in old(pool) ==> key in old(pooled) && old(Usable(key))) &&
                key in scene.objects && scene.objects[key].active &&
                scene.objects[key].parent == None && scene.objects[key].position == position &&
                pool[key].pooledInstanceId == old(counter.next) && counter.next == NextLoanId(old(counter.next))
    {
      var handle := GetInstanceHandle(position, expandPoolIfEmpty);
      // a handle that was just lent belongs to a live object, so the source's
      // second test on it never fails
      if handle == null {
        return None;
      }
      return Some(handle.gameObject);
    }

    /** Lends an instance: grows the pool first when nothing is available
        (and growth is allowed), then scans the available set. */
    method GetInstanceHandle(position: Vec3, expandPoolIfEmpty: bool) returns (handle: PoolablePrefab?)
      requires Valid() && counter.Valid()
      modifies this`pool, this`pooled, this`poolSize, scene`objects, counter`next, Handles(pool)`pooledInstanceId
      decreases if AllPooledUsable() then 0 else 1, 1
      ensures Valid() && counter.Valid()
      ensures forall k :: k in old(pool) ==> k in pool && pool[k] == old(pool[k])
      ensures forall k :: k in old(pool) && pool[k] != handle ==> pool[k].pooledInstanceId == old(pool[k].pooledInstanceId)
      ensures forall k :: k in pooled ==> k in old(pooled) || k !in old(pool)
      ensures forall k :: k in old(pooled) && k !in pooled && (handle == null || k != handle.gameObject) ==>
                !old(Usable(k))
      ensures forall k :: k in old(scene.objects) && (handle == null || k != handle.gameObject) ==>
                k in scene.objects && scene.objects[k] == old(scene.objects[k])
      ensures handle == null ==> pooled == {} && counter.next == old(counter.next)
      ensures handle == null && expandPoolIfEmpty ==> !PrefabLive() || GrowCount(growAmount, maxSize, poolSize) <= 0
      ensures handle != null ==>
                var key := handle.gameObject;
                key in pool && pool[key] == handle && key !in pooled &&
                (key in old(pool) ==> key in old(pooled) && old(Usable(key))) &&
                key in scene.objects && scene.objects[key].active &&
                scene.objects[key].parent == None && scene.objects[key].position == position &&
                (key in old(scene.objects) ==>
                   scene.objects[key] == old(scene.objects[key]).(parent := None, position := position, active := true)) &&
                handle.pooledInstanceId == old(counter.next) && counter.next == NextLoanId(old(counter.next))
    {
      ghost var rank := if AllPooledUsable() then 0 else 1;
      if pooled == {} && expandPoolIfEmpty {
        // nothing available: grow
        Expand();
        assert AllPooledUsable();
      }
      if pooled == {} {
        return null;
      }
      handle := LendScanned(position, expandPoolIfEmpty, rank);
    }

    /** The scan step of GetInstanceHandle on a non-empty available set: drops
        the ids the scan finds unusable and lends the first usable instance.
        When the scan found nothing usable it grows and starts over, with
        growth allowed. `rank` is 0 exactly when every available id was
        usable on entry to GetInstanceHandle; the retry is reached only from
        rank 1 and starts at rank 0, so it happens at most once. */
    method LendScanned(position: Vec3, expandPoolIfEmpty: bool, ghost rank: nat) returns (handle: PoolablePrefab?)
      requires Valid() && counter.Valid() && pooled != {}
      requires rank <= 1 && (rank == 0 ==> AllPooledUsable())
      modifies this`pool, this`pooled, this`poolSize, scene`objects, counter`next, Handles(pool)`pooledInstanceId
      decreases rank, 0
      ensures Valid() && counter.Valid()
      ensures forall k :: k in old(pool) ==> k in pool && pool[k] == old(pool[k])
      ensures forall k :: k in old(pool) && pool[k] != handle ==> pool[k].pooledInstanceId == old(pool[k].pooledInstanceId)
      ensures forall k :: k in pooled ==> k in old(pooled) || k !in old(pool)
      ensures forall k :: k in old(pooled) && k !in pooled && (handle == null || k != handle.gameObject) ==>
                !old(Usable(k))
      ensures forall k :: k in old(scene.objects) && (handle == null || k != handle.gameObject) ==>
                k in scene.objects && scene.objects[k] == old(scene.objects[k])
      ensures handle == null ==> pooled == {} && counter.next == old(counter.next)
      ensures handle == null && expandPoolIfEmpty ==> !PrefabLive() || GrowCount(growAmount, maxSize, poolSize) <= 0
      ensures handle != null ==>
                var key := handle.gameObject;
                key in pool && pool[key] == handle && key !in pooled &&
                (key in old(pool) ==> key in old(pooled) && old(Usable(key))) &&
                key in scene.objects && scene.objects[key].active &&
                scene.objects[key].parent == None && scene.objects[key].position == position &&
                (key in old(scene.objects) ==>
                   scene.objects[key] == old(scene.objects[key]).(parent := None, position := position, active := true)) &&
                handle.pooledInstanceId == old(counter.next) && counter.next == NextLoanId(old(counter.next))
    {
      var found, keyToUse, keysToRemove := ScanPooled();
      if keysToRemove != {} {
        ElementOfNonEmpty(keysToRemove);
        ghost var dropped :| dropped in keysToRemove;
        assert dropped in pooled && !Usable(dropped);
        pooled := pooled - keysToRemove;
        if !found && expandPoolIfEmpty {
          Expand();
          assert AllPooledUsable();
          handle := GetInstanceHandle(position, true);
          return;
        }
      }
      if !found {
        return null;
      }
      handle := Lend(keyToUse, position);
    }
  }

  /** The id a pool is registered under at start-up: its prefab's, when it
      has one. */
  function RegisteredId(p: PrefabPool): Option<int>
    reads p
  {
    if p.PrefabLive() then p.prefab else None
  }

  /** The ids the start-up registration sees, pool by pool. */
  ghost function RegisteredIds(pools: seq<PrefabPool>): (ids: seq<Option<int>>)
    reads set i | 0 <= i < |pools| :: pools[i]
    ensures |ids| == |pools|
    ensures forall i :: 0 <= i < |pools| ==> ids[i] == RegisteredId(pools[i])
  {
    seq(|pools|, i reads set j | 0 <= j < |pools| :: pools[j] requires 0 <= i < |pools| => RegisteredId(pools[i]))
  }

  /** A size of a pool the manager adds: a negative argument falls back to
      the manager's default, and a value that is still negative (or a pool
      that finds no live manager) leaves the pool's own initial value. */
  function SizeSetting(live: bool, arg: int, managerDefault: int, poolDefault: int): int
  {
    var requested := if arg < 0 then managerDefault else arg;
    if live && requested >= 0 then requested else poolDefault
  }

  /** The registry: routes every request, by prefab or by prefab id, to the
      pool made for that prefab. */
  class PrefabPoolManager {
    const scene: Scene
    const counter: LoanCounter
    const statics: ManagerStatics
    const gameObject: int
    var defaultInitialSize: int
    var defaultGrowAmount: int
    var defaultMaxSize: int
    var prefabPools: seq<PrefabPool>
    var prefabIdToIndex: map<int, int>

    /** A manager as deserialised: the configured pools, the default sizes,
        nothing registered yet. */
    constructor (scene: Scene, counter: LoanCounter, statics: ManagerStatics, gameObject: int,
                 prefabPools: seq<PrefabPool>)
      ensures this.scene == scene && this.counter == counter && this.statics == statics
      ensures this.gameObject == gameObject && this.prefabPools == prefabPools && prefabIdToIndex == map[]
      ensures defaultInitialSize == 16 && defaultGrowAmount == 16 && defaultMaxSize == 128
    {
      this.scene := scene;
      this.counter := counter;
      this.statics := statics;
      this.gameObject := gameObject;
      this.prefabPools := prefabPools;
      prefabIdToIndex := map[];
      defaultInitialSize := 16;
      defaultGrowAmount := 16;
      defaultMaxSize := 128;
    }

    ghost function Pools(): set<PrefabPool>
      reads this
    {
      set i | 0 <= i < |prefabPools| :: prefabPools[i]
    }

    /** The handles of every listed pool. */
    ghost function AllHandles(): set<PoolablePrefab>
      reads this, Pools()
    {
      set i, k | 0 <= i < |prefabPools| && k in prefabPools[i].pool :: prefabPools[i].pool[k]
    }

    /** Every listed pool keeps its own invariant and shares the manager's
        scene and loan counter, no pool is listed twice, and every registered
        id names a listed pool that holds that prefab or no prefab at all. */
    ghost predicate Valid()
      reads this, counter, Pools()
    {
      counter.Valid() &&
      (forall i :: 0 <= i < |prefabPools| ==>
         prefabPools[i].scene == scene && prefabPools[i].counter == counter && prefabPools[i].Valid()) &&
      (forall i, j :: 0 <= i < j < |prefabPools| ==> prefabPools[i] != prefabPools[j]) &&
      (forall id :: id in prefabIdToIndex ==>
         0 <= prefabIdToIndex[id] < |prefabPools| &&
         (prefabPools[prefabIdToIndex[id]].prefab == None || prefabPools[prefabIdToIndex[id]].prefab == Some(id)))
    }

    /** The pool registered for `prefabId`; null when there is none or the
        registered index is out of range. */
    function GetPool(prefabId: int): PrefabPool?
      reads this
    {
      if prefabId !in prefabIdToIndex then null
      else
        var index := prefabIdToIndex[prefabId];
        if 0 <= index < |prefabPools| then prefabPools[index] else null
    }

    /** The pool a prefab reference is routed to, without creating one: none
        for a missing reference. */
    function PoolOfPrefab(prefab: Option<int>): PrefabPool?
      reads this
    {
      if prefab.Some? && scene.IsPrefab(prefab.value) then GetPool(prefab.value) else null
    }

    /** With the registry consistent, the lookup finds a pool exactly for the
        registered ids (it never reaches the corrupt-mapping branch), and the
        pool it finds holds that prefab or none at all. */
    lemma GetPoolFindsRegistered(prefabId: int)
      requires Valid()
      ensures GetPool(prefabId) != null <==> prefabId in prefabIdToIndex
      ensures GetPool(prefabId) != null ==>
                GetPool(prefabId) in Pools() &&
                (GetPool(prefabId).prefab == None || GetPool(prefabId).prefab == Some(prefabId))
    {
    }

    /** Start-up: counts this manager and makes it the current manager when
        it is the first one and no live manager exists (a later one is only
        counted), then initialises and registers the configured pools. */
    method Awake()
      requires Valid()
      modifies statics`managerCount, statics`manager, this`prefabIdToIndex, Pools(), scene`objects
      ensures Valid()
      ensures statics.managerCount == old(statics.managerCount) + 1
      ensures statics.manager ==
                if old(statics.managerCount) + 1 <= 1 && !old(statics.HasManager(scene)) then this
                else old(statics.manager)
      ensures prefabIdToIndex == Registered(old(prefabIdToIndex), old(RegisteredIds(prefabPools)), 0)
      ensures forall i :: 0 <= i < |prefabPools| ==> prefabPools[i].prefab == old(prefabPools[i].prefab)
      ensures forall k :: k in old(scene.objects) ==> k in scene.objects && scene.objects[k] == old(scene.objects[k])
    {
      statics.managerCount := statics.managerCount + 1;
      if statics.managerCount > 1 {
        // a second manager is reported and otherwise ignored
      } else if !statics.HasManager(scene) {
        statics.manager := this;
      }
      RegisterPools();
    }

    /** The start-up loop, from the last pool to the first: each pool with a
        live prefab is initialised with its own sizes, and its prefab id is
        mapped to its index unless an id already has an entry. */
    method RegisterPools()
      requires Valid()
      modifies this`prefabIdToIndex, Pools(), scene`objects
      ensures Valid()
      ensures prefabIdToIndex == Registered(old(prefabIdToIndex), old(RegisteredIds(prefabPools)), 0)
      ensures forall i :: 0 <= i < |prefabPools| ==> prefabPools[i].prefab == old(prefabPools[i].prefab)
      ensures forall k :: k in old(scene.objects) ==> k in scene.objects && scene.objects[k] == old(scene.objects[k])
    {
      ghost var ids := RegisteredIds(prefabPools);
      var i := |prefabPools| - 1;
      while i >= 0
        invariant -1 <= i < |prefabPools|
        invariant Valid()
        invariant forall j :: 0 <= j < |prefabPools| ==> prefabPools[j].prefab == old(prefabPools[j].prefab)
        invariant prefabIdToIndex == Registered(old(prefabIdToIndex), ids, i + 1)
        invariant forall k :: k in old(scene.objects) ==> k in scene.objects && scene.objects[k] == old(scene.objects[k])
      {
        if prefabPools[i].PrefabLive() {
          RegisterPool(i);
        }
        i := i - 1;
      }
    }

    /** One step of the start-up loop, for a pool with a live prefab: the
        pool is initialised with its own sizes, which therefore stay as they
        are, and then registered. */
    method RegisterPool(i: int)
      requires Valid() && 0 <= i < |prefabPools| && prefabPools[i].PrefabLive()
      modifies this`prefabIdToIndex, prefabPools[i], scene`objects
      ensures Valid()
      ensures prefabPools[i].prefab == old(prefabPools[i].prefab)
      ensures prefabPools[i].InitializedInPlace(
                if old(statics.HasManager(scene)) then Some(statics.manager.gameObject) else None)
      ensures var id := prefabPools[i].prefab.value;
        prefabIdToIndex == if id in old(prefabIdToIndex) then old(prefabIdToIndex) else old(prefabIdToIndex)[id := i]
      ensures forall k :: k in old(scene.objects) ==> k in scene.objects && scene.objects[k] == old(scene.objects[k])
    {
      var pool := prefabPools[i];
      var id := pool.prefab.value;
      pool.Initialize(pool.prefab, pool.initialSize, pool.growAmount, pool.maxSize, statics);
      if id !in prefabIdToIndex {
        prefabIdToIndex := prefabIdToIndex[id := i];
      }
    }

    /** A manager enabled before any manager has woken wakes itself. */
    method OnEnable()
      requires Valid()
      modifies statics`managerCount, statics`manager, this`prefabIdToIndex, Pools(), scene`objects
      ensures Valid()
      ensures old(statics.managerCount) != 0 ==>
                unchanged(statics) && unchanged(this) && unchanged(Pools()) && scene.objects == old(scene.objects)
      ensures old(statics.managerCount) == 0 ==>
                statics.managerCount == 1 &&
                prefabIdToIndex == Registered(old(prefabIdToIndex), old(RegisteredIds(prefabPools)), 0)
    {
      if statics.managerCount == 0 {
        Awake();
      }
    }

    /** The application is quitting: destroyed instances stop removing
        themselves from their pools. */
    method OnApplicationQuit()
      modifies statics`canQuit
      ensures statics.canQuit
    {
      statics.canQuit := true;
    }

    /** A destroyed manager is no longer counted. */
    method OnDestroy()
      modifies statics`managerCount
      ensures statics.managerCount == old(statics.managerCount) - 1
    {
      statics.managerCount := statics.managerCount - 1;
    }

    /** Makes and registers a pool for `prefab`, unless the reference is
        missing or its id is registered already; a negative size takes the
        manager's default. The new pool is registered even when it finds no
        live manager to initialise under and so stays without a prefab. */
    method AddPool(prefab: Option<int>, initialSize: int, growAmount: int, maxSize: int) returns (added: bool)
      requires Valid()
      modifies this`prefabPools, this`prefabIdToIndex, scene`objects
      ensures Valid()
      ensures added <==> prefab.Some? && scene.IsPrefab(prefab.value) && prefab.value !in old(prefabIdToIndex)
      ensures !added ==>
                prefabPools == old(prefabPools) && prefabIdToIndex == old(prefabIdToIndex) &&
                scene.objects == old(scene.objects)
      ensures added ==>
                var n := |old(prefabPools)|;
                |prefabPools| == n + 1 && prefabPools[..n] == old(prefabPools) && fresh(prefabPools[n]) &&
                prefabIdToIndex == old(prefabIdToIndex)[prefab.value := n] &&
                var p := prefabPools[n];
                (forall k :: k in p.pool ==> fresh(p.pool[k])) &&
                var live := old(statics.HasManager(scene));
                p.prefab == (if live then prefab else None) &&
                p.initialSize == SizeSetting(live, initialSize, defaultInitialSize, 8) &&
                p.growAmount == SizeSetting(live, growAmount, defaultGrowAmount, 8) &&
                p.maxSize == SizeSetting(live, maxSize, defaultMaxSize, 128)
      ensures forall k :: k in old(scene.objects) ==> k in scene.objects && scene.objects[k] == old(scene.objects[k])
    {
      if !(prefab.Some? && scene.IsPrefab(prefab.value)) {
        return false;
      }
      var prefabId := prefab.value;
      var initial, grow, max := initialSize, growAmount, maxSize;
      if initial < 0 {
        initial := defaultInitialSize;
      }
      if grow < 0 {
        grow := defaultGrowAmount;
      }
      if max < 0 {
        max := defaultMaxSize;
      }
      if prefabId in prefabIdToIndex {
        return false;
      }
      var newPool := new PrefabPool(scene, counter, None);
      newPool.Initialize(prefab, initial, grow, max, statics);
      prefabIdToIndex := prefabIdToIndex[prefabId := |prefabPools|];
      prefabPools := prefabPools + [newPool];
      added := true;
    }
  
    /** The pool for a prefab reference. When none is registered and
        `createPoolIfNoneExists` holds, a pool with the default sizes is added
        and looked up again. */
    method GetPoolOfPrefab(prefab: Option<int>, createPoolIfNoneExists: bool) returns (p: PrefabPool?)
      requires Valid()
      modifies this`prefabPools, this`prefabIdToIndex, scene`objects
      ensures Valid()
      ensures p == PoolOfPrefab(prefab)
      ensures p != null <==>
                prefab.Some? && scene.IsPrefab(prefab.value) &&
                (old(PoolOfPrefab(prefab)) != null || createPoolIfNoneExists)
      ensures old(PoolOfPrefab(prefab)) != null || !createPoolIfNoneExists ==>
                p == old(PoolOfPrefab(prefab)) && prefabPools == old(prefabPools) &&
                prefabIdToIndex == old(prefabIdToIndex) && scene.objects == old(scene.objects)
      ensures p != null && old(PoolOfPrefab(prefab)) == null ==>
                fresh(p) && prefabPools == old(prefabPools) + [p] && forall k :: k in p.pool ==> fresh(p.pool[k])
      ensures forall k :: k in old(scene.objects) ==> k in scene.objects && scene.objects[k] == old(scene.objects[k])
    {
      if !(prefab.Some? && scene.IsPrefab(prefab.value)) {
        return null;
      }
      GetPoolFindsRegistered(prefab.value);
      p := GetPool(prefab.value);
      if p == null && createPoolIfNoneExists {
        var added := AddPool(prefab, -1, -1, -1);
        if added {
          p := GetPool(prefab.value);
        }
      }
    }
  
    /** Every handle of a listed pool is among all the manager's handles. */
    lemma HandlesListed(i: int)
      requires 0 <= i < |prefabPools|
      ensures Handles(prefabPools[i].pool) <= AllHandles()
    {
      forall h | h in Handles(prefabPools[i].pool)
        ensures h in AllHandles()
      {
        var k :| k in prefabPools[i].pool && prefabPools[i].pool[k] == h;
      }
    }

    /** Lends an instance from the pool registered for `prefabId`, growing
        it when nothing is available. */
    method GetInstanceOf(prefabId: int, position: Vec3) returns (instance: Option<int>)
      requires Valid()
      modifies Pools(), scene`objects, counter`next, AllHandles()`pooledInstanceId
      ensures Valid()
      ensures var p := GetPool(prefabId);
        (instance.None? ==> counter.next == old(counter.next) && (p == null || p.pooled == {})) &&
        (instance.Some? ==> p != null && p.LentAt(instance.value, position, old(counter.next)))
      ensures forall q :: q in old(Pools()) && q != GetPool(prefabId) ==> unchanged(q)
      ensures forall h :: h in old(AllHandles()) && instance != Some(h.gameObject) ==>
                h.pooledInstanceId == old(h.pooledInstanceId)
      ensures forall k :: k in old(scene.objects) && instance != Some(k) ==>
                k in scene.objects && scene.objects[k] == old(scene.objects[k])
    {
      var p := GetPool(prefabId);
      if p == null {
        return None;
      }
      HandlesListed(prefabIdToIndex[prefabId]);
      label Lend:
      instance := p.GetInstance(position, true);
      forall h | h in old(AllHandles()) && instance != Some(h.gameObject)
        ensures h.pooledInstanceId == old(h.pooledInstanceId)
      {
        if h in old@Lend(Handles(p.pool)) {
          var k :| k in old@Lend(p.pool) && old@Lend(p.pool[k]) == h;
        }
      }
    }

    /** Lends an instance from the pool of a prefab reference, adding that
        pool first when asked to. Once found, that pool is the one registered
        for the prefab's id, so the lending is GetInstanceOf's. */
    method GetInstanceOfPrefab(prefab: Option<int>, position: Vec3, createPoolIfNoneExists: bool)
      returns (instance: Option<int>)
      requires Valid()
      modifies this`prefabPools, this`prefabIdToIndex, Pools(), scene`objects, counter`next
      modifies AllHandles()`pooledInstanceId
      ensures Valid()
      ensures PoolOfPrefab(prefab) != null <==>
                prefab.Some? && scene.IsPrefab(prefab.value) &&
                (old(PoolOfPrefab(prefab)) != null || createPoolIfNoneExists)
      ensures var p := PoolOfPrefab(prefab);
        (instance.None? ==> counter.next == old(counter.next) && (p == null || p.pooled == {})) &&
        (instance.Some? ==> p != null && p.LentAt(instance.value, position, old(counter.next)))
      ensures forall q :: q in old(Pools()) && q != PoolOfPrefab(prefab) ==> unchanged(q)
      ensures forall h :: h in old(AllHandles()) && instance != Some(h.gameObject) ==>
                h.pooledInstanceId == old(h.pooledInstanceId)
      ensures forall k :: k in old(scene.objects) && instance != Some(k) ==>
                k in scene.objects && scene.objects[k] == old(scene.objects[k])
    {
      var p := GetPoolOfPrefab(prefab, createPoolIfNoneExists);
      if p == null {
        return None;
      }
      instance := GetInstanceOf(prefab.value, position);
    }

    /** Lends the handle of an instance from the pool registered for
        `prefabId`. */
    method GetInstanceHandleOf(prefabId: int, position: Vec3) returns (handle: PoolablePrefab?)
      requires Valid()
      modifies Pools(), scene`objects, counter`next, AllHandles()`pooledInstanceId
      ensures Valid()
      ensures var p := GetPool(prefabId);
        (handle == null ==> counter.next == old(counter.next) && (p == null || p.pooled == {})) &&
        (handle != null ==> p != null && p.LentAt(handle.gameObject, position, old(counter.next)) &&
                            p.pool[handle.gameObject] == handle)
      ensures forall q :: q in old(Pools()) && q != GetPool(prefabId) ==> unchanged(q)
      ensures forall h :: h in old(AllHandles()) && h != handle ==> h.pooledInstanceId == old(h.pooledInstanceId)
      ensures forall k :: k in old(scene.objects) && (handle == null || k != handle.gameObject) ==>
                k in scene.objects && scene.objects[k] == old(scene.objects[k])
    {
      var p := GetPool(prefabId);
      if p == null {
        return null;
      }
      HandlesListed(prefabIdToIndex[prefabId]);
      label Lend:
      handle := p.GetInstanceHandle(position, true);
      forall h | h in old(AllHandles()) && h != handle
        ensures h.pooledInstanceId == old(h.pooledInstanceId)
      {
        if h in old@Lend(Handles(p.pool)) {
          var k :| k in old@Lend(p.pool) && old@Lend(p.pool[k]) == h;
        }
      }
    }

    /** Lends the handle of an instance from the pool of a prefab reference,
        adding that pool first when asked to. Once found, that pool is the
        one registered for the prefab's id, so the lending is
        GetInstanceHandleOf's. */
    method GetInstanceHandleOfPrefab(prefab: Option<int>, position: Vec3, createPoolIfNoneExists: bool)
      returns (handle: PoolablePrefab?)
      requires Valid()
      modifies this`prefabPools, this`prefabIdToIndex, Pools(), scene`objects, counter`next
      modifies AllHandles()`pooledInstanceId
      ensures Valid()
      ensures PoolOfPrefab(prefab) != null <==>
                prefab.Some? && scene.IsPrefab(prefab.value) &&
                (old(PoolOfPrefab(prefab)) != null || createPoolIfNoneExists)
      ensures var p := PoolOfPrefab(prefab);
        (handle == null ==> counter.next == old(counter.next) && (p == null || p.pooled == {})) &&
        (handle != null ==> p != null && p.LentAt(handle.gameObject, position, old(counter.next)) &&
                            p.pool[handle.gameObject] == handle)
      ensures forall q :: q in old(Pools()) && q != PoolOfPrefab(prefab) ==> unchanged(q)
      ensures forall h :: h in old(AllHandles()) && h != handle ==> h.pooledInstanceId == old(h.pooledInstanceId)
      ensures forall k :: k in old(scene.objects) && (handle == null || k != handle.gameObject) ==>
                k in scene.objects && scene.objects[k] == old(scene.objects[k])
    {
      var p := GetPoolOfPrefab(prefab, createPoolIfNoneExists);
      if p == null {
        return null;
      }
      handle := GetInstanceHandleOf(prefab.value, position);
    }

    /** Returns `instance` to the pool registered for `prefabId`. */
    method StoreInstanceOf(prefabId: int, instance: int) returns (stored: bool)
      requires Valid()
      modifies Pools()`pooled, scene`objects
      ensures Valid()
      ensures var p := GetPool(prefabId);
        stored == (p != null && old(p.Accepts(instance))) &&
        (stored ==> instance in old(scene.objects) && p.pooled == old(p.pooled) + {instance} &&
                    scene.objects == old(p.StoredScene(instance))) &&
        (!stored ==> scene.objects == old(scene.objects))
      ensures forall q :: q in Pools() && (q != GetPool(prefabId) || !stored) ==> q.pooled == old(q.pooled)
    {
      var p := GetPool(prefabId);
      if p == null {
        return false;
      }
      stored := p.StoreInstance(instance);
    }

    /** Returns `instance` to the pool of a prefab reference. */
    method StoreInstanceOfPrefab(prefab: Option<int>, instance: int) returns (stored: bool)
      requires Valid()
      modifies Pools()`pooled, scene`objects
      ensures Valid()
      ensures var p := PoolOfPrefab(prefab);
        stored == (p != null && old(p.Accepts(instance))) &&
        (stored ==> instance in old(scene.objects) && p.pooled == old(p.pooled) + {instance} &&
                    scene.objects == old(p.StoredScene(instance))) &&
        (!stored ==> scene.objects == old(scene.objects))
      ensures forall q :: q in Pools() && (q != PoolOfPrefab(prefab) || !stored) ==> q.pooled == old(q.pooled)
    {
      var p := PoolOfPrefab(prefab);
      if p == null {
        return false;
      }
      stored := p.StoreInstance(instance);
    }

    /** Returns the instance of a handle to the pool registered for
        `prefabId`; a missing handle is refused. */
    method StoreInstanceHandleOf(prefabId: int, instanceHandle: PoolablePrefab?) returns (stored: bool)
      requires Valid()
      modifies Pools()`pooled, scene`objects
      ensures Valid()
      ensures var p := GetPool(prefabId);
        stored == (instanceHandle != null && p != null && old(p.Accepts(instanceHandle.gameObject))) &&
        (stored ==> instanceHandle.gameObject in old(scene.objects) &&
                    p.pooled == old(p.pooled) + {instanceHandle.gameObject} &&
                    scene.objects == old(p.StoredScene(instanceHandle.gameObject))) &&
        (!stored ==> scene.objects == old(scene.objects))
      ensures forall q :: q in Pools() && (q != GetPool(prefabId) || !stored) ==> q.pooled == old(q.pooled)
    {
      if instanceHandle == null || !scene.Alive(instanceHandle.gameObject) {
        return false;
      }
      var p := GetPool(prefabId);
      if p == null {
        return false;
      }
      stored := p.StoreInstance(instanceHandle.gameObject);
    }

    /** Returns the instance of a handle to the pool of a prefab reference. */
    method StoreInstanceHandleOfPrefab(prefab: Option<int>, instanceHandle: PoolablePrefab?) returns (stored: bool)
      requires Valid()
      modifies Pools()`pooled, scene`objects
      ensures Valid()
      ensures var p := PoolOfPrefab(prefab);
        stored == (instanceHandle != null && p != null && old(p.Accepts(instanceHandle.gameObject))) &&
        (stored ==> instanceHandle.gameObject in old(scene.objects) &&
                    p.pooled == old(p.pooled) + {instanceHandle.gameObject} &&
                    scene.objects == old(p.StoredScene(instanceHandle.gameObject))) &&
        (!stored ==> scene.objects == old(scene.objects))
      ensures forall q :: q in Pools() && (q != PoolOfPrefab(prefab) || !stored) ==> q.pooled == old(q.pooled)
    {
      if instanceHandle == null || !scene.Alive(instanceHandle.gameObject) {
        return false;
      }
      var p := PoolOfPrefab(prefab);
      if p == null {
        return false;
      }
      stored := p.StoreInstance(instanceHandle.gameObject);
    }

    /** Makes the pool registered for `prefabId` forget `instance`. */
    method RemoveInstanceOf(prefabId: int, instance: int) returns (removed: bool)
      requires Valid()
      modifies Pools()`pooled, Pools()`pool
      ensures Valid()
      ensures var p := GetPool(prefabId);
        removed == (p != null && scene.Alive(instance)) &&
        (removed ==> p.pooled == old(p.pooled) - {instance} && p.pool == old(p.pool) - {instance})
      ensures forall q :: q in Pools() && (q != GetPool(prefabId) || !removed) ==>
                q.pooled == old(q.pooled) && q.pool == old(q.pool)
    {
      var p := GetPool(prefabId);
      if p == null {
        return false;
      }
      removed := p.RemoveInstance(instance);
    }

    /** Makes the pool of a prefab reference forget `instance`. */
    method RemoveInstanceOfPrefab(prefab: Option<int>, instance: int) returns (removed: bool)
      requires Valid()
      modifies Pools()`pooled, Pools()`pool
      ensures Valid()
      ensures var p := PoolOfPrefab(prefab);
        removed == (p != null && scene.Alive(instance)) &&
        (removed ==> p.pooled == old(p.pooled) - {instance} && p.pool == old(p.pool) - {instance})
      ensures forall q :: q in Pools() && (q != PoolOfPrefab(prefab) || !removed) ==>
                q.pooled == old(q.pooled) && q.pool == old(q.pool)
    {
      var p := PoolOfPrefab(prefab);
      if p == null {
        return false;
      }
      removed := p.RemoveInstance(instance);
    }

    /** Makes the pool registered for `prefabId` forget the instance of a
        handle; a missing handle is refused. */
    method RemoveInstanceHandleOf(prefabId: int, instanceHandle: PoolablePrefab?) returns (removed: bool)
      requires Valid()
      modifies Pools()`pooled, Pools()`pool
      ensures Valid()
      ensures var p := GetPool(prefabId);
        removed == (instanceHandle != null && p != null && scene.Alive(instanceHandle.gameObject)) &&
        (removed ==> p.pooled == old(p.pooled) - {instanceHandle.gameObject} &&
                     p.pool == old(p.pool) - {instanceHandle.gameObject})
      ensures forall q :: q in Pools() && (q != GetPool(prefabId) || !removed) ==>
                q.pooled == old(q.pooled) && q.pool == old(q.pool)
    {
      if instanceHandle == null || !scene.Alive(instanceHandle.gameObject) {
        return false;
      }
      var p := GetPool(prefabId);
      if p == null {
        return false;
      }
      removed := p.RemoveInstance(instanceHandle.gameObject);
    }

    /** Makes the pool of a prefab reference forget the instance of a handle. */
    method RemoveInstanceHandleOfPrefab(prefab: Option<int>, instanceHandle: PoolablePrefab?) returns (removed: bool)
      requires Valid()
      modifies Pools()`pooled, Pools()`pool
      ensures Valid()
      ensures var p := PoolOfPrefab(prefab);
        removed == (instanceHandle != null && p != null && scene.Alive(instanceHandle.gameObject)) &&
        (removed ==> p.pooled == old(p.pooled) - {instanceHandle.gameObject} &&
                     p.pool == old(p.pool) - {instanceHandle.gameObject})
      ensures forall q :: q in Pools() && (q != PoolOfPrefab(prefab) || !removed) ==>
                q.pooled == old(q.pooled) && q.pool == old(q.pool)
    {
      if instanceHandle == null || !scene.Alive(instanceHandle.gameObject) {
        return false;
      }
      var p := PoolOfPrefab(prefab);
      if p == null {
        return false;
      }
      removed := p.RemoveInstance(instanceHandle.gameObject);
    }
  }
}
