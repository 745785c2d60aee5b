/** The slice of the game engine that the pooling and camera code talks to.

    A GameObject is modelled by its instance id. The scene's object table maps
    every live object to its state; an id that is absent from the table is a
    destroyed (or never created) object, which is what the engine's
    "object is false" test observes. Quaternion arithmetic is not modelled:
    a rotation is a symbolic term built from the engine operations that
    produced it. */
module Engine {

  datatype Option<T> = None | Some(value: T)

  datatype Vec3 = Vec3(x: real, y: real, z: real)

  const Origin := Vec3(0.0, 0.0, 0.0)

  /** A rotation, kept as the term that produced it: a literal quaternion,
      `Quaternion.Euler(angles)`, `Quaternion.Slerp(from, to, t)`, or
      `Quaternion.Euler(0, 0, r.eulerAngles.z)`, the rotation about the z
      axis alone by the yaw of `r`. */
  datatype Rotation =
    | Quaternion(qx: real, qy: real, qz: real, qw: real)
    | Euler(angles: Vec3)
    | Slerp(from: Rotation, to: Rotation, t: real)
    | YawOnly(of: Rotation)

  const IdentityRotation := Quaternion(0.0, 0.0, 0.0, 1.0)

  /** What the engine keeps for one GameObject and its Transform:
      activeSelf, the parent transform, world position and rotation, local scale. */
  datatype GameObjectState = GameObjectState(
    active: bool,
    parent: Option<int>,
    position: Vec3,
    rotation: Rotation,
    scale: Vec3)

  /** The engine's object table, shared by every component. Prefab assets are
      loaded once and never destroyed while the game runs; scene objects come
      and go. */
  class Scene {
    const assets: map<int, GameObjectState>
    var objects: map<int, GameObjectState>

    constructor (assets: map<int, GameObjectState>, objects: map<int, GameObjectState>)
      ensures this.assets == assets && this.objects == objects
    {
      this.assets := assets;
      this.objects := objects;
    }

    /** The engine's truth test on a GameObject reference. */
    predicate Alive(id: int)
      reads this
    {
      id in objects || id in assets
    }

    /** The truth test on a prefab reference: it names a loaded prefab asset. */
    predicate IsPrefab(id: int)
    {
      id in assets
    }
  }

  /** The ids that some object of the table names as its parent. */
  function ParentIds(objects: map<int, GameObjectState>): set<int>
  {
    set k | k in objects && objects[k].parent.Some? :: objects[k].parent.value
  }

  /** A non-empty set of ids has an element to pick. */
  lemma ElementOfNonEmpty(s: set<int>)
    requires s != {}
    ensures exists x :: x in s
  {
    if forall x :: x !in s {
      assert false;
    }
  }

  /** An instance id that no id in `used` already has: the engine hands out
      a new id for every object it creates. */
  method FreshId(used: set<int>) returns (id: int)
    ensures id !in used
    ensures forall u :: u in used ==> u < id
  {
    id := 0;
    var rest := used;
    while rest != {}
      invariant rest <= used
      invariant forall u :: u in used && u !in rest ==> u < id
      decreases rest
    {
      ElementOfNonEmpty(rest);
      var u :| u in rest;
      if id <= u {
        id := u + 1;
      }
      rest := rest - {u};
    }
  }
}
