/**
 * Component records of the ECS and the registry that stores them
 * (src/components/components.h). The registry is modelled as one map per
 * component type, keyed by entity id; a missing key means the entity does
 * not carry that component.
 */
module Components {

  /** An entity id (entt::entity, compared through its integer value). */
  type Entity = nat

  datatype Vec2 = Vec2(x: real, y: real)

  datatype Transform = Transform(position: Vec2, rotation: real, scale: Vec2)

  /** Box centred on the transform's position. */
  datatype BoxCollider2D = BoxCollider2D(
    width: real,
    height: real,
    isColliding: bool,
    isTrigger: bool,
    isStatic: bool,
    collidingEntities: set<Entity>)

  datatype MovementData = MovementData(velocity: Vec2, speed: real, previousPosition: Vec2)

  datatype Option<T> = None | Some(value: T)

  /** The entt registry, reduced to the three component pools the core uses. */
  class Registry {
    var colliders: map<Entity, BoxCollider2D>
    var transforms: map<Entity, Transform>
    var movements: map<Entity, MovementData>

    constructor (colliders: map<Entity, BoxCollider2D>, transforms: map<Entity, Transform>,
                 movements: map<Entity, MovementData>)
      ensures this.colliders == colliders
      ensures this.transforms == transforms
      ensures this.movements == movements
    {
      this.colliders := colliders;
      this.transforms := transforms;
      this.movements := movements;
    }
  }

  /** Entities of `registry->view<BoxCollider2D, Transform>()`. */
  function ColliderView(colliders: map<Entity, BoxCollider2D>, transforms: map<Entity, Transform>): (v: set<Entity>)
    ensures forall e :: e in v <==> e in colliders && e in transforms
  {
    set e | e in colliders && e in transforms
  }

  /** Moving one element from the to-do part of a split set to its done part keeps the split. */
  lemma MoveToDone<T>(todo: set<T>, done: set<T>, all: set<T>, x: T)
    requires todo + done == all && todo !! done && x in todo
    ensures (todo - {x}) + (done + {x}) == all && (todo - {x}) !! (done + {x})
  {
  }
}
