/**
 * The hash-grid collision detector of
 * src/systems/collision_detection_system.cpp, run sequentially with one
 * pair accumulator. Each tick it rebuilds the grid from every entity that has
 * a collider and a transform, resets their collision state, tests every
 * entity against its 3x3 block, and writes the found pairs back as
 * `isColliding` flags and partner sets.
 */
module CollisionDetection {
  import opened Components
  import opened SpatialGrid
  import opened NarrowPhase
  import opened BroadPhase

  /** Collision state cleared at the start of a tick. */
  function Reset(c: BoxCollider2D): (r: BoxCollider2D)
    ensures !r.isColliding && r.collidingEntities == {}
    ensures r.width == c.width && r.height == c.height && r.isTrigger == c.isTrigger && r.isStatic == c.isStatic
  {
    c.(isColliding := false, collidingEntities := {})
  }

  /** A collider carrying the given partner set, colliding iff the set is non-empty. */
  function WithPartners(c: BoxCollider2D, partners: set<Entity>): BoxCollider2D
  {
    c.(isColliding := partners != {}, collidingEntities := partners)
  }

  /** The partners a set of (min, max) pairs gives entity e. */
  function Partners(pairs: set<EntityPair>, e: Entity): set<Entity>
  {
    (set p | p in pairs && p.first == e :: p.second) + (set p | p in pairs && p.second == e :: p.first)
  }

  lemma PartnersInsert(pairs: set<EntityPair>, p: EntityPair, e: Entity)
    requires p.first != p.second
    ensures Partners(pairs + {p}, e) ==
      Partners(pairs, e) + (if p.first == e then {p.second} else {}) + (if p.second == e then {p.first} else {})
  {
  }

  /** Partners of a set holding exactly the reported pairs are the expected partners. */
  lemma PartnersOfExpected(pairs: set<EntityPair>, colliders: map<Entity, BoxCollider2D>,
                           transforms: map<Entity, Transform>, size: CellSize, e: Entity)
    requires e in colliders && e in transforms
    requires forall p :: p in pairs <==> IsExpectedPair(colliders, transforms, size, p)
    ensures Partners(pairs, e) == ExpectedPartners(colliders, transforms, size, e)
  {
    forall o ensures o in Partners(pairs, e) <==> o in ExpectedPartners(colliders, transforms, size, e) {
      ExpectedPartnersArePairs(colliders, transforms, size, e, o);
      if o in Partners(pairs, e) {
        if p :| p in pairs && p.first == e && p.second == o {
          assert p == MinMax(e, o);
        } else {
          var p :| p in pairs && p.second == e && p.first == o;
          assert p == MinMax(e, o);
        }
      }
      if o in ExpectedPartners(colliders, transforms, size, e) {
        var p := MinMax(e, o);
        assert p in pairs && (p.first == e || p.second == e);
      }
    }
  }

  class CollisionDetectionSystem {
    const registry: Registry
    const grid: HashGrid

    constructor (registry: Registry)
      ensures this.registry == registry
      ensures fresh(grid) && grid.cellSize == DETECTOR_CELL_SIZE && grid.cells == map[]
    {
      this.registry := registry;
      grid := new HashGrid(DETECTOR_CELL_SIZE);
    }

    /**
     * populate_hash_grid_cells: every view entity is registered in the cell
     * of its position and its collision state is reset; nothing else changes.
     */
    method PopulateHashGridCells()
      requires grid.cells == map[]
      modifies grid, registry
      ensures GridHolds(grid.cells, ColliderView(registry.colliders, registry.transforms), registry.transforms, grid.cellSize)
      ensures registry.transforms == old(registry.transforms) && registry.movements == old(registry.movements)
      ensures registry.colliders.Keys == old(registry.colliders).Keys
      ensures forall e :: e in registry.colliders ==>
        registry.colliders[e] == if e in registry.transforms then Reset(old(registry.colliders)[e]) else old(registry.colliders)[e]
    {
      var view := ColliderView(registry.colliders, registry.transforms);
      var remaining := view;
      ghost var done: set<Entity> := {};
      while remaining != {}
        invariant remaining + done == view && remaining !! done
        invariant registry.transforms == old(registry.transforms) && registry.movements == old(registry.movements)
        invariant registry.colliders.Keys == old(registry.colliders).Keys
        invariant forall e :: e in registry.colliders ==>
          registry.colliders[e] == if e in done then Reset(old(registry.colliders)[e]) else old(registry.colliders)[e]
        invariant GridHolds(grid.cells, done, registry.transforms, grid.cellSize)
        decreases remaining
      {
        var e :| e in remaining;
        ghost var before := grid.cells;
        grid.Register(e, registry.transforms[e].position);
        RegisterKeepsGridHolds(before, grid.cells, done, registry.transforms, grid.cellSize, e);
        registry.colliders := registry.colliders[e := Reset(registry.colliders[e])];
        MoveToDone(remaining, done, view, e);
        remaining := remaining - {e};
        done := done + {e};
      }
      assert done == ColliderView(registry.colliders, registry.transforms);
    }

    /**
     * check_collision: every entity of `entities` is tested against each
     * other entity of its 3x3 block; a colliding pair is added as (min, max).
     */
    method CheckCollision(entities: seq<Entity>, acc: set<EntityPair>) returns (result: set<EntityPair>)
      requires GridEntriesIn(grid.cells, registry.colliders, registry.transforms)
      requires forall e :: e in entities ==> e in registry.colliders && e in registry.transforms
      ensures result == acc + FoundPairs(grid.cells, registry.colliders, registry.transforms, grid.cellSize, entities)
    {
      var colliders, transforms := registry.colliders, registry.transforms;
      result := acc;
      for i := 0 to |entities|
        invariant result == acc + FoundPairs(grid.cells, colliders, transforms, grid.cellSize, entities[..i])
      {
        var a := entities[i];
        var nearby := grid.GetNearbyEntities(transforms[a].position);
        NearbyEntriesIn(grid.cells, colliders, transforms, EntityCell(transforms, a, grid.cellSize));
        result := CheckAgainst(a, nearby, result);
        assert entities[..i + 1][..i] == entities[..i];
      }
      assert entities[..|entities|] == entities;
    }

    /** The inner loop of check_collision: a is tested against each other candidate in order. */
    method CheckAgainst(a: Entity, nearby: seq<Entity>, acc: set<EntityPair>) returns (result: set<EntityPair>)
      requires a in registry.colliders && a in registry.transforms
      requires forall b :: b in nearby ==> b in registry.colliders && b in registry.transforms
      ensures result == acc + FoundFrom(registry.colliders, registry.transforms, a, nearby)
    {
      var colliders, transforms := registry.colliders, registry.transforms;
      var transformA := transforms[a];
      var colliderA := colliders[a];
      result := acc;
      for j := 0 to |nearby|
        invariant result == acc + FoundFrom(colliders, transforms, a, nearby[..j])
      {
        assert nearby[..j + 1][..j] == nearby[..j];
        var b := nearby[j];
        if a == b {
          continue;
        }
        var pair := MinMax(a, b);
        if pair in result {
          continue;
        }
        var transformB := transforms[b];
        var colliderB := colliders[b];
        if Collides(transformA.position, colliderA, transformB.position, colliderB) {
          result := result + {pair};
        }
      }
      assert nearby[..|nearby|] == nearby;
    }

    /**
     * The parallel loop of run, done sequentially: every occupied cell, in
     * any order, is checked into one accumulator, which ends up holding
     * exactly the reported pairs.
     */
    method CollectPairs() returns (acc: set<EntityPair>)
      requires GridHolds(grid.cells, ColliderView(registry.colliders, registry.transforms), registry.transforms, grid.cellSize)
      ensures forall p :: p in acc <==> IsExpectedPair(registry.colliders, registry.transforms, grid.cellSize, p)
    {
      var colliders, transforms, size := registry.colliders, registry.transforms, grid.cellSize;
      GridHoldsEntries(grid.cells, colliders, transforms, size);
      var allCells := grid.cells.Keys;
      var remaining := allCells;
      acc := {};
      while remaining != {}
        invariant remaining <= allCells
        invariant forall p :: p in acc <==> (IsExpectedPair(colliders, transforms, size, p) &&
          (EntityCell(transforms, p.first, size) in allCells - remaining ||
           EntityCell(transforms, p.second, size) in allCells - remaining))
        decreases remaining
      {
        var cell :| cell in remaining;
        var entitiesInCell := grid.cells[cell];
        ghost var before := acc;
        acc := CheckCollision(entitiesInCell, acc);
        forall p ensures p in acc <==> (p in before || (IsExpectedPair(colliders, transforms, size, p) &&
          (EntityCell(transforms, p.first, size) == cell || EntityCell(transforms, p.second, size) == cell)))
        {
          if p in FoundPairs(grid.cells, colliders, transforms, size, entitiesInCell) {
            CellFoundPairsSound(grid.cells, colliders, transforms, size, cell, p);
          }
          if IsExpectedPair(colliders, transforms, size, p) &&
            (EntityCell(transforms, p.first, size) == cell || EntityCell(transforms, p.second, size) == cell) {
            CellFoundPairsComplete(grid.cells, colliders, transforms, size, cell, p);
          }
        }
        remaining := remaining - {cell};
      }
      forall p | IsExpectedPair(colliders, transforms, size, p) ensures p in acc {
        assert p.first in ColliderView(colliders, transforms);
        assert p.first in CellList(grid.cells, EntityCell(transforms, p.first, size));
      }
    }

    /**
     * The merge of run: for every recorded pair both colliders are flagged
     * and each is added to the other's partner set.
     */
    method MergePairs(pairs: set<EntityPair>)
      requires forall p :: p in pairs ==>
        p.first < p.second && p.first in registry.colliders && p.second in registry.colliders &&
        p.first in registry.transforms && p.second in registry.transforms
      requires forall e :: e in registry.colliders && e in registry.transforms ==>
        !registry.colliders[e].isColliding && registry.colliders[e].collidingEntities == {}
      modifies registry
      ensures registry.transforms == old(registry.transforms) && registry.movements == old(registry.movements)
      ensures MergedUpTo(registry.colliders, old(registry.colliders), registry.transforms, pairs)
    {
      ghost var orig := registry.colliders;
      var todo := pairs;
      ghost var done: set<EntityPair> := {};
      MergeStart(orig, registry.transforms);
      while todo != {}
        invariant todo + done == pairs && todo !! done
        invariant registry.transforms == old(registry.transforms) && registry.movements == old(registry.movements)
        invariant MergedUpTo(registry.colliders, orig, registry.transforms, done)
        decreases todo
      {
        var pair :| pair in todo;
        ghost var before := registry.colliders;
        MarkPair(pair.first, pair.second);
        MergeStep(before, registry.colliders, orig, registry.transforms, done, pair);
        MoveToDone(todo, done, pairs, pair);
        todo := todo - {pair};
        done := done + {pair};
      }
    }

    /** One pair of the merge: each collider is flagged and gains the other as partner. */
    method MarkPair(a: Entity, b: Entity)
      requires a != b && a in registry.colliders && b in registry.colliders
      modifies registry
      ensures registry.transforms == old(registry.transforms) && registry.movements == old(registry.movements)
      ensures registry.colliders == Marked(Marked(old(registry.colliders), a, b), b, a)
    {
      var colliderA := registry.colliders[a];
      registry.colliders := registry.colliders[a := colliderA.(isColliding := true,
                                                               collidingEntities := colliderA.collidingEntities + {b})];
      var colliderB := registry.colliders[b];
      registry.colliders := registry.colliders[b := colliderB.(isColliding := true,
                                                               collidingEntities := colliderB.collidingEntities + {a})];
    }

    /**
     * run: rebuild the grid, collect the colliding pairs of every occupied
     * cell, and give each view entity exactly its expected partners; the grid
     * is empty again afterwards and only collision state changes.
     */
    method Run()
      modifies grid, registry
      ensures grid.cells == map[]
      ensures registry.transforms == old(registry.transforms) && registry.movements == old(registry.movements)
      ensures registry.colliders.Keys == old(registry.colliders).Keys
      ensures forall e :: e in registry.colliders ==>
        registry.colliders[e] ==
          if e in registry.transforms
          then WithPartners(old(registry.colliders)[e],
                            ExpectedPartners(old(registry.colliders), registry.transforms, grid.cellSize, e))
          else old(registry.colliders)[e]
    {
      grid.Clear();
      PopulateHashGridCells();
      ghost var start := registry.colliders;
      GeometryUnchanged(old(registry.colliders), start, registry.transforms, grid.cellSize);
      var pairs := CollectPairs();
      MergePairs(pairs);
      forall e | e in start && e in registry.transforms
        ensures Partners(pairs, e) == ExpectedPartners(old(registry.colliders), registry.transforms, grid.cellSize, e)
      {
        PartnersOfExpected(pairs, start, registry.transforms, grid.cellSize, e);
        ExpectedPartnersGeometry(old(registry.colliders), start, registry.transforms, grid.cellSize, e);
      }
      grid.Clear();
    }
  }

  /** Colliders of view entities carry the partners of `done`; the others are untouched. */
  ghost predicate MergedUpTo(cur: map<Entity, BoxCollider2D>, orig: map<Entity, BoxCollider2D>,
                             transforms: map<Entity, Transform>, done: set<EntityPair>)
  {
    && cur.Keys == orig.Keys
    && forall e :: e in cur ==>
         cur[e] == if e in transforms then WithPartners(orig[e], Partners(done, e)) else orig[e]
  }

  /** Collider of e flagged as colliding, with `partner` added to its partner set. */
  function Marked(colliders: map<Entity, BoxCollider2D>, e: Entity, partner: Entity): map<Entity, BoxCollider2D>
    requires e in colliders
  {
    colliders[e := colliders[e].(isColliding := true, collidingEntities := colliders[e].collidingEntities + {partner})]
  }

  lemma MergeStart(cur: map<Entity, BoxCollider2D>, transforms: map<Entity, Transform>)
    requires forall e :: e in cur && e in transforms ==> !cur[e].isColliding && cur[e].collidingEntities == {}
    ensures MergedUpTo(cur, cur, transforms, {})
  {
    forall e | e in cur && e in transforms ensures cur[e] == WithPartners(cur[e], Partners({}, e)) {
      assert Partners({}, e) == {};
    }
  }

  lemma MergeStep(before: map<Entity, BoxCollider2D>, after: map<Entity, BoxCollider2D>,
                  orig: map<Entity, BoxCollider2D>, transforms: map<Entity, Transform>,
                  done: set<EntityPair>, pair: EntityPair)
    requires MergedUpTo(before, orig, transforms, done)
    requires pair.first < pair.second
    requires pair.first in before && pair.second in before && pair.first in transforms && pair.second in transforms
    requires after == Marked(Marked(before, pair.first, pair.second), pair.second, pair.first)
    ensures MergedUpTo(after, orig, transforms, done + {pair})
  {
    var a, b := pair.first, pair.second;
    forall e | e in after
      ensures after[e] == if e in transforms then WithPartners(orig[e], Partners(done + {pair}, e)) else orig[e]
    {
      PartnersInsert(done, pair, e);
      if e == a {
        assert after[e] == before[a].(isColliding := true, collidingEntities := before[a].collidingEntities + {b});
        assert Partners(done + {pair}, e) == Partners(done, e) + {b};
      } else if e == b {
        assert after[e] == before[b].(isColliding := true, collidingEntities := before[b].collidingEntities + {a});
        assert Partners(done + {pair}, e) == Partners(done, e) + {a};
      } else {
        assert after[e] == before[e];
        assert Partners(done + {pair}, e) == Partners(done, e);
      }
    }
  }

  /** Resetting collision state does not change any box, so the reported pairs are the same. */
  lemma GeometryUnchanged(before: map<Entity, BoxCollider2D>, after: map<Entity, BoxCollider2D>,
                          transforms: map<Entity, Transform>, size: CellSize)
    requires before.Keys == after.Keys
    requires forall e :: e in after ==> after[e].width == before[e].width && after[e].height == before[e].height
    ensures forall p :: IsExpectedPair(before, transforms, size, p) <==> IsExpectedPair(after, transforms, size, p)
  {
  }

  lemma ExpectedPartnersGeometry(before: map<Entity, BoxCollider2D>, after: map<Entity, BoxCollider2D>,
                                 transforms: map<Entity, Transform>, size: CellSize, e: Entity)
    requires before.Keys == after.Keys && e in after && e in transforms
    requires forall e :: e in after ==> after[e].width == before[e].width && after[e].height == before[e].height
    ensures ExpectedPartners(before, transforms, size, e) == ExpectedPartners(after, transforms, size, e)
  {
  }
}
