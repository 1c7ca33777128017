/**
 * The earlier single-threaded detector of src/systems/collider_system.cpp.
 * It owns the same hash grid, tests every view entity against its 3x3 block,
 * remembers each (min, max) key it has tested so that a pair is tested once,
 * and outlines both boxes of every colliding pair. It changes no component;
 * the model returns the set of pairs it outlines.
 */
module ColliderSystemModel {
  import opened Components
  import opened SpatialGrid
  import opened NarrowPhase
  import opened BroadPhase

  /** A key the pass can test: two view entities, (min, max), in the same or neighbouring cells. */
  ghost predicate IsCandidatePair(colliders: map<Entity, BoxCollider2D>, transforms: map<Entity, Transform>,
                                  size: CellSize, p: EntityPair)
  {
    && p.first < p.second
    && p.first in colliders && p.first in transforms
    && p.second in colliders && p.second in transforms
    && Adjacent(EntityCell(transforms, p.first, size), EntityCell(transforms, p.second, size))
  }

  class ColliderSystem {
    const registry: Registry
    const grid: HashGrid

    /** The cell width is a parameter: the class header does not declare `hash_grid_cell_size`. */
    constructor (registry: Registry, cellSize: CellSize)
      ensures this.registry == registry
      ensures fresh(grid) && grid.cellSize == cellSize && grid.cells == map[]
    {
      this.registry := registry;
      grid := new HashGrid(cellSize);
    }

    /**
     * run: clears and refills the grid from the view, then tests each key
     * once: `tested` logs the keys whose boxes were tested, in order, and
     * holds every candidate key exactly once. The outlined pairs are exactly
     * the pairs the multithreaded detector reports for the same scene and
     * cell width, and the grid is left holding the view.
     */
    method Run() returns (outlined: set<EntityPair>, ghost tested: seq<EntityPair>)
      modifies grid
      ensures GridHolds(grid.cells, ColliderView(registry.colliders, registry.transforms), registry.transforms, grid.cellSize)
      ensures forall p :: p in outlined <==> IsExpectedPair(registry.colliders, registry.transforms, grid.cellSize, p)
      ensures NoDuplicates(tested)
      ensures forall p :: p in tested <==> IsCandidatePair(registry.colliders, registry.transforms, grid.cellSize, p)
    {
      grid.Clear();
      FillGrid();
      outlined, tested := TestAllPairs();
    }

    /** The first loop of run: register_pointer for every view entity. */
    method FillGrid()
      requires grid.cells == map[]
      modifies grid
      ensures GridHolds(grid.cells, ColliderView(registry.colliders, registry.transforms), registry.transforms, grid.cellSize)
    {
      var transforms, size := registry.transforms, grid.cellSize;
      var view := ColliderView(registry.colliders, transforms);
      var toRegister := view;
      ghost var done: set<Entity> := {};
      while toRegister != {}
        invariant toRegister + done == view && toRegister !! done
        invariant GridHolds(grid.cells, done, transforms, size)
        decreases toRegister
      {
        var e :| e in toRegister;
        ghost var before := grid.cells;
        grid.Register(e, transforms[e].position);
        RegisterKeepsGridHolds(before, grid.cells, done, transforms, size, e);
        MoveToDone(toRegister, done, view, e);
        toRegister := toRegister - {e};
        done := done + {e};
      }
    }

    /**
     * The second loop of run, over every view entity in any order: each
     * candidate key ends up tested exactly once, and a key is outlined
     * iff its boxes collide.
     */
    method TestAllPairs() returns (outlined: set<EntityPair>, ghost tested: seq<EntityPair>)
      requires GridHolds(grid.cells, ColliderView(registry.colliders, registry.transforms), registry.transforms, grid.cellSize)
      ensures forall p :: p in outlined <==> IsExpectedPair(registry.colliders, registry.transforms, grid.cellSize, p)
      ensures NoDuplicates(tested)
      ensures forall p :: p in tested <==> IsCandidatePair(registry.colliders, registry.transforms, grid.cellSize, p)
    {
      var colliders, transforms, size := registry.colliders, registry.transforms, grid.cellSize;
      var view := ColliderView(colliders, transforms);
      var pairsChecked: set<EntityPair> := {};
      outlined, tested := {}, [];
      var toTest := view;
      while toTest != {}
        invariant toTest <= view
        invariant LogsChecked(tested, pairsChecked)
        invariant forall p :: p in pairsChecked ==> IsCandidatePair(colliders, transforms, size, p)
        invariant forall p :: p in outlined <==> p in pairsChecked && IsExpectedPair(colliders, transforms, size, p)
        invariant forall p :: (IsCandidatePair(colliders, transforms, size, p) &&
          (p.first in view - toTest || p.second in view - toTest)) ==> p in pairsChecked
        decreases toTest
      {
        var entity1 :| entity1 in toTest;
        pairsChecked, outlined, tested := TestNearby(entity1, pairsChecked, outlined, tested);
        toTest := toTest - {entity1};
      }
    }

    /**
     * The body of the second loop for entity1: every other entity of its
     * 3x3 block whose key is not yet checked is tested and its key recorded;
     * no key is tested twice.
     */
    method TestNearby(entity1: Entity, checked: set<EntityPair>, outlined: set<EntityPair>, ghost tested: seq<EntityPair>)
      returns (checked': set<EntityPair>, outlined': set<EntityPair>, ghost tested': seq<EntityPair>)
      requires GridHolds(grid.cells, ColliderView(registry.colliders, registry.transforms), registry.transforms, grid.cellSize)
      requires entity1 in registry.colliders && entity1 in registry.transforms
      requires forall p :: p in checked ==> IsCandidatePair(registry.colliders, registry.transforms, grid.cellSize, p)
      requires forall p :: p in outlined <==> p in checked && IsExpectedPair(registry.colliders, registry.transforms, grid.cellSize, p)
      requires LogsChecked(tested, checked)
      ensures LogsChecked(tested', checked')
      ensures forall p :: p in checked' <==> (p in checked ||
        (IsCandidatePair(registry.colliders, registry.transforms, grid.cellSize, p) && (p.first == entity1 || p.second == entity1)))
      ensures forall p :: p in outlined' <==> p in checked' && IsExpectedPair(registry.colliders, registry.transforms, grid.cellSize, p)
    {
      var colliders, transforms, size := registry.colliders, registry.transforms, grid.cellSize;
      var view := ColliderView(colliders, transforms);
      checked', outlined', tested' := checked, outlined, tested;
      var nearby := grid.GetNearbyEntities(transforms[entity1].position);
      ghost var base := EntityCell(transforms, entity1, size);
      for j := 0 to |nearby|
        invariant checked' == checked + PairsWith(entity1, nearby[..j])
        invariant forall p :: p in outlined' <==> p in checked' && IsExpectedPair(colliders, transforms, size, p)
        invariant LogsChecked(tested', checked')
      {
        var entity2 := nearby[j];
        NearbyInGrid(grid.cells, view, transforms, size, base, entity2);
        PairsWithStep(entity1, nearby, j);
        checked', outlined', tested' := TestCandidate(entity1, entity2, checked', outlined', tested');
      }
      assert nearby[..|nearby|] == nearby;
      forall p ensures p in PairsWith(entity1, nearby) <==>
        IsCandidatePair(colliders, transforms, size, p) && (p.first == entity1 || p.second == entity1)
      {
        NearbyPairs(grid.cells, colliders, transforms, size, entity1, p);
      }
    }

    /**
     * One candidate entity2 for entity1: skipped when it is entity1 itself
     * or its key is already checked; otherwise the key is recorded, its
     * boxes are tested (logged in `tested`) and it is outlined when they
     * collide. A key is logged only while it is not yet checked, so the log
     * never holds it twice.
     */
    method TestCandidate(entity1: Entity, entity2: Entity, checked: set<EntityPair>, outlined: set<EntityPair>,
                         ghost tested: seq<EntityPair>)
      returns (checked': set<EntityPair>, outlined': set<EntityPair>, ghost tested': seq<EntityPair>)
      requires entity1 in registry.colliders && entity1 in registry.transforms
      requires entity2 in registry.colliders && entity2 in registry.transforms
      requires Adjacent(EntityCell(registry.transforms, entity1, grid.cellSize), EntityCell(registry.transforms, entity2, grid.cellSize))
      requires forall p :: p in outlined <==> p in checked && IsExpectedPair(registry.colliders, registry.transforms, grid.cellSize, p)
      requires LogsChecked(tested, checked)
      ensures checked' == if entity1 == entity2 then checked else checked + {MinMax(entity1, entity2)}
      ensures forall p :: p in outlined' <==> p in checked' && IsExpectedPair(registry.colliders, registry.transforms, grid.cellSize, p)
      ensures LogsChecked(tested', checked')
    {
      checked', outlined', tested' := checked, outlined, tested;
      if entity1 == entity2 {
        return;
      }
      var pair := MinMax(entity1, entity2);
      if pair in checked {
        return;
      }
      checked' := checked + {pair};
      AppendFresh(tested, pair);
      tested' := tested + [pair];
      var colliders, transforms := registry.colliders, registry.transforms;
      CollidesSymmetric(transforms[entity1].position, colliders[entity1], transforms[entity2].position, colliders[entity2]);
      if Collides(transforms[entity1].position, colliders[entity1], transforms[entity2].position, colliders[entity2]) {
        outlined' := outlined + {pair};
      }
    }
  }

  /** The log of tested keys holds each checked key, and only those, exactly once. */
  ghost predicate LogsChecked(tested: seq<EntityPair>, checked: set<EntityPair>)
  {
    NoDuplicates(tested) && forall p :: p in tested <==> p in checked
  }

  /** The keys of e with every entry of bs other than e itself. */
  ghost function PairsWith(e: Entity, bs: seq<Entity>): set<EntityPair>
  {
    set b | b in bs && b != e :: MinMax(e, b)
  }

  lemma PairsWithStep(e: Entity, bs: seq<Entity>, j: int)
    requires 0 <= j < |bs|
    ensures PairsWith(e, bs[..j + 1]) == PairsWith(e, bs[..j]) + (if bs[j] == e then {} else {MinMax(e, bs[j])})
  {
    assert bs[..j + 1] == bs[..j] + [bs[j]];
  }

  /** The keys of entity1 with its 3x3 block are exactly its candidate keys. */
  lemma NearbyPairs(g: Grid, colliders: map<Entity, BoxCollider2D>, transforms: map<Entity, Transform>,
                    size: CellSize, entity1: Entity, p: EntityPair)
    requires GridHolds(g, ColliderView(colliders, transforms), transforms, size)
    requires entity1 in colliders && entity1 in transforms
    ensures p in PairsWith(entity1, Nearby(g, EntityCell(transforms, entity1, size))) <==>
      IsCandidatePair(colliders, transforms, size, p) && (p.first == entity1 || p.second == entity1)
  {
    var view := ColliderView(colliders, transforms);
    var base := EntityCell(transforms, entity1, size);
    if p in PairsWith(entity1, Nearby(g, base)) {
      var b :| b in Nearby(g, base) && b != entity1 && p == MinMax(entity1, b);
      NearbyInGrid(g, view, transforms, size, base, b);
    }
    if IsCandidatePair(colliders, transforms, size, p) && (p.first == entity1 || p.second == entity1) {
      var other := if p.first == entity1 then p.second else p.first;
      NearbyInGrid(g, view, transforms, size, base, other);
      assert p == MinMax(entity1, other);
    }
  }
}
