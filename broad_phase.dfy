/**
 * What a hash-grid detection pass computes, stated once for both detectors:
 * which pairs a grid built from the colliders and transforms can report, and
 * the pairs recorded while walking candidate lists in order.
 */
module BroadPhase {
  import opened Components
  import opened SpatialGrid
  import opened NarrowPhase

  /** Cell of an entity's position. */
  function EntityCell(transforms: map<Entity, Transform>, e: Entity, size: CellSize): Cell
    requires e in transforms
  {
    HashGridCell(transforms[e].position.x, transforms[e].position.y, size)
  }

  /** The strict AABB test between the stored boxes of a and b. */
  predicate PairCollides(colliders: map<Entity, BoxCollider2D>, transforms: map<Entity, Transform>,
                         a: Entity, b: Entity)
    requires a in colliders && a in transforms && b in colliders && b in transforms
  {
    Collides(transforms[a].position, colliders[a], transforms[b].position, colliders[b])
  }

  /** Every entity listed in the grid has a collider and a transform. */
  ghost predicate GridEntriesIn(g: Grid, colliders: map<Entity, BoxCollider2D>, transforms: map<Entity, Transform>)
  {
    forall c, e :: c in g && e in g[c] ==> e in colliders && e in transforms
  }

  /** The grid lists exactly the entities of `view`, each in the cell of its position. */
  ghost predicate GridHolds(g: Grid, view: set<Entity>, transforms: map<Entity, Transform>, size: CellSize)
  {
    && (forall c, e :: c in g && e in g[c] ==> e in view && e in transforms && EntityCell(transforms, e, size) == c)
    && (forall e :: e in view ==> e in transforms && e in CellList(g, EntityCell(transforms, e, size)))
  }

  /**
   * A pair a grid pass reports: two distinct entities of the view, stored as
   * (min, max), in the same or neighbouring cells, whose boxes collide.
   */
  ghost predicate IsExpectedPair(colliders: map<Entity, BoxCollider2D>, transforms: map<Entity, Transform>,
                                 size: CellSize, p: EntityPair)
  {
    && p.first < p.second
    && p.first in colliders && p.first in transforms
    && p.second in colliders && p.second in transforms
    && Adjacent(EntityCell(transforms, p.first, size), EntityCell(transforms, p.second, size))
    && PairCollides(colliders, transforms, p.first, p.second)
  }

  /** The partners a detection pass gives entity e. */
  ghost function ExpectedPartners(colliders: map<Entity, BoxCollider2D>, transforms: map<Entity, Transform>,
                                  size: CellSize, e: Entity): set<Entity>
    requires e in colliders && e in transforms
  {
    set o | o in colliders && o in transforms && o != e
      && Adjacent(EntityCell(transforms, e, size), EntityCell(transforms, o, size))
      && PairCollides(colliders, transforms, e, o)
  }

  /** o is a partner of e exactly when the key (min, max) of e and o is a reported pair. */
  lemma ExpectedPartnersArePairs(colliders: map<Entity, BoxCollider2D>, transforms: map<Entity, Transform>,
                                 size: CellSize, e: Entity, o: Entity)
    requires e in colliders && e in transforms
    ensures o in ExpectedPartners(colliders, transforms, size, e) <==> IsExpectedPair(colliders, transforms, size, MinMax(e, o))
  {
    if o in colliders && o in transforms {
      CollidesSymmetric(transforms[e].position, colliders[e], transforms[o].position, colliders[o]);
    }
  }

  /** Partner sets are symmetric and never contain their owner. */
  lemma {:induction false} ExpectedPartnersSymmetric(colliders: map<Entity, BoxCollider2D>, transforms: map<Entity, Transform>,
                                   size: CellSize, a: Entity, b: Entity)
    requires a in colliders && a in transforms && b in colliders && b in transforms
    ensures b in ExpectedPartners(colliders, transforms, size, a) <==> a in ExpectedPartners(colliders, transforms, size, b)
    ensures a !in ExpectedPartners(colliders, transforms, size, a)
  {
    CollidesSymmetric(transforms[a].position, colliders[a], transforms[b].position, colliders[b]);
  }

  /**
   * When no box is wider or taller than a cell, the 3x3 search misses
   * nothing: the partners are exactly the other view entities whose boxes collide.
   */
  lemma {:induction false} DetectionComplete(colliders: map<Entity, BoxCollider2D>, transforms: map<Entity, Transform>,
                                             size: CellSize, e: Entity, o: Entity)
    requires e in colliders && e in transforms && o in colliders && o in transforms
    requires colliders[e].width <= size && colliders[e].height <= size
    requires colliders[o].width <= size && colliders[o].height <= size
    ensures o in ExpectedPartners(colliders, transforms, size, e) <==> o != e && PairCollides(colliders, transforms, e, o)
  {
    var pe, po := transforms[e].position, transforms[o].position;
    if PairCollides(colliders, transforms, e, o) {
      CollidesIffCentresClose(pe, colliders[e], po, colliders[o]);
      CloseValuesAdjacentSlabs(pe.x, po.x, size);
      CloseValuesAdjacentSlabs(pe.y, po.y, size);
    }
  }

  /** Every entity listed in a cell of the 3x3 block is a view entity; membership is adjacency. */
  lemma NearbyInGrid(g: Grid, view: set<Entity>, transforms: map<Entity, Transform>, size: CellSize,
                     base: Cell, b: Entity)
    requires GridHolds(g, view, transforms, size)
    ensures b in Nearby(g, base) <==> b in view && Adjacent(base, EntityCell(transforms, b, size))
  {
    NearbyMembership(g, base, b);
    if b in view {
      assert b in CellList(g, EntityCell(transforms, b, size));
    }
  }

  /** Entries of a 3x3 block come from the grid. */
  lemma NearbyEntriesIn(g: Grid, colliders: map<Entity, BoxCollider2D>, transforms: map<Entity, Transform>, base: Cell)
    requires GridEntriesIn(g, colliders, transforms)
    ensures forall b :: b in Nearby(g, base) ==> b in colliders && b in transforms
  {
    forall b | b in Nearby(g, base) ensures b in colliders && b in transforms {
      NearbyMembership(g, base, b);
    }
  }

  /** Pairs recorded for entity a while walking the candidates bs in order. */
  function FoundFrom(colliders: map<Entity, BoxCollider2D>, transforms: map<Entity, Transform>,
                     a: Entity, bs: seq<Entity>): set<EntityPair>
    requires a in colliders && a in transforms
    requires forall b :: b in bs ==> b in colliders && b in transforms
  {
    if bs == [] then {}
    else
      var b := bs[|bs| - 1];
      FoundFrom(colliders, transforms, a, bs[..|bs| - 1])
        + if a != b && PairCollides(colliders, transforms, a, b) then {MinMax(a, b)} else {}
  }

  /** Pairs recorded for the entities es, each tested against its 3x3 block. */
  function FoundPairs(g: Grid, colliders: map<Entity, BoxCollider2D>, transforms: map<Entity, Transform>,
                      size: CellSize, es: seq<Entity>): set<EntityPair>
    requires GridEntriesIn(g, colliders, transforms)
    requires forall e :: e in es ==> e in colliders && e in transforms
  {
    if es == [] then {}
    else
      var a := es[|es| - 1];
      NearbyEntriesIn(g, colliders, transforms, EntityCell(transforms, a, size));
      FoundPairs(g, colliders, transforms, size, es[..|es| - 1])
        + FoundFrom(colliders, transforms, a, Nearby(g, EntityCell(transforms, a, size)))
  }

  lemma {:induction false} FoundFromMembership(colliders: map<Entity, BoxCollider2D>, transforms: map<Entity, Transform>,
                                               a: Entity, bs: seq<Entity>, p: EntityPair)
    requires a in colliders && a in transforms
    requires forall b :: b in bs ==> b in colliders && b in transforms
    ensures p in FoundFrom(colliders, transforms, a, bs) <==>
      exists b :: b in bs && a != b && PairCollides(colliders, transforms, a, b) && p == MinMax(a, b)
  {
    if bs != [] {
      var init := bs[..|bs| - 1];
      FoundFromMembership(colliders, transforms, a, init, p);
      assert forall b :: b in bs <==> b in init || b == bs[|bs| - 1];
    }
  }

  lemma {:induction false} FoundPairsMembership(g: Grid, colliders: map<Entity, BoxCollider2D>,
                                                transforms: map<Entity, Transform>, size: CellSize,
                                                es: seq<Entity>, p: EntityPair)
    requires GridEntriesIn(g, colliders, transforms)
    requires forall e :: e in es ==> e in colliders && e in transforms
    ensures p in FoundPairs(g, colliders, transforms, size, es) <==>
      exists a :: a in es && FoundFromNearby(g, colliders, transforms, size, a, p)
  {
    if es != [] {
      var init := es[..|es| - 1];
      FoundPairsMembership(g, colliders, transforms, size, init, p);
      assert forall a :: a in es <==> a in init || a == es[|es| - 1];
    }
  }

  /** p was recorded for a against a's 3x3 block. */
  ghost predicate FoundFromNearby(g: Grid, colliders: map<Entity, BoxCollider2D>, transforms: map<Entity, Transform>,
                                  size: CellSize, a: Entity, p: EntityPair)
    requires GridEntriesIn(g, colliders, transforms)
  {
    && a in colliders && a in transforms
    && (NearbyEntriesIn(g, colliders, transforms, EntityCell(transforms, a, size));
        p in FoundFrom(colliders, transforms, a, Nearby(g, EntityCell(transforms, a, size))))
  }

  /** A pair recorded for the entities of one cell is a reported pair with an endpoint in that cell. */
  lemma {:induction false} CellFoundPairsSound(g: Grid, colliders: map<Entity, BoxCollider2D>,
                                               transforms: map<Entity, Transform>, size: CellSize, c: Cell, p: EntityPair)
    requires GridHolds(g, ColliderView(colliders, transforms), transforms, size)
    requires GridEntriesIn(g, colliders, transforms)
    requires c in g
    requires forall e :: e in g[c] ==> e in colliders && e in transforms
    requires p in FoundPairs(g, colliders, transforms, size, g[c])
    ensures IsExpectedPair(colliders, transforms, size, p)
    ensures EntityCell(transforms, p.first, size) == c || EntityCell(transforms, p.second, size) == c
  {
    FoundPairsMembership(g, colliders, transforms, size, g[c], p);
    var a :| a in g[c] && FoundFromNearby(g, colliders, transforms, size, a, p);
    assert EntityCell(transforms, a, size) == c;
    NearbyEntriesIn(g, colliders, transforms, c);
    FoundFromMembership(colliders, transforms, a, Nearby(g, c), p);
    var b :| b in Nearby(g, c) && a != b && PairCollides(colliders, transforms, a, b) && p == MinMax(a, b);
    NearbyInGrid(g, ColliderView(colliders, transforms), transforms, size, c, b);
    CollidesSymmetric(transforms[a].position, colliders[a], transforms[b].position, colliders[b]);
  }

  /** A reported pair with an endpoint in cell c is recorded while walking c's entities. */
  lemma {:induction false} CellFoundPairsComplete(g: Grid, colliders: map<Entity, BoxCollider2D>,
                                                  transforms: map<Entity, Transform>, size: CellSize, c: Cell, p: EntityPair)
    requires GridHolds(g, ColliderView(colliders, transforms), transforms, size)
    requires GridEntriesIn(g, colliders, transforms)
    requires c in g
    requires forall e :: e in g[c] ==> e in colliders && e in transforms
    requires IsExpectedPair(colliders, transforms, size, p)
    requires EntityCell(transforms, p.first, size) == c || EntityCell(transforms, p.second, size) == c
    ensures p in FoundPairs(g, colliders, transforms, size, g[c])
  {
    var cf := EntityCell(transforms, p.first, size);
    var a, b := if cf == c then p.first else p.second, if cf == c then p.second else p.first;
    assert a in ColliderView(colliders, transforms);
    assert a in g[c];
    NearbyInGrid(g, ColliderView(colliders, transforms), transforms, size, c, b);
    NearbyEntriesIn(g, colliders, transforms, c);
    CollidesSymmetric(transforms[a].position, colliders[a], transforms[b].position, colliders[b]);
    assert p == MinMax(a, b);
    FoundFromMembership(colliders, transforms, a, Nearby(g, c), p);
    assert FoundFromNearby(g, colliders, transforms, size, a, p);
    FoundPairsMembership(g, colliders, transforms, size, g[c], p);
  }

  /** The grid holds only view entities, so its entries have colliders and transforms. */
  lemma GridHoldsEntries(g: Grid, colliders: map<Entity, BoxCollider2D>, transforms: map<Entity, Transform>, size: CellSize)
    requires GridHolds(g, ColliderView(colliders, transforms), transforms, size)
    ensures GridEntriesIn(g, colliders, transforms)
  {
  }

  /** Appending e to the list of its own cell extends a well-formed grid by e. */
  lemma RegisterKeepsGridHolds(before: Grid, after: Grid, view: set<Entity>, transforms: map<Entity, Transform>,
                               size: CellSize, e: Entity)
    requires GridHolds(before, view, transforms, size)
    requires e in transforms
    requires var c := EntityCell(transforms, e, size);
      c in after && after[c] == CellList(before, c) + [e]
    requires forall k :: k != EntityCell(transforms, e, size) ==>
      (k in after <==> k in before) && CellList(after, k) == CellList(before, k)
    ensures GridHolds(after, view + {e}, transforms, size)
  {
    var ce := EntityCell(transforms, e, size);
    forall c, x | c in after && x in after[c]
      ensures x in view + {e} && x in transforms && EntityCell(transforms, x, size) == c
    {
      if c != ce {
        assert x in CellList(before, c);
      } else if x != e {
        assert x in CellList(before, c);
      }
    }
    forall x | x in view + {e}
      ensures x in transforms && x in CellList(after, EntityCell(transforms, x, size))
    {
      if x != e {
        assert x in CellList(before, EntityCell(transforms, x, size));
      }
    }
  }
}
