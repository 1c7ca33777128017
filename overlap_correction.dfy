/**
 * Overlap correction of src/systems/overlap_correction_system.cpp: for every
 * body that the detector flagged, each unordered pair of partners is handled
 * once per tick; when the boxes still penetrate and not both are static, one
 * movable body is pushed along the axis of lesser penetration and its
 * velocity on that axis is zeroed.
 */
module OverlapCorrection {
  import opened Components
  import opened NarrowPhase
  import opened CollisionDetection

  // ---------------------------------------------------------------------
  // Unordered pair key
  // ---------------------------------------------------------------------

  /** EntityPairEqual: two ordered pairs name the same unordered pair. */
  predicate PairEqual(l: EntityPair, r: EntityPair)
  {
    (l.first == r.first && l.second == r.second) || (l.first == r.second && l.second == r.first)
  }

  /** The value EntityPairHash mixes: the (min, max) of the pair, so the hash ignores order. */
  function PairKey(p: EntityPair): EntityPair
  {
    MinMax(p.first, p.second)
  }

  /** Equal pairs have equal keys and, conversely, equal keys mean equal pairs. */
  lemma PairEqualIffSameKey(l: EntityPair, r: EntityPair)
    ensures PairEqual(l, r) <==> PairKey(l) == PairKey(r)
  {
    MinMaxEqual(l.first, l.second, r.first, r.second);
  }

  /** The equality is an equivalence, as an unordered_set requires. */
  lemma PairEqualIsEquivalence(l: EntityPair, m: EntityPair, r: EntityPair)
    ensures PairEqual(l, l)
    ensures PairEqual(l, m) ==> PairEqual(m, l)
    ensures PairEqual(l, m) && PairEqual(m, r) ==> PairEqual(l, r)
  {
    PairEqualIffSameKey(l, m);
    PairEqualIffSameKey(m, r);
    PairEqualIffSameKey(l, r);
  }

  // ---------------------------------------------------------------------
  // Per-pair geometry
  // ---------------------------------------------------------------------

  /** should_skip_entity */
  predicate ShouldSkipEntity(c: BoxCollider2D)
  {
    !c.isColliding || c.isTrigger || c.collidingEntities == {}
  }

  /**
   * On a collider written by the detector, the body is skipped exactly when
   * it is a trigger or has no partners.
   */
  lemma SkipAfterDetection(c: BoxCollider2D, partners: set<Entity>)
    ensures ShouldSkipEntity(WithPartners(c, partners)) <==> c.isTrigger || partners == {}
  {
  }

  /** Centre delta A - B and the penetration depth on each axis. */
  datatype OverlapResult = OverlapResult(delta: Vec2, x: real, y: real)

  /** has_penetration (declared outside the shown files): positive depth on both axes. */
  predicate HasPenetration(o: OverlapResult)
  {
    o.x > 0.0 && o.y > 0.0
  }

  /**
   * calculate_overlap: the centre delta A - B and, per axis, the sum of the
   * half sizes less the distance of the centres. The depth on an axis never
   * exceeds the sum of the half sizes and reaches it exactly when the centres
   * are aligned on that axis.
   */
  function CalculateOverlap(pa: Vec2, ca: BoxCollider2D, pb: Vec2, cb: BoxCollider2D): (r: OverlapResult)
    ensures r.x <= (ca.width + cb.width) * 0.5 && r.y <= (ca.height + cb.height) * 0.5
    ensures r.x == (ca.width + cb.width) * 0.5 <==> pa.x == pb.x
    ensures r.y == (ca.height + cb.height) * 0.5 <==> pa.y == pb.y
  {
    var delta := Vec2(pa.x - pb.x, pa.y - pb.y);
    OverlapResult(delta,
                  (ca.width * 0.5 + cb.width * 0.5) - Abs(delta.x),
                  (ca.height * 0.5 + cb.height * 0.5) - Abs(delta.y))
  }

  /** Seen from B the delta is negated and both depths are the same. */
  lemma OverlapSwap(pa: Vec2, ca: BoxCollider2D, pb: Vec2, cb: BoxCollider2D)
    ensures var o := CalculateOverlap(pa, ca, pb, cb);
      CalculateOverlap(pb, cb, pa, ca) == OverlapResult(Vec2(-o.delta.x, -o.delta.y), o.x, o.y)
  {
  }

  /** Penetration on both axes is exactly the detector's strict AABB test. */
  lemma PenetrationIffCollides(pa: Vec2, ca: BoxCollider2D, pb: Vec2, cb: BoxCollider2D)
    ensures HasPenetration(CalculateOverlap(pa, ca, pb, cb)) <==> Collides(pa, ca, pb, cb)
  {
    CollidesIffCentresClose(pa, ca, pb, cb);
  }

  /** v * (d > 0 ? 1 : -1): v signed by the delta, a zero delta counting as negative. */
  function Signed(v: real, d: real): real
  {
    if d > 0.0 then v else -v
  }

  /** The position resolve_overlap gives the moved body: one axis, Y on ties, signed by the delta. */
  function ResolvedPosition(o: OverlapResult, p: Vec2): Vec2
  {
    if o.x < o.y then p.(x := p.x + Signed(o.x, o.delta.x))
    else p.(y := p.y + Signed(o.y, o.delta.y))
  }

  /** The velocity resolve_overlap leaves: the resolved axis is zeroed. */
  function ZeroedVelocity(o: OverlapResult, v: Vec2): Vec2
  {
    if o.x < o.y then v.(x := 0.0) else v.(y := 0.0)
  }

  /**
   * Moving A by resolve_overlap brings the depth on the resolved axis to
   * exactly zero (the boxes touch) and leaves the other axis alone, so the
   * boxes no longer collide.
   */
  lemma {:induction false} ResolvingAClosesAxis(pa: Vec2, ca: BoxCollider2D, pb: Vec2, cb: BoxCollider2D)
    requires ca.width + cb.width >= 0.0 && ca.height + cb.height >= 0.0
    ensures var o := CalculateOverlap(pa, ca, pb, cb);
      var o' := CalculateOverlap(ResolvedPosition(o, pa), ca, pb, cb);
      (o.x < o.y ==> o'.x == 0.0 && o'.y == o.y) && (o.y <= o.x ==> o'.y == 0.0 && o'.x == o.x)
    ensures !Collides(ResolvedPosition(CalculateOverlap(pa, ca, pb, cb), pa), ca, pb, cb)
  {
    var o := CalculateOverlap(pa, ca, pb, cb);
    var pa' := ResolvedPosition(o, pa);
    var o' := CalculateOverlap(pa', ca, pb, cb);
    if o.x < o.y {
      var d := o.delta.x;
      var w := ca.width * 0.5 + cb.width * 0.5;
      assert pa'.x - pb.x == d + Signed(w - Abs(d), d);
      if d > 0.0 {
        assert pa'.x - pb.x == w;
      } else {
        assert pa'.x - pb.x == -w;
      }
      assert o'.x == 0.0;
    } else {
      var d := o.delta.y;
      var h := ca.height * 0.5 + cb.height * 0.5;
      assert pa'.y - pb.y == d + Signed(h - Abs(d), d);
      if d > 0.0 {
        assert pa'.y - pb.y == h;
      } else {
        assert pa'.y - pb.y == -h;
      }
      assert o'.y == 0.0;
    }
    PenetrationIffCollides(pa', ca, pb, cb);
  }

  /**
   * The direction the push evidently intends for the moved body: away from
   * the other one, that is signed by (moved - other). For A this is what
   * resolve_overlap does; for B the delta is negated.
   */
  function PushAway(o: OverlapResult, p: Vec2, movedIsA: bool): Vec2
  {
    if movedIsA then ResolvedPosition(o, p)
    else ResolvedPosition(o.(delta := Vec2(-o.delta.x, -o.delta.y)), p)
  }

  /** Pushing B away from A closes the resolved axis just as pushing A does. */
  lemma {:induction false} PushAwayClosesAxis(pa: Vec2, ca: BoxCollider2D, pb: Vec2, cb: BoxCollider2D)
    requires ca.width + cb.width >= 0.0 && ca.height + cb.height >= 0.0
    ensures var o := CalculateOverlap(pa, ca, pb, cb);
      var o' := CalculateOverlap(pa, ca, PushAway(o, pb, false), cb);
      (o.x < o.y ==> o'.x == 0.0 && o'.y == o.y) && (o.y <= o.x ==> o'.y == 0.0 && o'.x == o.x)
    ensures !Collides(pa, ca, PushAway(CalculateOverlap(pa, ca, pb, cb), pb, false), cb)
  {
    var o := CalculateOverlap(pa, ca, pb, cb);
    OverlapSwap(pa, ca, pb, cb);
    var pb' := PushAway(o, pb, false);
    assert pb' == ResolvedPosition(CalculateOverlap(pb, cb, pa, ca), pb);
    ResolvingAClosesAxis(pb, cb, pa, ca);
    OverlapSwap(pb', cb, pa, ca);
    CollidesSymmetric(pa, ca, pb', cb);
  }

  /** The positions resolve_overlap_between gives A and B: half the depth each, in opposite directions. */
  function BetweenPositions(o: OverlapResult, pa: Vec2, pb: Vec2): (Vec2, Vec2)
  {
    if o.x < o.y then
      var c := o.x * 0.5;
      (pa.(x := pa.x + Signed(c, o.delta.x)), pb.(x := pb.x - Signed(c, o.delta.x)))
    else
      var c := o.y * 0.5;
      (pa.(y := pa.y + Signed(c, o.delta.y)), pb.(y := pb.y - Signed(c, o.delta.y)))
  }

  /** Splitting the push keeps the midpoint of the two centres where it was. */
  lemma BetweenPreservesSum(o: OverlapResult, pa: Vec2, pb: Vec2)
    ensures var (pa', pb') := BetweenPositions(o, pa, pb);
      pa'.x + pb'.x == pa.x + pb.x && pa'.y + pb'.y == pa.y + pb.y
  {
  }

  /** Splitting the push also closes the resolved axis: the relative move is the full depth. */
  lemma {:induction false} BetweenClosesAxis(pa: Vec2, ca: BoxCollider2D, pb: Vec2, cb: BoxCollider2D)
    requires ca.width + cb.width >= 0.0 && ca.height + cb.height >= 0.0
    ensures var o := CalculateOverlap(pa, ca, pb, cb);
      var (pa', pb') := BetweenPositions(o, pa, pb);
      var o' := CalculateOverlap(pa', ca, pb', cb);
      (o.x < o.y ==> o'.x == 0.0 && o'.y == o.y) && (o.y <= o.x ==> o'.y == 0.0 && o'.x == o.x)
  {
    var o := CalculateOverlap(pa, ca, pb, cb);
    var (pa', pb') := BetweenPositions(o, pa, pb);
    var moved := ResolvedPosition(o, pa);
    assert pa'.x - pb'.x == moved.x - pb.x && pa'.y - pb'.y == moved.y - pb.y;
    assert CalculateOverlap(pa', ca, pb', cb) == CalculateOverlap(moved, ca, pb, cb);
    ResolvingAClosesAxis(pa, ca, pb, cb);
  }

  /** Two 10x10 boxes at (0,0) and (5,0): delta (-5,0), depth 5 on x and 10 on y. */
  lemma OverlapExample(box: BoxCollider2D)
    requires box.width == 10.0 && box.height == 10.0
    ensures var o := CalculateOverlap(Vec2(0.0, 0.0), box, Vec2(5.0, 0.0), box);
      o.delta == Vec2(-5.0, 0.0) && o.x == 5.0 && o.y == 10.0
  {
  }

  /** For that overlap, both movable boxes are moved to (-2.5,0) and (7.5,0). */
  lemma BetweenExample()
    ensures BetweenPositions(OverlapResult(Vec2(-5.0, 0.0), 5.0, 10.0), Vec2(0.0, 0.0), Vec2(5.0, 0.0))
      == (Vec2(-2.5, 0.0), Vec2(7.5, 0.0))
  {
  }

  // ---------------------------------------------------------------------
  // Choosing and moving a body
  // ---------------------------------------------------------------------

  /** choose_movable_entity: A if it is not static and has movement data, else B under the same test. */
  function ChooseMovable(colliders: map<Entity, BoxCollider2D>, movements: map<Entity, MovementData>,
                         a: Entity, b: Entity): (r: Option<Entity>)
    requires a in colliders && b in colliders
    ensures r.Some? ==> (r.value == a || r.value == b) && r.value in movements && !colliders[r.value].isStatic
    ensures r.None? <==> (colliders[a].isStatic || a !in movements) && (colliders[b].isStatic || b !in movements)
    ensures r.Some? && r.value != a ==> colliders[a].isStatic || a !in movements
  {
    if !colliders[a].isStatic && a in movements then Some(a)
    else if !colliders[b].isStatic && b in movements then Some(b)
    else None
  }

  /** Transforms and movement data: the state correction writes. */
  datatype Bodies = Bodies(transforms: map<Entity, Transform>, movements: map<Entity, MovementData>)

  /**
   * One pair of run after its key was found new, as written: recompute the
   * overlap from the current positions; with penetration and not both
   * static, resolve_overlap the chosen body with the overlap seen from A,
   * whichever body that is. Only motion changes, nothing changes without
   * penetration or when both are static, and no third body moves.
   */
  function PairStepAsWritten(colliders: map<Entity, BoxCollider2D>, s: Bodies, a: Entity, b: Entity): (r: Bodies)
    requires a in colliders && a in s.transforms && b in colliders && b in s.transforms
    ensures MotionOnly(colliders, s, r)
    ensures var o := CalculateOverlap(s.transforms[a].position, colliders[a], s.transforms[b].position, colliders[b]);
      !HasPenetration(o) || (colliders[a].isStatic && colliders[b].isStatic) ==> r == s
    ensures forall e :: e in s.transforms && e != a && e != b ==> r.transforms[e] == s.transforms[e]
  {
    var o := CalculateOverlap(s.transforms[a].position, colliders[a], s.transforms[b].position, colliders[b]);
    if !HasPenetration(o) || (colliders[a].isStatic && colliders[b].isStatic) then s
    else match ChooseMovable(colliders, s.movements, a, b)
      case None => s
      case Some(m) =>
        if m in s.transforms then
          Bodies(s.transforms[m := s.transforms[m].(position := ResolvedPosition(o, s.transforms[m].position))],
                 s.movements[m := s.movements[m].(velocity := ZeroedVelocity(o, s.movements[m].velocity))])
        else s
  }

  /**
   * The same pair step with the push corrected: the chosen body moves away
   * from the other one, so B is pushed by the sign of B - A. It keeps the
   * frame of the step as written.
   */
  function PairStep(colliders: map<Entity, BoxCollider2D>, s: Bodies, a: Entity, b: Entity): (r: Bodies)
    requires a in colliders && a in s.transforms && b in colliders && b in s.transforms
    ensures MotionOnly(colliders, s, r)
    ensures var o := CalculateOverlap(s.transforms[a].position, colliders[a], s.transforms[b].position, colliders[b]);
      !HasPenetration(o) || (colliders[a].isStatic && colliders[b].isStatic) ==> r == s
    ensures forall e :: e in s.transforms && e != a && e != b ==> r.transforms[e] == s.transforms[e]
  {
    var o := CalculateOverlap(s.transforms[a].position, colliders[a], s.transforms[b].position, colliders[b]);
    if !HasPenetration(o) || (colliders[a].isStatic && colliders[b].isStatic) then s
    else match ChooseMovable(colliders, s.movements, a, b)
      case None => s
      case Some(m) =>
        if m in s.transforms then
          Bodies(s.transforms[m := s.transforms[m].(position := PushAway(o, s.transforms[m].position, m == a))],
                 s.movements[m := s.movements[m].(velocity := ZeroedVelocity(o, s.movements[m].velocity))])
        else s
  }

  /**
   * What correction may change: positions and velocities of bodies that
   * have a non-static collider and movement data; nothing else, and no
   * component is added or removed.
   */
  ghost predicate MotionOnly(colliders: map<Entity, BoxCollider2D>, s: Bodies, s': Bodies)
  {
    && s'.transforms.Keys == s.transforms.Keys
    && s'.movements.Keys == s.movements.Keys
    && (forall e :: e in s'.transforms ==>
          s'.transforms[e].rotation == s.transforms[e].rotation && s'.transforms[e].scale == s.transforms[e].scale &&
          ((e !in colliders || colliders[e].isStatic || e !in s.movements) ==> s'.transforms[e] == s.transforms[e]))
    && (forall e :: e in s'.movements ==>
          s'.movements[e].speed == s.movements[e].speed &&
          s'.movements[e].previousPosition == s.movements[e].previousPosition &&
          ((e !in colliders || colliders[e].isStatic) ==> s'.movements[e] == s.movements[e]))
  }

  lemma MotionOnlyTransitive(colliders: map<Entity, BoxCollider2D>, s0: Bodies, s1: Bodies, s2: Bodies)
    requires MotionOnly(colliders, s0, s1) && MotionOnly(colliders, s1, s2)
    ensures MotionOnly(colliders, s0, s2)
  {
  }

  /**
   * The pair steps of a tick replayed in order from s: each logged
   * (entity, other) is the step as written on the state the earlier steps
   * left.
   */
  ghost function Replay(colliders: map<Entity, BoxCollider2D>, s: Bodies, steps: seq<EntityPair>): Bodies
    decreases |steps|
  {
    if steps == [] then s
    else
      var t := Replay(colliders, s, steps[..|steps| - 1]);
      var p := steps[|steps| - 1];
      if p.first in colliders && p.first in t.transforms && p.second in colliders && p.second in t.transforms
      then PairStepAsWritten(colliders, t, p.first, p.second)
      else t
  }

  /** Replaying a log in two parts is replaying it whole. */
  lemma {:induction false} ReplayAppend(colliders: map<Entity, BoxCollider2D>, s: Bodies, xs: seq<EntityPair>, ys: seq<EntityPair>)
    ensures Replay(colliders, s, xs + ys) == Replay(colliders, Replay(colliders, s, xs), ys)
    decreases |ys|
  {
    if ys == [] {
      assert xs + ys == xs;
    } else {
      var n := |ys| - 1;
      assert (xs + ys)[..|xs + ys| - 1] == xs + ys[..n];
      assert (xs + ys)[|xs + ys| - 1] == ys[n];
      ReplayAppend(colliders, s, xs, ys[..n]);
    }
  }

  /**
   * Whenever the corrected step moves a body, the pair no longer collides
   * afterwards: the depth on the resolved axis becomes zero.
   */
  lemma PairStepSeparates(colliders: map<Entity, BoxCollider2D>, s: Bodies, a: Entity, b: Entity)
    requires a in colliders && a in s.transforms && b in colliders && b in s.transforms && a != b
    requires colliders[a].width + colliders[b].width >= 0.0 && colliders[a].height + colliders[b].height >= 0.0
    requires ChooseMovable(colliders, s.movements, a, b).Some?
    ensures var s' := PairStep(colliders, s, a, b);
      !Collides(s'.transforms[a].position, colliders[a], s'.transforms[b].position, colliders[b])
  {
    var pa, pb := s.transforms[a].position, s.transforms[b].position;
    PenetrationIffCollides(pa, colliders[a], pb, colliders[b]);
    if ChooseMovable(colliders, s.movements, a, b).value == a {
      ResolvingAClosesAxis(pa, colliders[a], pb, colliders[b]);
    } else {
      PushAwayClosesAxis(pa, colliders[a], pb, colliders[b]);
    }
  }

  /**
   * As written, when A is static and B can move, run moves B by
   * resolve_overlap with the overlap computed from A's side.
   */
  lemma AsWrittenMovesB(colliders: map<Entity, BoxCollider2D>, s: Bodies, a: Entity, b: Entity)
    requires a in colliders && a in s.transforms && b in colliders && b in s.transforms
    requires colliders[a].isStatic && !colliders[b].isStatic && b in s.movements
    requires HasPenetration(CalculateOverlap(s.transforms[a].position, colliders[a], s.transforms[b].position, colliders[b]))
    ensures var o := CalculateOverlap(s.transforms[a].position, colliders[a], s.transforms[b].position, colliders[b]);
      PairStepAsWritten(colliders, s, a, b).transforms[b].position == ResolvedPosition(o, s.transforms[b].position)
  {
  }

  /**
   * As written, the body moved is pushed by the sign of A - B. When that
   * body is B it moves towards A: the new B - A on the resolved axis has lost
   * exactly the depth in the direction of A.
   */
  lemma AsWrittenMovesBTowardA(pa: Vec2, ca: BoxCollider2D, pb: Vec2, cb: BoxCollider2D)
    requires HasPenetration(CalculateOverlap(pa, ca, pb, cb))
    ensures var o := CalculateOverlap(pa, ca, pb, cb);
      var pb' := ResolvedPosition(o, pb);
      (o.x < o.y && pa.x > pb.x ==> pb'.x > pb.x) && (o.x < o.y && pa.x < pb.x ==> pb'.x < pb.x) &&
      (o.y <= o.x && pa.y > pb.y ==> pb'.y > pb.y) && (o.y <= o.x && pa.y < pb.y ==> pb'.y < pb.y)
  {
  }

  /**
   * For the overlap of OverlapExample, the as-written push puts B (at (5,0))
   * on A's centre (0,0), where the depth on x is 10 instead of 5.
   */
  lemma MovingBAsWrittenDeepens()
    ensures ResolvedPosition(OverlapResult(Vec2(-5.0, 0.0), 5.0, 10.0), Vec2(5.0, 0.0)) == Vec2(0.0, 0.0)
    ensures var box := BoxCollider2D(10.0, 10.0, true, false, false, {});
      CalculateOverlap(Vec2(0.0, 0.0), box, Vec2(0.0, 0.0), box).x == 10.0
  {
  }

  /** No flagged partner pair penetrates: the scene is already resolved. */
  ghost predicate Resolved(colliders: map<Entity, BoxCollider2D>, s: Bodies)
  {
    forall e, o :: (e in colliders && e in s.transforms && o in colliders[e].collidingEntities &&
      o in colliders && o in s.transforms) ==>
      !HasPenetration(CalculateOverlap(s.transforms[e].position, colliders[e], s.transforms[o].position, colliders[o]))
  }

  /** The keys run marks as processed once `done` bodies have been visited. */
  ghost function KeysOf(colliders: map<Entity, BoxCollider2D>, done: set<Entity>): set<EntityPair>
    requires done <= colliders.Keys
  {
    set e, o | e in done && !ShouldSkipEntity(colliders[e]) && o in colliders[e].collidingEntities :: MinMax(e, o)
  }

  // ---------------------------------------------------------------------
  // The system
  // ---------------------------------------------------------------------

  class OverlapCorrectionSystem {
    const registry: Registry
    var processedPairs: set<EntityPair>

    constructor (registry: Registry)
      ensures this.registry == registry && processedPairs == {}
    {
      this.registry := registry;
      processedPairs := {};
    }

    /** has_already_processed: reports whether the key was seen and records it. */
    method HasAlreadyProcessed(a: Entity, b: Entity) returns (seen: bool)
      modifies this
      ensures seen <==> MinMax(a, b) in old(processedPairs)
      ensures processedPairs == old(processedPairs) + {MinMax(a, b)}
    {
      var key := MinMax(a, b);
      if key in processedPairs {
        return true;
      }
      processedPairs := processedPairs + {key};
      return false;
    }

    /** resolve_overlap on the transform and movement data of e. */
    method ResolveOverlap(o: OverlapResult, e: Entity)
      requires e in registry.transforms && e in registry.movements
      modifies registry
      ensures registry.colliders == old(registry.colliders)
      ensures registry.transforms ==
        old(registry.transforms)[e := old(registry.transforms)[e].(position := ResolvedPosition(o, old(registry.transforms)[e].position))]
      ensures registry.movements ==
        old(registry.movements)[e := old(registry.movements)[e].(velocity := ZeroedVelocity(o, old(registry.movements)[e].velocity))]
    {
      var transform, movement := registry.transforms[e], registry.movements[e];
      if o.x < o.y {
        var signX := if o.delta.x > 0.0 then 1.0 else -1.0;
        transform := transform.(position := transform.position.(x := transform.position.x + o.x * signX));
        movement := movement.(velocity := movement.velocity.(x := 0.0));
      } else {
        var signY := if o.delta.y > 0.0 then 1.0 else -1.0;
        transform := transform.(position := transform.position.(y := transform.position.y + o.y * signY));
        movement := movement.(velocity := movement.velocity.(y := 0.0));
      }
      registry.transforms := registry.transforms[e := transform];
      registry.movements := registry.movements[e := movement];
    }

    /**
     * resolve_overlap_between: A and B each take half the depth in opposite
     * directions and both lose their velocity on that axis. When a and b are
     * the same body the two half moves cancel.
     */
    method ResolveOverlapBetween(o: OverlapResult, a: Entity, b: Entity)
      requires a in registry.transforms && a in registry.movements
      requires b in registry.transforms && b in registry.movements
      modifies registry
      ensures registry.colliders == old(registry.colliders)
      ensures registry.transforms.Keys == old(registry.transforms).Keys
      ensures registry.movements.Keys == old(registry.movements).Keys
      ensures var (pa', pb') := BetweenPositions(o, old(registry.transforms)[a].position, old(registry.transforms)[b].position);
        a != b ==>
          registry.transforms == old(registry.transforms)[a := old(registry.transforms)[a].(position := pa')]
                                                         [b := old(registry.transforms)[b].(position := pb')]
      ensures a == b ==> registry.transforms == old(registry.transforms)
      ensures registry.movements ==
        old(registry.movements)[a := old(registry.movements)[a].(velocity := ZeroedVelocity(o, old(registry.movements)[a].velocity))]
                               [b := old(registry.movements)[b].(velocity := ZeroedVelocity(o, old(registry.movements)[b].velocity))]
    {
      var transformA, movementA := registry.transforms[a], registry.movements[a];
      if o.x < o.y {
        var signX := if o.delta.x > 0.0 then 1.0 else -1.0;
        var correction := o.x * 0.5;
        registry.transforms := registry.transforms[a := transformA.(position := transformA.position.(x := transformA.position.x + correction * signX))];
        var transformB := registry.transforms[b];
        registry.transforms := registry.transforms[b := transformB.(position := transformB.position.(x := transformB.position.x - correction * signX))];
        registry.movements := registry.movements[a := movementA.(velocity := movementA.velocity.(x := 0.0))];
        var movementB := registry.movements[b];
        registry.movements := registry.movements[b := movementB.(velocity := movementB.velocity.(x := 0.0))];
      } else {
        var signY := if o.delta.y > 0.0 then 1.0 else -1.0;
        var correction := o.y * 0.5;
        registry.transforms := registry.transforms[a := transformA.(position := transformA.position.(y := transformA.position.y + correction * signY))];
        var transformB := registry.transforms[b];
        registry.transforms := registry.transforms[b := transformB.(position := transformB.position.(y := transformB.position.y - correction * signY))];
        registry.movements := registry.movements[a := movementA.(velocity := movementA.velocity.(y := 0.0))];
        var movementB := registry.movements[b];
        registry.movements := registry.movements[b := movementB.(velocity := movementB.velocity.(y := 0.0))];
      }
    }

    /**
     * The body of the inner loop of run once the key is new: the pair step
     * as written on the registry. The chosen body, A or B, is resolved with
     * the overlap seen from A.
     */
    method CorrectPair(a: Entity, b: Entity)
      requires a in registry.colliders && a in registry.transforms
      requires b in registry.colliders && b in registry.transforms
      modifies registry
      ensures registry.colliders == old(registry.colliders)
      ensures Bodies(registry.transforms, registry.movements) ==
        PairStepAsWritten(registry.colliders, Bodies(old(registry.transforms), old(registry.movements)), a, b)
    {
      var colliderA, colliderB := registry.colliders[a], registry.colliders[b];
      var overlap := CalculateOverlap(registry.transforms[a].position, colliderA, registry.transforms[b].position, colliderB);
      if !HasPenetration(overlap) {
        return;
      }
      if colliderA.isStatic && colliderB.isStatic {
        return;
      }
      var movable := ChooseMovable(registry.colliders, registry.movements, a, b);
      if movable.Some? {
        ResolveOverlap(overlap, movable.value);
      }
    }

    /**
     * One iteration of the inner loop of run: has_already_processed, then,
     * for a new key, the pair step as written. Nothing changes when the key
     * was seen.
     */
    method VisitPartner(entity: Entity, other: Entity) returns (ghost isNew: bool)
      requires entity in registry.colliders && entity in registry.transforms
      requires other in registry.colliders && other in registry.transforms
      modifies this, registry
      ensures registry.colliders == old(registry.colliders)
      ensures isNew <==> MinMax(entity, other) !in old(processedPairs)
      ensures processedPairs == old(processedPairs) + {MinMax(entity, other)}
      ensures registry.transforms.Keys == old(registry.transforms).Keys && registry.movements.Keys == old(registry.movements).Keys
      ensures !isNew ==> registry.transforms == old(registry.transforms) && registry.movements == old(registry.movements)
      ensures isNew ==> (Bodies(registry.transforms, registry.movements) ==
        PairStepAsWritten(registry.colliders, Bodies(old(registry.transforms), old(registry.movements)), entity, other))
    {
      var seen := HasAlreadyProcessed(entity, other);
      isNew := !seen;
      if seen {
        return;
      }
      CorrectPair(entity, other);
    }

    /**
     * The inner loop of run for one body that is not skipped: every partner,
     * in any order, whose key is new is corrected. The keys of all partners
     * are recorded; `steps` lists the new (entity, partner) pairs in the
     * order they were handled, `added` their keys, and the new motion is
     * those steps replayed on the old.
     */
    method CorrectPartners(entity: Entity) returns (ghost added: seq<EntityPair>, ghost steps: seq<EntityPair>)
      requires entity in registry.colliders && entity in registry.transforms && entity in registry.movements
      requires registry.colliders[entity].collidingEntities <= registry.colliders.Keys
      requires registry.colliders[entity].collidingEntities <= registry.transforms.Keys
      modifies this, registry
      ensures registry.colliders == old(registry.colliders)
      ensures Bodies(registry.transforms, registry.movements) ==
        Replay(registry.colliders, Bodies(old(registry.transforms), old(registry.movements)), steps)
      ensures MotionOnly(registry.colliders, Bodies(old(registry.transforms), old(registry.movements)),
                         Bodies(registry.transforms, registry.movements))
      ensures Resolved(registry.colliders, Bodies(old(registry.transforms), old(registry.movements))) ==>
        registry.transforms == old(registry.transforms) && registry.movements == old(registry.movements)
      ensures processedPairs == old(processedPairs) + PartnerKeys(entity, registry.colliders[entity].collidingEntities)
      ensures forall p :: p in added <==> p in processedPairs && p !in old(processedPairs)
      ensures NoDuplicates(added)
      ensures LogOf(added, steps, entity, registry.colliders[entity].collidingEntities)
    {
      ghost var start := Bodies(registry.transforms, registry.movements);
      var colliders := registry.colliders;
      var partners := colliders[entity].collidingEntities;
      var rest := partners;
      ghost var visited: set<Entity> := {};
      added, steps := [], [];
      while rest != {}
        invariant rest + visited == partners && rest !! visited
        invariant registry.colliders == colliders
        invariant entity in registry.transforms
        invariant Bodies(registry.transforms, registry.movements) == Replay(colliders, start, steps)
        invariant registry.transforms.Keys == start.transforms.Keys && registry.movements.Keys == start.movements.Keys
        invariant processedPairs == old(processedPairs) + PartnerKeys(entity, visited)
        invariant forall p :: p in added <==> p in processedPairs && p !in old(processedPairs)
        invariant NoDuplicates(added)
        invariant LogOf(added, steps, entity, partners)
        decreases rest
      {
        var other :| other in rest;
        PartnerKeysAdd(entity, visited, other);
        ghost var isNew := VisitPartner(entity, other);
        if isNew {
          AppendFresh(added, MinMax(entity, other));
          ReplayStep(colliders, start, steps, EntityPair(entity, other));
          LogOfAppend(added, steps, entity, partners, other);
          added, steps := added + [MinMax(entity, other)], steps + [EntityPair(entity, other)];
        }
        MoveToDone(rest, visited, partners, other);
        rest := rest - {other};
        visited := visited + {other};
      }
      assert visited == partners;
      ReplayMotionOnly(colliders, start, steps);
      if Resolved(colliders, start) {
        ReplayResolved(colliders, start, steps);
      }
    }

    /**
     * One body of run that is not skipped: its partners are corrected and
     * the keys and steps of this body are appended to run's logs.
     */
    method CorrectBody(entity: Entity, ghost start: Bodies, ghost view: set<Entity>,
                       ghost handled: seq<EntityPair>, ghost steps: seq<EntityPair>)
      returns (ghost handled': seq<EntityPair>, ghost steps': seq<EntityPair>)
      requires entity in view && entity in registry.colliders && !ShouldSkipEntity(registry.colliders[entity])
      requires entity in registry.transforms && entity in registry.movements
      requires registry.colliders[entity].collidingEntities <= registry.colliders.Keys
      requires registry.colliders[entity].collidingEntities <= registry.transforms.Keys
      requires Bodies(registry.transforms, registry.movements) == Replay(registry.colliders, start, steps)
      requires forall p :: p in handled <==> p in processedPairs
      requires NoDuplicates(handled) && RunLog(registry.colliders, view, handled, steps)
      modifies this, registry
      ensures registry.colliders == old(registry.colliders)
      ensures registry.transforms.Keys == old(registry.transforms).Keys && registry.movements.Keys == old(registry.movements).Keys
      ensures Bodies(registry.transforms, registry.movements) == Replay(registry.colliders, start, steps')
      ensures processedPairs == old(processedPairs) + PartnerKeys(entity, registry.colliders[entity].collidingEntities)
      ensures forall p :: p in handled' <==> p in processedPairs
      ensures NoDuplicates(handled') && RunLog(registry.colliders, view, handled', steps')
    {
      ghost var added, more := CorrectPartners(entity);
      ReplayAppend(registry.colliders, start, steps, more);
      AppendDistinct(handled, added);
      RunLogAppend(registry.colliders, view, handled, steps, entity, added, more);
      handled', steps' := handled + added, steps + more;
    }

    /**
     * The loop of run over its view, in any order: the bodies not skipped
     * are corrected; the processed set ends up holding the keys of all their
     * partners, and the logs list each of those keys once, with the steps
     * that replay the new motion.
     */
    method CorrectAll() returns (ghost handled: seq<EntityPair>, ghost steps: seq<EntityPair>)
      requires processedPairs == {}
      requires forall e, o :: (e in registry.colliders && e in registry.transforms && e in registry.movements &&
        o in registry.colliders[e].collidingEntities) ==> o in registry.colliders && o in registry.transforms
      modifies this, registry
      ensures registry.colliders == old(registry.colliders)
      ensures Bodies(registry.transforms, registry.movements) ==
        Replay(registry.colliders, Bodies(old(registry.transforms), old(registry.movements)), steps)
      ensures var view := RunView(registry.colliders, Bodies(old(registry.transforms), old(registry.movements)));
        && (forall p :: p in handled <==> p in KeysOf(registry.colliders, view))
        && NoDuplicates(handled)
        && RunLog(registry.colliders, view, handled, steps)
    {
      var colliders := registry.colliders;
      ghost var start := Bodies(registry.transforms, registry.movements);
      var view := RunView(colliders, Bodies(registry.transforms, registry.movements));
      handled, steps := [], [];
      var todo := view;
      ghost var done: set<Entity> := {};
      PartnersPresent(colliders, start, view);
      while todo != {}
        invariant todo + done == view && todo !! done
        invariant registry.colliders == colliders
        invariant Bodies(registry.transforms, registry.movements) == Replay(colliders, start, steps)
        invariant registry.transforms.Keys == start.transforms.Keys && registry.movements.Keys == start.movements.Keys
        invariant processedPairs == KeysOf(colliders, done)
        invariant forall p :: p in handled <==> p in processedPairs
        invariant NoDuplicates(handled)
        invariant RunLog(colliders, view, handled, steps)
        decreases todo
      {
        var entity :| entity in todo;
        if !ShouldSkipEntity(colliders[entity]) {
          handled, steps := CorrectBody(entity, start, view, handled, steps);
        }
        KeysOfStep(colliders, done, entity);
        MoveToDone(todo, done, view, entity);
        todo := todo - {entity};
        done := done + {entity};
      }
      assert done == view;
    }

    /**
     * run: every unordered partner pair of every body that is not skipped is
     * handled exactly once, and the new motion is the pair steps as written
     * replayed in handling order; only positions and velocities of non-static
     * bodies with movement data change; a scene without penetration is left
     * as it is; the processed set is empty afterwards.
     */
    method Run() returns (ghost handled: seq<EntityPair>, ghost steps: seq<EntityPair>)
      requires processedPairs == {}
      requires forall e, o :: (e in registry.colliders && e in registry.transforms && e in registry.movements &&
        o in registry.colliders[e].collidingEntities) ==> o in registry.colliders && o in registry.transforms
      modifies this, registry
      ensures processedPairs == {}
      ensures registry.colliders == old(registry.colliders)
      ensures Bodies(registry.transforms, registry.movements) ==
        Replay(registry.colliders, Bodies(old(registry.transforms), old(registry.movements)), steps)
      ensures MotionOnly(registry.colliders, Bodies(old(registry.transforms), old(registry.movements)),
                         Bodies(registry.transforms, registry.movements))
      ensures Resolved(registry.colliders, Bodies(old(registry.transforms), old(registry.movements))) ==>
        registry.transforms == old(registry.transforms) && registry.movements == old(registry.movements)
      ensures NoDuplicates(handled)
      ensures forall p :: p in handled <==>
        exists e, o :: e in old(registry.colliders) && e in old(registry.transforms) && e in old(registry.movements) &&
          !ShouldSkipEntity(old(registry.colliders)[e]) && o in old(registry.colliders)[e].collidingEntities && p == MinMax(e, o)
      ensures RunLog(registry.colliders, RunView(registry.colliders, Bodies(old(registry.transforms), old(registry.movements))),
                     handled, steps)
    {
      ghost var colliders := registry.colliders;
      ghost var start := Bodies(registry.transforms, registry.movements);
      handled, steps := CorrectAll();
      ghost var view := RunView(colliders, start);
      ReplayMotionOnly(colliders, start, steps);
      if Resolved(colliders, start) {
        ReplayResolved(colliders, start, steps);
      }
      HandledKeys(colliders, start, view, handled);
      processedPairs := {};
    }
  }

  /** One more step at the end of the log is one more pair step on the replayed state. */
  lemma ReplayStep(colliders: map<Entity, BoxCollider2D>, s: Bodies, steps: seq<EntityPair>, p: EntityPair)
    ensures var t := Replay(colliders, s, steps);
      Replay(colliders, s, steps + [p]) ==
        if p.first in colliders && p.first in t.transforms && p.second in colliders && p.second in t.transforms
        then PairStepAsWritten(colliders, t, p.first, p.second) else t
  {
    assert (steps + [p])[..|steps|] == steps;
  }

  /** Every partner of a body of run's view has a collider and a transform. */
  lemma PartnersPresent(colliders: map<Entity, BoxCollider2D>, s: Bodies, view: set<Entity>)
    requires forall e, o :: (e in colliders && e in s.transforms && e in s.movements &&
      o in colliders[e].collidingEntities) ==> o in colliders && o in s.transforms
    requires view == RunView(colliders, s)
    ensures forall e :: e in view ==>
      colliders[e].collidingEntities <= colliders.Keys && colliders[e].collidingEntities <= s.transforms.Keys
  {
  }

  /** The keys run records over its whole view are the keys of the partners of the bodies not skipped. */
  lemma HandledKeys(colliders: map<Entity, BoxCollider2D>, s: Bodies, view: set<Entity>, handled: seq<EntityPair>)
    requires view == RunView(colliders, s)
    requires forall p :: p in handled <==> p in KeysOf(colliders, view)
    ensures forall p :: p in handled <==>
      exists e, o :: e in colliders && e in s.transforms && e in s.movements &&
        !ShouldSkipEntity(colliders[e]) && o in colliders[e].collidingEntities && p == MinMax(e, o)
  {
    forall p ensures p in handled <==>
      exists e, o :: e in colliders && e in s.transforms && e in s.movements &&
        !ShouldSkipEntity(colliders[e]) && o in colliders[e].collidingEntities && p == MinMax(e, o)
    {
      if p in handled {
        var e, o :| e in view && !ShouldSkipEntity(colliders[e]) && o in colliders[e].collidingEntities && p == MinMax(e, o);
      }
    }
  }

  /** Replaying pair steps changes only motion. */
  lemma {:induction false} ReplayMotionOnly(colliders: map<Entity, BoxCollider2D>, s: Bodies, steps: seq<EntityPair>)
    ensures MotionOnly(colliders, s, Replay(colliders, s, steps))
    decreases |steps|
  {
    if steps != [] {
      var prefix := steps[..|steps| - 1];
      ReplayMotionOnly(colliders, s, prefix);
      MotionOnlyTransitive(colliders, s, Replay(colliders, s, prefix), Replay(colliders, s, steps));
    }
  }

  /** Replaying steps between flagged partners leaves a scene without penetration as it is. */
  lemma {:induction false} ReplayResolved(colliders: map<Entity, BoxCollider2D>, s: Bodies, steps: seq<EntityPair>)
    requires Resolved(colliders, s)
    requires forall i :: 0 <= i < |steps| ==>
      steps[i].first in colliders && steps[i].second in colliders[steps[i].first].collidingEntities
    ensures Replay(colliders, s, steps) == s
    decreases |steps|
  {
    if steps != [] {
      var prefix := steps[..|steps| - 1];
      ReplayResolved(colliders, s, prefix);
    }
  }

  /** Step i of the inner loop's log pairs the body with a partner, and key i is that pair's key. */
  ghost predicate LogOf(keys: seq<EntityPair>, steps: seq<EntityPair>, entity: Entity, partners: set<Entity>)
  {
    |keys| == |steps| &&
    forall i :: 0 <= i < |steps| ==>
      steps[i].first == entity && steps[i].second in partners && keys[i] == MinMax(entity, steps[i].second)
  }

  lemma LogOfAppend(keys: seq<EntityPair>, steps: seq<EntityPair>, entity: Entity, partners: set<Entity>, other: Entity)
    requires LogOf(keys, steps, entity, partners) && other in partners
    ensures LogOf(keys + [MinMax(entity, other)], steps + [EntityPair(entity, other)], entity, partners)
  {
  }

  /** The bodies run visits: those with a collider, a transform and movement data. */
  function RunView(colliders: map<Entity, BoxCollider2D>, s: Bodies): set<Entity>
  {
    set e | e in colliders && e in s.transforms && e in s.movements
  }

  /** Step i of run's log starts from a view body that is not skipped and names one of its partners. */
  ghost predicate RunLog(colliders: map<Entity, BoxCollider2D>, view: set<Entity>, keys: seq<EntityPair>, steps: seq<EntityPair>)
  {
    |keys| == |steps| &&
    forall i :: 0 <= i < |steps| ==>
      && keys[i] == MinMax(steps[i].first, steps[i].second)
      && steps[i].first in view && steps[i].first in colliders && !ShouldSkipEntity(colliders[steps[i].first])
      && steps[i].second in colliders[steps[i].first].collidingEntities
  }

  lemma RunLogAppend(colliders: map<Entity, BoxCollider2D>, view: set<Entity>, keys: seq<EntityPair>,
                     steps: seq<EntityPair>, entity: Entity, added: seq<EntityPair>, more: seq<EntityPair>)
    requires RunLog(colliders, view, keys, steps)
    requires entity in view && entity in colliders && !ShouldSkipEntity(colliders[entity])
    requires LogOf(added, more, entity, colliders[entity].collidingEntities)
    ensures RunLog(colliders, view, keys + added, steps + more)
  {
    forall i | 0 <= i < |steps + more|
      ensures (keys + added)[i] == MinMax((steps + more)[i].first, (steps + more)[i].second)
    {
      if i >= |steps| {
        assert (steps + more)[i] == more[i - |steps|];
      }
    }
  }

  /** The keys of e paired with each of `others`. */
  ghost function PartnerKeys(e: Entity, others: set<Entity>): set<EntityPair>
  {
    set o | o in others :: MinMax(e, o)
  }

  lemma PartnerKeysAdd(e: Entity, others: set<Entity>, o: Entity)
    ensures PartnerKeys(e, others + {o}) == PartnerKeys(e, others) + {MinMax(e, o)}
  {
  }

  /** Visiting one more body adds the keys of its partners, or none when it is skipped. */
  lemma KeysOfStep(colliders: map<Entity, BoxCollider2D>, done: set<Entity>, e: Entity)
    requires done <= colliders.Keys && e in colliders
    ensures KeysOf(colliders, done + {e}) ==
      KeysOf(colliders, done) +
      (if ShouldSkipEntity(colliders[e]) then {} else PartnerKeys(e, colliders[e].collidingEntities))
  {
  }
}
