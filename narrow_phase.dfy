/**
 * Pair canonicalisation and the strict AABB test shared by both detectors
 * (src/systems/collision_detection_system.cpp:69-89,
 * src/systems/collider_system.cpp:61-77).
 */
module NarrowPhase {
  import opened Components

  /** An unordered pair stored as (min, max) of the two integer ids. */
  datatype EntityPair = EntityPair(first: Entity, second: Entity)

  /** std::minmax on the ids. */
  function MinMax(a: Entity, b: Entity): (p: EntityPair)
    ensures p.first <= p.second
    ensures (p.first == a && p.second == b) || (p.first == b && p.second == a)
  {
    if b < a then EntityPair(b, a) else EntityPair(a, b)
  }

  /** (a, b) and (b, a) get the same key. */
  lemma MinMaxSymmetric(a: Entity, b: Entity)
    ensures MinMax(a, b) == MinMax(b, a)
  {
  }

  /** Two keys are equal exactly when they name the same unordered pair. */
  lemma MinMaxEqual(a: Entity, b: Entity, c: Entity, d: Entity)
    ensures MinMax(a, b) == MinMax(c, d) <==> (a == c && b == d) || (a == d && b == c)
  {
  }

  function Abs(v: real): real
  {
    if v < 0.0 then -v else v
  }

  /**
   * The strict AABB test on boxes centred on pa and pb: each box's minimum
   * corner is position minus half the size, and the boxes must overlap
   * strictly on both axes. Only boxes whose sizes add up to a positive
   * extent on both axes can collide.
   */
  predicate Collides(pa: Vec2, ca: BoxCollider2D, pb: Vec2, cb: BoxCollider2D): (r: bool)
    ensures r ==> ca.width + cb.width > 0.0 && ca.height + cb.height > 0.0
  {
    var aMinX := pa.x - ca.width / 2.0;
    var aMinY := pa.y - ca.height / 2.0;
    var bMinX := pb.x - cb.width / 2.0;
    var bMinY := pb.y - cb.height / 2.0;
    && aMinX < bMinX + cb.width
    && aMinX + ca.width > bMinX
    && aMinY < bMinY + cb.height
    && aMinY + ca.height > bMinY
  }

  /** The test does not depend on which body is called a. */
  lemma CollidesSymmetric(pa: Vec2, ca: BoxCollider2D, pb: Vec2, cb: BoxCollider2D)
    ensures Collides(pa, ca, pb, cb) == Collides(pb, cb, pa, ca)
  {
  }

  /** Centre form: the centres are closer than the sum of half sizes on both axes. */
  lemma CollidesIffCentresClose(pa: Vec2, ca: BoxCollider2D, pb: Vec2, cb: BoxCollider2D)
    ensures Collides(pa, ca, pb, cb) <==>
      Abs(pa.x - pb.x) < (ca.width + cb.width) / 2.0 &&
      Abs(pa.y - pb.y) < (ca.height + cb.height) / 2.0
  {
  }

  /** Boxes that only share an edge, on either side and either axis, do not collide. */
  lemma TouchingEdgesDoNotCollide(pa: Vec2, ca: BoxCollider2D, pb: Vec2, cb: BoxCollider2D)
    requires Abs(pa.x - pb.x) == (ca.width + cb.width) / 2.0 || Abs(pa.y - pb.y) == (ca.height + cb.height) / 2.0
    ensures !Collides(pa, ca, pb, cb)
  {
  }

  /** A box of width zero strictly inside another box still collides with it. */
  lemma ZeroWidthBoxCanCollide()
    ensures Collides(Vec2(0.0, 0.0), BoxCollider2D(0.0, 4.0, false, false, false, {}),
                     Vec2(0.0, 0.0), BoxCollider2D(10.0, 10.0, false, false, false, {}))
  {
  }

  /** No key occurs twice in a log of keys. */
  ghost predicate NoDuplicates(s: seq<EntityPair>)
  {
    forall i, j :: 0 <= i < j < |s| ==> s[i] != s[j]
  }

  lemma AppendFresh(s: seq<EntityPair>, k: EntityPair)
    requires NoDuplicates(s) && k !in s
    ensures NoDuplicates(s + [k])
  {
  }

  lemma AppendDistinct(xs: seq<EntityPair>, ys: seq<EntityPair>)
    requires NoDuplicates(xs) && NoDuplicates(ys)
    requires forall p :: p in ys ==> p !in xs
    ensures NoDuplicates(xs + ys)
  {
    forall i, j | 0 <= i < j < |xs + ys| ensures (xs + ys)[i] != (xs + ys)[j] {
      if i < |xs| && j >= |xs| {
        assert (xs + ys)[j] in ys;
      }
    }
  }
}
