/**
 * Uniform spatial hash grid shared by both detectors
 * (src/systems/collision_detection_system.cpp:17-46 and
 * src/systems/collider_system.cpp:14-41 hold the same code).
 * A point falls in the cell (floor(x / size), floor(y / size)); a
 * neighbourhood query concatenates the lists of the 3x3 block of cells
 * around a point's cell, dx outer and dy inner, each from -1 to 1.
 */
module SpatialGrid {
  import opened Components

  /** Cell width of the multithreaded detector (`hash_grid_cell_size`). */
  const DETECTOR_CELL_SIZE: real := 250.0

  type CellSize = r: real | r > 0.0 witness 1.0

  datatype Cell = Cell(cx: int, cy: int)

  type Grid = map<Cell, seq<Entity>>

  /** Cell index k covers the half-open interval [size * k, size * (k + 1)). */
  predicate InSlab(v: real, size: CellSize, k: int)
  {
    size * (k as real) <= v < size * ((k + 1) as real)
  }

  /** Index of the slab containing v: floor(v / size). */
  function SlabIndex(v: real, size: CellSize): (k: int)
    ensures InSlab(v, size, k)
  {
    var q := v / size;
    assert v == size * q;
    assert q.Floor as real <= q < q.Floor as real + 1.0;
    MulMonotone(size, q.Floor as real, q);
    MulStrictMonotone(size, q, q.Floor as real + 1.0);
    q.Floor
  }

  lemma MulMonotone(s: real, a: real, b: real)
    requires s > 0.0 && a <= b
    ensures s * a <= s * b
  {
    assert s * b - s * a == s * (b - a);
  }

  lemma MulStrictMonotone(s: real, a: real, b: real)
    requires s > 0.0 && a < b
    ensures s * a < s * b
  {
    assert s * b - s * a == s * (b - a);
  }

  /** No other slab contains v: the slab of a value is unique. */
  lemma {:induction false} SlabIndexUnique(v: real, size: CellSize, k: int)
    requires InSlab(v, size, k)
    ensures k == SlabIndex(v, size)
  {
    var q := v / size;
    assert v == size * q;
    if q < k as real {
      MulStrictMonotone(size, q, k as real);
      assert false;
    }
    if (k + 1) as real <= q {
      MulMonotone(size, (k + 1) as real, q);
      assert false;
    }
    assert k as real <= q < (k + 1) as real;
  }

  /** get_hash_grid_cell: the cell of the point (x, y). */
  function HashGridCell(x: real, y: real, size: CellSize): (c: Cell)
    ensures InSlab(x, size, c.cx) && InSlab(y, size, c.cy)
  {
    Cell(SlabIndex(x, size), SlabIndex(y, size))
  }

  /** Every point lies in exactly one cell. */
  lemma {:induction false} HashGridCellUnique(x: real, y: real, size: CellSize, c: Cell)
    requires InSlab(x, size, c.cx) && InSlab(y, size, c.cy)
    ensures c == HashGridCell(x, y, size)
  {
    SlabIndexUnique(x, size, c.cx);
    SlabIndexUnique(y, size, c.cy);
  }

  /** Two values closer than one cell width fall in the same or neighbouring slabs. */
  lemma {:induction false} CloseValuesAdjacentSlabs(u: real, v: real, size: CellSize)
    requires u - v < size && v - u < size
    ensures -1 <= SlabIndex(u, size) - SlabIndex(v, size) <= 1
  {
    var i, j := SlabIndex(u, size), SlabIndex(v, size);
    if i >= j + 2 {
      SlabGap(u, v, size, i, j);
    }
    if j >= i + 2 {
      SlabGap(v, u, size, j, i);
    }
  }

  /** Values in slabs at least two apart are more than a cell width apart. */
  lemma SlabGap(u: real, v: real, size: CellSize, i: int, j: int)
    requires InSlab(u, size, i) && InSlab(v, size, j) && i >= j + 2
    ensures u - v > size
  {
    var lo := size * ((j + 1) as real);
    var hi := size * ((j + 2) as real);
    MulMonotone(size, (j + 2) as real, i as real);
    assert hi == lo + size;
    assert size * (i as real) <= u && v < lo;
  }

  /** The 3x3 block around a cell. */
  predicate Adjacent(a: Cell, b: Cell)
  {
    -1 <= a.cx - b.cx <= 1 && -1 <= a.cy - b.cy <= 1
  }

  /** The nine cells visited by the neighbourhood query, in loop order (dx outer, dy inner). */
  function NeighbourCells(base: Cell): (cs: seq<Cell>)
    ensures |cs| == 9
  {
    seq(9, k requires 0 <= k < 9 => Cell(base.cx + k / 3 - 1, base.cy + k % 3 - 1))
  }

  /** The list stored for a cell; an absent cell contributes nothing. */
  function CellList(g: Grid, c: Cell): seq<Entity>
  {
    if c in g then g[c] else []
  }

  /** Concatenation of the lists of the given cells, in order. */
  function Gather(g: Grid, cs: seq<Cell>): seq<Entity>
  {
    if cs == [] then [] else Gather(g, cs[..|cs| - 1]) + CellList(g, cs[|cs| - 1])
  }

  /** get_nearby_entities as a value: the lists of the 3x3 block around `base`. */
  function Nearby(g: Grid, base: Cell): seq<Entity>
  {
    Gather(g, NeighbourCells(base))
  }

  lemma {:induction false} GatherMembership(g: Grid, cs: seq<Cell>, e: Entity)
    ensures e in Gather(g, cs) <==> exists k :: 0 <= k < |cs| && e in CellList(g, cs[k])
  {
    if cs != [] {
      var init := cs[..|cs| - 1];
      GatherMembership(g, init, e);
      if e in Gather(g, cs) {
        if e !in Gather(g, init) {
          assert e in CellList(g, cs[|cs| - 1]);
        } else {
          var k :| 0 <= k < |init| && e in CellList(g, init[k]);
          assert cs[k] == init[k];
        }
      } else {
        forall k | 0 <= k < |cs| ensures e !in CellList(g, cs[k]) {
          if k < |cs| - 1 {
            assert cs[k] == init[k];
          }
        }
      }
    }
  }

  /** An entity is nearby iff it is listed in some cell of the 3x3 block. */
  lemma {:induction false} NearbyMembership(g: Grid, base: Cell, e: Entity)
    ensures e in Nearby(g, base) <==> exists c :: Adjacent(base, c) && e in CellList(g, c)
  {
    var cs := NeighbourCells(base);
    GatherMembership(g, cs, e);
    if e in Nearby(g, base) {
      var k :| 0 <= k < 9 && e in CellList(g, cs[k]);
      assert Adjacent(base, cs[k]);
    }
    if exists c :: Adjacent(base, c) && e in CellList(g, c) {
      var c :| Adjacent(base, c) && e in CellList(g, c);
      var k := 3 * (c.cx - base.cx + 1) + (c.cy - base.cy + 1);
      assert 0 <= k < 9;
      assert k / 3 == c.cx - base.cx + 1 && k % 3 == c.cy - base.cy + 1;
      assert cs[k] == c;
    }
  }

  /** Offset (dx, dy) of the block sits at position 3 * (dx + 1) + (dy + 1) of the loop order. */
  lemma NeighbourAt(base: Cell, dx: int, dy: int)
    requires -1 <= dx <= 1 && -1 <= dy <= 1
    ensures NeighbourCells(base)[3 * (dx + 1) + (dy + 1)] == Cell(base.cx + dx, base.cy + dy)
  {
    var k := 3 * (dx + 1) + (dy + 1);
    assert k / 3 == dx + 1 && k % 3 == dy + 1;
  }

  /** Gathering one more cell appends that cell's list. */
  lemma GatherStep(g: Grid, cs: seq<Cell>, k: int)
    requires 0 <= k < |cs|
    ensures Gather(g, cs[..k + 1]) == Gather(g, cs[..k]) + CellList(g, cs[k])
  {
    assert cs[..k + 1][..k] == cs[..k];
  }

  /** The grid class both systems own: cells plus the fixed cell size. */
  class HashGrid {
    const cellSize: CellSize
    var cells: Grid

    constructor (cellSize: CellSize)
      ensures this.cellSize == cellSize && cells == map[]
    {
      this.cellSize := cellSize;
      cells := map[];
    }

    method Clear()
      modifies this
      ensures cells == map[]
    {
      cells := map[];
    }

    /** register_entity_in_grid / register_pointer: append to the point's own cell only. */
    method Register(e: Entity, position: Vec2)
      modifies this
      ensures var c := HashGridCell(position.x, position.y, cellSize);
        c in cells && cells[c] == CellList(old(cells), c) + [e]
      ensures forall k :: k != HashGridCell(position.x, position.y, cellSize) ==>
        (k in cells <==> k in old(cells)) && CellList(cells, k) == CellList(old(cells), k)
    {
      var c := HashGridCell(position.x, position.y, cellSize);
      cells := cells[c := CellList(cells, c) + [e]];
    }

    /** get_nearby_entities: the nine lookups, concatenated in loop order. */
    method GetNearbyEntities(position: Vec2) returns (nearby: seq<Entity>)
      ensures nearby == Nearby(cells, HashGridCell(position.x, position.y, cellSize))
    {
      var base := HashGridCell(position.x, position.y, cellSize);
      ghost var cs := NeighbourCells(base);
      nearby := [];
      for dx := -1 to 2
        invariant nearby == Gather(cells, cs[..3 * (dx + 1)])
      {
        for dy := -1 to 2
          invariant nearby == Gather(cells, cs[..3 * (dx + 1) + (dy + 1)])
        {
          var cell := Cell(base.cx + dx, base.cy + dy);
          NeighbourAt(base, dx, dy);
          GatherStep(cells, cs, 3 * (dx + 1) + (dy + 1));
          if cell in cells {
            nearby := nearby + cells[cell];
          }
        }
      }
      assert cs[..9] == cs;
    }
  }
}
