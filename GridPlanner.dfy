/** The grid arithmetic of the splitter: how many chunks each axis gets, the
    local bounds of one chunk inside its region, the skip rule for empty
    extents, the sign-dependent offset of a chunk and the two corners of the
    chunk's box. Everything here is integer arithmetic on one axis at a time;
    `Plan` puts the three axes together. */
module GridPlanner {
  import opened Common

  // ---------------------------------------------------------------------
  // One axis
  // ---------------------------------------------------------------------

  /** Number of chunk indices on an axis of signed size `size`:
      `max(1, ceil(|size| / edge))`. */
  function ChunkCount(size: int, edge: int): (n: nat)
    requires edge >= 1
    ensures n >= 1
    ensures n * edge >= Abs(size)
    ensures n == 1 || (n - 1) * edge < Abs(size)
  {
    Max(1, CeilDiv(Abs(size), edge))
  }

  /** First local cell of chunk `i` (inclusive). */
  function Start(i: nat, edge: int): int
  {
    i * edge
  }

  /** Local end of chunk `i` (exclusive), clipped to the region. */
  function End(size: int, i: nat, edge: int): int
  {
    Min(Start(i, edge) + edge, Abs(size))
  }

  /** Number of cells chunk `i` has on this axis; `<= 0` means skipped. */
  function Extent(size: int, i: nat, edge: int): int
  {
    End(size, i, edge) - Start(i, edge)
  }

  /** +1 for a non-negative size component, -1 for a negative one. */
  function Sign(size: int): int
  {
    if size >= 0 then 1 else -1
  }

  /** Offset of chunk `i` from the shared origin, given its extent. */
  function Offset(size: int, i: nat, edge: int, extent: int): int
  {
    Sign(size) * i * edge + (if Sign(size) < 0 then -extent else 0)
  }

  /** Difference between the two box corners: `extent - 1` cells in the
      direction of the size's sign. */
  function Delta(size: int, extent: int): int
  {
    if size >= 0 then extent - 1 else -(extent - 1)
  }

  /** First box corner of chunk `i` on this axis. */
  function Pos1(size: int, i: nat, edge: int): int
  {
    Offset(size, i, edge, Extent(size, i, edge))
  }

  /** Second box corner of chunk `i` on this axis. */
  function Pos2(size: int, i: nat, edge: int): int
  {
    Pos1(size, i, edge) + Delta(size, Extent(size, i, edge))
  }

  // ---------------------------------------------------------------------
  // Lemmas about one axis
  // ---------------------------------------------------------------------

  /** Index `i` lies before the last chunk exactly when the next chunk
      still starts inside the region. */
  lemma {:induction false} BeforeCount(size: int, edge: int, i: nat)
    requires edge >= 1
    ensures i < ChunkCount(size, edge) ==> i == 0 || i * edge < Abs(size)
    ensures i >= ChunkCount(size, edge) ==> i * edge >= Abs(size)
  {
    var n := ChunkCount(size, edge);
    if i < n && i > 0 {
      MulMonotone(i, n - 1, edge);
    } else if i >= n {
      MulMonotone(n, i, edge);
    }
  }

  /** A chunk is skipped exactly when the axis is empty or its index lies at
      or beyond the chunk count; on a non-empty axis every planned chunk has
      between 1 and `edge` cells. */
  lemma {:induction false} ExtentRange(size: int, edge: int, i: nat)
    requires edge >= 1
    ensures Extent(size, i, edge) <= edge
    ensures Extent(size, i, edge) <= 0 <==> size == 0 || i >= ChunkCount(size, edge)
    ensures size != 0 && i < ChunkCount(size, edge) ==> 1 <= Extent(size, i, edge)
  {
    BeforeCount(size, edge, i);
  }

  /** An axis of size zero still gets one index, and that chunk is empty. */
  lemma ZeroAxis(edge: int)
    requires edge >= 1
    ensures ChunkCount(0, edge) == 1
    ensures Extent(0, 0, edge) == 0
  {
  }

  /** Chunk `i + 1` starts where chunk `i` ends; every chunk but the last is
      full and the last one holds the remainder. */
  lemma {:induction false} Adjacent(size: int, edge: int, i: nat)
    requires edge >= 1
    requires i + 1 < ChunkCount(size, edge)
    ensures Start(i + 1, edge) == End(size, i, edge)
    ensures Extent(size, i, edge) == edge
  {
    BeforeCount(size, edge, i + 1);
  }

  /** The last chunk holds what the full chunks leave of the axis. */
  lemma {:induction false} LastExtent(size: int, edge: int)
    requires edge >= 1
    ensures Extent(size, ChunkCount(size, edge) - 1, edge)
         == Abs(size) - (ChunkCount(size, edge) - 1) * edge
  {
    var n := ChunkCount(size, edge);
    assert (n - 1) * edge + edge == n * edge;
  }

  /** Sum of the extents of chunks `0 .. n-1`. */
  ghost function ExtentSum(size: int, edge: int, n: nat): int
    requires edge >= 1
  {
    if n == 0 then 0 else ExtentSum(size, edge, n - 1) + Extent(size, n - 1, edge)
  }

  /** The first `n` planned chunks cover `min(n * edge, |size|)` cells. */
  lemma {:induction false} ExtentSumPrefix(size: int, edge: int, n: nat)
    requires edge >= 1
    requires n <= ChunkCount(size, edge)
    ensures ExtentSum(size, edge, n) == Min(n * edge, Abs(size))
  {
    if n > 0 {
      ExtentSumPrefix(size, edge, n - 1);
      BeforeCount(size, edge, n - 1);
      assert (n - 1) * edge + edge == n * edge;
    }
  }

  /** The extents of all planned chunks add up to the size of the axis:
      no gap and no overlap. */
  lemma ExtentSumTotal(size: int, edge: int)
    requires edge >= 1
    ensures ExtentSum(size, edge, ChunkCount(size, edge)) == Abs(size)
  {
    ExtentSumPrefix(size, edge, ChunkCount(size, edge));
  }

  /** The offset is `i * edge` on a non-negative axis and
      `-(i * edge) - extent` on a negative one. */
  lemma OffsetCases(size: int, edge: int, i: nat, extent: int)
    ensures size >= 0 ==> Offset(size, i, edge, extent) == i * edge
    ensures size < 0 ==> Offset(size, i, edge, extent) == -(i * edge) - extent
  {
    if size < 0 {
      assert Sign(size) * i * edge == -(i * edge);
    }
  }

  /** Consecutive planned chunks: on a non-negative axis the offsets grow by
      exactly `edge`; on a negative axis offset `i + 1` lies `extent(i + 1)`
      below offset `i`, so by exactly `edge` when chunk `i + 1` is full. */
  lemma {:induction false} OffsetStep(size: int, edge: int, i: nat)
    requires edge >= 1
    requires i + 1 < ChunkCount(size, edge)
    ensures size >= 0 ==> Pos1(size, i + 1, edge) == Pos1(size, i, edge) + edge
    ensures size < 0 ==> Pos1(size, i + 1, edge) == Pos1(size, i, edge) - Extent(size, i + 1, edge)
    ensures size < 0 && Extent(size, i + 1, edge) == edge ==>
              Pos1(size, i + 1, edge) == Pos1(size, i, edge) - edge
  {
    Adjacent(size, edge, i);
    OffsetCases(size, edge, i, Extent(size, i, edge));
    OffsetCases(size, edge, i + 1, Extent(size, i + 1, edge));
    assert (i + 1) * edge == i * edge + edge;
  }

  /** A non-empty chunk's box spans exactly `extent` cells and runs from
      `pos1` in the direction of the size's sign. */
  lemma BoxSpan(size: int, edge: int, i: nat)
    requires Extent(size, i, edge) >= 1
    ensures Abs(Pos2(size, i, edge) - Pos1(size, i, edge)) + 1 == Extent(size, i, edge)
    ensures size >= 0 ==> Pos1(size, i, edge) <= Pos2(size, i, edge)
    ensures size < 0 ==> Pos2(size, i, edge) <= Pos1(size, i, edge)
  {
  }

  /** On a non-negative axis chunk `i`'s box is `[i * edge, end(i) - 1]`. */
  lemma BoxNonNegative(size: int, edge: int, i: nat)
    requires size >= 0
    requires Extent(size, i, edge) >= 1
    ensures Pos1(size, i, edge) == Start(i, edge)
    ensures Pos2(size, i, edge) == End(size, i, edge) - 1
  {
    OffsetCases(size, edge, i, Extent(size, i, edge));
  }

  /** On a non-negative axis every cell `c` of `[0, size - 1]` lies in the
      box of chunk `c / edge`, a planned index. */
  lemma {:induction false} BoxesCover(size: int, edge: int, c: int)
    requires edge >= 1
    requires 0 <= c < size
    ensures c / edge < ChunkCount(size, edge)
    ensures Extent(size, c / edge, edge) >= 1
    ensures Pos1(size, c / edge, edge) <= c <= Pos2(size, c / edge, edge)
  {
    var i := c / edge;
    assert i * edge <= c < i * edge + edge;
    BeforeCount(size, edge, i);
    BoxNonNegative(size, edge, i);
  }

  /** On a non-negative axis no cell lies in two boxes: a cell in the box of
      chunk `i` determines `i`. */
  lemma {:induction false} BoxesDisjoint(size: int, edge: int, i: nat, c: int)
    requires edge >= 1
    requires size >= 0
    requires Extent(size, i, edge) >= 1
    requires Pos1(size, i, edge) <= c <= Pos2(size, i, edge)
    ensures i == c / edge
  {
    BoxNonNegative(size, edge, i);
    assert i * edge <= c < i * edge + edge;
    var q := c / edge;
    assert q * edge <= c < q * edge + edge;
    if q < i {
      MulMonotone(q + 1, i, edge);
    } else if q > i {
      MulMonotone(i + 1, q, edge);
    }
  }

  /** On a non-negative axis the box of chunk `i + 1` starts right after the
      box of chunk `i`. */
  lemma {:induction false} BoxesAdjacentNonNegative(size: int, edge: int, i: nat)
    requires edge >= 1
    requires size >= 0
    requires i + 1 < ChunkCount(size, edge)
    ensures Pos1(size, i + 1, edge) == Pos2(size, i, edge) + 1
  {
    Adjacent(size, edge, i);
    ExtentRange(size, edge, i + 1);
    BoxNonNegative(size, edge, i);
    BoxNonNegative(size, edge, i + 1);
  }

  /** Number of cells the intervals `[lo1, hi1]` and `[lo2, hi2]` share. */
  function SharedCells(lo1: int, hi1: int, lo2: int, hi2: int): (n: nat)
    ensures n > 0 <==> lo1 <= hi1 && lo2 <= hi2 && lo1 <= hi2 && lo2 <= hi1
  {
    Max(0, Min(hi1, hi2) - Max(lo1, lo2) + 1)
  }

  /** On a negative axis the low corner of chunk `i` and the high corner of
      chunk `i + 1` are `1 + extent(i + 1) - edge` apart: the boxes touch when
      chunk `i + 1` is full, and otherwise, for the partial last chunk, they
      share `min(extent(i + 1), edge - extent(i + 1))` cells. */
  lemma {:induction false} BoxesNegative(size: int, edge: int, i: nat)
    requires edge >= 1
    requires size < 0
    requires i + 1 < ChunkCount(size, edge)
    ensures Pos2(size, i, edge) - Pos1(size, i + 1, edge) == 1 + Extent(size, i + 1, edge) - edge
    ensures Extent(size, i + 1, edge) == edge <==> Pos2(size, i, edge) == Pos1(size, i + 1, edge) + 1
    ensures Extent(size, i + 1, edge) < edge ==> Pos1(size, i + 1, edge) >= Pos2(size, i, edge)
    ensures SharedCells(Pos2(size, i, edge), Pos1(size, i, edge), Pos2(size, i + 1, edge), Pos1(size, i + 1, edge))
         == Min(Extent(size, i + 1, edge), edge - Extent(size, i + 1, edge))
  {
    OffsetStep(size, edge, i);
    ExtentRange(size, edge, i + 1);
    Adjacent(size, edge, i);
  }

  /** The smallest case: an axis of size -10 split with edge 4 has chunks of
      4, 4 and 2 cells, and the box of the last chunk, `[-11, -10]`, lies
      inside the box of the chunk before it, `[-11, -8]`; they share 2 cells. */
  lemma NegativeOverlapExample()
    ensures ChunkCount(-10, 4) == 3
    ensures Extent(-10, 1, 4) == 4 && Extent(-10, 2, 4) == 2
    ensures Pos2(-10, 2, 4) == Pos2(-10, 1, 4) == -11
    ensures Pos1(-10, 1, 4) == -8 && Pos1(-10, 2, 4) == -10
    ensures SharedCells(Pos2(-10, 1, 4), Pos1(-10, 1, 4), Pos2(-10, 2, 4), Pos1(-10, 2, 4)) == 2
  {
    assert CeilDiv(10, 4) == 3 by { assert (10 + 4 - 1) / 4 == 3; }
    assert Start(1, 4) == 4 && Start(2, 4) == 8;
    OffsetCases(-10, 4, 1, 4);
    OffsetCases(-10, 4, 2, 2);
  }

  // ---------------------------------------------------------------------
  // Three axes
  // ---------------------------------------------------------------------

  /** Everything the splitter derives for one chunk index triple. */
  datatype ChunkPlan = ChunkPlan(start: Vec3, end: Vec3, extent: Vec3, pos1: Vec3, pos2: Vec3)

  /** Chunk counts of the three axes. */
  function GridCounts(size: Vec3, edge: int): (c: Vec3)
    requires edge >= 1
    ensures c.x >= 1 && c.y >= 1 && c.z >= 1
    ensures c.x * edge >= Abs(size.x) && c.y * edge >= Abs(size.y) && c.z * edge >= Abs(size.z)
    ensures (c.x == 1 || (c.x - 1) * edge < Abs(size.x)) &&
            (c.y == 1 || (c.y - 1) * edge < Abs(size.y)) &&
            (c.z == 1 || (c.z - 1) * edge < Abs(size.z))
  {
    Vec3(ChunkCount(size.x, edge), ChunkCount(size.y, edge), ChunkCount(size.z, edge))
  }

  /** One axis of a chunk that is not empty: it starts inside the region and
      ends at its edge at the latest, holds between 1 and `edge` cells, and
      its box corners span exactly those cells. */
  predicate AxisFits(size: int, start: int, end: int, extent: int, pos1: int, pos2: int, edge: int)
  {
    0 <= start && end <= Abs(size) && 1 <= extent <= edge && Abs(pos2 - pos1) + 1 == extent
  }

  /** Every axis of a chunk with a positive extent fits. */
  lemma AxisPlan(size: int, i: nat, edge: int)
    requires edge >= 1
    ensures Extent(size, i, edge) >= 1 ==>
              AxisFits(size, Start(i, edge), End(size, i, edge), Extent(size, i, edge),
                       Pos1(size, i, edge), Pos2(size, i, edge), edge)
  {
    MulMonotone(0, i, edge);
    ExtentRange(size, edge, i);
  }

  /** The plan of chunk `(ix, iy, iz)` of a region of signed size `size`: a
      chunk that is not skipped fits inside the region on every axis. */
  function Plan(size: Vec3, ix: nat, iy: nat, iz: nat, edge: int): (p: ChunkPlan)
    requires edge >= 1
    ensures !Skipped(p) ==>
              AxisFits(size.x, p.start.x, p.end.x, p.extent.x, p.pos1.x, p.pos2.x, edge) &&
              AxisFits(size.y, p.start.y, p.end.y, p.extent.y, p.pos1.y, p.pos2.y, edge) &&
              AxisFits(size.z, p.start.z, p.end.z, p.extent.z, p.pos1.z, p.pos2.z, edge)
  {
    AxisPlan(size.x, ix, edge);
    AxisPlan(size.y, iy, edge);
    AxisPlan(size.z, iz, edge);
    ChunkPlan(
      Vec3(Start(ix, edge), Start(iy, edge), Start(iz, edge)),
      Vec3(End(size.x, ix, edge), End(size.y, iy, edge), End(size.z, iz, edge)),
      Vec3(Extent(size.x, ix, edge), Extent(size.y, iy, edge), Extent(size.z, iz, edge)),
      Vec3(Pos1(size.x, ix, edge), Pos1(size.y, iy, edge), Pos1(size.z, iz, edge)),
      Vec3(Pos2(size.x, ix, edge), Pos2(size.y, iy, edge), Pos2(size.z, iz, edge)))
  }

  /** The skip rule: a chunk with an empty extent on any axis. */
  predicate Skipped(p: ChunkPlan)
  {
    p.extent.x <= 0 || p.extent.y <= 0 || p.extent.z <= 0
  }

  /** A chunk index triple is skipped exactly when some axis is empty or the
      index lies outside the planned grid. */
  lemma SkippedIff(size: Vec3, ix: nat, iy: nat, iz: nat, edge: int)
    requires edge >= 1
    ensures Skipped(Plan(size, ix, iy, iz, edge)) <==>
              size.x == 0 || size.y == 0 || size.z == 0 ||
              ix >= GridCounts(size, edge).x || iy >= GridCounts(size, edge).y ||
              iz >= GridCounts(size, edge).z
  {
    ExtentRange(size.x, edge, ix);
    ExtentRange(size.y, edge, iy);
    ExtentRange(size.z, edge, iz);
  }

  /** A chunk that is not skipped lies inside the region on every axis. */
  lemma PlanInRegion(size: Vec3, ix: nat, iy: nat, iz: nat, edge: int)
    requires edge >= 1
    requires !Skipped(Plan(size, ix, iy, iz, edge))
    ensures var p := Plan(size, ix, iy, iz, edge);
      0 <= p.start.x && p.end.x <= Abs(size.x) &&
      0 <= p.start.y && p.end.y <= Abs(size.y) &&
      0 <= p.start.z && p.end.z <= Abs(size.z)
  {
    MulMonotone(0, ix, edge);
    MulMonotone(0, iy, edge);
    MulMonotone(0, iz, edge);
  }
}
