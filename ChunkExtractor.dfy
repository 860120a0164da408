/** Extraction of one chunk: the block states of the chunk's window are
    copied from the region's block-state container into a fresh container
    while the present ones are counted, and the block-entity records whose
    position lies in the window are rekeyed and relocated to chunk-local
    coordinates. */
module ChunkExtractor {
  import opened Common
  import opened GridPlanner

  // ---------------------------------------------------------------------
  // Block states
  // ---------------------------------------------------------------------

  /** The window `[start, start + ext)` lies inside the container `src`,
      whose three dimensions are x, y and z. */
  predicate Fits<S>(src: array3<Option<S>>, start: Vec3, ext: Vec3)
  {
    0 <= start.x && 0 <= ext.x && start.x + ext.x <= src.Length0 &&
    0 <= start.y && 0 <= ext.y && start.y + ext.y <= src.Length1 &&
    0 <= start.z && 0 <= ext.z && start.z + ext.z <= src.Length2
  }

  /** Whether the source cell at local window coordinate `(x, y, z)` holds
      a block state. */
  predicate Present<S>(src: array3<Option<S>>, start: Vec3, ext: Vec3, x: int, y: int, z: int)
    reads src
    requires Fits(src, start, ext)
    requires 0 <= x < ext.x && 0 <= y < ext.y && 0 <= z < ext.z
  {
    src[start.x + x, start.y + y, start.z + z].Some?
  }

  /** Present cells among the first `n` cells of row `(y, z)`. */
  function RowCount<S>(src: array3<Option<S>>, start: Vec3, ext: Vec3, y: int, z: int, n: nat): nat
    reads src
    requires Fits(src, start, ext)
    requires 0 <= y < ext.y && 0 <= z < ext.z && n <= ext.x
  {
    if n == 0 then 0
    else RowCount(src, start, ext, y, z, n - 1) + (if Present(src, start, ext, n - 1, y, z) then 1 else 0)
  }

  /** Present cells among the first `m` rows of layer `y`. */
  function LayerCount<S>(src: array3<Option<S>>, start: Vec3, ext: Vec3, y: int, m: nat): nat
    reads src
    requires Fits(src, start, ext)
    requires 0 <= y < ext.y && m <= ext.z
  {
    if m == 0 then 0
    else LayerCount(src, start, ext, y, m - 1) + RowCount(src, start, ext, y, m - 1, ext.x)
  }

  /** Present cells among the first `l` layers of the window. */
  function WindowCount<S>(src: array3<Option<S>>, start: Vec3, ext: Vec3, l: nat): nat
    reads src
    requires Fits(src, start, ext)
    requires l <= ext.y
  {
    if l == 0 then 0
    else WindowCount(src, start, ext, l - 1) + LayerCount(src, start, ext, l - 1, ext.z)
  }

  /** The local coordinates of the present cells of row `(y, z)`, below `n`. */
  ghost function RowCells<S>(src: array3<Option<S>>, start: Vec3, ext: Vec3, y: int, z: int, n: int): set<Vec3>
    reads src
    requires Fits(src, start, ext)
    requires 0 <= y < ext.y && 0 <= z < ext.z && n <= ext.x
  {
    set x | 0 <= x < n && Present(src, start, ext, x, y, z) :: Vec3(x, y, z)
  }

  /** The local coordinates of the present cells of layer `y`, rows below `m`. */
  ghost function LayerCells<S>(src: array3<Option<S>>, start: Vec3, ext: Vec3, y: int, m: int): set<Vec3>
    reads src
    requires Fits(src, start, ext)
    requires 0 <= y < ext.y && m <= ext.z
  {
    set x, z | 0 <= x < ext.x && 0 <= z < m && Present(src, start, ext, x, y, z) :: Vec3(x, y, z)
  }

  /** The local coordinates of the present cells of the layers below `l`. */
  ghost function WindowCells<S>(src: array3<Option<S>>, start: Vec3, ext: Vec3, l: int): set<Vec3>
    reads src
    requires Fits(src, start, ext)
    requires l <= ext.y
  {
    set x, y, z | 0 <= x < ext.x && 0 <= y < l && 0 <= z < ext.z && Present(src, start, ext, x, y, z)
      :: Vec3(x, y, z)
  }

  /** The local coordinates of every present cell of the window. */
  ghost function PresentCells<S>(src: array3<Option<S>>, start: Vec3, ext: Vec3): set<Vec3>
    reads src
    requires Fits(src, start, ext)
  {
    WindowCells(src, start, ext, ext.y)
  }

  lemma {:induction false} RowCountIsCardinality<S>(src: array3<Option<S>>, start: Vec3, ext: Vec3, y: int, z: int, n: nat)
    requires Fits(src, start, ext)
    requires 0 <= y < ext.y && 0 <= z < ext.z && n <= ext.x
    ensures RowCount(src, start, ext, y, z, n) == |RowCells(src, start, ext, y, z, n)|
  {
    if n > 0 {
      RowCountIsCardinality(src, start, ext, y, z, n - 1);
      var prev := RowCells(src, start, ext, y, z, n - 1);
      var last: set<Vec3> := if Present(src, start, ext, n - 1, y, z) then {Vec3(n - 1, y, z)} else {};
      assert RowCells(src, start, ext, y, z, n) == prev + last;
      assert prev * last == {};
    }
  }

  lemma {:induction false} LayerCountIsCardinality<S>(src: array3<Option<S>>, start: Vec3, ext: Vec3, y: int, m: nat)
    requires Fits(src, start, ext)
    requires 0 <= y < ext.y && m <= ext.z
    ensures LayerCount(src, start, ext, y, m) == |LayerCells(src, start, ext, y, m)|
  {
    if m > 0 {
      LayerCountIsCardinality(src, start, ext, y, m - 1);
      RowCountIsCardinality(src, start, ext, y, m - 1, ext.x);
      var prev := LayerCells(src, start, ext, y, m - 1);
      var row := RowCells(src, start, ext, y, m - 1, ext.x);
      assert LayerCells(src, start, ext, y, m) == prev + row;
      assert prev * row == {};
    }
  }

  lemma {:induction false} WindowCountIsCardinality<S>(src: array3<Option<S>>, start: Vec3, ext: Vec3, l: nat)
    requires Fits(src, start, ext)
    requires l <= ext.y
    ensures WindowCount(src, start, ext, l) == |WindowCells(src, start, ext, l)|
  {
    if l > 0 {
      WindowCountIsCardinality(src, start, ext, l - 1);
      LayerCountIsCardinality(src, start, ext, l - 1, ext.z);
      var prev := WindowCells(src, start, ext, l - 1);
      var layer := LayerCells(src, start, ext, l - 1, ext.z);
      assert WindowCells(src, start, ext, l) == prev + layer;
      assert prev * layer == {};
    }
  }

  /** Whether local cell `(x, y, z)` comes before `(cx, cy, cz)` in the order
      of the copy loop: y outermost, then z, then x. */
  predicate Before(x: int, y: int, z: int, cx: int, cy: int, cz: int)
  {
    y < cy || (y == cy && (z < cz || (z == cz && x < cx)))
  }

  /** The cells the copy loop has visited hold the source's state, the
      others are still empty. */
  ghost predicate CopiedUpTo<S>(blocks: array3<Option<S>>, src: array3<Option<S>>, start: Vec3, ext: Vec3,
                                cx: int, cy: int, cz: int)
    reads blocks, src
  {
    Fits(src, start, ext) &&
    blocks.Length0 == ext.x && blocks.Length1 == ext.y && blocks.Length2 == ext.z &&
    forall x, y, z :: 0 <= x < ext.x && 0 <= y < ext.y && 0 <= z < ext.z ==>
      blocks[x, y, z] == if Before(x, y, z, cx, cy, cz) then src[start.x + x, start.y + y, start.z + z] else None
  }

  /** Finishing row `z` of layer `y` is starting row `z + 1`. */
  lemma RowDone<S>(blocks: array3<Option<S>>, src: array3<Option<S>>, start: Vec3, ext: Vec3, y: int, z: int)
    requires CopiedUpTo(blocks, src, start, ext, ext.x, y, z)
    ensures CopiedUpTo(blocks, src, start, ext, 0, y, z + 1)
  {
    forall x, y', z' | 0 <= x < ext.x && 0 <= y' < ext.y && 0 <= z' < ext.z
      ensures Before(x, y', z', ext.x, y, z) == Before(x, y', z', 0, y, z + 1)
    {
    }
  }

  /** Finishing layer `y` is starting layer `y + 1`. */
  lemma LayerDone<S>(blocks: array3<Option<S>>, src: array3<Option<S>>, start: Vec3, ext: Vec3, y: int)
    requires CopiedUpTo(blocks, src, start, ext, 0, y, ext.z)
    ensures CopiedUpTo(blocks, src, start, ext, 0, y + 1, 0)
  {
    forall x, y', z' | 0 <= x < ext.x && 0 <= y' < ext.y && 0 <= z' < ext.z
      ensures Before(x, y', z', 0, y, ext.z) == Before(x, y', z', 0, y + 1, 0)
    {
    }
  }

  /** `blocks` has the window's size and holds the window's cells: the
      source's state wherever the source has one, and nothing elsewhere. */
  ghost predicate IsWindowCopy<S>(blocks: array3<Option<S>>, src: array3<Option<S>>, start: Vec3, ext: Vec3)
    reads blocks, src
    requires Fits(src, start, ext)
  {
    blocks.Length0 == ext.x && blocks.Length1 == ext.y && blocks.Length2 == ext.z &&
    forall x, y, z :: 0 <= x < ext.x && 0 <= y < ext.y && 0 <= z < ext.z ==>
      blocks[x, y, z] == src[start.x + x, start.y + y, start.z + z]
  }

  /** Past the last layer, every cell holds the source's state. */
  lemma AllCopied<S>(blocks: array3<Option<S>>, src: array3<Option<S>>, start: Vec3, ext: Vec3)
    requires CopiedUpTo(blocks, src, start, ext, 0, ext.y, 0)
    ensures IsWindowCopy(blocks, src, start, ext)
  {
  }

  /** The innermost copy loop, over the cells of row `(y, z)`: each present
      source state is written to the chunk, and `n` is the number of them. */
  method CopyRow<S>(blocks: array3<Option<S>>, src: array3<Option<S>>, start: Vec3, ext: Vec3, y: int, z: int)
    returns (n: nat)
    requires blocks != src
    requires CopiedUpTo(blocks, src, start, ext, 0, y, z)
    requires 0 <= y < ext.y && 0 <= z < ext.z
    modifies blocks
    ensures CopiedUpTo(blocks, src, start, ext, 0, y, z + 1)
    ensures n == RowCount(src, start, ext, y, z, ext.x)
  {
    n := 0;
    var x := 0;
    while x < ext.x
      invariant 0 <= x <= ext.x
      invariant CopiedUpTo(blocks, src, start, ext, x, y, z)
      invariant n == RowCount(src, start, ext, y, z, x)
    {
      var state := src[start.x + x, start.y + y, start.z + z];
      label Visit:
      if state.Some? {
        blocks[x, y, z] := state;
        n := n + 1;
      }
      assert CopiedUpTo(blocks, src, start, ext, x + 1, y, z) by {
        forall a, b, c | 0 <= a < ext.x && 0 <= b < ext.y && 0 <= c < ext.z
          ensures blocks[a, b, c] == if Before(a, b, c, x + 1, y, z) then src[start.x + a, start.y + b, start.z + c] else None
        {
          if a != x || b != y || c != z {
            assert blocks[a, b, c] == old@Visit(blocks[a, b, c]);
          }
        }
      }
      x := x + 1;
    }
    RowDone(blocks, src, start, ext, y, z);
  }

  /** The middle copy loop, over the rows of layer `y`. */
  method CopyLayer<S>(blocks: array3<Option<S>>, src: array3<Option<S>>, start: Vec3, ext: Vec3, y: int)
    returns (n: nat)
    requires blocks != src
    requires CopiedUpTo(blocks, src, start, ext, 0, y, 0)
    requires 0 <= y < ext.y
    modifies blocks
    ensures CopiedUpTo(blocks, src, start, ext, 0, y + 1, 0)
    ensures n == LayerCount(src, start, ext, y, ext.z)
  {
    n := 0;
    var z := 0;
    while z < ext.z
      invariant 0 <= z <= ext.z
      invariant CopiedUpTo(blocks, src, start, ext, 0, y, z)
      invariant n == LayerCount(src, start, ext, y, z)
    {
      var row := CopyRow(blocks, src, start, ext, y, z);
      n := n + row;
      z := z + 1;
    }
    LayerDone(blocks, src, start, ext, y);
  }

  /** The copy loop: a fresh container of the window's size receives every
      present block state of the window, and `count` is the number of
      present cells of the window. Absent cells stay empty, so the chunk
      equals the window cell for cell. The loop runs over y, then z, then
      x, as the source's does; the z and x loops are `CopyLayer` and
      `CopyRow`. */
  method CopyBlocks<S>(src: array3<Option<S>>, start: Vec3, ext: Vec3)
    returns (blocks: array3<Option<S>>, count: nat)
    requires Fits(src, start, ext)
    ensures fresh(blocks)
    ensures IsWindowCopy(blocks, src, start, ext)
    ensures count == |PresentCells(src, start, ext)|
  {
    blocks := new Option<S>[ext.x, ext.y, ext.z]((_, _, _) => None);
    count := 0;
    assert CopiedUpTo(blocks, src, start, ext, 0, 0, 0);
    var y := 0;
    while y < ext.y
      invariant 0 <= y <= ext.y
      invariant CopiedUpTo(blocks, src, start, ext, 0, y, 0)
      invariant count == WindowCount(src, start, ext, y)
    {
      var layer := CopyLayer(blocks, src, start, ext, y);
      count := count + layer;
      y := y + 1;
    }
    AllCopied(blocks, src, start, ext);
    WindowCountIsCardinality(src, start, ext, ext.y);
  }

  // ---------------------------------------------------------------------
  // Block-entity records
  // ---------------------------------------------------------------------

  /** A tag of a block-entity record: the integer tags the splitter writes,
      and every other tag as an opaque value. */
  datatype Tag = IntTag(i: int) | OtherTag(id: nat)

  /** A block-entity record (an NBT compound): tag name to tag. */
  type Nbt = map<string, Tag>

  /** The record with its `x`, `y` and `z` integer tags set to `p`, as three
      `putInt` calls on a copy. */
  function WithPosition(nbt: Nbt, p: Vec3): Nbt
  {
    nbt["x" := IntTag(p.x)]["y" := IntTag(p.y)]["z" := IntTag(p.z)]
  }

  /** The relocated record has the three position tags, holding `p`, and
      keeps every other tag of the original. */
  lemma WithPositionTags(nbt: Nbt, p: Vec3)
    ensures var r := WithPosition(nbt, p);
      r.Keys == nbt.Keys + {"x", "y", "z"} &&
      r["x"] == IntTag(p.x) && r["y"] == IntTag(p.y) && r["z"] == IntTag(p.z) &&
      forall k :: k in nbt && k != "x" && k != "y" && k != "z" ==> r[k] == nbt[k]
  {
  }

  /** Position `p` lies in the half-open box `[start, end)` on all three axes. */
  predicate InBox(p: Vec3, start: Vec3, end: Vec3)
  {
    start.x <= p.x < end.x && start.y <= p.y < end.y && start.z <= p.z < end.z
  }

  /** The records of `tiles` under the keys `keys` that lie in `[start, end)`,
      rekeyed to `p - start` and relocated there. */
  ghost function Translated(tiles: map<Vec3, Nbt>, keys: set<Vec3>, start: Vec3, end: Vec3): map<Vec3, Nbt>
  {
    map p | p in keys && p in tiles && InBox(p, start, end) :: p.Minus(start) := WithPosition(tiles[p], p.Minus(start))
  }

  /** A local position is a key of the translated map exactly when the
      record it came from is there, and it holds that record relocated. */
  lemma TranslatedAt(tiles: map<Vec3, Nbt>, keys: set<Vec3>, start: Vec3, end: Vec3, q: Vec3)
    ensures var out := Translated(tiles, keys, start, end);
      var p := q.Plus(start);
      (q in out <==> p in keys && p in tiles && InBox(p, start, end)) &&
      (q in out ==> out[q] == WithPosition(tiles[p], q))
  {
    var p := q.Plus(start);
    assert p.Minus(start) == q;
    if q in Translated(tiles, keys, start, end) {
      var p' :| p' in keys && p' in tiles && InBox(p', start, end) && p'.Minus(start) == q;
      assert p' == p;
    }
  }

  /** Taking one more key into account adds at most its translated record. */
  lemma TranslatedStep(tiles: map<Vec3, Nbt>, done: set<Vec3>, p: Vec3, start: Vec3, end: Vec3)
    requires p in tiles
    ensures Translated(tiles, done + {p}, start, end)
         == if InBox(p, start, end)
            then Translated(tiles, done, start, end)[p.Minus(start) := WithPosition(tiles[p], p.Minus(start))]
            else Translated(tiles, done, start, end)
  {
    var before := Translated(tiles, done, start, end);
    var after := Translated(tiles, done + {p}, start, end);
    var expected := if InBox(p, start, end)
                    then before[p.Minus(start) := WithPosition(tiles[p], p.Minus(start))]
                    else before;
    forall q ensures (q in after <==> q in expected) && (q in after ==> after[q] == expected[q]) {
      TranslatedAt(tiles, done, start, end, q);
      TranslatedAt(tiles, done + {p}, start, end, q);
      assert q == p.Minus(start) <==> q.Plus(start) == p;
    }
    assert after == expected;
  }

  /** What the translated map holds: a record of `tiles` is kept exactly
      when its position lies in `[start, end)`, under its local position and
      with its position tags rewritten to it, and every key lies in
      `[0, end - start)`. */
  lemma TranslatedContents(tiles: map<Vec3, Nbt>, start: Vec3, end: Vec3)
    ensures var out := Translated(tiles, tiles.Keys, start, end);
      (forall p :: p in tiles ==> (p.Minus(start) in out <==> InBox(p, start, end))) &&
      (forall p :: p in tiles && InBox(p, start, end) ==>
         out[p.Minus(start)] == WithPosition(tiles[p], p.Minus(start))) &&
      (forall q :: q in out ==> InBox(q, Vec3(0, 0, 0), end.Minus(start)) && InBox(q.Plus(start), start, end))
  {
    var out := Translated(tiles, tiles.Keys, start, end);
    forall p | p in tiles
      ensures p.Minus(start) in out <==> InBox(p, start, end)
      ensures InBox(p, start, end) ==> out[p.Minus(start)] == WithPosition(tiles[p], p.Minus(start))
    {
      TranslatedAt(tiles, tiles.Keys, start, end, p.Minus(start));
      assert p.Minus(start).Plus(start) == p;
    }
    forall q | q in out
      ensures InBox(q, Vec3(0, 0, 0), end.Minus(start)) && InBox(q.Plus(start), start, end)
    {
      TranslatedAt(tiles, tiles.Keys, start, end, q);
    }
  }

  /** The block-entity loop: every record whose position lies in
      `[start, end)` is kept, under its chunk-local position, with its
      position tags rewritten to that local position; no other record is
      kept, and every kept key lies in `[0, end - start)`. */
  method TranslateTileEntities(tiles: map<Vec3, Nbt>, start: Vec3, end: Vec3) returns (out: map<Vec3, Nbt>)
    ensures out == Translated(tiles, tiles.Keys, start, end)
    ensures forall p :: p in tiles ==> (p.Minus(start) in out <==> InBox(p, start, end))
    ensures forall p :: p in tiles && InBox(p, start, end) ==>
              out[p.Minus(start)] == WithPosition(tiles[p], p.Minus(start))
    ensures forall q :: q in out ==> InBox(q, Vec3(0, 0, 0), end.Minus(start)) && InBox(q.Plus(start), start, end)
  {
    out := map[];
    var todo := tiles.Keys;
    while todo != {}
      invariant todo <= tiles.Keys
      invariant out == Translated(tiles, tiles.Keys - todo, start, end)
      decreases |todo|
    {
      var p :| p in todo;
      TranslatedStep(tiles, tiles.Keys - todo, p, start, end);
      if InBox(p, start, end) {
        var local := p.Minus(start);
        out := out[local := WithPosition(tiles[p], local)];
      }
      assert tiles.Keys - (todo - {p}) == (tiles.Keys - todo) + {p};
      todo := todo - {p};
    }
    assert tiles.Keys - todo == tiles.Keys;
    TranslatedContents(tiles, start, end);
  }

  // ---------------------------------------------------------------------
  // One chunk
  // ---------------------------------------------------------------------

  /** A chunk schematic: its plan (bounds, offset and box corners), its
      block-state container and the block count stored in its metadata. */
  datatype Chunk<S> = Chunk(plan: ChunkPlan, blocks: array3<Option<S>>, totalBlocks: nat)

  /** Whether chunk `(ix, iy, iz)` comes out non-null: its extent is not
      empty, the empty chunk schematic and its container were created, the
      region has a block container and the window fits in it. An edge below
      1 leaves every extent at most the edge, so every chunk is skipped. */
  predicate Produced<S>(size: Vec3, ix: nat, iy: nat, iz: nat, edge: int, created: bool,
                        src: Option<array3<Option<S>>>)
  {
    edge >= 1 &&
    var p := Plan(size, ix, iy, iz, edge);
    !Skipped(p) && created && src.Some? && Fits(src.value, p.start, p.extent)
  }

  /** A container whose dimensions are the absolute region size holds the
      window of every chunk that is not skipped. */
  lemma ContainerHoldsEveryChunk<S>(size: Vec3, ix: nat, iy: nat, iz: nat, edge: int, src: array3<Option<S>>)
    requires edge >= 1
    requires src.Length0 == Abs(size.x) && src.Length1 == Abs(size.y) && src.Length2 == Abs(size.z)
    ensures Produced(size, ix, iy, iz, edge, true, Some(src)) <==> !Skipped(Plan(size, ix, iy, iz, edge))
  {
    if !Skipped(Plan(size, ix, iy, iz, edge)) {
      PlanInRegion(size, ix, iy, iz, edge);
    }
  }

  /** Builds chunk `(ix, iy, iz)` of a region of signed size `size`.
      `created` stands for the empty chunk schematic and its container being
      created; `src` is the region's block container, `tiles` its
      block-entity map (either may be null). Returns the chunk, or `None`
      where the source returns null, and the translated block-entity map,
      which the source computes and never attaches to the chunk. */
  method CreateChunk<S>(size: Vec3, ix: nat, iy: nat, iz: nat, edge: int, created: bool,
                        src: Option<array3<Option<S>>>, tiles: Option<map<Vec3, Nbt>>)
    returns (chunk: Option<Chunk<S>>, translated: map<Vec3, Nbt>)
    ensures chunk.Some? <==> Produced(size, ix, iy, iz, edge, created, src)
    ensures chunk.Some? ==> fresh(chunk.value.blocks)
    ensures chunk.Some? ==>
              var p := Plan(size, ix, iy, iz, edge);
              chunk.value.plan == p &&
              IsWindowCopy(chunk.value.blocks, src.value, p.start, p.extent) &&
              chunk.value.totalBlocks == |PresentCells(src.value, p.start, p.extent)|
    ensures translated == if chunk.Some? && tiles.Some?
                          then Translated(tiles.value, tiles.value.Keys, Plan(size, ix, iy, iz, edge).start,
                                          Plan(size, ix, iy, iz, edge).end)
                          else map[]
  {
    translated := map[];
    if edge < 1 {
      return None, translated;
    }
    var p := Plan(size, ix, iy, iz, edge);
    if Skipped(p) || !created || src.None? || !Fits(src.value, p.start, p.extent) {
      return None, translated;
    }
    var blocks, count := CopyBlocks(src.value, p.start, p.extent);
    if tiles.Some? {
      translated := TranslateTileEntities(tiles.value, p.start, p.end);
    }
    chunk := Some(Chunk(p, blocks, count));
  }
}
