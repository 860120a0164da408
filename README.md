# Schematic splitter — a verified model

This project models Litematica's `SchematicSplitter`. The splitter cuts every
sub-region of a saved schematic into cubic chunks of a configurable edge. It
writes each non-empty chunk as its own schematic file and, when enabled, a
text material report for each chunk. It returns whether any chunk was
written.

The model has five modules:

- `Common`: the optional value, integer block positions, and the integer
  forms of `Math.abs`, `Math.min`, `Math.max` and `Math.ceil` of a quotient.
- `GridPlanner`: the per-axis chunk count, the chunk bounds clipped to the
  region, the skip rule, and the sign-dependent offset and box corners of a
  chunk. These are pure functions with lemmas about how the chunks tile a
  region.
- `ChunkExtractor`: the block copy as an imperative loop over a
  three-dimensional array, which counts the non-null states it copies. Also
  the block-entity filter-and-translate loop over a map, and the assembly of
  one chunk with all of its null returns.
- `MaterialReport`: `String.compareTo`, and the in-place sort of the
  material list by display name. Also the totals loop (item count, and
  stacks of 64 rounded up per entry) and the "(N stacks + R)" clause of each
  entry line.
- `SplitOrchestrator`: the disabled short-circuit, stripping the
  `.litematic` extension, the region loop and the three chunk loops that
  count the files written, and the final verdict.

Collaborators outside the splitter become parameters of `Split`:

- the configuration: the enabled flag, the chunk edge and the report flag;
- whether `createEmptySchematic` and the chunk's container come back
  non-null;
- whether `writeToFile` succeeds;
- what `MaterialListUtils.createMaterialListFor` returns.

## Model

All source paths are relative to the repository root; the file is
`src/main/java/fi/dy/masa/litematica/util/SchematicSplitter.java`.

| member | source | states |
|---|---|---|
| Common.CeilDiv | src/main/java/fi/dy/masa/litematica/util/SchematicSplitter.java:88-90 | `ceil(a / b)` for integers: the least `r` with `r * b >= a` |
| GridPlanner.ChunkCount | src/main/java/fi/dy/masa/litematica/util/SchematicSplitter.java:84-90 | an axis gets at least one chunk; the chunks cover `abs(size)`; and one chunk fewer would not cover it unless the count is the forced 1 |
| GridPlanner.Start | src/main/java/fi/dy/masa/litematica/util/SchematicSplitter.java:166-168 | first local cell of chunk `i`, `i * edge`; `Adjacent` and `PlanInRegion` carry its properties |
| GridPlanner.End | src/main/java/fi/dy/masa/litematica/util/SchematicSplitter.java:170-172 | exclusive end of chunk `i`, `min(start + edge, abs(size))`; `Adjacent`, `LastExtent` and `PlanInRegion` carry its properties |
| GridPlanner.Extent | src/main/java/fi/dy/masa/litematica/util/SchematicSplitter.java:174-176 | cells of chunk `i` on the axis, `end - start`; `ExtentRange`, `LastExtent` and `ExtentSumTotal` carry its properties |
| GridPlanner.Sign | src/main/java/fi/dy/masa/litematica/util/SchematicSplitter.java:187-189 | +1 for a non-negative size and -1 for a negative one; `OffsetCases` states its effect on the offset |
| GridPlanner.Offset | src/main/java/fi/dy/masa/litematica/util/SchematicSplitter.java:192-194 | the chunk offset `sign * i * edge`, less the extent on a negative axis; `OffsetCases` and `OffsetStep` carry its properties |
| GridPlanner.Delta | src/main/java/fi/dy/masa/litematica/util/SchematicSplitter.java:205-207 | `extent - 1` in the direction of the size's sign; `BoxSpan` carries its property |
| GridPlanner.Pos1 | src/main/java/fi/dy/masa/litematica/util/SchematicSplitter.java:209 | the first box corner, the offset of the chunk; `OffsetStep`, `BoxNonNegative` and the box lemmas carry its properties |
| GridPlanner.Pos2 | src/main/java/fi/dy/masa/litematica/util/SchematicSplitter.java:210 | the second box corner, `pos1 + delta`; `BoxSpan`, `BoxNonNegative` and the box lemmas carry its properties |
| GridPlanner.GridCounts | src/main/java/fi/dy/masa/litematica/util/SchematicSplitter.java:84-90 | all three counts are at least 1 and together cover the region, and no axis gets a chunk more than it needs (as `ChunkCount`) |
| GridPlanner.BeforeCount | src/main/java/fi/dy/masa/litematica/util/SchematicSplitter.java:88-90 | an index is below the count exactly when it is 0 or the chunk starts inside the axis |
| GridPlanner.ExtentRange | src/main/java/fi/dy/masa/litematica/util/SchematicSplitter.java:166-182 | a chunk has at most `edge` cells on an axis; its extent is `<= 0` exactly when the axis is empty or the index is beyond the count; a planned chunk has at least one cell |
| GridPlanner.ZeroAxis | src/main/java/fi/dy/masa/litematica/util/SchematicSplitter.java:88-90 | an empty axis still gets one index, and that chunk has zero extent, so it is skipped |
| GridPlanner.Adjacent | src/main/java/fi/dy/masa/litematica/util/SchematicSplitter.java:166-176 | each chunk starts where the previous one ends, and every chunk but the last is full |
| GridPlanner.LastExtent | src/main/java/fi/dy/masa/litematica/util/SchematicSplitter.java:170-176 | the last chunk holds whatever the full chunks leave of the axis |
| GridPlanner.ExtentSumPrefix | src/main/java/fi/dy/masa/litematica/util/SchematicSplitter.java:166-176 | the first `n` chunks cover `min(n * edge, abs(size))` cells |
| GridPlanner.ExtentSumTotal | src/main/java/fi/dy/masa/litematica/util/SchematicSplitter.java:166-176 | the chunk extents add up to the axis size, with no gap and no overlap |
| GridPlanner.OffsetCases | src/main/java/fi/dy/masa/litematica/util/SchematicSplitter.java:187-194 | the offset is `i * edge` on a non-negative axis and `-(i * edge) - extent` on a negative one |
| GridPlanner.OffsetStep | src/main/java/fi/dy/masa/litematica/util/SchematicSplitter.java:187-194 | consecutive offsets grow by `edge` on a non-negative axis; on a negative axis they fall by the next chunk's extent |
| GridPlanner.BoxSpan | src/main/java/fi/dy/masa/litematica/util/SchematicSplitter.java:203-211 | a chunk's box spans exactly its extent and runs in the direction of the size's sign |
| GridPlanner.BoxNonNegative | src/main/java/fi/dy/masa/litematica/util/SchematicSplitter.java:187-211 | on a non-negative axis the box is `[start, end - 1]` |
| GridPlanner.BoxesCover | src/main/java/fi/dy/masa/litematica/util/SchematicSplitter.java:187-211 | on a non-negative axis every cell of the region lies in the box of a planned, non-empty chunk |
| GridPlanner.BoxesDisjoint | src/main/java/fi/dy/masa/litematica/util/SchematicSplitter.java:187-211 | on a non-negative axis a cell lies in the box of one chunk only |
| GridPlanner.BoxesAdjacentNonNegative | src/main/java/fi/dy/masa/litematica/util/SchematicSplitter.java:187-211 | on a non-negative axis each box starts right after the previous one |
| GridPlanner.SharedCells | src/main/java/fi/dy/masa/litematica/util/SchematicSplitter.java:205-210 | the number of cells two closed intervals share; it is positive exactly when both are non-empty and they meet |
| GridPlanner.BoxesNegative | src/main/java/fi/dy/masa/litematica/util/SchematicSplitter.java:187-211 | on a negative axis the corner gap is `1 + extent(i + 1) - edge`. Neighbouring boxes touch exactly when the later chunk is full. Otherwise they share `min(extent(i + 1), edge - extent(i + 1))` cells |
| GridPlanner.NegativeOverlapExample | src/main/java/fi/dy/masa/litematica/util/SchematicSplitter.java:187-211 | size -10 with edge 4: the last chunk's box lies inside the box of the chunk before it, and they share 2 cells |
| GridPlanner.AxisPlan | src/main/java/fi/dy/masa/litematica/util/SchematicSplitter.java:166-210 | on one axis, a chunk with a positive extent starts at or after 0 and ends within `abs(size)`. It holds between 1 and `edge` cells, and its two box corners span exactly those cells |
| GridPlanner.Plan | src/main/java/fi/dy/masa/litematica/util/SchematicSplitter.java:166-210 | the start, end, extent and box corners of chunk `(ix, iy, iz)`. A chunk that is not skipped lies inside the region on every axis, with 1 to `edge` cells per axis and box corners spanning exactly its extent |
| GridPlanner.Skipped | src/main/java/fi/dy/masa/litematica/util/SchematicSplitter.java:179-182 | the skip rule: some axis has an extent of 0 or less; `SkippedIff` characterises it by the grid |
| GridPlanner.SkippedIff | src/main/java/fi/dy/masa/litematica/util/SchematicSplitter.java:178-182 | a chunk is skipped exactly when some axis is empty or some index lies outside the planned grid |
| GridPlanner.PlanInRegion | src/main/java/fi/dy/masa/litematica/util/SchematicSplitter.java:166-176 | the bounds of a chunk that is not skipped lie inside the region |
| ChunkExtractor.RowCountIsCardinality | src/main/java/fi/dy/masa/litematica/util/SchematicSplitter.java:256-262 | the innermost loop's count equals the number of non-null cells in the row |
| ChunkExtractor.LayerCountIsCardinality | src/main/java/fi/dy/masa/litematica/util/SchematicSplitter.java:253-264 | the middle loop's count equals the number of non-null cells in the layer |
| ChunkExtractor.WindowCountIsCardinality | src/main/java/fi/dy/masa/litematica/util/SchematicSplitter.java:250-265 | the whole loop's count equals the number of non-null cells in the chunk window |
| ChunkExtractor.RowDone | src/main/java/fi/dy/masa/litematica/util/SchematicSplitter.java:254-264 | finishing a row is the same progress as starting the next row |
| ChunkExtractor.LayerDone | src/main/java/fi/dy/masa/litematica/util/SchematicSplitter.java:252-264 | finishing a layer is the same progress as starting the next layer |
| ChunkExtractor.AllCopied | src/main/java/fi/dy/masa/litematica/util/SchematicSplitter.java:250-265 | after the last layer every chunk cell equals its source cell |
| ChunkExtractor.CopyRow | src/main/java/fi/dy/masa/litematica/util/SchematicSplitter.java:256-263 | the x loop copies one more row in y, z, x order, leaves later cells untouched, and counts that row's non-null states |
| ChunkExtractor.CopyLayer | src/main/java/fi/dy/masa/litematica/util/SchematicSplitter.java:254-264 | the z loop copies one more layer and counts that layer's non-null states |
| ChunkExtractor.CopyBlocks | src/main/java/fi/dy/masa/litematica/util/SchematicSplitter.java:250-265 | the container is a freshly allocated array; it equals the source window cell by cell, with a null source state left unset; the count is the number of non-null states in the window |
| ChunkExtractor.WithPosition | src/main/java/fi/dy/masa/litematica/util/SchematicSplitter.java:289-294 | the copied compound with its `x`, `y` and `z` integer tags set to the local position; `WithPositionTags` carries its property |
| ChunkExtractor.WithPositionTags | src/main/java/fi/dy/masa/litematica/util/SchematicSplitter.java:289-294 | the copied compound gains integer tags `x`, `y`, `z` holding the local position, and every other tag is unchanged |
| ChunkExtractor.Translated | src/main/java/fi/dy/masa/litematica/util/SchematicSplitter.java:275-297 | the map the block-entity loop builds, as a comprehension over the processed keys; `TranslatedAt`, `TranslatedStep` and `TranslatedContents` carry its properties |
| ChunkExtractor.TranslatedAt | src/main/java/fi/dy/masa/litematica/util/SchematicSplitter.java:275-297 | a local key is in the translated map exactly when its global position is a processed entry inside the chunk box; its value is that entry's compound with the local position |
| ChunkExtractor.TranslatedStep | src/main/java/fi/dy/masa/litematica/util/SchematicSplitter.java:275-297 | processing one more entry adds its translated copy when it lies in the box, and nothing otherwise |
| ChunkExtractor.TranslatedContents | src/main/java/fi/dy/masa/litematica/util/SchematicSplitter.java:275-297 | an entry is kept exactly when it lies in the half-open chunk box; it is stored under its local position with updated tags; every local key lies in `[0, end - start)` |
| ChunkExtractor.TranslateTileEntities | src/main/java/fi/dy/masa/litematica/util/SchematicSplitter.java:268-303 | the loop over the block-entity map builds exactly the translated map, with the filter, key and tag facts above |
| ChunkExtractor.Produced | src/main/java/fi/dy/masa/litematica/util/SchematicSplitter.java:178-247 | the chunk comes out non-null: edge at least 1, not skipped, schematic created, source container present and holding the window; `ContainerHoldsEveryChunk` and `CreateChunk` carry its properties |
| ChunkExtractor.ContainerHoldsEveryChunk | src/main/java/fi/dy/masa/litematica/util/SchematicSplitter.java:233-265 | when the source container has the region's size, every chunk that is not skipped reads only inside it |
| ChunkExtractor.CreateChunk | src/main/java/fi/dy/masa/litematica/util/SchematicSplitter.java:159-355 | a chunk comes back exactly when the edge is at least 1, the chunk is not skipped, the empty schematic is created, and the source container exists and holds the window. It then carries the plan, a freshly allocated container holding the copied blocks, and the number of non-null states. The translated block-entity map is built only when the chunk is produced and the map exists |
| MaterialReport.CompareTo | src/main/java/fi/dy/masa/litematica/util/SchematicSplitter.java:381 | `String.compareTo`: difference of the first differing characters, else of the lengths; the three `CompareTo` lemmas carry its properties |
| MaterialReport.CompareToAntisymmetric | src/main/java/fi/dy/masa/litematica/util/SchematicSplitter.java:374-383 | swapping the names negates the comparison |
| MaterialReport.CompareToZero | src/main/java/fi/dy/masa/litematica/util/SchematicSplitter.java:374-383 | the comparison is zero exactly for equal names |
| MaterialReport.CompareToTransitive | src/main/java/fi/dy/masa/litematica/util/SchematicSplitter.java:374-383 | "not after" by name is transitive |
| MaterialReport.NeighboursSorted | src/main/java/fi/dy/masa/litematica/util/SchematicSplitter.java:374-383 | a list whose neighbours are in order is sorted by name |
| MaterialReport.SwapDown | src/main/java/fi/dy/masa/litematica/util/SchematicSplitter.java:374-383 | one swap of the inserted entry with a larger neighbour keeps the insertion invariant and the multiset |
| MaterialReport.Insert | src/main/java/fi/dy/masa/litematica/util/SchematicSplitter.java:374-383 | one insertion step extends the sorted prefix by one and permutes the list |
| MaterialReport.SortByName | src/main/java/fi/dy/masa/litematica/util/SchematicSplitter.java:374-383 | the list ends up sorted by display name and is a permutation of the original |
| MaterialReport.EntryItems | src/main/java/fi/dy/masa/litematica/util/SchematicSplitter.java:406-407 | the count of one entry |
| MaterialReport.EntryStacks | src/main/java/fi/dy/masa/litematica/util/SchematicSplitter.java:408 | `ceil(count / 64)` for one entry; `StacksHoldItems` and `TotalStacksBounds` carry its properties |
| MaterialReport.Total | src/main/java/fi/dy/masa/litematica/util/SchematicSplitter.java:404-409 | the sum of a per-entry quantity over the list; `TotalRemove`, `TotalPermutation` and `Totals` carry its properties |
| MaterialReport.TotalRemove | src/main/java/fi/dy/masa/litematica/util/SchematicSplitter.java:401-409 | removing one entry takes exactly its share off a total |
| MaterialReport.TotalPermutation | src/main/java/fi/dy/masa/litematica/util/SchematicSplitter.java:401-409 | the totals do not depend on the order of the list, so sorting before summing changes nothing |
| MaterialReport.Totals | src/main/java/fi/dy/masa/litematica/util/SchematicSplitter.java:401-409 | the loop computes the sum of counts and the sum of per-entry rounded-up stacks |
| MaterialReport.StacksHoldItems | src/main/java/fi/dy/masa/litematica/util/SchematicSplitter.java:401-409 | the stacks hold every item and waste fewer than 64 items per entry |
| MaterialReport.TotalStacksBounds | src/main/java/fi/dy/masa/litematica/util/SchematicSplitter.java:401-409 | the reported stacks lie between the stacks the total needs and that plus one per entry, and never exceed the items |
| MaterialReport.ClauseOf | src/main/java/fi/dy/masa/litematica/util/SchematicSplitter.java:424-441 | no clause exactly below 64 items; "(N stacks)" exactly for a positive multiple of 64; "(N stacks + R)" otherwise, with `0 < R < 64` and count `64 N + R` |
| MaterialReport.ClauseOfUnique | src/main/java/fi/dy/masa/litematica/util/SchematicSplitter.java:424-441 | the clause is fixed by any `stacks * 64 + remainder` decomposition with remainder below 64 |
| MaterialReport.LineOf | src/main/java/fi/dy/masa/litematica/util/SchematicSplitter.java:422-445 | the numbers of one entry line: name, count and the clause `ClauseOf` gives; `GenerateMaterialList` states one line per sorted entry |
| MaterialReport.GenerateMaterialList | src/main/java/fi/dy/masa/litematica/util/SchematicSplitter.java:360-468 | an empty list gives no report and stays untouched; otherwise the list is sorted and permuted in place, and the report carries it, the totals of the original list and one line per entry in sorted order |
| MaterialReport.ReportExample | src/main/java/fi/dy/masa/litematica/util/SchematicSplitter.java:401-441 | counts 1536, 1, 96 give "(24 stacks)", no clause and "(1 stacks + 32)", 1633 items and 27 stacks |
| SplitOrchestrator.BaseName | src/main/java/fi/dy/masa/litematica/util/SchematicSplitter.java:58-60 | a name ending in the extension loses exactly that suffix; any other name is kept |
| SplitOrchestrator.BaseNameOfSaved | src/main/java/fi/dy/masa/litematica/util/SchematicSplitter.java:58-60 | stripping the extension undoes appending it |
| SplitOrchestrator.Persisted | src/main/java/fi/dy/masa/litematica/util/SchematicSplitter.java:101-127 | chunk `(ix, iy, iz)` of a region with size and position is produced and its file written; `PersistedInGrid` bounds its indices |
| SplitOrchestrator.ColumnHits | src/main/java/fi/dy/masa/litematica/util/SchematicSplitter.java:101-130 | the count the z loop reaches for a given hit function; `ColumnHitsPositive` carries its property |
| SplitOrchestrator.SliceHits | src/main/java/fi/dy/masa/litematica/util/SchematicSplitter.java:99-130 | the count the y and z loops reach; `SliceHitsPositive` carries its property |
| SplitOrchestrator.GridHits | src/main/java/fi/dy/masa/litematica/util/SchematicSplitter.java:97-131 | the count the three chunk loops reach; `GridHitsPositive` carries its property |
| SplitOrchestrator.RegionWrites | src/main/java/fi/dy/masa/litematica/util/SchematicSplitter.java:70-131 | chunks written for one region, 0 when its size or position is missing; `WriteRegion` computes it and `RegionWritesPositive` characterises it |
| SplitOrchestrator.TotalWrites | src/main/java/fi/dy/masa/litematica/util/SchematicSplitter.java:66-131 | chunks written over the first `k` regions; `Split` computes it and `TotalWritesPositive` characterises it |
| SplitOrchestrator.ColumnHitsPositive | src/main/java/fi/dy/masa/litematica/util/SchematicSplitter.java:101-130 | the z loop counts something exactly when some index in it hits |
| SplitOrchestrator.SliceHitsPositive | src/main/java/fi/dy/masa/litematica/util/SchematicSplitter.java:99-130 | the y and z loops count something exactly when some index pair in them hits |
| SplitOrchestrator.GridHitsPositive | src/main/java/fi/dy/masa/litematica/util/SchematicSplitter.java:97-131 | the three chunk loops count something exactly when some index triple in the grid hits |
| SplitOrchestrator.PersistedInGrid | src/main/java/fi/dy/masa/litematica/util/SchematicSplitter.java:84-131 | a chunk that is written always has indices inside the planned grid |
| SplitOrchestrator.RegionWritesPositive | src/main/java/fi/dy/masa/litematica/util/SchematicSplitter.java:70-131 | a region adds to the total exactly when some chunk of it, at any index, is built and written |
| SplitOrchestrator.TotalWritesPositive | src/main/java/fi/dy/masa/litematica/util/SchematicSplitter.java:66-145 | the total is positive exactly when some chunk of some region is built and written |
| SplitOrchestrator.WriteChunk | src/main/java/fi/dy/masa/litematica/util/SchematicSplitter.java:101-128 | one chunk iteration writes a file exactly when the chunk is built and the writer succeeds |
| SplitOrchestrator.WriteRegion | src/main/java/fi/dy/masa/litematica/util/SchematicSplitter.java:97-131 | the three chunk loops of a region count exactly its written chunks |
| SplitOrchestrator.Split | src/main/java/fi/dy/masa/litematica/util/SchematicSplitter.java:45-153 | disabled, it succeeds with no chunks. Enabled, it counts exactly the written chunks over all regions (regions missing a size or a position add none), and it succeeds exactly when that count is positive, that is, when some chunk of some region was built and written |

## Left out

- File and directory I/O: the output directory, the file names and the text layout of the report are not modelled. This covers the banner lines, the column widths and the thousands separators. Writing is the `written` collaborator, and the report is modelled as its numbers.
- Configuration reads become parameters of `Split`.
- SplitOrchestrator.Split: requires a chunk edge of at least 1, and so does not model two inputs the source accepts. With an edge of 0, the double division at lines 88-90 gives Infinity on a non-empty axis, and the cast gives `Integer.MAX_VALUE` indices. Every chunk is skipped (its extent is `min(0, abs(size)) - 0 = 0`), so the loops run for about 2^93 iterations; an empty axis gives NaN, cast to 0, so one index. With a negative edge every count is 1 and every chunk is skipped, because its end `min(edge, abs(size))` is negative, so the source returns false. `ChunkExtractor.CreateChunk` does model the edge below 1: it gives no chunk, as the source does.
- Logging and the in-game messages (`InfoUtils`) are not modelled.
- Entities (lines 305-344) are left out. Their positions are floating point, and the translated list is discarded in the source anyway.
- The "full double chests" fraction (line 414) is left out because it is floating point and printed only.
- Metadata that does not affect the result is left out: the description, the timestamps (clock reads, lines 228-231), the author and the area name.
- `createEmptySchematic`, `getSubRegionContainer` of the new chunk, `writeToFile` and `MaterialListUtils.createMaterialListFor` are collaborators: the `created`, `written` and `materials` fields of `Collaborators`. `LitematicaSchematic` and its block-state container are not part of this model. The container is an array of optional states of the region's size.
- A source container smaller than the chunk window is taken to throw inside `createChunkSchematic`, whose catch returns null. The model gives no chunk in that case.
- `getParent()` returning null (line 57) would throw and make the split fail; that path is not modelled.
- Integers are unbounded: 32-bit overflow of the chunk starts, the counts and the totals is not modelled. Region sizes are bounded by the world.
- MaterialReport.CompareTo compares whole characters. Java compares UTF-16 code units, which differs only for names outside the Basic Multilingual Plane.
- MaterialReport.SortByName: stability of `Collections.sort` is not stated. Only "sorted by name" and "a permutation" are proved, and the sort is an insertion sort standing in for the library's merge sort.
- ChunkExtractor.CreateChunk: the translated block-entity map is returned beside the chunk but not attached to it, because the source builds it and then drops it (lines 300-302).
- ChunkExtractor.CopyRow and ChunkExtractor.CopyLayer are the inner two loops of the one copy loop (lines 252-264), split into their own methods.
- SplitOrchestrator.WriteChunk and SplitOrchestrator.WriteRegion are likewise the body and the nested loops of the region loop (lines 97-131), split into their own methods.
- SplitOrchestrator.WriteChunk states nothing about the material report it builds for a written chunk. The report never affects the result, and `MaterialReport.GenerateMaterialList` states what it holds.
- Rounding up per entry (line 408) gives 27 stacks for counts 1536, 1 and 96, where rounding up the total item count would give 26 and summing `count / 64` would give 25. `MaterialReport.ReportExample` states the 27.
- On an axis of negative size, the box of a partial last chunk overlaps the box of the chunk before it in `min(extent, edge - extent)` cells. For example, size -9 with edge 4 gives boxes `[-11, -8]` and `[-9, -9]`, which share 1 cell. The model keeps this as the code computes it; `GridPlanner.BoxesNegative` and `GridPlanner.NegativeOverlapExample` state it.
