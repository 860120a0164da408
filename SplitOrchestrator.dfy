/** The entry point of the splitter: for every region of the schematic it
    plans the chunk grid, builds each chunk, hands it to the file writer and,
    when enabled, builds its material report; it counts the chunks written
    and succeeds exactly when at least one was. The configuration, the file
    writer, the chunk schematic factory and the material-list builder are
    parameters. */
module SplitOrchestrator {
  import opened Common
  import opened GridPlanner
  import opened ChunkExtractor
  import opened MaterialReport

  /** `LitematicaSchematic.FILE_EXTENSION`. */
  const FileExtension := ".litematic"

  /** `s` ends with `suffix`. */
  predicate EndsWith(s: string, suffix: string)
  {
    |suffix| <= |s| && s[|s| - |suffix|..] == suffix
  }

  /** The file name without the schematic extension, when it has one. */
  function BaseName(fileName: string): (b: string)
    ensures EndsWith(fileName, FileExtension) ==> b + FileExtension == fileName
    ensures !EndsWith(fileName, FileExtension) ==> b == fileName
  {
    if EndsWith(fileName, FileExtension)
    then fileName[..|fileName| - |FileExtension|]
    else fileName
  }

  /** Stripping the extension undoes appending it. */
  lemma BaseNameOfSaved(b: string)
    ensures BaseName(b + FileExtension) == b
  {
    var f := b + FileExtension;
    assert f[|f| - |FileExtension|..] == FileExtension;
    assert f[..|f| - |FileExtension|] == b;
  }

  /** A region of the source schematic: its name, its size and position
      (either may be missing), its block-state container and its
      block-entity map (either may be null). */
  datatype Region<S> = Region(name: string, size: Option<Vec3>, pos: Option<Vec3>,
                              container: Option<array3<Option<S>>>, tiles: Option<map<Vec3, Nbt>>)

  /** Region name and chunk index triple of one chunk. */
  datatype ChunkId = ChunkId(region: string, x: nat, y: nat, z: nat)

  /** The chunk's file name `{base}_{region}_x{ix}_y{iy}_z{iz}`, kept as its
      parts. */
  datatype ChunkFile = ChunkFile(base: string, id: ChunkId)

  /** The collaborators the splitter calls: whether the empty chunk
      schematic (with its container) is created, whether writing a chunk
      file succeeds, and the material list of a chunk. */
  datatype Collaborators = Collaborators(created: ChunkId -> bool, written: ChunkFile -> bool,
                                         materials: ChunkId -> seq<MaterialEntry>)

  /** Chunk `(ix, iy, iz)` of region `r` is built and its file written. */
  predicate Persisted<S>(r: Region<S>, ix: nat, iy: nat, iz: nat, edge: int, base: string, env: Collaborators)
  {
    var id := ChunkId(r.name, ix, iy, iz);
    r.size.Some? && r.pos.Some? &&
    Produced(r.size.value, ix, iy, iz, edge, env.created(id), r.container) &&
    env.written(ChunkFile(base, id))
  }

  /** Some chunk of region `r`, at any index, is built and written. */
  ghost predicate SomeChunkWritten<S>(r: Region<S>, edge: int, base: string, env: Collaborators)
  {
    exists ix: nat, iy: nat, iz: nat :: Persisted(r, ix, iy, iz, edge, base, env)
  }

  /** Whether the chunk at each index of region `r` is built and written. */
  function WrittenAt<S>(r: Region<S>, edge: int, base: string, env: Collaborators): (nat, nat, nat) -> bool
  {
    (ix: nat, iy: nat, iz: nat) => Persisted(r, ix, iy, iz, edge, base, env)
  }

  /** Hits among `iz < n` in column `(ix, iy)`. */
  function ColumnHits(hit: (nat, nat, nat) -> bool, ix: nat, iy: nat, n: nat): nat
  {
    if n == 0 then 0 else ColumnHits(hit, ix, iy, n - 1) + (if hit(ix, iy, n - 1) then 1 else 0)
  }

  /** Hits among `iy < m`, `iz < cz` in slice `ix`. */
  function SliceHits(hit: (nat, nat, nat) -> bool, ix: nat, cz: nat, m: nat): nat
  {
    if m == 0 then 0 else SliceHits(hit, ix, cz, m - 1) + ColumnHits(hit, ix, m - 1, cz)
  }

  /** Hits among `ix < l`, `iy < cy`, `iz < cz`: the count the three nested
      loops reach. */
  function GridHits(hit: (nat, nat, nat) -> bool, cy: nat, cz: nat, l: nat): nat
  {
    if l == 0 then 0 else GridHits(hit, cy, cz, l - 1) + SliceHits(hit, l - 1, cz, cy)
  }

  /** Chunks written for region `r`: none when its size or position is
      missing, else one per grid index whose chunk is built and written. */
  function RegionWrites<S>(r: Region<S>, edge: int, base: string, env: Collaborators): nat
    requires edge >= 1
  {
    if r.size.None? || r.pos.None? then 0
    else
      var size := r.size.value;
      GridHits(WrittenAt(r, edge, base, env), ChunkCount(size.y, edge), ChunkCount(size.z, edge),
               ChunkCount(size.x, edge))
  }

  /** Chunks written for the first `k` regions. */
  function TotalWrites<S>(regions: seq<Region<S>>, k: nat, edge: int, base: string, env: Collaborators): nat
    requires k <= |regions| && edge >= 1
  {
    if k == 0 then 0
    else TotalWrites(regions, k - 1, edge, base, env) + RegionWrites(regions[k - 1], edge, base, env)
  }

  // ---------------------------------------------------------------------
  // Some chunk was written exactly when the count is positive
  // ---------------------------------------------------------------------

  lemma {:induction false} ColumnHitsPositive(hit: (nat, nat, nat) -> bool, ix: nat, iy: nat, n: nat)
    ensures ColumnHits(hit, ix, iy, n) > 0 <==> exists iz: nat :: iz < n && hit(ix, iy, iz)
  {
    if n > 0 {
      ColumnHitsPositive(hit, ix, iy, n - 1);
    }
  }

  lemma {:induction false} SliceHitsPositive(hit: (nat, nat, nat) -> bool, ix: nat, cz: nat, m: nat)
    ensures SliceHits(hit, ix, cz, m) > 0 <==> exists iy: nat, iz: nat :: iy < m && iz < cz && hit(ix, iy, iz)
  {
    if m > 0 {
      SliceHitsPositive(hit, ix, cz, m - 1);
      ColumnHitsPositive(hit, ix, m - 1, cz);
    }
  }

  lemma {:induction false} GridHitsPositive(hit: (nat, nat, nat) -> bool, cy: nat, cz: nat, l: nat)
    ensures GridHits(hit, cy, cz, l) > 0 <==>
              exists ix: nat, iy: nat, iz: nat :: ix < l && iy < cy && iz < cz && hit(ix, iy, iz)
  {
    if l > 0 {
      GridHitsPositive(hit, cy, cz, l - 1);
      SliceHitsPositive(hit, l - 1, cz, cy);
    }
  }

  /** A written chunk always lies inside the planned grid. */
  lemma PersistedInGrid<S>(r: Region<S>, ix: nat, iy: nat, iz: nat, edge: int, base: string, env: Collaborators)
    requires edge >= 1
    requires Persisted(r, ix, iy, iz, edge, base, env)
    ensures ix < ChunkCount(r.size.value.x, edge)
    ensures iy < ChunkCount(r.size.value.y, edge)
    ensures iz < ChunkCount(r.size.value.z, edge)
  {
    SkippedIff(r.size.value, ix, iy, iz, edge);
  }

  /** A region contributes a chunk exactly when one of its chunks, at any
      index, is built and written. */
  lemma RegionWritesPositive<S>(r: Region<S>, edge: int, base: string, env: Collaborators)
    requires edge >= 1
    ensures RegionWrites(r, edge, base, env) > 0 <==> SomeChunkWritten(r, edge, base, env)
  {
    if r.size.Some? && r.pos.Some? {
      var size := r.size.value;
      var hit := WrittenAt(r, edge, base, env);
      GridHitsPositive(hit, ChunkCount(size.y, edge), ChunkCount(size.z, edge), ChunkCount(size.x, edge));
      if SomeChunkWritten(r, edge, base, env) {
        var ix: nat, iy: nat, iz: nat :| Persisted(r, ix, iy, iz, edge, base, env);
        PersistedInGrid(r, ix, iy, iz, edge, base, env);
        assert hit(ix, iy, iz);
      }
    }
  }

  /** The split succeeds exactly when some chunk of some region is built
      and written. */
  lemma {:induction false} TotalWritesPositive<S>(regions: seq<Region<S>>, k: nat, edge: int, base: string,
                                                  env: Collaborators)
    requires k <= |regions| && edge >= 1
    ensures TotalWrites(regions, k, edge, base, env) > 0 <==>
              exists i: nat :: i < k && SomeChunkWritten(regions[i], edge, base, env)
  {
    if k > 0 {
      TotalWritesPositive(regions, k - 1, edge, base, env);
      RegionWritesPositive(regions[k - 1], edge, base, env);
    }
  }

  // ---------------------------------------------------------------------
  // The split
  // ---------------------------------------------------------------------

  /** One iteration of the innermost loop: builds chunk `(ix, iy, iz)` of
      region `r`, writes its file when it is built and then, when reports
      are enabled, its material report; answers whether the file was
      written. */
  method WriteChunk<S>(r: Region<S>, edge: int, base: string, env: Collaborators, generateReports: bool,
                       ix: nat, iy: nat, iz: nat)
    returns (written: bool)
    requires r.size.Some? && r.pos.Some? && edge >= 1
    ensures written == WrittenAt(r, edge, base, env)(ix, iy, iz)
  {
    var id := ChunkId(r.name, ix, iy, iz);
    var chunk, _ := CreateChunk(r.size.value, ix, iy, iz, edge, env.created(id), r.container, r.tiles);
    written := false;
    if chunk.Some? {
      written := env.written(ChunkFile(base, id));
      if written && generateReports {
        var materials := env.materials(id);
        var list := new MaterialEntry[|materials|](n requires 0 <= n < |materials| => materials[n]);
        var _ := GenerateMaterialList(list);
      }
    }
  }

  /** The three nested loops over the chunk grid of one region with a size
      and a position; answers how many chunk files were written. */
  method WriteRegion<S>(r: Region<S>, edge: int, base: string, env: Collaborators, generateReports: bool)
    returns (written: nat)
    requires r.size.Some? && r.pos.Some? && edge >= 1
    ensures written == RegionWrites(r, edge, base, env)
  {
    var size := r.size.value;
    var chunksX, chunksY, chunksZ := ChunkCount(size.x, edge), ChunkCount(size.y, edge), ChunkCount(size.z, edge);
    ghost var hit := WrittenAt(r, edge, base, env);
    written := 0;
    for ix := 0 to chunksX
      invariant written == GridHits(hit, chunksY, chunksZ, ix)
    {
      ghost var slice := written;
      for iy := 0 to chunksY
        invariant written == slice + SliceHits(hit, ix, chunksZ, iy)
      {
        ghost var column := written;
        for iz := 0 to chunksZ
          invariant written == column + ColumnHits(hit, ix, iy, iz)
        {
          var ok := WriteChunk(r, edge, base, env, generateReports, ix, iy, iz);
          if ok {
            written := written + 1;
          }
        }
      }
    }
  }

  /** Splits the schematic `regions` (saved as `fileName`) into chunks of
      edge `edge`. Disabled, it succeeds at once. Otherwise every chunk
      index of every region with a size and a position is visited; a chunk
      that comes out null or whose file is not written is skipped, and the
      result is whether any chunk file was written. `totalChunks` is the
      count the success message reports. */
  method Split<S>(enabled: bool, edge: int, generateReports: bool, fileName: string,
                  regions: seq<Region<S>>, env: Collaborators)
    returns (ok: bool, totalChunks: nat)
    requires edge >= 1
    ensures !enabled ==> ok && totalChunks == 0
    ensures enabled ==> totalChunks == TotalWrites(regions, |regions|, edge, BaseName(fileName), env)
    ensures enabled ==> (ok <==> totalChunks > 0)
    ensures enabled ==> (ok <==> exists i: nat :: i < |regions| && SomeChunkWritten(regions[i], edge, BaseName(fileName), env))
  {
    if !enabled {
      return true, 0;
    }
    var base := BaseName(fileName);
    totalChunks := 0;
    for k := 0 to |regions|
      invariant totalChunks == TotalWrites(regions, k, edge, base, env)
    {
      var r := regions[k];
      if r.size.Some? && r.pos.Some? {
        var written := WriteRegion(r, edge, base, env, generateReports);
        totalChunks := totalChunks + written;
      }
    }
    ok := totalChunks > 0;
    TotalWritesPositive(regions, |regions|, edge, base, env);
  }
}
