/** Snapshots of built indexes: the structural checks of the loader accept them, saving and
    loading gives them back exactly within the loader's limits, and whatever was loaded can
    be searched. */
module SnapshotRoundTrip {
  import opened Basics
  import opened Codec
  import opened IndexModel
  import opened IndexBuild
  import opened Candidates
  import opened SnapshotFormat
  import opened SnapshotChecks
  import opened SnapshotRead
  import opened SnapshotFits
  import opened FixedSearch
  import S = Snapshot

  /** The snapshot of an index, with the manifest written by default. */
  function SnapshotOf(x: Index, root: seq<Byte>, mtime: int, byteFreq: seq<nat>, gramFreq: seq<nat>, infos: seq<FileInfo>, identity: nat): Snapshot
    requires I64_LOW <= mtime <= I64_HIGH
  {
    var corpusBytes := SumSizes(infos);
    var manifest := Manifest(identity, root, 0, x.options, 0, |infos|, corpusBytes, Unsigned(mtime));
    Snapshot(manifest, root, x.options, corpusBytes, mtime, byteFreq, gramFreq, infos, x.chunks, x.groups, x.posDesc, x.pos, x.files)
  }

  lemma SameSizes(infos: seq<FileInfo>, files: seq<seq<Byte>>)
    requires FilesMatch(files, infos)
    ensures InfoSizes(infos) == Sizes(files)
  {}

  /** The chunks of a built index pass the geometry checks. */
  lemma BuiltChunksValid(hash: Hash, x: Index)
    requires Built(hash, x) && forall k | 0 <= k < |x.files| :: |x.files[k]| <= MAX_CORPUS
    ensures ChunksValid(x.chunks, Sizes(x.files), x.options)
  {
    forall k | 0 <= k < |x.chunks| ensures GoodChunk(x.chunks[k], Sizes(x.files), x.options) {
      assert IndexModel.InFile(x.chunks[k], Sizes(x.files));
    }
  }

  /** So do its groups and descriptors: the loader's structural checks accept it. */
  lemma BuiltLayers(hash: Hash, x: Index, infos: seq<FileInfo>)
    requires Built(hash, x) && FilesMatch(x.files, infos)
    requires forall k | 0 <= k < |x.files| :: |x.files[k]| <= MAX_CORPUS
    ensures S.LayersValid(S.Layers(x.chunks, x.groups, x.posDesc, x.pos), InfoSizes(infos), x.options)
  {
    SameSizes(infos, x.files);
    BuiltChunksValid(hash, x);
    BuiltCover(x);
  }

  lemma {:induction false} SizesBelow(infos: seq<FileInfo>, k: nat)
    requires k < |infos|
    ensures infos[k].size <= SumSizes(infos)
  {
    if k < |infos| - 1 { SizesBelow(Front(infos), k); }
  }

  /** The numbers that come from outside are no larger than their types, ids of chunks have
      32 bits, and vectors can be addressed. */
  ghost predicate InMemory(x: Index, root: seq<Byte>, mtime: int, byteFreq: seq<nat>, gramFreq: seq<nat>, infos: seq<FileInfo>, identity: nat) {
    && I64_LOW <= mtime <= I64_HIGH && InfosFit(infos) && identity <= U64_MAX
    && |byteFreq| == 256 && AllBelow(byteFreq, U64_MAX + 1) && |gramFreq| == 65536 && AllBelow(gramFreq, U32_SIZE)
    && |root| <= U64_MAX && (forall k | 0 <= k < |infos| :: |infos[k].path| <= U64_MAX)
    && |x.chunks| < U32_SIZE && |x.pos| <= U64_MAX && forall k | 0 <= k < |x.groups| :: |x.groups[k].bits| <= U64_MAX
  }

  lemma BuiltChunkNarrow(hash: Hash, x: Index, k: nat)
    requires Built(hash, x) && k < |x.chunks| < U32_SIZE && forall f | 0 <= f < |x.files| :: |x.files[f]| <= MAX_CORPUS
    ensures ChunkNarrow(x.chunks[k]) && x.chunks[k].coreEnd < U32_SIZE - 1
  {
    assert IndexModel.InFile(x.chunks[k], Sizes(x.files));
    FileBelowChunk(x.chunks, Sizes(x.files), k);
  }

  /** Every file has a chunk, so a file's id is no larger than those of its chunks. */
  lemma {:induction false} FileBelowChunk(chunks: seq<Chunk>, sizes: seq<nat>, k: nat)
    requires Chained(chunks, sizes) && k < |chunks|
    ensures chunks[k].file <= k
  {
    if k > 0 {
      FileBelowChunk(chunks, sizes, k - 1);
      assert LinkedAt(chunks, sizes, k);
    }
  }

  lemma BuiltGroupNarrow(hash: Hash, x: Index, k: nat)
    requires Built(hash, x) && k < 8 && |x.chunks| < U32_SIZE && |x.groups[k].bits| <= U64_MAX
    ensures GroupNarrow(x.groups[k])
  {
    GroupBound(x.chunks, x.groups[k]);
  }

  lemma BuiltLayersNarrow(hash: Hash, x: Index, s: Snapshot)
    requires Built(hash, x) && |x.chunks| < U32_SIZE && |x.pos| <= U64_MAX && S.LayersOf(s) == S.Layers(x.chunks, x.groups, x.posDesc, x.pos)
    requires forall k | 0 <= k < |x.groups| :: |x.groups[k].bits| <= U64_MAX
    requires forall k | 0 <= k < |x.files| :: |x.files[k]| <= MAX_CORPUS
    ensures LayersNarrow(s)
  {
    forall k | 0 <= k < |x.chunks| ensures ChunkNarrow(x.chunks[k]) { BuiltChunkNarrow(hash, x, k); }
    forall k | 0 <= k < |x.groups| ensures GroupNarrow(x.groups[k]) { BuiltGroupNarrow(hash, x, k); }
    forall k | 0 <= k < |x.posDesc| ensures DescNarrow(x.posDesc[k]) {
      BuiltChunkNarrow(hash, x, k);
      DescBound(x, k);
    }
  }

  lemma FilesAtMost(chunks: seq<Chunk>, sizes: seq<nat>)
    requires Partition(chunks, sizes)
    ensures |sizes| <= |chunks|
  {
    if sizes != [] { FileBelowChunk(chunks, sizes, |chunks| - 1); }
  }

  /** The files of a built index add up to the sizes on record. */
  lemma {:induction false} SameTotal(files: seq<seq<Byte>>, infos: seq<FileInfo>)
    requires FilesMatch(files, infos)
    ensures TotalBytes(files) == SumSizes(infos)
    decreases |files|
  {
    if files != [] {
      assert FilesMatch(Front(files), Front(infos));
      SameTotal(Front(files), Front(infos));
    }
  }

  lemma SmallFiles(files: seq<seq<Byte>>, infos: seq<FileInfo>)
    requires FilesMatch(files, infos) && SumSizes(infos) <= MAX_CORPUS
    ensures forall k | 0 <= k < |files| :: |files[k]| <= MAX_CORPUS && infos[k].size <= MAX_CORPUS
  {
    forall k | 0 <= k < |files| ensures |files[k]| <= MAX_CORPUS && infos[k].size <= MAX_CORPUS { SizesBelow(infos, k); }
  }

  /** Every number of a built index fits its field: nothing is truncated when it is saved. */
  lemma BuiltRepresentable(hash: Hash, x: Index, root: seq<Byte>, mtime: int, byteFreq: seq<nat>, gramFreq: seq<nat>, infos: seq<FileInfo>, identity: nat)
    requires Built(hash, x) && Narrow(x) && FilesMatch(x.files, infos) && SumSizes(infos) <= MAX_CORPUS
    requires InMemory(x, root, mtime, byteFreq, gramFreq, infos, identity)
    ensures S.Representable(SnapshotOf(x, root, mtime, byteFreq, gramFreq, infos, identity))
  {
    var s := SnapshotOf(x, root, mtime, byteFreq, gramFreq, infos, identity);
    SmallFiles(x.files, infos);
    FilesAtMost(x.chunks, Sizes(x.files));
    BuiltLayersNarrow(hash, x, s);
    assert forall k | 0 <= k < |infos| :: InfoNarrow(infos[k]);
    BodyFits(s);
  }

  /** The limits of the loader that building and saving do not check: the ratio is a number,
      names and lists are not too long, paths stay below the root, and the source is there. */
  ghost predicate WithinLimits(x: Index, root: seq<Byte>, infos: seq<FileInfo>, identity: nat, now: nat, attach: Attach) {
    && !NotANumber(x.options.ratioBits)
    && |root| <= MAX_STRING && |infos| <= MAX_FILES && InfosLoadable(infos)
    && |x.chunks| <= MAX_RECORDS && GroupsLoadable(x.groups) && |x.pos| <= MAX_VECTOR
    && (x.options.persistCorpus || (now != 0 && now == identity && forall k | 0 <= k < |infos| :: attach(infos[k]).Ok?))
  }

  lemma BuiltMeta(x: Index, root: seq<Byte>, mtime: int, byteFreq: seq<nat>, gramFreq: seq<nat>, infos: seq<FileInfo>, identity: nat, now: nat)
    requires BuildOptions(x.options) && SumSizes(infos) <= MAX_CORPUS && I64_LOW <= mtime <= I64_HIGH
    ensures S.MetaLoadable(SnapshotOf(x, root, mtime, byteFreq, gramFreq, infos, identity), now) <==>
      && !NotANumber(x.options.ratioBits) && |root| <= MAX_STRING && |infos| <= MAX_FILES && InfosLoadable(infos)
      && (x.options.persistCorpus || (now != 0 && now == identity))
  {}

  /** A built index is loadable exactly when it is within these limits. */
  lemma BuiltLoadable(hash: Hash, x: Index, root: seq<Byte>, mtime: int, byteFreq: seq<nat>, gramFreq: seq<nat>, infos: seq<FileInfo>,
      identity: nat, now: nat, attach: Attach)
    requires Built(hash, x) && FilesMatch(x.files, infos) && SumSizes(infos) <= MAX_CORPUS && I64_LOW <= mtime <= I64_HIGH
    ensures S.Loadable(SnapshotOf(x, root, mtime, byteFreq, gramFreq, infos, identity), now, attach) <==> WithinLimits(x, root, infos, identity, now, attach)
  {
    var s := SnapshotOf(x, root, mtime, byteFreq, gramFreq, infos, identity);
    SmallFiles(x.files, infos);
    BuiltLayers(hash, x, infos);
    BuiltMeta(x, root, mtime, byteFreq, gramFreq, infos, identity, now);
    assert S.LayersOf(s) == S.Layers(x.chunks, x.groups, x.posDesc, x.pos);
  }

  /** Saving a built index and loading the file: the file is refused exactly when it is
      outside the limits, and otherwise everything comes back, the files as the file or the
      source holds them. */
  method SaveThenLoad(ghost hash: Hash, x: Index, root: seq<Byte>, mtime: int, byteFreq: seq<nat>, gramFreq: seq<nat>, infos: seq<FileInfo>,
    identity: nat, now: nat, attach: Attach, sum: Checksum) returns (file: seq<Byte>, res: Result<Snapshot>)
    requires Built(hash, x) && Narrow(x) && FilesMatch(x.files, infos) && SumSizes(infos) <= MAX_CORPUS
    requires InMemory(x, root, mtime, byteFreq, gramFreq, infos, identity) && KeepsSizes(attach) && S.IsU64(sum)
    ensures Saved(file, SnapshotOf(x, root, mtime, byteFreq, gramFreq, infos, identity), sum)
    ensures res.Ok? <==> |file| <= MAX_SNAPSHOT && WithinLimits(x, root, infos, identity, now, attach)
    ensures res.Ok? ==> S.Intact(res.value)
    ensures res.Ok? ==>
      var s := SnapshotOf(x, root, mtime, byteFreq, gramFreq, infos, identity);
      res.value == s.(files := res.value.files) && S.FilesBack(res.value.files, s, attach)
  {
    var s := SnapshotOf(x, root, mtime, byteFreq, gramFreq, infos, identity);
    SameTotal(x.files, infos);
    BuiltRepresentable(hash, x, root, mtime, byteFreq, gramFreq, infos, identity);
    BuiltLoadable(hash, x, root, mtime, byteFreq, gramFreq, infos, identity, now, attach);
    var saved := Save(s, sum);
    assert CanSave(s);
    file := saved.value;
    res := S.Load(file, sum, now, attach, s);
  }

  /** A ratio that is not a number passes every check of building and saving, and no loader
      takes the file back. */
  lemma NanRefused(o: Options)
    requires BuildOptions(o.(ratioBits := 0))
    ensures BuildOptions(o.(ratioBits := 0x7FF8_0000_0000_0000)) && !LoadOptions(o.(ratioBits := 0x7FF8_0000_0000_0000))
    ensures BuildOptions(o) ==> (LoadOptions(o) <==> !NotANumber(o.ratioBits))
  {}

  lemma AcceptedSound(s: Snapshot)
    requires S.Intact(s)
    ensures ChunksSound(s.files, s.chunks) && Partition(s.chunks, Sizes(s.files))
  {
    SameSizes(s.infos, s.files);
    forall k | 0 <= k < |s.chunks| ensures ChunkSound(s.files, s.chunks[k]) {
      assert IndexModel.InFile(s.chunks[k], Sizes(s.files));
    }
  }

  /** Whatever snapshot the loader accepts, the index it restores can be searched: cores
      partition every file, every chunk is in one column of a group of its class, the
      positional ranges tile the table, and so every bit a search reads exists. */
  method Restore(s: Snapshot, hash: Hash, budget: nat -> nat) returns (d: IndexData)
    requires S.Intact(s)
    ensures fresh(d) && Searchable(d.View())
    ensures d.View() == Index(s.options, s.files, s.chunks, s.groups, s.posDesc, s.pos, d.stats)
    ensures ChunksSound(d.files, d.chunks) && StatsExact(hash, d.files, d.chunks, d.stats)
    ensures d.stats.ready <==> WithinCaps(s.files, s.corpusBytes)
  {
    AcceptedSound(s);
    d := new IndexData(hash, budget, s.options, s.files, s.corpusBytes);
    d.chunks := s.chunks;
    d.groups := s.groups;
    d.posDesc := s.posDesc;
    d.pos := s.pos;
    d.RebuildStats();
  }

  /** The source still holds what was indexed, or the file holds it. */
  ghost predicate SourceStands(x: Index, infos: seq<FileInfo>, attach: Attach) {
    x.options.persistCorpus || (|x.files| == |infos| && forall k | 0 <= k < |infos| :: attach(infos[k]) == Ok(x.files[k]))
  }

  lemma FilesStand(x: Index, s: Snapshot, files: seq<seq<Byte>>, attach: Attach)
    requires s.options == x.options && s.files == x.files && |x.files| == |s.infos| && SourceStands(x, s.infos, attach)
    requires S.FilesBack(files, s, attach)
    ensures files == x.files
  {
    if !x.options.persistCorpus {
      forall k | 0 <= k < |files| ensures files[k] == x.files[k] { assert attach(s.infos[k]) == Ok(files[k]); }
    }
  }

  /** What makes an index built does not depend on its statistics. */
  lemma BuiltAgain(hash: Hash, x: Index, stats: Stats)
    requires Built(hash, x)
    ensures Built(hash, x.(stats := stats))
  {
    var y := x.(stats := stats);
    assert ChunksSound(y.files, y.chunks) && Laid(y);
    assert GroupsBuilt(hash, y);
    assert PosBuilt(hash, y);
  }

  /** An index that is built, saved and opened again is the same index, statistics computed
      anew: it is built and searchable, so every search over it is exact. */
  method Reopen(hash: Hash, x: Index, root: seq<Byte>, mtime: int, byteFreq: seq<nat>, gramFreq: seq<nat>, infos: seq<FileInfo>,
    identity: nat, now: nat, attach: Attach, sum: Checksum, budget: nat -> nat) returns (file: seq<Byte>, again: Option<IndexData>)
    requires Built(hash, x) && Narrow(x) && FilesMatch(x.files, infos) && SumSizes(infos) <= MAX_CORPUS
    requires InMemory(x, root, mtime, byteFreq, gramFreq, infos, identity) && KeepsSizes(attach) && S.IsU64(sum)
    ensures again.Some? <==> |file| <= MAX_SNAPSHOT && WithinLimits(x, root, infos, identity, now, attach)
    ensures again.Some? ==> fresh(again.value) && Searchable(again.value.View())
    ensures again.Some? && SourceStands(x, infos, attach) ==>
      var y := again.value.View();
      && y == x.(stats := y.stats) && StatsExact(hash, x.files, x.chunks, y.stats)
      && (y.stats.ready <==> WithinCaps(x.files, SumSizes(infos)))
      && forall s: Scope | |s.binary| == |x.files| :: Exact(hash, y, s)
  {
    var res;
    file, res := SaveThenLoad(hash, x, root, mtime, byteFreq, gramFreq, infos, identity, now, attach, sum);
    if res.Err? {
      return file, None;
    }
    var d := Restore(res.value, hash, budget);
    again := Some(d);
    if SourceStands(x, infos, attach) {
      FilesStand(x, SnapshotOf(x, root, mtime, byteFreq, gramFreq, infos, identity), res.value.files, attach);
      BuiltAgain(hash, x, d.stats);
    }
  }
}
