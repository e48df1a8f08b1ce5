/** Every number of a built index fits the width its field has in a snapshot. */
module SnapshotFits {
  import opened Basics
  import opened Codec
  import opened IndexModel
  import opened SnapshotFormat
  import opened SnapshotRead

  ghost predicate AllFit(fs: seq<Field>) {
    forall k | 0 <= k < |fs| :: Codec.Fitted(fs[k])
  }

  ghost predicate AllBelow(v: seq<nat>, bound: nat) {
    forall k | 0 <= k < |v| :: v[k] < bound
  }

  lemma Powers()
    ensures Pow256(1) == 0x100 && Pow256(2) == 0x1_0000 && Pow256(4) == U32_SIZE && Pow256(8) == U64_MAX + 1
  {
    assert Pow256(3) == 0x100_0000;
    assert Pow256(6) == 0x1_0000_0000_0000;
  }

  lemma FitAppend(a: seq<Field>, b: seq<Field>)
    requires AllFit(a) && AllFit(b)
    ensures AllFit(a + b)
  {}

  lemma VectorFit(v: seq<nat>, width: nat, rest: seq<Field>)
    requires |v| <= U64_MAX && AllBelow(v, Pow256(width)) && AllFit(rest)
    ensures AllFit(VectorFields(v, width, rest))
  {
    Powers();
    FitAppend(ScalarFields(v, width), rest);
    FitAppend([Field(|v|, 8)], ScalarFields(v, width) + rest);
  }

  lemma StringFit(s: seq<Byte>, rest: seq<Field>)
    requires |s| <= U64_MAX && AllFit(rest)
    ensures AllFit(StringFields(s, rest))
  {
    Powers();
    VectorFit(s, 1, rest);
  }

  lemma {:induction false} WordBound(w: Word, k: nat, bytes: nat)
    ensures WordValue(w, k, 8 * bytes) < Pow256(bytes)
    decreases bytes
  {
    if bytes > 0 {
      var n := 8 * (bytes - 1);
      WordBound(w, k + 8, bytes - 1);
      WordBits(w, k, n);
    }
  }

  lemma WordBits(w: Word, k: nat, n: nat)
    ensures WordValue(w, k, n + 8) <= 255 + 256 * WordValue(w, k + 8, n)
  {
    assert WordValue(w, k + 6, n + 2) <= 3 + 4 * WordValue(w, k + 8, n);
    assert WordValue(w, k + 4, n + 4) <= 3 + 4 * WordValue(w, k + 6, n + 2);
    assert WordValue(w, k + 2, n + 6) <= 3 + 4 * WordValue(w, k + 4, n + 4);
  }

  lemma WordsFit(ws: seq<Word>, bytes: nat, rest: seq<Field>)
    requires |ws| <= U64_MAX && AllFit(rest)
    ensures AllFit(VectorFields(WordValues(ws, 8 * bytes), bytes, rest))
  {
    forall k | 0 <= k < |ws| ensures WordValues(ws, 8 * bytes)[k] < Pow256(bytes) { WordBound(ws[k], 0, bytes); }
    VectorFit(WordValues(ws, 8 * bytes), bytes, rest);
  }

  // ----- description -----

  lemma OptionsFit(o: Options)
    requires BuildOptions(o)
    ensures AllFit(OptionFields(o))
  {
    Powers();
  }

  predicate ManifestFits(m: Manifest) {
    && m.sourceIdentity <= U64_MAX && |m.sourceRoot| <= U64_MAX && m.selectorIdentity <= U64_MAX && BuildOptions(m.options)
    && m.transformIdentity <= U64_MAX && m.corpusFiles <= U64_MAX && m.corpusBytes <= U64_MAX && m.generation <= U64_MAX
  }

  lemma ManifestFit(s: Snapshot, rest: seq<Field>)
    requires ManifestFits(s.manifest) && AllFit(rest)
    ensures AllFit(ManifestFields(s, rest))
  {
    var m := s.manifest;
    Powers();
    OptionsFit(m.options);
    FitAppend(TailFields(m), rest);
    FitAppend(OptionFields(m.options), TailFields(m) + rest);
    FitAppend([Field(m.selectorIdentity, 8)], OptionFields(m.options) + (TailFields(m) + rest));
    var more := [Field(m.selectorIdentity, 8)] + (OptionFields(m.options) + (TailFields(m) + rest));
    StringFit(m.sourceRoot, more);
    FitAppend(LeadFields(s), StringFields(m.sourceRoot, more));
  }

  lemma HeaderFit(s: Snapshot, rest: seq<Field>)
    requires TimesFit(s) && |s.root| <= U64_MAX && BuildOptions(s.options) && s.corpusBytes <= U64_MAX && AllFit(rest)
    ensures AllFit(HeaderFields(s, rest))
  {
    Powers();
    OptionsFit(s.options);
    FitAppend(SizeFields(s), rest);
    FitAppend(OptionFields(s.options), SizeFields(s) + rest);
    StringFit(s.root, OptionFields(s.options) + (SizeFields(s) + rest));
  }

  lemma TableFit(s: Snapshot, rest: seq<Field>)
    requires AllBelow(s.byteFreq, U64_MAX + 1) && AllBelow(s.gramFreq, U32_SIZE) && BuildOptions(s.options) && AllFit(rest)
    ensures AllFit(TableFields(s, rest))
  {
    Powers();
    FitAppend([Field(s.options.blockBytes, 4)], rest);
    FitAppend(ScalarFields(s.gramFreq, 4), [Field(s.options.blockBytes, 4)] + rest);
    FitAppend(ScalarFields(s.byteFreq, 8), ScalarFields(s.gramFreq, 4) + ([Field(s.options.blockBytes, 4)] + rest));
  }

  predicate InfoNarrow(f: FileInfo) {
    |f.path| <= U64_MAX && f.size <= U64_MAX
  }

  lemma {:induction false} InfosNarrow(infos: seq<FileInfo>, rest: seq<Field>)
    requires InfosFit(infos) && (forall k | 0 <= k < |infos| :: InfoNarrow(infos[k])) && AllFit(rest)
    ensures AllFit(InfoList(infos, rest))
    decreases |infos|
  {
    if infos != [] {
      InfosNarrow(infos[1..], rest);
      Powers();
      assert InfoNarrow(infos[0]);
      FitAppend(StatFields(infos[0]), InfoList(infos[1..], rest));
      StringFit(infos[0].path, StatFields(infos[0]) + InfoList(infos[1..], rest));
    }
  }

  // ----- layers -----

  predicate ChunkNarrow(c: Chunk) {
    c.file < U32_SIZE && c.coreBegin <= U64_MAX && c.coreEnd <= U64_MAX && c.extEnd <= U64_MAX
  }

  lemma {:induction false} ChunksNarrow(chunks: seq<Chunk>, rest: seq<Field>)
    requires (forall k | 0 <= k < |chunks| :: ChunkNarrow(chunks[k])) && AllFit(rest)
    ensures AllFit(ChunkList(chunks, rest))
    decreases |chunks|
  {
    if chunks != [] {
      ChunksNarrow(chunks[1..], rest);
      Powers();
      assert ChunkNarrow(chunks[0]);
      FitAppend(ChunkFields(chunks[0]), ChunkList(chunks[1..], rest));
    }
  }

  ghost predicate GroupNarrow(g: Group) {
    && g.lg < 0x100 && g.m < U32_SIZE && g.words < U32_SIZE
    && |g.gids| <= U64_MAX && AllBelow(g.gids, U32_SIZE) && |g.bits| <= U64_MAX
  }

  lemma {:induction false} GroupsNarrow(groups: seq<Group>, rest: seq<Field>)
    requires (forall k | 0 <= k < |groups| :: GroupNarrow(groups[k])) && AllFit(rest)
    ensures AllFit(GroupList(groups, rest))
    decreases |groups|
  {
    if groups != [] {
      var g := groups[0];
      GroupsNarrow(groups[1..], rest);
      Powers();
      assert GroupNarrow(g);
      WordsFit(g.bits, 8, GroupList(groups[1..], rest));
      var words := VectorFields(WordValues(g.bits, 64), 8, GroupList(groups[1..], rest));
      VectorFit(g.gids, 4, words);
      FitAppend(ShapeFields(g), VectorFields(g.gids, 4, words));
    }
  }

  predicate DescNarrow(d: PosDesc) {
    d.off <= U64_MAX && d.m < 0x1_0000 && d.maskBytes < U32_SIZE && d.blocks < U32_SIZE
  }

  lemma {:induction false} DescsNarrow(descs: seq<PosDesc>, rest: seq<Field>)
    requires (forall k | 0 <= k < |descs| :: DescNarrow(descs[k])) && AllFit(rest)
    ensures AllFit(DescList(descs, rest))
    decreases |descs|
  {
    if descs != [] {
      DescsNarrow(descs[1..], rest);
      Powers();
      assert DescNarrow(descs[0]);
      FitAppend(DescFields(descs[0]), DescList(descs[1..], rest));
    }
  }

  lemma {:induction false} FilesNarrow(files: seq<seq<Byte>>)
    requires forall k | 0 <= k < |files| :: |files[k]| <= U64_MAX
    ensures AllFit(FileList(files, []))
    decreases |files|
  {
    if files != [] {
      FilesNarrow(files[1..]);
      StringFit(files[0], FileList(files[1..], []));
    }
  }

  // ----- the whole body -----

  /** The numbers of a snapshot are no larger than their types. */
  ghost predicate Narrowed(s: Snapshot) {
    && TimesFit(s) && ManifestFits(s.manifest) && BuildOptions(s.options) && |s.root| <= U64_MAX && s.corpusBytes <= U64_MAX
    && AllBelow(s.byteFreq, U64_MAX + 1) && AllBelow(s.gramFreq, U32_SIZE)
    && |s.infos| <= U64_MAX && (forall k | 0 <= k < |s.infos| :: InfoNarrow(s.infos[k]))
    && LayersNarrow(s)
    && forall k | 0 <= k < |s.files| :: |s.files[k]| <= U64_MAX
  }

  ghost predicate LayersNarrow(s: Snapshot) {
    && |s.chunks| <= U64_MAX && (forall k | 0 <= k < |s.chunks| :: ChunkNarrow(s.chunks[k]))
    && (forall k | 0 <= k < |s.groups| :: GroupNarrow(s.groups[k]))
    && |s.posDesc| <= U64_MAX && (forall k | 0 <= k < |s.posDesc| :: DescNarrow(s.posDesc[k]))
    && |s.pos| <= U64_MAX
  }

  lemma LayersFit(s: Snapshot)
    requires LayersNarrow(s) && AllFit(CorpusFields(s))
    ensures AllFit(IndexFields(s))
  {
    Powers();
    WordsFit(s.pos, 1, CorpusFields(s));
    var table := VectorFields(WordValues(s.pos, 8), 1, CorpusFields(s));
    DescsNarrow(s.posDesc, table);
    FitAppend([Field(|s.posDesc|, 8)], DescList(s.posDesc, table));
    GroupsNarrow(s.groups, PosFields(s));
    ChunksNarrow(s.chunks, GroupList(s.groups, PosFields(s)));
    FitAppend([Field(|s.chunks|, 8)], ChunkList(s.chunks, GroupList(s.groups, PosFields(s))));
  }

  /** So every field of its file holds its value. */
  lemma BodyFits(s: Snapshot)
    requires Narrowed(s)
    ensures AllFit(Body(s))
  {
    Powers();
    FilesNarrow(s.files);
    LayersFit(s);
    InfosNarrow(s.infos, IndexFields(s));
    var infos := [Field(|s.infos|, 8)] + InfoList(s.infos, IndexFields(s));
    FitAppend([Field(|s.infos|, 8)], InfoList(s.infos, IndexFields(s)));
    TableFit(s, infos);
    HeaderFit(s, TableFields(s, infos));
    ManifestFit(s, HeaderFields(s, TableFields(s, infos)));
  }

  // ----- the layers of a built index -----

  lemma {:induction false} GidsCount(chunks: seq<Chunk>, lg: nat, n: nat)
    requires n <= |chunks|
    ensures |GidsOf(chunks, lg, n)| <= n
  {
    if n > 0 { GidsCount(chunks, lg, n - 1); }
  }

  lemma GroupBound(chunks: seq<Chunk>, g: Group)
    requires Shaped(g, chunks) && |chunks| < U32_SIZE && g.gids == GidsOf(chunks, g.lg, |chunks|) && |g.bits| <= U64_MAX
    ensures GroupNarrow(g)
  {
    GidsCount(chunks, g.lg, |chunks|);
  }

  lemma {:induction false} PiecesAtMost(n: nat, k: nat)
    requires k > 0
    ensures Pieces(n, k) <= n
  {
    if n > k { PiecesAtMost(n - k, k); }
  }

  lemma DescBound(x: Index, k: nat)
    requires x.options.blockBytes > 0 && Tiled(x.posDesc, x.chunks, x.options.blockBytes, |x.pos|) && k < |x.posDesc| && |x.pos| <= U64_MAX
    requires x.chunks[k].coreEnd < U32_SIZE - 1
    ensures DescNarrow(x.posDesc[k])
  {
    TileInside(x.posDesc, x.chunks, x.options.blockBytes, |x.pos|, k);
    BlocksBound(x.posDesc[k], x.chunks[k], x.options.blockBytes);
  }

  lemma BlocksBound(d: PosDesc, c: Chunk, blockBytes: nat)
    requires blockBytes > 0 && c.coreBegin <= c.coreEnd < U32_SIZE - 1 && DescFits(d, c, blockBytes)
    ensures d.blocks < U32_SIZE && d.maskBytes < U32_SIZE && d.m < 0x1_0000
  {
    PiecesAtMost(c.coreEnd - c.coreBegin, blockBytes);
  }
}
