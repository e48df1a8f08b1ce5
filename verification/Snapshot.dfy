/** Loading a version 7 snapshot: only well-formed snapshots are accepted, and a snapshot
    that was saved is given back exactly when it is within the limits, and refused otherwise. */
module Snapshot {
  import opened Basics
  import opened Codec
  import opened IndexModel
  import opened SnapshotFormat
  import opened SnapshotChecks
  import opened SnapshotRead

  // ----- the whole snapshot -----

  /** What every loaded snapshot is guaranteed to be. */
  ghost predicate Intact(s: Snapshot) {
    && LoadOptions(s.options)
    && FilesMatch(s.files, s.infos)
    && ChunksValid(s.chunks, InfoSizes(s.infos), s.options)
    && GroupsValid(s.chunks, s.groups)
    && Tiled(s.posDesc, s.chunks, s.options.blockBytes, |s.pos|)
  }

  /** What the types of its parts guarantee of a snapshot in memory. */
  ghost predicate Representable(s: Snapshot) {
    && TimesFit(s) && |s.byteFreq| == 256 && |s.gramFreq| == 65536
    && |s.groups| == 8 && GroupsFit(s.groups) && WordsInside(s.pos, 8)
    && (s.options.persistCorpus ==> |s.files| == |s.infos|)
    && forall k | 0 <= k < |Body(s)| :: Codec.Fitted(Body(s)[k])
  }

  /** Its description is within the declared limits, and consistent with its source. */
  ghost predicate MetaLoadable(s: Snapshot, identity: nat) {
    && ManifestLoadable(s, identity) && HeaderLoadable(s)
    && |s.infos| <= MAX_FILES && s.manifest.corpusFiles == |s.infos| && InfosLoadable(s.infos)
    && SumSizes(s.infos) == s.corpusBytes <= MAX_CORPUS
  }

  ghost predicate LayersLoadable(s: Snapshot) {
    && |s.chunks| <= MAX_RECORDS && GroupsLoadable(s.groups) && |s.pos| <= MAX_VECTOR
    && LayersValid(LayersOf(s), InfoSizes(s.infos), s.options)
  }

  ghost predicate FilesLoadable(s: Snapshot, attach: Attach) {
    if s.options.persistCorpus then FilesMatch(s.files, s.infos) else forall k | 0 <= k < |s.infos| :: attach(s.infos[k]).Ok?
  }

  /** Everything the loader asks of a snapshot; `identity` is that of the source tree now. */
  ghost predicate Loadable(s: Snapshot, identity: nat, attach: Attach) {
    MetaLoadable(s, identity) && LayersLoadable(s) && FilesLoadable(s, attach)
  }

  /** The persisted files, or what the source holds now. */
  ghost predicate FilesBack(files: seq<seq<Byte>>, s: Snapshot, attach: Attach) {
    if s.options.persistCorpus then files == s.files
    else |files| == |s.infos| && forall k | 0 <= k < |s.infos| :: attach(s.infos[k]) == Ok(files[k])
  }

  /** What describes the index and its files. */
  datatype Meta = Meta(manifest: Manifest, root: seq<Byte>, options: Options, corpusBytes: nat, rootMtime: int,
    byteFreq: seq<nat>, gramFreq: seq<nat>, infos: seq<FileInfo>)

  function MetaOf(s: Snapshot): Meta {
    Meta(s.manifest, s.root, s.options, s.corpusBytes, s.rootMtime, s.byteFreq, s.gramFreq, s.infos)
  }

  method ReadMeta(r: Reader, identity: nat, ghost s: Snapshot, ghost end: nat) returns (res: Result<Meta>)
    requires r.at <= |r.bytes| && TimesFit(s)
    modifies r
    ensures r.at <= |r.bytes|
    ensures res.Ok? ==> LoadOptions(res.value.options) && SumSizes(res.value.infos) <= MAX_CORPUS
    ensures Representable(s) && Ahead(r.bytes, old(r.at), Body(s), end) ==>
      ReadsAs(res, MetaOf(s), MetaLoadable(s, identity)) && (res.Ok? ==> Ahead(r.bytes, r.at, IndexFields(s), end))
  {
    ghost var infoFields := [Field(|s.infos|, 8)] + InfoList(s.infos, IndexFields(s));
    var m :- ReadManifest(r, identity, s, HeaderFields(s, TableFields(s, infoFields)), end);
    var h :- ReadHeader(r, m.0, m.1, s, TableFields(s, infoFields), end);
    var t :- ReadTables(r, h.1.blockBytes, s, infoFields, end);
    var infos :- ReadInfos(r, m.0.corpusFiles, s.infos, IndexFields(s), end);
    var ok := CheckTotal(infos, h.2);
    if !ok {
      return Err("invalid corpus totals");
    }
    res := Ok(Meta(m.0, h.0, h.1, h.2, h.3, t.0, t.1, infos));
  }

  datatype Layers = Layers(chunks: seq<Chunk>, groups: seq<Group>, posDesc: seq<PosDesc>, pos: seq<Word>)

  function LayersOf(s: Snapshot): Layers {
    Layers(s.chunks, s.groups, s.posDesc, s.pos)
  }

  ghost predicate LayersValid(l: Layers, sizes: seq<nat>, o: Options) {
    && o.blockBytes > 0 && ChunksValid(l.chunks, sizes, o) && GroupsValid(l.chunks, l.groups)
    && Tiled(l.posDesc, l.chunks, o.blockBytes, |l.pos|)
  }

  method ReadLayers(r: Reader, sizes: seq<nat>, o: Options, ghost s: Snapshot, ghost end: nat) returns (res: Result<Layers>)
    requires r.at <= |r.bytes| && LoadOptions(o)
    modifies r
    ensures r.at <= |r.bytes|
    ensures res.Ok? ==> LayersValid(res.value, sizes, o)
    ensures Representable(s) && sizes == InfoSizes(s.infos) && o == s.options && Ahead(r.bytes, old(r.at), IndexFields(s), end) ==>
      ReadsAs(res, LayersOf(s), LayersLoadable(s)) && (res.Ok? ==> Ahead(r.bytes, r.at, CorpusFields(s), end))
  {
    ghost var good := Representable(s) && sizes == InfoSizes(s.infos) && o == s.options && Ahead(r.bytes, r.at, IndexFields(s), end);
    ghost var values := WordValues(s.pos, 8);
    if good { WordsBack(s.pos, 8); }
    var chunks :- ReadChunks(r, sizes, o, s.chunks, GroupList(s.groups, PosFields(s)), end);
    var groups :- ReadGroups(r, chunks, s.groups, PosFields(s), end);
    var descs :- ReadDescs(r, |chunks|, s.posDesc, VectorFields(values, 1, CorpusFields(s)), end);
    var pos :- ReadVector(r, 1, values, CorpusFields(s), end);
    var ok := CheckDescriptors(descs, chunks, o.blockBytes, |pos|);
    if !ok {
      return Err("invalid positional data");
    }
    res := Ok(Layers(chunks, groups, descs, WordsFrom(pos, 8)));
  }

  ghost predicate IsU64(sum: Checksum) {
    forall b :: sum(b) < Pow256(8)
  }

  /** Magic, version and checksum, before anything else is read. */
  method CheckFrame(b: seq<Byte>, sum: Checksum, ghost body: seq<Field>) returns (ok: bool)
    requires IsU64(sum)
    ensures ok ==> 20 <= |b| <= MAX_SNAPSHOT
    ensures IsFile(b, body, sum) ==> (ok <==> |b| <= MAX_SNAPSHOT)
  {
    if |b| < 20 || |b| > MAX_SNAPSHOT {
      return false;
    }
    var r := new Reader(b, 8);
    var version := r.Scalar(4);
    var t := new Reader(b, |b| - 8);
    var stored := t.Scalar(8);
    assert VERSION < Pow256(4);
    ok := b[..8] == MAGIC && version == Ok(VERSION) && stored == Ok(sum(b[12..|b| - 8]));
  }

  /** Loads the file `b`. The snapshot `s` is any one that may have been saved to it. */
  method Load(b: seq<Byte>, sum: Checksum, identity: nat, attach: Attach, ghost s: Snapshot) returns (res: Result<Snapshot>)
    requires KeepsSizes(attach) && IsU64(sum) && TimesFit(s)
    ensures res.Ok? ==> Intact(res.value)
    ensures Saved(b, s, sum) && Representable(s) ==> (res.Ok? <==> |b| <= MAX_SNAPSHOT && Loadable(s, identity, attach))
    ensures Saved(b, s, sum) && Representable(s) && res.Ok? ==> res.value == s.(files := res.value.files) && FilesBack(res.value.files, s, attach)
  {
    var framed := CheckFrame(b, sum, Body(s));
    if !framed {
      return Err("not a snapshot");
    }
    var r := new Reader(b, 12);
    ghost var end: nat := |b| - 8;
    var m :- ReadMeta(r, identity, s, end);
    var l :- ReadLayers(r, InfoSizes(m.infos), m.options, s, end);
    var files :- ReadFiles(r, m, attach, s, end);
    if r.at != |b| - 8 {
      return Err("unexpected trailing data");
    }
    res := Ok(Snapshot(m.manifest, m.root, m.options, m.corpusBytes, m.rootMtime, m.byteFreq, m.gramFreq, m.infos,
      l.chunks, l.groups, l.posDesc, l.pos, files));
  }

  /** The persisted bytes, or those of the source files. */
  method ReadFiles(r: Reader, m: Meta, attach: Attach, ghost s: Snapshot, ghost end: nat) returns (res: Result<seq<seq<Byte>>>)
    requires r.at <= |r.bytes| && KeepsSizes(attach) && SumSizes(m.infos) <= MAX_CORPUS
    modifies r
    ensures r.at <= |r.bytes|
    ensures res.Ok? ==> FilesMatch(res.value, m.infos)
    ensures Representable(s) && m == MetaOf(s) && Ahead(r.bytes, old(r.at), CorpusFields(s), end) ==>
      && (res.Ok? <==> FilesLoadable(s, attach))
      && (res.Ok? ==> FilesBack(res.value, s, attach) && r.at == end)
  {
    if m.options.persistCorpus {
      res := ReadCorpus(r, m.infos, s.files, [], end);
    } else {
      res := AttachFiles(m.infos, attach);
    }
  }
}
