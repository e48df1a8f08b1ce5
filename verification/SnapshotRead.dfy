/** Reading the sections of a version 7 snapshot. `rest` and `end` say what a writer may
    have put behind a section; when it did, the section is read back exactly, or refused
    exactly for what it holds. */
module SnapshotRead {
  import opened Basics
  import opened Codec
  import opened IndexModel
  import opened SnapshotFormat
  import opened SnapshotChecks

  // ----- lists that are read one element at a time -----

  /** What was read, and what is still to come. */
  ghost predicate Parts<T>(list: seq<T>, out: seq<T>, left: seq<T>) {
    list == out + left
  }

  lemma PartsStep<T>(list: seq<T>, out: seq<T>, left: seq<T>, k: nat)
    requires Parts(list, out, left) && |out| == k < |list|
    ensures left != [] && left[0] == list[k] && Parts(list, out + [left[0]], left[1..]) && list[..k + 1] == out + [left[0]]
  {
  }

  lemma PartsDone<T>(list: seq<T>, out: seq<T>, left: seq<T>)
    requires Parts(list, out, left) && |out| == |list|
    ensures out == list && left == []
  {
  }

  // ----- strings and vectors -----

  /** Read back as `v` when that is acceptable, and refused otherwise. */
  ghost predicate ReadsAs<T>(res: Result<T>, v: T, acceptable: bool) {
    (res.Ok? <==> acceptable) && (res.Ok? ==> res.value == v)
  }

  method ReadString(r: Reader, ghost s: seq<Byte>, ghost rest: seq<Field>, ghost end: nat) returns (res: Result<seq<Byte>>)
    requires r.at <= |r.bytes|
    modifies r
    ensures r.at <= |r.bytes|
    ensures Ahead(r.bytes, old(r.at), StringFields(s, rest), end) ==>
      ReadsAs(res, s, |s| <= MAX_STRING) && (res.Ok? ==> Ahead(r.bytes, r.at, rest, end))
  {
    ghost var good := Ahead(r.bytes, r.at, StringFields(s, rest), end);
    var n :- r.One(8, |s|, ScalarFields(s, 1) + rest, end);
    if good { RoomFor(r.bytes, r.at, s, 1, rest, end); }
    if n > MAX_STRING || n > r.Remaining() {
      return Err("truncated");
    }
    res := r.Bytes(n, s, rest, end);
  }

  method ReadVector(r: Reader, width: nat, ghost v: seq<nat>, ghost rest: seq<Field>, ghost end: nat) returns (res: Result<seq<nat>>)
    requires r.at <= |r.bytes| && width > 0
    modifies r
    ensures r.at <= |r.bytes|
    ensures res.Ok? ==> |res.value| <= MAX_VECTOR && forall k | 0 <= k < |res.value| :: res.value[k] < Pow256(width)
    ensures Ahead(r.bytes, old(r.at), VectorFields(v, width, rest), end) ==>
      ReadsAs(res, v, |v| <= MAX_VECTOR) && (res.Ok? ==> Ahead(r.bytes, r.at, rest, end))
  {
    ghost var good := Ahead(r.bytes, r.at, VectorFields(v, width, rest), end);
    var n :- r.One(8, |v|, ScalarFields(v, width) + rest, end);
    if good {
      RoomFor(r.bytes, r.at, v, width, rest, end);
      assert Values(ScalarFields(v, width)) == v;
    }
    if n > MAX_VECTOR || n > r.Remaining() / width {
      return Err("truncated");
    }
    res := r.Scalars(seq(n, _ => width), ScalarFields(v, width), rest, end);
  }

  /** What was written fits in what remains. */
  lemma RoomFor(b: seq<Byte>, at: nat, v: seq<nat>, width: nat, rest: seq<Field>, end: nat)
    requires width > 0 && Ahead(b, at, ScalarFields(v, width) + rest, end)
    ensures at <= |b| && |v| <= (|b| - at) / width
  {
    AheadSplit(b, at, ScalarFields(v, width), rest, end);
    EvenWidth(ScalarFields(v, width), width, |v|);
    SnapshotChecks.RoomIff(|v|, width, |b| - at);
  }

  // ----- manifest -----

  /** The fixed-width option fields; whether the corpus is persisted is stored apart. */
  method ReadOptions(r: Reader, ghost o: Options, ghost rest: seq<Field>, ghost end: nat) returns (res: Result<Options>)
    requires r.at <= |r.bytes|
    modifies r
    ensures r.at <= |r.bytes|
    ensures res.Ok? ==> !res.value.persistCorpus
    ensures Ahead(r.bytes, old(r.at), OptionFields(o) + rest, end) ==> res == Ok(o.(persistCorpus := false)) && Ahead(r.bytes, r.at, rest, end)
  {
    var v :- r.Scalars(OPTION_WIDTHS, OptionFields(o), rest, end);
    res := Ok(Options(v[0], v[1], v[2], v[3], v[4], v[5] != 0, v[6] != 0, false));
  }

  /** Schema and features, then the identity of the source; whether the corpus is persisted. */
  method ReadLead(r: Reader, ghost s: Snapshot, ghost rest: seq<Field>, ghost end: nat) returns (res: Result<(nat, bool)>)
    requires r.at <= |r.bytes|
    modifies r
    ensures r.at <= |r.bytes|
    ensures Ahead(r.bytes, old(r.at), LeadFields(s) + rest, end) ==>
      res == Ok((s.manifest.sourceIdentity, s.options.persistCorpus)) && Ahead(r.bytes, r.at, rest, end)
  {
    var lead :- r.Scalars([8, 4, 4, 8], LeadFields(s), rest, end);
    if lead[0] != MANIFEST_MAGIC || lead[1] != SCHEMA || lead[2] > 3 || lead[2] < 2 {
      return Err("incompatible schema");
    }
    res := Ok((lead[3], lead[2] == 3));
  }

  predicate ManifestLoadable(s: Snapshot, identity: nat) {
    && |s.manifest.sourceRoot| <= MAX_STRING && LoadOptions(s.manifest.options)
    && (s.options.persistCorpus || (identity != 0 && identity == s.manifest.sourceIdentity))
  }

  /** `identity` is the identity of the source tree now. */
  method ReadManifest(r: Reader, identity: nat, ghost s: Snapshot, ghost rest: seq<Field>, ghost end: nat) returns (res: Result<(Manifest, bool)>)
    requires r.at <= |r.bytes|
    modifies r
    ensures r.at <= |r.bytes|
    ensures Ahead(r.bytes, old(r.at), ManifestFields(s, rest), end) ==>
      ReadsAs(res, (s.manifest, s.options.persistCorpus), ManifestLoadable(s, identity)) && (res.Ok? ==> Ahead(r.bytes, r.at, rest, end))
  {
    ghost var m := s.manifest;
    ghost var last := TailFields(m) + rest;
    ghost var more := [Field(m.selectorIdentity, 8)] + (OptionFields(m.options) + last);
    var lead :- ReadLead(r, s, StringFields(m.sourceRoot, more), end);
    var root :- ReadString(r, m.sourceRoot, more, end);
    var selector :- r.One(8, m.selectorIdentity, OptionFields(m.options) + last, end);
    var options :- ReadOptions(r, m.options, last, end);
    var tail :- r.Scalars([1, 8, 8, 8, 8], TailFields(m), rest, end);
    options := options.(persistCorpus := tail[0] != 0);
    if !LoadOptions(options) {
      return Err("invalid index options");
    }
    if !lead.1 && (identity == 0 || identity != lead.0) {
      return Err("stale cache manifest: source changed or disappeared");
    }
    res := Ok((Manifest(lead.0, root, selector, options, tail[1], tail[2], tail[3], tail[4]), lead.1));
  }

  // ----- header and tables -----

  /** Options are compared by value, so the two encodings of zero are the same ratio. */
  predicate SameOptions(a: Options, b: Options) {
    a.(ratioBits := 0) == b.(ratioBits := 0) && (a.ratioBits == b.ratioBits || (IsZero(a.ratioBits) && IsZero(b.ratioBits)))
  }

  predicate IsZero(bits: nat) {
    bits == 0 || bits == 0x8000_0000_0000_0000
  }

  predicate HeaderLoadable(s: Snapshot) {
    && |s.root| <= MAX_STRING && LoadOptions(s.options)
    && SameOptions(s.options, s.manifest.options) && s.manifest.sourceRoot == s.root && s.manifest.corpusBytes == s.corpusBytes
  }

  method ReadHeader(r: Reader, m: Manifest, persisted: bool, ghost s: Snapshot, ghost rest: seq<Field>, ghost end: nat)
    returns (res: Result<(seq<Byte>, Options, nat, int)>)
    requires r.at <= |r.bytes| && TimesFit(s)
    modifies r
    ensures r.at <= |r.bytes|
    ensures res.Ok? ==> LoadOptions(res.value.1) && res.value.1.persistCorpus == persisted
    ensures Ahead(r.bytes, old(r.at), HeaderFields(s, rest), end) && m == s.manifest && persisted == s.options.persistCorpus ==>
      ReadsAs(res, (s.root, s.options, s.corpusBytes, s.rootMtime), HeaderLoadable(s)) && (res.Ok? ==> Ahead(r.bytes, r.at, rest, end))
  {
    var root :- ReadString(r, s.root, OptionFields(s.options) + (SizeFields(s) + rest), end);
    var options :- ReadOptions(r, s.options, SizeFields(s) + rest, end);
    options := options.(persistCorpus := persisted);
    var v :- ReadSizes(r, s, rest, end);
    if !LoadOptions(options) {
      return Err("invalid index options");
    }
    if !SameOptions(options, m.options) || root != m.sourceRoot || v.0 != m.corpusBytes {
      return Err("stale cache manifest");
    }
    res := Ok((root, options, v.0, v.1));
  }

  method ReadSizes(r: Reader, ghost s: Snapshot, ghost rest: seq<Field>, ghost end: nat) returns (res: Result<(nat, int)>)
    requires r.at <= |r.bytes| && TimesFit(s)
    modifies r
    ensures r.at <= |r.bytes|
    ensures Ahead(r.bytes, old(r.at), SizeFields(s) + rest, end) ==> res == Ok((s.corpusBytes, s.rootMtime)) && Ahead(r.bytes, r.at, rest, end)
  {
    var v :- r.Scalars([8, 8], SizeFields(s), rest, end);
    res := Ok((v[0], Signed(v[1])));
  }

  method ReadTables(r: Reader, blockBytes: nat, ghost s: Snapshot, ghost rest: seq<Field>, ghost end: nat) returns (res: Result<(seq<nat>, seq<nat>)>)
    requires r.at <= |r.bytes|
    modifies r
    ensures r.at <= |r.bytes|
    ensures Ahead(r.bytes, old(r.at), TableFields(s, rest), end) && |s.byteFreq| == 256 && |s.gramFreq| == 65536 && blockBytes == s.options.blockBytes ==>
      res == Ok((s.byteFreq, s.gramFreq)) && Ahead(r.bytes, r.at, rest, end)
  {
    ghost var block := [Field(s.options.blockBytes, 4)] + rest;
    var bytes :- r.Scalars(seq(256, _ => 8), ScalarFields(s.byteFreq, 8), ScalarFields(s.gramFreq, 4) + block, end);
    var grams :- r.Scalars(seq(65536, _ => 4), ScalarFields(s.gramFreq, 4), block, end);
    var v :- r.One(4, s.options.blockBytes, rest, end);
    if v != blockBytes {
      return Err("positional block mismatch");
    }
    assert Values(ScalarFields(s.byteFreq, 8)) == s.byteFreq;
    assert Values(ScalarFields(s.gramFreq, 4)) == s.gramFreq;
    res := Ok((bytes, grams));
  }

  // ----- file records -----

  /** Absolute, drive-qualified and parent paths are refused. */
  predicate UnsafePath(path: seq<Byte>) {
    path != [] && (IsSlash(path[0]) || (|path| >= 2 && IsLetter(path[0]) && path[1] == 58) || HasParent(path, 0))
  }

  predicate IsSlash(b: Byte) {
    b == 47 || b == 92
  }

  predicate IsLetter(b: Byte) {
    65 <= b <= 90 || 97 <= b <= 122
  }

  /** Some component from `begin` on is two dots. */
  predicate HasParent(path: seq<Byte>, begin: nat)
    decreases |path| - begin
  {
    begin < |path| &&
    var end := ComponentEnd(path, begin);
    path[begin..end] == [46, 46] || HasParent(path, end + 1)
  }

  function ComponentEnd(path: seq<Byte>, from: nat): (end: nat)
    requires from <= |path|
    ensures from <= end <= |path|
    decreases |path| - from
  {
    if from == |path| || IsSlash(path[from]) then from else ComponentEnd(path, from + 1)
  }

  predicate InfoLoadable(f: FileInfo) {
    InfoFits(f) && |f.path| <= MAX_STRING && !UnsafePath(f.path)
  }

  method ReadInfo(r: Reader, ghost f: FileInfo, ghost rest: seq<Field>, ghost end: nat) returns (res: Result<FileInfo>)
    requires r.at <= |r.bytes|
    modifies r
    ensures r.at <= |r.bytes|
    ensures InfoFits(f) && Ahead(r.bytes, old(r.at), InfoFields(f, rest), end) ==>
      ReadsAs(res, f, InfoLoadable(f)) && (res.Ok? ==> Ahead(r.bytes, r.at, rest, end))
  {
    ghost var stats := if InfoFits(f) then StatFields(f) else [];
    var path :- ReadString(r, f.path, stats + rest, end);
    var v :- r.Scalars([8, 8, 1], stats, rest, end);
    if UnsafePath(path) {
      return Err("invalid FileInfo path");
    }
    res := Ok(FileInfo(path, v[0], Signed(v[1]), v[2] != 0));
  }

  ghost predicate InfosFit(infos: seq<FileInfo>) {
    forall k | 0 <= k < |infos| :: InfoFits(infos[k])
  }

  ghost predicate InfosLoadable(infos: seq<FileInfo>) {
    forall k | 0 <= k < |infos| :: InfoLoadable(infos[k])
  }

  /** A list of records of at least `width` bytes each fits in what remains. */
  lemma {:induction false} InfosRoom(b: seq<Byte>, at: nat, infos: seq<FileInfo>, rest: seq<Field>, end: nat)
    requires InfosFit(infos) && Ahead(b, at, InfoList(infos, rest), end)
    ensures at + 25 * |infos| <= |b|
    decreases |infos|
  {
    if infos != [] {
      var at' := InfoRoom(b, at, infos[0], InfoList(infos[1..], rest), end);
      InfosRoom(b, at', infos[1..], rest, end);
    }
  }

  lemma InfoRoom(b: seq<Byte>, at: nat, f: FileInfo, more: seq<Field>, end: nat) returns (at': nat)
    requires InfoFits(f) && Ahead(b, at, InfoFields(f, more), end)
    ensures at' >= at + 25 && Ahead(b, at', more, end)
  {
    ShortWidth([Field(|f.path|, 8)]);
    ShortWidth(StatFields(f));
    AheadSplit(b, at, [Field(|f.path|, 8)], ScalarFields(f.path, 1) + (StatFields(f) + more), end);
    AheadSplit(b, at + 8, ScalarFields(f.path, 1), StatFields(f) + more, end);
    EvenWidth(ScalarFields(f.path, 1), 1, |f.path|);
    AheadSplit(b, at + 8 + |f.path|, StatFields(f), more, end);
    at' := at + 25 + |f.path|;
  }

  method ReadInfos(r: Reader, expected: nat, ghost infos: seq<FileInfo>, ghost rest: seq<Field>, ghost end: nat) returns (res: Result<seq<FileInfo>>)
    requires r.at <= |r.bytes| && InfosFit(infos)
    modifies r
    ensures r.at <= |r.bytes|
    ensures Ahead(r.bytes, old(r.at), [Field(|infos|, 8)] + InfoList(infos, rest), end) ==>
      ReadsAs(res, infos, |infos| <= MAX_FILES && |infos| == expected && InfosLoadable(infos)) && (res.Ok? ==> Ahead(r.bytes, r.at, rest, end))
  {
    ghost var good := Ahead(r.bytes, r.at, [Field(|infos|, 8)] + InfoList(infos, rest), end);
    var n :- r.One(8, |infos|, InfoList(infos, rest), end);
    if good { InfosRoom(r.bytes, r.at, infos, rest, end); }
    if n > MAX_FILES || n > r.Remaining() / 25 || n != expected {
      return Err("truncated");
    }
    var out: seq<FileInfo> := [];
    ghost var left := infos;
    for k := 0 to n
      invariant r.at <= |r.bytes| && InfosFit(left) && |out| == k
      invariant good ==> Parts(infos, out, left) && InfosLoadable(out) && Ahead(r.bytes, r.at, InfoList(left, rest), end)
    {
      ghost var first := if left != [] then left[0] else FileInfo([], 0, 0, false);
      ghost var others := if left != [] then left[1..] else [];
      if good { PartsStep(infos, out, left, k); }
      var f :- ReadInfo(r, first, InfoList(others, rest), end);
      out := out + [f];
      left := others;
    }
    if good { PartsDone(infos, out, left); }
    res := Ok(out);
  }

  function InfoSizes(infos: seq<FileInfo>): (sizes: seq<nat>)
    ensures |sizes| == |infos| && forall k | 0 <= k < |sizes| :: sizes[k] == infos[k].size
  {
    seq(|infos|, k requires 0 <= k < |infos| => infos[k].size)
  }

  function SumSizes(infos: seq<FileInfo>): nat {
    if infos == [] then 0 else SumSizes(Front(infos)) + Last(infos).size
  }

  /** The sizes add up to the recorded total, without overflow on the way. */
  method CheckTotal(infos: seq<FileInfo>, corpusBytes: nat) returns (ok: bool)
    ensures ok <==> SumSizes(infos) == corpusBytes <= MAX_CORPUS
  {
    var total := 0;
    for k := 0 to |infos|
      invariant total == SumSizes(infos[..k]) <= U64_MAX
      invariant SumSizes(infos[..k]) <= SumSizes(infos)
    {
      SumGrows(infos, k + 1);
      assert Front(infos[..k + 1]) == infos[..k] && Last(infos[..k + 1]) == infos[k];
      if infos[k].size > U64_MAX - total {
        return false;
      }
      total := total + infos[k].size;
    }
    assert infos[..|infos|] == infos;
    ok := total == corpusBytes && corpusBytes <= MAX_CORPUS;
  }

  lemma {:induction false} SumGrows(infos: seq<FileInfo>, k: nat)
    requires k <= |infos|
    ensures SumSizes(infos[..k]) <= SumSizes(infos)
    decreases |infos| - k
  {
    if k < |infos| {
      SumGrows(infos, k + 1);
      assert Front(infos[..k + 1]) == infos[..k];
    } else {
      assert infos[..k] == infos;
    }
  }

  // ----- chunks -----

  lemma {:induction false} ChunksRoom(b: seq<Byte>, at: nat, chunks: seq<Chunk>, rest: seq<Field>, end: nat)
    requires Ahead(b, at, ChunkList(chunks, rest), end)
    ensures at + 28 * |chunks| <= |b|
    decreases |chunks|
  {
    if chunks != [] {
      ShortWidth(ChunkFields(chunks[0]));
      AheadSplit(b, at, ChunkFields(chunks[0]), ChunkList(chunks[1..], rest), end);
      ChunksRoom(b, at + 28, chunks[1..], rest, end);
    }
  }

  method ReadChunks(r: Reader, sizes: seq<nat>, o: Options, ghost chunks: seq<Chunk>, ghost rest: seq<Field>, ghost end: nat) returns (res: Result<seq<Chunk>>)
    requires r.at <= |r.bytes|
    modifies r
    ensures r.at <= |r.bytes|
    ensures res.Ok? ==> ChunksValid(res.value, sizes, o)
    ensures Ahead(r.bytes, old(r.at), [Field(|chunks|, 8)] + ChunkList(chunks, rest), end) ==>
      ReadsAs(res, chunks, |chunks| <= MAX_RECORDS && ChunksValid(chunks, sizes, o)) && (res.Ok? ==> Ahead(r.bytes, r.at, rest, end))
  {
    var n :- ReadCount(r, chunks, rest, end);
    if ChunksValid(chunks, sizes, o) { PartitionStreamed(chunks, sizes, o); }
    var checker := new ChunkChecker(sizes, o);
    var out :- ReadChunkRun(r, checker, n, chunks, rest, end);
    var complete := checker.Finish();
    if !complete {
      return Err("invalid chunk relationships");
    }
    res := Ok(out);
  }

  method ReadCount(r: Reader, ghost chunks: seq<Chunk>, ghost rest: seq<Field>, ghost end: nat) returns (res: Result<nat>)
    requires r.at <= |r.bytes|
    modifies r
    ensures r.at <= |r.bytes|
    ensures Ahead(r.bytes, old(r.at), [Field(|chunks|, 8)] + ChunkList(chunks, rest), end) ==>
      ReadsAs(res, |chunks|, |chunks| <= MAX_RECORDS) && (res.Ok? ==> Ahead(r.bytes, r.at, ChunkList(chunks, rest), end))
  {
    ghost var good := Ahead(r.bytes, r.at, [Field(|chunks|, 8)] + ChunkList(chunks, rest), end);
    var n :- r.One(8, |chunks|, ChunkList(chunks, rest), end);
    if good { ChunksRoom(r.bytes, r.at, chunks, rest, end); }
    if n > MAX_RECORDS || n > r.Remaining() / 28 {
      return Err("truncated");
    }
    res := Ok(n);
  }

  method ReadChunkRun(r: Reader, checker: ChunkChecker, n: nat, ghost chunks: seq<Chunk>, ghost rest: seq<Field>, ghost end: nat)
    returns (res: Result<seq<Chunk>>)
    requires r.at <= |r.bytes| && checker.Valid() && checker.taken == []
    modifies r, checker
    ensures r.at <= |r.bytes|
    ensures res.Ok? ==> checker.Valid() && checker.taken == res.value
    ensures |chunks| == n && Ahead(r.bytes, old(r.at), ChunkList(chunks, rest), end) ==>
      ReadsAs(res, chunks, Streamed(chunks, checker.sizes, checker.options)) && (res.Ok? ==> Ahead(r.bytes, r.at, rest, end))
  {
    ghost var good := |chunks| == n && Ahead(r.bytes, r.at, ChunkList(chunks, rest), end);
    var out: seq<Chunk> := [];
    ghost var left := chunks;
    for k := 0 to n
      invariant r.at <= |r.bytes| && checker.Valid() && checker.taken == out && |out| == k
      invariant good ==> Parts(chunks, out, left) && Ahead(r.bytes, r.at, ChunkList(left, rest), end)
    {
      if good {
        PartsStep(chunks, out, left, k);
        Foretold(chunks, checker.sizes, checker.options, k);
      }
      var c :- NextChunk(r, checker, left, rest, end);
      out := out + [c];
      left := if left != [] then left[1..] else [];
    }
    if good { PartsDone(chunks, out, left); }
    res := Ok(out);
  }

  /** The checks see no fault in a list before they reach it. */
  lemma Foretold(chunks: seq<Chunk>, sizes: seq<nat>, o: Options, k: nat)
    requires k < |chunks|
    ensures Streamed(chunks, sizes, o) ==> Streamed(chunks[..k + 1], sizes, o)
  {
    if Streamed(chunks, sizes, o) { StreamedPrefix(chunks, sizes, o, k + 1); }
  }

  /** One more chunk, read and checked. */
  method NextChunk(r: Reader, checker: ChunkChecker, ghost left: seq<Chunk>, ghost rest: seq<Field>, ghost end: nat)
    returns (res: Result<Chunk>)
    requires r.at <= |r.bytes| && checker.Valid()
    modifies r, checker
    ensures r.at <= |r.bytes|
    ensures res.Ok? ==> checker.Valid() && checker.taken == old(checker.taken) + [res.value]
    ensures left != [] && Ahead(r.bytes, old(r.at), ChunkList(left, rest), end) ==>
      && ReadsAs(res, left[0], Streamed(old(checker.taken) + [left[0]], checker.sizes, checker.options))
      && (res.Ok? ==> Ahead(r.bytes, r.at, ChunkList(left[1..], rest), end))
  {
    ghost var first := if left != [] then left[0] else Chunk(0, 0, 0, 0);
    var c :- ReadChunk(r, first, ChunkList(if left != [] then left[1..] else [], rest), end);
    var ok := checker.Take(c);
    if !ok {
      return Err("invalid chunk geometry");
    }
    res := Ok(c);
  }

  method ReadChunk(r: Reader, ghost c: Chunk, ghost rest: seq<Field>, ghost end: nat) returns (res: Result<Chunk>)
    requires r.at <= |r.bytes|
    modifies r
    ensures r.at <= |r.bytes|
    ensures Ahead(r.bytes, old(r.at), ChunkFields(c) + rest, end) ==> res == Ok(c) && Ahead(r.bytes, r.at, rest, end)
  {
    var v :- r.Scalars([4, 8, 8, 8], ChunkFields(c), rest, end);
    res := Ok(Chunk(v[0], v[1], v[2], v[3]));
  }

  // ----- groups -----

  ghost predicate GroupsLoadable(groups: seq<Group>) {
    forall k | 0 <= k < |groups| :: GroupLoadable(groups[k])
  }

  predicate GroupLoadable(g: Group) {
    |g.gids| <= MAX_VECTOR && |g.bits| <= MAX_VECTOR
  }

  ghost predicate GroupsFit(groups: seq<Group>) {
    forall k | 0 <= k < |groups| :: WordsInside(groups[k].bits, 64)
  }

  method ReadGroup(r: Reader, ghost g: Group, ghost rest: seq<Field>, ghost end: nat) returns (res: Result<Group>)
    requires r.at <= |r.bytes|
    modifies r
    ensures r.at <= |r.bytes|
    ensures WordsInside(g.bits, 64) && Ahead(r.bytes, old(r.at), GroupFields(g, rest), end) ==>
      ReadsAs(res, g, GroupLoadable(g)) && (res.Ok? ==> Ahead(r.bytes, r.at, rest, end))
  {
    ghost var words := WordValues(g.bits, 64);
    if WordsInside(g.bits, 64) { WordsBack(g.bits, 64); }
    var v :- r.Scalars([1, 4, 4], ShapeFields(g), VectorFields(g.gids, 4, VectorFields(words, 8, rest)), end);
    var gids :- ReadVector(r, 4, g.gids, VectorFields(words, 8, rest), end);
    var bits :- ReadVector(r, 8, words, rest, end);
    res := Ok(Group(v[0], v[1], v[2], gids, WordsFrom(bits, 64)));
  }

  method ReadGroups(r: Reader, chunks: seq<Chunk>, ghost groups: seq<Group>, ghost rest: seq<Field>, ghost end: nat) returns (res: Result<seq<Group>>)
    requires r.at <= |r.bytes|
    modifies r
    ensures r.at <= |r.bytes|
    ensures res.Ok? ==> GroupsValid(chunks, res.value)
    ensures |groups| == 8 && GroupsFit(groups) && Ahead(r.bytes, old(r.at), GroupList(groups, rest), end) ==>
      ReadsAs(res, groups, GroupsLoadable(groups) && GroupsValid(chunks, groups)) && (res.Ok? ==> Ahead(r.bytes, r.at, rest, end))
  {
    ghost var good := |groups| == 8 && GroupsFit(groups) && Ahead(r.bytes, r.at, GroupList(groups, rest), end);
    var out: seq<Group> := [];
    var checker := new GroupChecker(chunks);
    ghost var left := groups;
    for k := 0 to 8
      invariant r.at <= |r.bytes| && fresh(checker) && checker.Valid() && checker.taken == out && |out| == k && checker.chunks == chunks
      invariant good ==> Parts(groups, out, left) && GroupsLoadable(out) && Ahead(r.bytes, r.at, GroupList(left, rest), end)
    {
      if good {
        PartsStep(groups, out, left, k);
        GroupsForetold(chunks, groups, k);
      }
      var g :- NextGroup(r, checker, left, rest, end);
      out := out + [g];
      left := if left != [] then left[1..] else [];
    }
    if good { PartsDone(groups, out, left); }
    var complete := checker.Finish();
    if !complete {
      return Err("incomplete qgram groups");
    }
    res := Ok(out);
  }

  lemma GroupsForetold(chunks: seq<Chunk>, groups: seq<Group>, k: nat)
    requires k < 8
    ensures GroupsValid(chunks, groups) ==> GroupsStreamed(chunks, groups[..k + 1])
  {
    if GroupsValid(chunks, groups) { ValidStreamed(chunks, groups, k + 1); }
  }

  /** One more group, read and checked. */
  method NextGroup(r: Reader, checker: GroupChecker, ghost left: seq<Group>, ghost rest: seq<Field>, ghost end: nat) returns (res: Result<Group>)
    requires r.at <= |r.bytes| && checker.Valid()
    modifies r, checker
    ensures r.at <= |r.bytes|
    ensures res.Ok? ==> checker.Valid() && checker.taken == old(checker.taken) + [res.value]
    ensures left != [] && WordsInside(left[0].bits, 64) && Ahead(r.bytes, old(r.at), GroupList(left, rest), end) ==>
      && ReadsAs(res, left[0], GroupLoadable(left[0]) && GroupsStreamed(checker.chunks, old(checker.taken) + [left[0]]))
      && (res.Ok? ==> Ahead(r.bytes, r.at, GroupList(left[1..], rest), end))
  {
    ghost var first := if left != [] then left[0] else Group(0, 0, 0, [], []);
    var g :- ReadGroup(r, first, GroupList(if left != [] then left[1..] else [], rest), end);
    var ok := checker.Take(g);
    if !ok {
      return Err("invalid qgram group");
    }
    res := Ok(g);
  }

  // ----- positional layer -----

  lemma {:induction false} DescsRoom(b: seq<Byte>, at: nat, descs: seq<PosDesc>, rest: seq<Field>, end: nat)
    requires Ahead(b, at, DescList(descs, rest), end)
    ensures at + 18 * |descs| <= |b|
    decreases |descs|
  {
    if descs != [] {
      ShortWidth(DescFields(descs[0]));
      AheadSplit(b, at, DescFields(descs[0]), DescList(descs[1..], rest), end);
      DescsRoom(b, at + 18, descs[1..], rest, end);
    }
  }

  method ReadDesc(r: Reader, ghost d: PosDesc, ghost rest: seq<Field>, ghost end: nat) returns (res: Result<PosDesc>)
    requires r.at <= |r.bytes|
    modifies r
    ensures r.at <= |r.bytes|
    ensures Ahead(r.bytes, old(r.at), DescFields(d) + rest, end) ==> res == Ok(d) && Ahead(r.bytes, r.at, rest, end)
  {
    var v :- r.Scalars([8, 2, 4, 4], DescFields(d), rest, end);
    res := Ok(PosDesc(v[0], v[1], v[2], v[3]));
  }

  method ReadDescs(r: Reader, expected: nat, ghost descs: seq<PosDesc>, ghost rest: seq<Field>, ghost end: nat) returns (res: Result<seq<PosDesc>>)
    requires r.at <= |r.bytes|
    modifies r
    ensures r.at <= |r.bytes|
    ensures res.Ok? ==> |res.value| == expected
    ensures Ahead(r.bytes, old(r.at), [Field(|descs|, 8)] + DescList(descs, rest), end) ==>
      ReadsAs(res, descs, |descs| == expected && |descs| <= MAX_RECORDS) && (res.Ok? ==> Ahead(r.bytes, r.at, rest, end))
  {
    ghost var good := Ahead(r.bytes, r.at, [Field(|descs|, 8)] + DescList(descs, rest), end);
    var n :- r.One(8, |descs|, DescList(descs, rest), end);
    if good { DescsRoom(r.bytes, r.at, descs, rest, end); }
    if n != expected || n > MAX_RECORDS || n > r.Remaining() / 18 {
      return Err("invalid positional descriptors");
    }
    var out: seq<PosDesc> := [];
    ghost var left := descs;
    for k := 0 to n
      invariant r.at <= |r.bytes| && |out| == k
      invariant good ==> Parts(descs, out, left) && Ahead(r.bytes, r.at, DescList(left, rest), end)
    {
      ghost var first := if left != [] then left[0] else PosDesc(0, 0, 0, 0);
      ghost var others := if left != [] then left[1..] else [];
      if good { PartsStep(descs, out, left, k); }
      var d :- ReadDesc(r, first, DescList(others, rest), end);
      out := out + [d];
      left := others;
    }
    if good { PartsDone(descs, out, left); }
    res := Ok(out);
  }

  // ----- corpus -----

  /** One persisted file, whose length must be the recorded one. */
  method ReadFile(r: Reader, size: nat, total: nat, ghost text: seq<Byte>, ghost rest: seq<Field>, ghost end: nat) returns (res: Result<seq<Byte>>)
    requires r.at <= |r.bytes| && total <= MAX_CORPUS
    modifies r
    ensures r.at <= |r.bytes|
    ensures res.Ok? ==> |res.value| == size && size <= MAX_CORPUS - total
    ensures Ahead(r.bytes, old(r.at), StringFields(text, rest), end) ==>
      ReadsAs(res, text, |text| == size && size <= MAX_CORPUS - total) && (res.Ok? ==> Ahead(r.bytes, r.at, rest, end))
  {
    ghost var good := Ahead(r.bytes, r.at, StringFields(text, rest), end);
    var n :- r.One(8, |text|, ScalarFields(text, 1) + rest, end);
    if good { RoomFor(r.bytes, r.at, text, 1, rest, end); }
    if n > MAX_CORPUS - total || n != size || n > r.Remaining() {
      return Err("invalid corpus payload");
    }
    res := r.Bytes(n, text, rest, end);
  }

  /** The files have the recorded sizes. */
  ghost predicate FilesMatch(files: seq<seq<Byte>>, infos: seq<FileInfo>) {
    |files| == |infos| && forall k | 0 <= k < |files| :: |files[k]| == infos[k].size
  }

  method ReadCorpus(r: Reader, infos: seq<FileInfo>, ghost files: seq<seq<Byte>>, ghost rest: seq<Field>, ghost end: nat) returns (res: Result<seq<seq<Byte>>>)
    requires r.at <= |r.bytes| && SumSizes(infos) <= MAX_CORPUS
    modifies r
    ensures r.at <= |r.bytes|
    ensures res.Ok? ==> FilesMatch(res.value, infos)
    ensures |files| == |infos| && Ahead(r.bytes, old(r.at), FileList(files, rest), end) ==>
      ReadsAs(res, files, FilesMatch(files, infos)) && (res.Ok? ==> Ahead(r.bytes, r.at, rest, end))
  {
    ghost var good := |files| == |infos| && Ahead(r.bytes, r.at, FileList(files, rest), end);
    var out: seq<seq<Byte>> := [];
    var total: nat := 0;
    ghost var left := files;
    for k := 0 to |infos|
      invariant r.at <= |r.bytes| && |out| == k && total == SumSizes(infos[..k]) <= MAX_CORPUS
      invariant forall i | 0 <= i < k :: |out[i]| == infos[i].size
      invariant good ==> Parts(files, out, left) && Ahead(r.bytes, r.at, FileList(left, rest), end)
    {
      SumStep(infos, k);
      if good { PartsStep(files, out, left, k); }
      ghost var first := if left != [] then left[0] else [];
      left := if left != [] then left[1..] else [];
      var text :- ReadFile(r, infos[k].size, total, first, FileList(left, rest), end);
      total := total + |text|;
      out := out + [text];
    }
    if good { PartsDone(files, out, left); }
    res := Ok(out);
  }

  lemma SumStep(infos: seq<FileInfo>, k: nat)
    requires k < |infos|
    ensures SumSizes(infos[..k + 1]) == SumSizes(infos[..k]) + infos[k].size <= SumSizes(infos)
  {
    SumGrows(infos, k + 1);
    assert Front(infos[..k + 1]) == infos[..k] && Last(infos[..k + 1]) == infos[k];
  }

  /** A source-backed snapshot attaches each file where it is; `attach` yields its bytes,
      or fails when the file is gone or its size changed. */
  type Attach = FileInfo -> Result<seq<Byte>>

  ghost predicate KeepsSizes(attach: Attach) {
    forall f :: attach(f).Ok? ==> |attach(f).value| == f.size
  }

  method AttachFiles(infos: seq<FileInfo>, attach: Attach) returns (res: Result<seq<seq<Byte>>>)
    requires KeepsSizes(attach)
    ensures res.Ok? ==> FilesMatch(res.value, infos) && forall k | 0 <= k < |infos| :: attach(infos[k]) == Ok(res.value[k])
    ensures res.Err? ==> exists k :: 0 <= k < |infos| && attach(infos[k]).Err?
  {
    var out: seq<seq<Byte>> := [];
    for k := 0 to |infos|
      invariant |out| == k && forall i | 0 <= i < k :: attach(infos[i]) == Ok(out[i])
    {
      var text := attach(infos[k]);
      if text.Err? {
        return Err(text.error);
      }
      out := out + [text.value];
    }
    res := Ok(out);
  }
}
