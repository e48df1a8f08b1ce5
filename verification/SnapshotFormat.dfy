/** The version 7 snapshot: what it holds, the order of its fields, and the writer. */
module SnapshotFormat {
  import opened Basics
  import opened Codec
  import opened IndexModel

  // ----- contents -----

  datatype FileInfo = FileInfo(path: seq<Byte>, size: nat, mtime: int, binary: bool)

  datatype Manifest = Manifest(sourceIdentity: nat, sourceRoot: seq<Byte>, selectorIdentity: nat, options: Options,
    transformIdentity: nat, corpusFiles: nat, corpusBytes: nat, generation: nat)

  datatype Snapshot = Snapshot(manifest: Manifest, root: seq<Byte>, options: Options, corpusBytes: nat, rootMtime: int,
    byteFreq: seq<nat>, gramFreq: seq<nat>, infos: seq<FileInfo>, chunks: seq<Chunk>, groups: seq<Group>,
    posDesc: seq<PosDesc>, pos: seq<Word>, files: seq<seq<Byte>>)

  const MAGIC: seq<Byte> := [80, 69, 82, 71, 82, 69, 80, 0]
  const VERSION: nat := 7
  const MANIFEST_MAGIC: nat := 0x4d41_4e49_4645_5354
  const SCHEMA: nat := 2
  const MAX_CORPUS: nat := 0x4000_0000
  const MAX_SNAPSHOT: nat := 0x4000_0000 + 256 * 1024 * 1024
  const MAX_STRING: nat := 16 * 1024 * 1024
  const MAX_FILES: nat := 10_000_000
  const MAX_RECORDS: nat := 100_000_000
  const MAX_VECTOR: nat := 200_000_000

  // ----- words as numbers -----

  /** Bits `k` to `k + n - 1` of a word, the lowest first. */
  function WordValue(w: Word, k: nat, n: nat): nat
    decreases n
  {
    if n == 0 then 0 else (if k in w then 1 else 0) + 2 * WordValue(w, k + 1, n - 1)
  }

  function WordFrom(v: nat, k: nat, n: nat): Word
    decreases n
  {
    if n == 0 then {} else (if v % 2 == 1 then {k} else {}) + WordFrom(v / 2, k + 1, n - 1)
  }

  lemma {:induction false} WordRoundTrip(w: Word, k: nat, n: nat)
    ensures forall b: nat :: b in WordFrom(WordValue(w, k, n), k, n) <==> b in w && k <= b < k + n
    decreases n
  {
    if n > 0 { WordRoundTrip(w, k + 1, n - 1); }
  }

  lemma WordBack(w: Word, n: nat)
    requires Inside(w, 0, n)
    ensures WordFrom(WordValue(w, 0, n), 0, n) == w
  {
    WordRoundTrip(w, 0, n);
  }

  function WordValues(ws: seq<Word>, n: nat): (v: seq<nat>)
    ensures |v| == |ws| && forall k | 0 <= k < |v| :: v[k] == WordValue(ws[k], 0, n)
  {
    seq(|ws|, k requires 0 <= k < |ws| => WordValue(ws[k], 0, n))
  }

  function WordsFrom(v: seq<nat>, n: nat): (ws: seq<Word>)
    ensures |ws| == |v| && forall k | 0 <= k < |v| :: ws[k] == WordFrom(v[k], 0, n)
  {
    seq(|v|, k requires 0 <= k < |v| => WordFrom(v[k], 0, n))
  }

  lemma WordsBack(ws: seq<Word>, n: nat)
    requires forall k | 0 <= k < |ws| :: Inside(ws[k], 0, n)
    ensures WordsFrom(WordValues(ws, n), n) == ws
  {
    forall k | 0 <= k < |ws| ensures WordsFrom(WordValues(ws, n), n)[k] == ws[k] { WordBack(ws[k], n); }
  }

  // ----- signed numbers and flags -----

  const I64_LOW: int := -0x8000_0000_0000_0000
  const I64_HIGH: int := 0x7FFF_FFFF_FFFF_FFFF

  function Unsigned(x: int): nat
    requires I64_LOW <= x <= I64_HIGH
  {
    if x < 0 then x + U64_MAX + 1 else x
  }

  function Signed(v: nat): int {
    if v > I64_HIGH then v - U64_MAX - 1 else v
  }

  function Flag(b: bool): nat {
    if b then 1 else 0
  }

  // ----- field order -----

  /** Times that the format can hold. */
  predicate TimesFit(s: Snapshot) {
    I64_LOW <= s.rootMtime <= I64_HIGH && forall k | 0 <= k < |s.infos| :: InfoFits(s.infos[k])
  }

  function OptionFields(o: Options): (fs: seq<Field>)
    ensures |fs| == 7
  {
    [Field(o.chunkBytes, 8), Field(o.chunkOverlap, 8), Field(o.blockBytes, 8), Field(o.ratioBits, 8), Field(o.plannedQgrams, 8),
     Field(Flag(o.includeHidden), 1), Field(Flag(o.followSymlinks), 1)]
  }

  const OPTION_WIDTHS: seq<nat> := [8, 8, 8, 8, 8, 1, 1]

  function Features(persist: bool): nat {
    if persist then 3 else 2
  }

  function LeadFields(s: Snapshot): (fs: seq<Field>)
    ensures |fs| == 4
  {
    [Field(MANIFEST_MAGIC, 8), Field(SCHEMA, 4), Field(Features(s.options.persistCorpus), 4), Field(s.manifest.sourceIdentity, 8)]
  }

  function TailFields(m: Manifest): (fs: seq<Field>)
    ensures |fs| == 5
  {
    [Field(Flag(m.options.persistCorpus), 1), Field(m.transformIdentity, 8), Field(m.corpusFiles, 8), Field(m.corpusBytes, 8), Field(m.generation, 8)]
  }

  function ManifestFields(s: Snapshot, rest: seq<Field>): seq<Field> {
    LeadFields(s) + StringFields(s.manifest.sourceRoot,
      [Field(s.manifest.selectorIdentity, 8)] + (OptionFields(s.manifest.options) + (TailFields(s.manifest) + rest)))
  }

  function SizeFields(s: Snapshot): (fs: seq<Field>)
    requires TimesFit(s)
    ensures |fs| == 2
  {
    [Field(s.corpusBytes, 8), Field(Unsigned(s.rootMtime), 8)]
  }

  function HeaderFields(s: Snapshot, rest: seq<Field>): seq<Field>
    requires TimesFit(s)
  {
    StringFields(s.root, OptionFields(s.options) + (SizeFields(s) + rest))
  }

  function TableFields(s: Snapshot, rest: seq<Field>): seq<Field> {
    ScalarFields(s.byteFreq, 8) + (ScalarFields(s.gramFreq, 4) + ([Field(s.options.blockBytes, 4)] + rest))
  }

  predicate InfoFits(f: FileInfo) {
    I64_LOW <= f.mtime <= I64_HIGH
  }

  function StatFields(f: FileInfo): (fs: seq<Field>)
    requires InfoFits(f)
    ensures |fs| == 3
  {
    [Field(f.size, 8), Field(Unsigned(f.mtime), 8), Field(Flag(f.binary), 1)]
  }

  function InfoFields(f: FileInfo, rest: seq<Field>): seq<Field>
    requires InfoFits(f)
  {
    StringFields(f.path, StatFields(f) + rest)
  }

  function InfoList(infos: seq<FileInfo>, rest: seq<Field>): seq<Field>
    requires forall k | 0 <= k < |infos| :: InfoFits(infos[k])
  {
    if infos == [] then rest else InfoFields(infos[0], InfoList(infos[1..], rest))
  }

  function ChunkFields(c: Chunk): (fs: seq<Field>)
    ensures |fs| == 4
  {
    [Field(c.file, 4), Field(c.coreBegin, 8), Field(c.coreEnd, 8), Field(c.extEnd, 8)]
  }

  function ChunkList(chunks: seq<Chunk>, rest: seq<Field>): seq<Field> {
    if chunks == [] then rest else ChunkFields(chunks[0]) + ChunkList(chunks[1..], rest)
  }

  function ShapeFields(g: Group): (fs: seq<Field>)
    ensures |fs| == 3
  {
    [Field(g.lg, 1), Field(g.m, 4), Field(g.words, 4)]
  }

  function GroupFields(g: Group, rest: seq<Field>): seq<Field> {
    ShapeFields(g) + VectorFields(g.gids, 4, VectorFields(WordValues(g.bits, 64), 8, rest))
  }

  function GroupList(groups: seq<Group>, rest: seq<Field>): seq<Field> {
    if groups == [] then rest else GroupFields(groups[0], GroupList(groups[1..], rest))
  }

  function DescFields(d: PosDesc): (fs: seq<Field>)
    ensures |fs| == 4
  {
    [Field(d.off, 8), Field(d.m, 2), Field(d.maskBytes, 4), Field(d.blocks, 4)]
  }

  function DescList(descs: seq<PosDesc>, rest: seq<Field>): seq<Field> {
    if descs == [] then rest else DescFields(descs[0]) + DescList(descs[1..], rest)
  }

  function FileList(files: seq<seq<Byte>>, rest: seq<Field>): seq<Field> {
    if files == [] then rest else StringFields(files[0], FileList(files[1..], rest))
  }

  function CorpusFields(s: Snapshot): seq<Field> {
    if s.options.persistCorpus then FileList(s.files, []) else []
  }

  function PosFields(s: Snapshot): seq<Field> {
    [Field(|s.posDesc|, 8)] + DescList(s.posDesc, VectorFields(WordValues(s.pos, 8), 1, CorpusFields(s)))
  }

  function IndexFields(s: Snapshot): seq<Field> {
    [Field(|s.chunks|, 8)] + ChunkList(s.chunks, GroupList(s.groups, PosFields(s)))
  }

  /** All fields between the version and the checksum. */
  function Body(s: Snapshot): seq<Field>
    requires TimesFit(s)
  {
    ManifestFields(s, HeaderFields(s, TableFields(s, [Field(|s.infos|, 8)] + InfoList(s.infos, IndexFields(s)))))
  }

  /** The checksum of the bytes it covers; only that it is a function matters. */
  type Checksum = seq<Byte> -> nat

  /** A file with this body: magic, version, the fields and a checksum of their bytes. */
  ghost predicate IsFile(b: seq<Byte>, body: seq<Field>, sum: Checksum) {
    && |b| == 12 + FieldsWidth(body, |body|) + 8
    && b[..8] == MAGIC
    && FieldAt(b, 8, Field(VERSION, 4))
    && FieldsAt(b, 12, body)
    && FieldAt(b, |b| - 8, Field(sum(b[12..|b| - 8]), 8))
  }

  /** `b` is the file of snapshot `s`. */
  ghost predicate Saved(b: seq<Byte>, s: Snapshot, sum: Checksum) {
    TimesFit(s) && IsFile(b, Body(s), sum)
  }

  // ----- saving -----

  function TotalBytes(files: seq<seq<Byte>>): nat {
    if files == [] then 0 else TotalBytes(Front(files)) + |Last(files)|
  }

  predicate CanSave(s: Snapshot) {
    s.corpusBytes <= MAX_CORPUS && (s.options.persistCorpus ==> |s.files| == |s.infos| && TotalBytes(s.files) <= MAX_CORPUS)
  }

  method PayloadFits(files: seq<seq<Byte>>) returns (ok: bool)
    ensures ok <==> TotalBytes(files) <= MAX_CORPUS
  {
    var total := 0;
    for k := 0 to |files|
      invariant total == TotalBytes(files[..k]) <= MAX_CORPUS
      invariant TotalBytes(files[..k]) <= TotalBytes(files)
    {
      TotalGrows(files, k + 1);
      assert Front(files[..k + 1]) == files[..k] && Last(files[..k + 1]) == files[k];
      if |files[k]| > MAX_CORPUS - Min(total, MAX_CORPUS) {
        return false;
      }
      total := total + |files[k]|;
    }
    assert files[..|files|] == files;
    ok := true;
  }

  lemma {:induction false} TotalGrows(files: seq<seq<Byte>>, k: nat)
    requires k <= |files|
    ensures TotalBytes(files[..k]) <= TotalBytes(files)
    decreases |files| - k
  {
    if k < |files| {
      TotalGrows(files, k + 1);
      assert Front(files[..k + 1]) == files[..k];
    } else {
      assert files[..k] == files;
    }
  }

  method Save(s: Snapshot, sum: Checksum) returns (r: Result<seq<Byte>>)
    requires TimesFit(s)
    ensures r.Ok? <==> CanSave(s)
    ensures r.Ok? ==> Saved(r.value, s, sum)
  {
    if s.corpusBytes > MAX_CORPUS {
      return Err("index corpus exceeds 1 GiB limit");
    }
    if s.options.persistCorpus {
      if |s.files| != |s.infos| {
        return Err("invalid corpus payload");
      }
      var fits := PayloadFits(s.files);
      if !fits {
        return Err("index corpus exceeds 1 GiB limit");
      }
    }
    var b := WriteFile(Body(s), sum);
    r := Ok(b);
  }

  method WriteFile(body: seq<Field>, sum: Checksum) returns (b: seq<Byte>)
    ensures IsFile(b, body, sum)
  {
    var w := new Writer();
    w.Raw(MAGIC);
    w.Scalar(Field(VERSION, 4));
    ghost var head := w.out;
    w.Fields(body);
    ghost var all := w.out;
    w.Scalar(Field(sum(w.out[12..]), 8));
    b := w.out;
    FileOf(head, all, b, body, sum);
  }

  lemma FileOf(head: seq<Byte>, all: seq<Byte>, b: seq<Byte>, body: seq<Field>, sum: Checksum)
    requires MAGIC <= head <= all <= b && |head| == 12 && |all| == 12 + FieldsWidth(body, |body|) && |b| == |all| + 8
    requires FieldAt(head, 8, Field(VERSION, 4)) && FieldsAt(all, 12, body) && FieldAt(b, |all|, Field(sum(all[12..]), 8))
    ensures IsFile(b, body, sum)
  {
    FieldKeep(head, b, 8, Field(VERSION, 4));
    FieldsKeep(all, b, 12, body);
    assert b[12..|b| - 8] == all[12..];
  }
}
