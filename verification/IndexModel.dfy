/** The derived index: overlapping chunks, one transposed q-gram bitmap per size class,
    and a positional bitmap per chunk. What each bit means, and why no occurrence of a
    literal is ever filtered out. */
module IndexModel {
  import opened Basics

  // ----- q-grams -----

  type U32 = x: int | 0 <= x < U32_SIZE

  datatype Gram = Gram(a: Byte, b: Byte, c: Byte, d: Byte)

  /** The 32-bit mixing function; only that it is a function matters. */
  type Hash = Gram -> U32

  function GramAt(text: seq<Byte>, j: nat): Gram
    requires j + 4 <= |text|
  {
    Gram(text[j], text[j + 1], text[j + 2], text[j + 3])
  }

  /** Some gram inside [begin, end) hashes to `row` of a filter of `m` rows. */
  ghost predicate HasRow(hash: Hash, text: seq<Byte>, begin: nat, end: int, m: nat, row: int)
    requires end <= |text| && m > 0
  {
    exists j: nat :: GramIn(text, begin, end, j) && hash(GramAt(text, j)) % m == row
  }

  predicate GramIn(text: seq<Byte>, begin: nat, end: int, j: nat)
    requires end <= |text|
  {
    begin <= j && j + 4 <= end
  }

  /** The rows that stand for the literal. */
  ghost predicate HashOf(hash: Hash, q: seq<Byte>, h: U32) {
    exists j: nat :: GramIn(q, 0, |q|, j) && hash(GramAt(q, j)) == h
  }

  /** A stretch of text that holds the literal has every row of the literal. */
  lemma OccurrenceRows(hash: Hash, text: seq<Byte>, q: seq<Byte>, p: nat, begin: nat, end: int, m: nat, h: U32)
    requires end <= |text| && m > 0
    requires OccursAt(text, q, p) && begin <= p && p + |q| <= end && HashOf(hash, q, h)
    ensures HasRow(hash, text, begin, end, m, h % m)
  {
    var j: nat :| GramIn(q, 0, |q|, j) && hash(GramAt(q, j)) == h;
    assert text[p..p + |q|] == q;
    assert GramAt(text, p + j) == GramAt(q, j);
    assert GramIn(text, begin, end, p + j);
  }

  // ----- options and chunks -----

  const MIN_CHUNK: nat := 64
  const MAX_CHUNK: nat := 0x4000_0000
  const MIN_BLOCK: nat := 16
  const MAX_BLOCK: nat := 0x10_0000
  const MAX_PLANNED: nat := 64

  /** `ratioBits` is the IEEE 754 encoding of the positional budget ratio. */
  datatype Options = Options(chunkBytes: nat, chunkOverlap: nat, blockBytes: nat, ratioBits: nat, plannedQgrams: nat,
    includeHidden: bool, followSymlinks: bool, persistCorpus: bool)

  /** From 0.0 to 10.0, or negative zero, read off the encoding. */
  predicate RatioInRange(bits: nat) {
    bits <= 0x4024_0000_0000_0000 || bits == 0x8000_0000_0000_0000
  }

  /** Not a number: all exponent bits set, and a fraction. */
  predicate NotANumber(bits: nat) {
    0x7FF0_0000_0000_0000 < bits < 0x8000_0000_0000_0000 || 0xFFF0_0000_0000_0000 < bits <= U64_MAX
  }

  predicate SizesInRange(o: Options) {
    && MIN_CHUNK <= o.chunkBytes <= MAX_CHUNK
    && MIN_BLOCK <= o.blockBytes <= MAX_BLOCK
    && o.chunkOverlap <= o.chunkBytes / 2
    && o.plannedQgrams <= MAX_PLANNED
  }

  /** What building accepts: a ratio neither below 0.0 nor above 10.0, which holds of a
      ratio that is not a number. */
  predicate BuildOptions(o: Options) {
    SizesInRange(o) && (RatioInRange(o.ratioBits) || NotANumber(o.ratioBits))
  }

  /** What loading accepts: the ratio must be a finite number too. */
  predicate LoadOptions(o: Options) {
    SizesInRange(o) && RatioInRange(o.ratioBits)
  }

  datatype Chunk = Chunk(file: nat, coreBegin: nat, coreEnd: nat, extEnd: nat) {
    function Length(): nat {
      if coreBegin <= extEnd then extEnd - coreBegin else 0
    }
  }

  predicate InFile(c: Chunk, sizes: seq<nat>) {
    && c.file < |sizes| && c.coreBegin <= c.coreEnd <= c.extEnd <= sizes[c.file]
    && (c.coreBegin == c.coreEnd ==> sizes[c.file] == 0)
  }

  /** `b` continues where `a` ends: in the same file, or at the start of the next one. */
  predicate Follows(sizes: seq<nat>, a: Chunk, b: Chunk)
    requires a.file < |sizes|
  {
    || (b.file == a.file && b.coreBegin == a.coreEnd)
    || (b.file == a.file + 1 && b.coreBegin == 0 && a.coreEnd == sizes[a.file])
  }

  /** Chunks that cut every file into consecutive cores, up to some point. */
  ghost predicate Chained(chunks: seq<Chunk>, sizes: seq<nat>) {
    && (forall k | 0 <= k < |chunks| :: InFile(chunks[k], sizes))
    && (chunks != [] ==> chunks[0].file == 0 && chunks[0].coreBegin == 0)
    && forall k | 0 < k < |chunks| :: LinkedAt(chunks, sizes, k)
  }

  predicate LinkedAt(chunks: seq<Chunk>, sizes: seq<nat>, k: nat)
    requires 0 < k < |chunks| && chunks[k - 1].file < |sizes|
  {
    Follows(sizes, chunks[k - 1], chunks[k])
  }

  /** The cores of every file partition it, in order. */
  ghost predicate Partition(chunks: seq<Chunk>, sizes: seq<nat>) {
    && Chained(chunks, sizes)
    && (if sizes == [] then chunks == []
        else chunks != [] && Last(chunks).file == |sizes| - 1 && Last(chunks).coreEnd == sizes[|sizes| - 1])
  }

  predicate InCore(c: Chunk, file: nat, p: int) {
    c.file == file && c.coreBegin <= p < c.coreEnd
  }

  lemma {:induction false} ChunksAscend(chunks: seq<Chunk>, sizes: seq<nat>, a: nat, b: nat)
    requires Chained(chunks, sizes) && a < b < |chunks|
    ensures chunks[a].file < chunks[b].file || (chunks[a].file == chunks[b].file && chunks[a].coreEnd <= chunks[b].coreBegin)
    decreases b
  {
    assert LinkedAt(chunks, sizes, b);
    if a < b - 1 {
      ChunksAscend(chunks, sizes, a, b - 1);
      assert InFile(chunks[b - 1], sizes);
    }
  }

  /** Everything before the end of chunk `k` lies in the core of a chunk up to `k`. */
  lemma {:induction false} CoresReach(chunks: seq<Chunk>, sizes: seq<nat>, k: nat, file: nat, p: nat) returns (at: nat)
    requires Chained(chunks, sizes) && k < |chunks| && file < |sizes| && p < sizes[file]
    requires file < chunks[k].file || (file == chunks[k].file && p < chunks[k].coreEnd)
    ensures at <= k && InCore(chunks[at], file, p)
    decreases k
  {
    if InCore(chunks[k], file, p) {
      at := k;
    } else {
      assert InFile(chunks[k], sizes);
      if k > 0 { assert LinkedAt(chunks, sizes, k); }
      at := CoresReach(chunks, sizes, k - 1, file, p);
    }
  }

  /** Every byte of every file is in the core of exactly one chunk. */
  lemma CoreOf(chunks: seq<Chunk>, sizes: seq<nat>, file: nat, p: nat) returns (at: nat)
    requires Partition(chunks, sizes) && file < |sizes| && p < sizes[file]
    ensures at < |chunks| && InCore(chunks[at], file, p)
    ensures forall k | 0 <= k < |chunks| && InCore(chunks[k], file, p) :: k == at
  {
    at := CoresReach(chunks, sizes, |chunks| - 1, file, p);
    forall k | 0 <= k < |chunks| && InCore(chunks[k], file, p) ensures k == at {
      if k < at {
        ChunksAscend(chunks, sizes, k, at);
      } else if at < k {
        ChunksAscend(chunks, sizes, at, k);
      }
    }
  }

  /** The file that position `k` of the chunk list has reached. */
  lemma {:induction false} FilesReach(chunks: seq<Chunk>, sizes: seq<nat>, k: nat, file: nat) returns (at: nat)
    requires Chained(chunks, sizes) && k < |chunks| && file <= chunks[k].file
    ensures at <= k && chunks[at].file == file
    decreases k
  {
    if chunks[k].file == file {
      at := k;
    } else {
      if k > 0 { assert LinkedAt(chunks, sizes, k); }
      at := FilesReach(chunks, sizes, k - 1, file);
    }
  }

  /** Each chunk is read up to `overlap` bytes past its core. */
  ghost predicate Overlapping(chunks: seq<Chunk>, sizes: seq<nat>, overlap: nat) {
    forall k | 0 <= k < |chunks| :: chunks[k].file < |sizes| && chunks[k].extEnd == Min(sizes[chunks[k].file], chunks[k].coreEnd + overlap)
  }

  // ----- size classes -----

  const FIRST_LG: nat := 9
  const LAST_LG: nat := 16

  function RowsOf(lg: nat): (m: nat)
    ensures m > 0
  {
    match lg
    case 9 => 512
    case 10 => 1024
    case 11 => 2048
    case 12 => 4096
    case 13 => 8192
    case 14 => 16384
    case 15 => 32768
    case _ => 65536
  }

  /** The least class, from 9 up to 16, with at least two rows for each byte. */
  function LgFor(n: nat): (lg: nat)
    ensures FIRST_LG <= lg <= LAST_LG
    ensures lg < LAST_LG ==> 2 * n <= RowsOf(lg)
    ensures lg > FIRST_LG ==> RowsOf(lg - 1) < 2 * n
  {
    if n <= 256 then 9 else if n <= 512 then 10 else if n <= 1024 then 11 else if n <= 2048 then 12
    else if n <= 4096 then 13 else if n <= 8192 then 14 else if n <= 16384 then 15 else 16
  }

  /** The loop that computes it. */
  method ComputeLg(n: nat) returns (lg: nat)
    ensures lg == LgFor(n)
  {
    var want := Min(Max(n * 2, 512), 65536);
    lg := FIRST_LG;
    var b := 512;
    while b < want && lg < LAST_LG
      invariant FIRST_LG <= lg <= LAST_LG && b == RowsOf(lg)
      invariant lg > FIRST_LG ==> RowsOf(lg - 1) < want
      decreases LAST_LG - lg
    {
      lg := lg + 1;
      b := b * 2;
    }
  }

  // ----- bitmaps -----

  /** A machine word, as the set of its one bits. */
  type Word = set<nat>

  /** The word has bits `k` to `k + n - 1` only. */
  predicate Inside(w: Word, k: nat, n: nat) {
    forall b | b in w :: k <= b < k + n
  }

  ghost predicate WordsInside(ws: seq<Word>, n: nat) {
    forall k | 0 <= k < |ws| :: Inside(ws[k], 0, n)
  }

  /** The words in a table of `rows` rows. */
  function Table(stride: nat, rows: nat): nat {
    if rows == 0 then 0 else Table(stride, rows - 1) + stride
  }

  lemma {:induction false} TableIs(stride: nat, rows: nat)
    ensures Table(stride, rows) == rows * stride
  {
    if rows > 0 { TableIs(stride, rows - 1); }
  }

  lemma {:induction false} RowFits(row: nat, m: nat, stride: nat)
    requires row < m
    ensures Table(stride, row) + stride <= Table(stride, m)
    decreases m
  {
    if row < m - 1 { RowFits(row, m - 1, stride); }
  }

  /** A bit of row `row`, in the table that begins at `base`. */
  predicate Lit(bits: seq<Word>, base: nat, stride: nat, row: nat, word: nat, bit: nat)
    requires word < stride && base + Table(stride, row) + stride <= |bits|
  {
    bit in bits[base + Table(stride, row) + word]
  }

  /** No two words of a table share a place. */
  lemma Places(stride: nat, row: nat, word: nat, row': nat, word': nat)
    requires word < stride && word' < stride && Table(stride, row) + word == Table(stride, row') + word'
    ensures row == row' && word == word'
  {
    if row < row' {
      RowFits(row, row', stride);
    } else if row' < row {
      RowFits(row', row, stride);
    }
  }

  // ----- the index -----

  datatype Group = Group(lg: nat, m: nat, words: nat, gids: seq<nat>, bits: seq<Word>)

  datatype PosDesc = PosDesc(off: nat, m: nat, maskBytes: nat, blocks: nat)

  /** How often a gram occurs, and how many and which chunks and files it occurs in. */
  datatype GramStats = GramStats(occurrences: nat, chunks: nat, chunkIds: seq<nat>, documents: nat, documentIds: seq<nat>)

  /** Planner statistics: figures for each gram, and for each 16-bit bucket the chunks that
      hold one of its grams. */
  datatype Stats = Stats(ready: bool, grams: map<Gram, GramStats>, bucketChunks: seq<seq<nat>>, bucketFrequency: seq<nat>)

  datatype Index = Index(options: Options, files: seq<seq<Byte>>, chunks: seq<Chunk>, groups: seq<Group>,
    posDesc: seq<PosDesc>, pos: seq<Word>, stats: Stats)

  function Sizes(files: seq<seq<Byte>>): (sizes: seq<nat>)
    ensures |sizes| == |files| && forall k | 0 <= k < |files| :: sizes[k] == |files[k]|
  {
    seq(|files|, k requires 0 <= k < |files| => |files[k]|)
  }

  /** Every core has the configured length, unless the file ends first. */
  ghost predicate FullCores(chunks: seq<Chunk>, sizes: seq<nat>, chunkBytes: nat) {
    forall k | 0 <= k < |chunks| && chunks[k].file < |sizes| :: chunks[k].coreEnd == Min(sizes[chunks[k].file], chunks[k].coreBegin + chunkBytes)
  }

  ghost predicate Laid(x: Index) {
    && BuildOptions(x.options)
    && Partition(x.chunks, Sizes(x.files))
    && Overlapping(x.chunks, Sizes(x.files), x.options.chunkOverlap)
    && FullCores(x.chunks, Sizes(x.files), x.options.chunkBytes)
  }

  predicate ChunkSound(files: seq<seq<Byte>>, c: Chunk) {
    c.file < |files| && c.coreBegin <= c.coreEnd <= c.extEnd <= |files[c.file]|
  }

  ghost predicate ChunksSound(files: seq<seq<Byte>>, chunks: seq<Chunk>) {
    forall k | 0 <= k < |chunks| :: ChunkSound(files, chunks[k])
  }

  lemma LaidSound(x: Index)
    requires Laid(x)
    ensures ChunksSound(x.files, x.chunks)
  {
    forall k | 0 <= k < |x.chunks| ensures ChunkSound(x.files, x.chunks[k]) {
      assert InFile(x.chunks[k], Sizes(x.files));
    }
  }

  function ClassOf(c: Chunk): (lg: nat)
    ensures FIRST_LG <= lg <= LAST_LG
  {
    LgFor(c.Length())
  }

  /** The ids of the first `n` chunks that are of class `lg`. */
  function GidsOf(chunks: seq<Chunk>, lg: nat, n: nat): (gids: seq<nat>)
    requires n <= |chunks|
    ensures forall k | 0 <= k < |gids| :: gids[k] < n && ClassOf(chunks[gids[k]]) == lg
  {
    if n == 0 then [] else GidsOf(chunks, lg, n - 1) + (if ClassOf(chunks[n - 1]) == lg then [n - 1] else [])
  }

  lemma {:induction false} GidsExact(chunks: seq<Chunk>, lg: nat, n: nat)
    requires n <= |chunks|
    ensures forall ci | 0 <= ci < n && ClassOf(chunks[ci]) == lg :: ci in GidsOf(chunks, lg, n)
    ensures forall a, b | 0 <= a < b < |GidsOf(chunks, lg, n)| :: GidsOf(chunks, lg, n)[a] < GidsOf(chunks, lg, n)[b]
  {
    if n > 0 { GidsExact(chunks, lg, n - 1); }
  }

  function WordsFor(count: nat): nat {
    (count + 63) / 64
  }

  /** There is a column for every chunk of the group. */
  predicate Roomy(g: Group, chunks: seq<Chunk>) {
    && g.m == RowsOf(g.lg) && WordsFor(|g.gids|) <= g.words && |g.bits| == Table(g.words, g.m)
    && forall k | 0 <= k < |g.gids| :: g.gids[k] < |chunks|
  }

  predicate Shaped(g: Group, chunks: seq<Chunk>) {
    FIRST_LG <= g.lg <= LAST_LG && Roomy(g, chunks) && g.words == WordsFor(|g.gids|)
  }

  /** Some gram the chunk is read for hashes to `row` of `m`. */
  ghost predicate ChunkRow(hash: Hash, files: seq<seq<Byte>>, c: Chunk, m: nat, row: int)
    requires ChunkSound(files, c) && m > 0
  {
    HasRow(hash, files[c.file], c.coreBegin, c.extEnd, m, row)
  }

  /** The row of hash `h` in the chunk's own class is set for it. */
  ghost predicate ChunkHasRow(hash: Hash, files: seq<seq<Byte>>, c: Chunk, h: U32)
    requires ChunkSound(files, c)
  {
    ChunkRow(hash, files, c, RowsOf(ClassOf(c)), h % RowsOf(ClassOf(c)))
  }

  ghost predicate GroupLit(g: Group, row: nat, li: nat)
    requires li / 64 < g.words && row < g.m && |g.bits| == Table(g.words, g.m)
  {
    RowFits(row, g.m, g.words);
    Lit(g.bits, 0, g.words, row, li / 64, li % 64)
  }

  /** A bit is set just when the chunk in its column has a gram in its row. */
  ghost predicate GroupExact(hash: Hash, files: seq<seq<Byte>>, chunks: seq<Chunk>, g: Group)
    requires Roomy(g, chunks) && ChunksSound(files, chunks)
  {
    forall row: nat, li: nat | row < g.m && li / 64 < g.words ::
      GroupLit(g, row, li) <==> li < |g.gids| && ChunkRow(hash, files, chunks[g.gids[li]], g.m, row)
  }

  ghost predicate GroupsBuilt(hash: Hash, x: Index)
    requires ChunksSound(x.files, x.chunks)
  {
    && |x.groups| == 8
    && (forall k | 0 <= k < 8 :: x.groups[k].lg == k + FIRST_LG && Shaped(x.groups[k], x.chunks))
    && (forall k | 0 <= k < 8 :: x.groups[k].gids == GidsOf(x.chunks, k + FIRST_LG, |x.chunks|))
    && forall k | 0 <= k < 8 :: GroupExact(hash, x.files, x.chunks, x.groups[k])
  }

  // ----- positional blocks -----

  const PADDING: nat := 64

  predicate RowCount(m: nat) {
    m == 64 || m == 128 || m == 256 || m == 512 || m == 1024
  }

  /** Where the table of chunk `k` begins. */
  function PosEnd(descs: seq<PosDesc>, k: nat): nat
    requires k <= |descs|
  {
    if k == 0 then 0 else PosEnd(descs, k - 1) + Table(descs[k - 1].maskBytes, descs[k - 1].m)
  }

  /** How many pieces of `k` bytes it takes to hold `n`. */
  function Pieces(n: nat, k: nat): nat
    requires k > 0
  {
    if n <= k then Min(n, 1) else 1 + Pieces(n - k, k)
  }

  lemma DivUnique(n: nat, k: nat, q: nat, r: nat)
    requires k > r && n == q * k + r
    ensures n / k == q
  {
    var d := n / k - q;
    assert n == (n / k) * k + n % k;
    assert d * k == r - n % k;
    if d >= 1 {
      MulAtLeast(d, k);
    } else if d <= -1 {
      MulAtLeast(-d, k);
    }
  }

  lemma MulAtLeast(d: int, k: int)
    requires d >= 1 && k >= 0
    ensures d * k >= k && (-d) * k <= -k
  {}

  lemma DivStep(n: nat, k: nat)
    requires 0 < k < n
    ensures (n + k - 1) / k == (n - 1) / k + 1
  {
    var q, r := (n - 1) / k, (n - 1) % k;
    assert n - 1 == q * k + r;
    DivUnique(n + k - 1, k, q + 1, r);
  }

  lemma {:induction false} PiecesIs(n: nat, k: nat)
    requires k > 0
    ensures Pieces(n, k) == (n + k - 1) / k
  {
    if n > k {
      PiecesIs(n - k, k);
      DivStep(n, k);
    } else if n > 0 {
      DivUnique(n + k - 1, k, 1, n - 1);
    } else {
      DivUnique(k - 1, k, 0, k - 1);
    }
  }

  function BlocksFor(coreLength: nat, blockBytes: nat): (n: nat)
    requires blockBytes > 0
  {
    Max(1, Pieces(coreLength, blockBytes))
  }

  predicate DescFits(d: PosDesc, c: Chunk, blockBytes: nat)
    requires blockBytes > 0 && c.coreBegin <= c.coreEnd
  {
    RowCount(d.m) && d.blocks == BlocksFor(c.coreEnd - c.coreBegin, blockBytes) && d.maskBytes == (d.blocks + 7) / 8
  }

  /** Descriptors lie one after the other and fill the table. */
  ghost predicate Tiled(descs: seq<PosDesc>, chunks: seq<Chunk>, blockBytes: nat, total: nat)
    requires blockBytes > 0
  {
    && |descs| == |chunks|
    && (forall k | 0 <= k < |descs| :: chunks[k].coreBegin <= chunks[k].coreEnd && DescFits(descs[k], chunks[k], blockBytes))
    && (forall k | 0 <= k < |descs| :: descs[k].off == PosEnd(descs, k))
    && total == PosEnd(descs, |descs|)
  }

  lemma {:induction false} PosEndGrows(descs: seq<PosDesc>, a: nat, b: nat)
    requires a <= b <= |descs|
    ensures PosEnd(descs, a) <= PosEnd(descs, b)
    decreases b
  {
    if a < b { PosEndGrows(descs, a, b - 1); }
  }

  predicate DescInside(d: PosDesc, total: nat) {
    d.off + Table(d.maskBytes, d.m) <= total
  }

  lemma TileInside(descs: seq<PosDesc>, chunks: seq<Chunk>, blockBytes: nat, total: nat, k: nat)
    requires blockBytes > 0 && Tiled(descs, chunks, blockBytes, total) && k < |descs|
    ensures DescInside(descs[k], total)
  {
    PosEndGrows(descs, k + 1, |descs|);
  }

  predicate PosLit(pos: seq<Word>, d: PosDesc, row: nat, bi: nat)
    requires DescInside(d, |pos|) && row < d.m && bi / 8 < d.maskBytes
  {
    RowFits(row, d.m, d.maskBytes);
    Lit(pos, d.off, d.maskBytes, row, bi / 8, bi % 8)
  }

  function BlockBegin(c: Chunk, blockBytes: nat, bi: nat): nat {
    c.coreBegin + Table(blockBytes, bi)
  }

  /** A block is filtered on its own bytes and the padding after them. */
  function BlockEnd(c: Chunk, blockBytes: nat, bi: nat): int {
    Min(c.extEnd, BlockBegin(c, blockBytes, bi) + blockBytes + PADDING)
  }

  ghost predicate BlockRow(hash: Hash, files: seq<seq<Byte>>, c: Chunk, blockBytes: nat, bi: nat, m: nat, row: int)
    requires ChunkSound(files, c) && m > 0
  {
    HasRow(hash, files[c.file], BlockBegin(c, blockBytes, bi), BlockEnd(c, blockBytes, bi), m, row)
  }

  /** A bit is set just when its block has a gram in its row. */
  ghost predicate PosExact(hash: Hash, files: seq<seq<Byte>>, c: Chunk, blockBytes: nat, pos: seq<Word>, d: PosDesc)
    requires ChunkSound(files, c) && DescInside(d, |pos|)
  {
    forall row: nat, bi: nat | row < d.m && bi / 8 < d.maskBytes ::
      PosLit(pos, d, row, bi) <==> bi < d.blocks && BlockRow(hash, files, c, blockBytes, bi, d.m, row)
  }

  ghost predicate PosBuilt(hash: Hash, x: Index)
    requires ChunksSound(x.files, x.chunks) && x.options.blockBytes > 0
  {
    && Tiled(x.posDesc, x.chunks, x.options.blockBytes, |x.pos|)
    && forall ci | 0 <= ci < |x.chunks| ::
         DescInside(x.posDesc[ci], |x.pos|) && PosExact(hash, x.files, x.chunks[ci], x.options.blockBytes, x.pos, x.posDesc[ci])
  }

  ghost predicate Built(hash: Hash, x: Index) {
    Laid(x) && ChunksSound(x.files, x.chunks) && GroupsBuilt(hash, x) && PosBuilt(hash, x)
  }

  // ----- planner statistics -----

  const BUCKETS: nat := 65536

  const CORPUS_CAP: nat := 128 * 1024 * 1024
  const GRAM_CAP: nat := 0x10_0000

  /** The distinct grams that lie in [begin, end). */
  ghost function GramsIn(text: seq<Byte>, begin: nat, end: int): set<Gram>
    requires end <= |text|
    decreases end - begin
  {
    if end < begin + 4 then {} else GramsIn(text, begin, end - 1) + {GramAt(text, end - 4)}
  }

  lemma {:induction false} GramsInIs(text: seq<Byte>, begin: nat, end: int, g: Gram)
    requires end <= |text|
    ensures g in GramsIn(text, begin, end) <==> exists j: nat :: GramIn(text, begin, end, j) && GramAt(text, j) == g
    decreases end - begin
  {
    if end >= begin + 4 {
      GramsInIs(text, begin, end - 1, g);
      if j: nat :| GramIn(text, begin, end, j) && GramAt(text, j) == g {
        if j < end - 4 { assert GramIn(text, begin, end - 1, j); }
      }
      if j: nat :| GramIn(text, begin, end - 1, j) && GramAt(text, j) == g { assert GramIn(text, begin, end, j); }
      assert GramIn(text, begin, end, end - 4);
    }
  }

  /** How often the gram lies in the first `end` bytes. */
  ghost function Occurrences(text: seq<Byte>, g: Gram, end: int): nat
    requires end <= |text|
    decreases end
  {
    if end < 4 then 0 else Occurrences(text, g, end - 1) + (if GramAt(text, end - 4) == g then 1 else 0)
  }

  /** The distinct grams of the first `n` files. */
  ghost function CorpusGrams(files: seq<seq<Byte>>, n: nat): set<Gram>
    requires n <= |files|
  {
    if n == 0 then {} else CorpusGrams(files, n - 1) + GramsIn(files[n - 1], 0, |files[n - 1]|)
  }

  ghost function OccurrencesIn(files: seq<seq<Byte>>, g: Gram, n: nat): nat
    requires n <= |files|
  {
    if n == 0 then 0 else OccurrencesIn(files, g, n - 1) + Occurrences(files[n - 1], g, |files[n - 1]|)
  }

  /** The files among the first `n` that hold the gram. */
  ghost function DocumentsWith(files: seq<seq<Byte>>, g: Gram, n: nat): seq<nat>
    requires n <= |files|
  {
    if n == 0 then [] else DocumentsWith(files, g, n - 1) + (if g in GramsIn(files[n - 1], 0, |files[n - 1]|) then [n - 1] else [])
  }

  /** The ids of the first `n` chunks with a gram in the bucket. */
  ghost function BucketList(hash: Hash, files: seq<seq<Byte>>, chunks: seq<Chunk>, bucket: nat, n: nat): seq<nat>
    requires n <= |chunks| && ChunksSound(files, chunks)
  {
    if n == 0 then []
    else BucketList(hash, files, chunks, bucket, n - 1) + (if ChunkRow(hash, files, chunks[n - 1], BUCKETS, bucket) then [n - 1] else [])
  }

  /** The chunks among the first `n` that hold the gram. */
  ghost function ChunksWith(files: seq<seq<Byte>>, chunks: seq<Chunk>, g: Gram, n: nat): seq<nat>
    requires n <= |chunks| && ChunksSound(files, chunks)
  {
    if n == 0 then []
    else
      var c := chunks[n - 1];
      ChunksWith(files, chunks, g, n - 1) + (if g in GramsIn(files[c.file], c.coreBegin, c.extEnd) then [n - 1] else [])
  }

  /** What the statistics say of one gram. */
  ghost function StatsOf(files: seq<seq<Byte>>, chunks: seq<Chunk>, g: Gram): GramStats
    requires ChunksSound(files, chunks)
  {
    var inChunks, inFiles := ChunksWith(files, chunks, g, |chunks|), DocumentsWith(files, g, |files|);
    GramStats(OccurrencesIn(files, g, |files|), |inChunks|, inChunks, |inFiles|, inFiles)
  }

  /** Statistics are kept for a corpus within the caps. */
  ghost predicate WithinCaps(files: seq<seq<Byte>>, corpusBytes: nat) {
    corpusBytes <= CORPUS_CAP && |CorpusGrams(files, |files|)| <= GRAM_CAP
  }

  /** Once ready, the statistics are exact. */
  ghost predicate StatsExact(hash: Hash, files: seq<seq<Byte>>, chunks: seq<Chunk>, s: Stats)
    requires ChunksSound(files, chunks)
  {
    && |s.bucketChunks| == BUCKETS == |s.bucketFrequency|
    && (s.ready ==>
         && (forall b: nat | b < BUCKETS :: s.bucketChunks[b] == BucketList(hash, files, chunks, b, |chunks|))
         && (forall b: nat | b < BUCKETS :: s.bucketFrequency[b] == |BucketList(hash, files, chunks, b, |chunks|)|)
         && s.grams.Keys == CorpusGrams(files, |files|)
         && (forall g | g in s.grams :: s.grams[g] == StatsOf(files, chunks, g)))
  }

  /** Group words have 64 bits, positional words 8. */
  ghost predicate Narrow(x: Index) {
    (forall k | 0 <= k < |x.groups| :: WordsInside(x.groups[k].bits, 64)) && WordsInside(x.pos, 8)
  }

  // ----- no false negatives -----

  /** The block that holds the byte at `offset` of the core. */
  function BlockOf(offset: nat, blockBytes: nat): nat
    requires blockBytes > 0
  {
    if offset < blockBytes then 0 else 1 + BlockOf(offset - blockBytes, blockBytes)
  }

  /** It is one of the chunk's blocks, and holds the byte. */
  lemma {:induction false} BlockBounds(offset: nat, length: nat, blockBytes: nat)
    requires blockBytes > 0 && offset < length
    ensures Table(blockBytes, BlockOf(offset, blockBytes)) <= offset < Table(blockBytes, BlockOf(offset, blockBytes)) + blockBytes
    ensures BlockOf(offset, blockBytes) < Pieces(length, blockBytes)
  {
    if offset >= blockBytes {
      BlockBounds(offset - blockBytes, length - blockBytes, blockBytes);
    }
  }

  /** The literal stands at `p`, and the chunk is the one whose core holds `p`. */
  ghost predicate StartsIn(x: Index, c: Chunk, q: seq<Byte>, p: nat)
    requires ChunkSound(x.files, c)
  {
    c in x.chunks && OccursAt(x.files[c.file], q, p) && InCore(c, c.file, p)
  }

  lemma ReadTo(x: Index, c: Chunk)
    requires Laid(x) && c in x.chunks
    ensures c.file < |x.files| && c.extEnd == Min(|x.files[c.file]|, c.coreEnd + x.options.chunkOverlap)
  {
    var k :| 0 <= k < |x.chunks| && x.chunks[k] == c;
    assert x.chunks[k].extEnd == Min(Sizes(x.files)[x.chunks[k].file], x.chunks[k].coreEnd + x.options.chunkOverlap);
  }

  /** The chunk whose core holds the start of an occurrence has every row of the literal. */
  lemma ChunkKeeps(hash: Hash, x: Index, q: seq<Byte>, c: Chunk, p: nat, h: U32)
    requires Laid(x) && ChunkSound(x.files, c) && StartsIn(x, c, q, p) && |q| <= x.options.chunkOverlap && HashOf(hash, q, h)
    ensures ChunkHasRow(hash, x.files, c, h)
  {
    ReadTo(x, c);
    OccurrenceRows(hash, x.files[c.file], q, p, c.coreBegin, c.extEnd, RowsOf(ClassOf(c)), h);
  }

  /** So does the block that holds the start, for a literal no longer than the padding. */
  lemma BlockKeeps(hash: Hash, x: Index, q: seq<Byte>, c: Chunk, p: nat, m: nat, h: U32)
    requires Laid(x) && ChunkSound(x.files, c) && StartsIn(x, c, q, p) && |q| <= x.options.chunkOverlap && HashOf(hash, q, h)
    requires |q| <= PADDING && m > 0
    ensures BlockRow(hash, x.files, c, x.options.blockBytes, BlockOf(p - c.coreBegin, x.options.blockBytes), m, h % m)
  {
    BlockSpan(c, x.options.blockBytes, p);
    BlockHolds(hash, x, q, c, BlockOf(p - c.coreBegin, x.options.blockBytes), p, m, h);
  }

  lemma BlockSpan(c: Chunk, blockBytes: nat, p: nat)
    requires blockBytes > 0 && c.coreBegin <= p < c.coreEnd
    ensures var begin := BlockBegin(c, blockBytes, BlockOf(p - c.coreBegin, blockBytes)); begin <= p < begin + blockBytes
    ensures BlockOf(p - c.coreBegin, blockBytes) < BlocksFor(c.coreEnd - c.coreBegin, blockBytes)
  {
    BlockBounds(p - c.coreBegin, c.coreEnd - c.coreBegin, blockBytes);
  }

  lemma BlockHolds(hash: Hash, x: Index, q: seq<Byte>, c: Chunk, bi: nat, p: nat, m: nat, h: U32)
    requires Laid(x) && ChunkSound(x.files, c) && StartsIn(x, c, q, p) && |q| <= x.options.chunkOverlap && HashOf(hash, q, h)
    requires |q| <= PADDING && m > 0
    requires BlockBegin(c, x.options.blockBytes, bi) <= p < BlockBegin(c, x.options.blockBytes, bi) + x.options.blockBytes
    ensures BlockRow(hash, x.files, c, x.options.blockBytes, bi, m, h % m)
  {
    var b := x.options.blockBytes;
    ReadTo(x, c);
    OccurrenceRows(hash, x.files[c.file], q, p, BlockBegin(c, b, bi), BlockEnd(c, b, bi), m, h);
  }
}
