/** Chunk and block candidates of a literal: exactly those whose probed rows are all
    set, hence every one that can hold an occurrence. */
module Candidates {
  import opened Basics
  import opened IndexModel
  import opened IndexQuery
  import opened IndexPlan

  // ----- an index that can be searched -----

  /** Chunk `ci` stands in column `li` of group `k`. */
  ghost predicate Column(groups: seq<Group>, k: nat, li: nat, ci: nat) {
    k < |groups| && li < |groups[k].gids| && groups[k].gids[li] == ci
  }

  ghost predicate Placed(groups: seq<Group>, ci: nat) {
    exists k: nat, li: nat :: Column(groups, k, li, ci)
  }

  /** Every chunk is in exactly one column, of a group of its own class. */
  ghost predicate GroupsCover(chunks: seq<Chunk>, groups: seq<Group>) {
    && (forall k: nat, li: nat, ci: nat | Column(groups, k, li, ci) :: ci < |chunks| && ClassOf(chunks[ci]) == groups[k].lg)
    && (forall ci: nat | ci < |chunks| :: Placed(groups, ci))
    && (forall k: nat, li: nat, k': nat, li': nat, ci: nat | Column(groups, k, li, ci) && Column(groups, k', li', ci) :: k == k' && li == li')
  }

  /** The structure every search relies on, whatever the bits say. */
  ghost predicate Searchable(x: Index) {
    && BuildOptions(x.options)
    && Partition(x.chunks, Sizes(x.files))
    && |x.groups| == 8 && (forall k | 0 <= k < 8 :: Shaped(x.groups[k], x.chunks))
    && GroupsCover(x.chunks, x.groups)
    && Tiled(x.posDesc, x.chunks, x.options.blockBytes, |x.pos|)
    && StatsShaped(x)
  }

  lemma {:induction false} GidsAll(chunks: seq<Chunk>, lg: nat, n: nat, ci: nat) returns (li: nat)
    requires ci < n <= |chunks| && ClassOf(chunks[ci]) == lg
    ensures li < |GidsOf(chunks, lg, n)| && GidsOf(chunks, lg, n)[li] == ci
  {
    if ci == n - 1 {
      li := |GidsOf(chunks, lg, n - 1)|;
    } else {
      li := GidsAll(chunks, lg, n - 1, ci);
    }
  }

  /** The groups of a freshly built index, as a partition of the chunks. */
  lemma BuiltCover(x: Index)
    requires |x.groups| == 8
    requires forall k | 0 <= k < 8 :: x.groups[k].lg == k + FIRST_LG && x.groups[k].gids == GidsOf(x.chunks, k + FIRST_LG, |x.chunks|)
    ensures GroupsCover(x.chunks, x.groups)
  {
    forall k: nat, li: nat, ci: nat | Column(x.groups, k, li, ci) ensures ci < |x.chunks| && ClassOf(x.chunks[ci]) == x.groups[k].lg {
      assert x.groups[k].gids == GidsOf(x.chunks, k + FIRST_LG, |x.chunks|);
    }
    forall ci: nat | ci < |x.chunks| ensures Placed(x.groups, ci) {
      var k := ClassOf(x.chunks[ci]) - FIRST_LG;
      var li := GidsAll(x.chunks, k + FIRST_LG, |x.chunks|, ci);
      assert Column(x.groups, k, li, ci);
    }
    forall k: nat, li: nat, k': nat, li': nat, ci: nat | Column(x.groups, k, li, ci) && Column(x.groups, k', li', ci) ensures k == k' && li == li' {
      GidsExact(x.chunks, k + FIRST_LG, |x.chunks|);
    }
  }

  /** A freshly built index can be searched. */
  lemma BuiltSearchable(hash: Hash, x: Index)
    requires Built(hash, x) && StatsShaped(x)
    ensures Searchable(x)
  {
    BuiltCover(x);
  }

  // ----- sorting chunk ids -----

  /** By file, then by position, then by id. */
  predicate Earlier(chunks: seq<Chunk>, a: nat, b: nat)
    requires a < |chunks| && b < |chunks|
  {
    || chunks[a].file < chunks[b].file
    || (chunks[a].file == chunks[b].file &&
        (chunks[a].coreBegin < chunks[b].coreBegin || (chunks[a].coreBegin == chunks[b].coreBegin && a < b)))
  }

  predicate Ids(chunks: seq<Chunk>, s: seq<nat>) {
    forall k | 0 <= k < |s| :: s[k] < |chunks|
  }

  predicate EarlierSorted(chunks: seq<Chunk>, s: seq<nat>) {
    Ids(chunks, s) && forall a, b | 0 <= a < b < |s| :: Earlier(chunks, s[a], s[b])
  }

  function InsertChunk(chunks: seq<Chunk>, n: nat, s: seq<nat>): (r: seq<nat>)
    requires n < |chunks| && EarlierSorted(chunks, s)
    ensures EarlierSorted(chunks, r) && forall y: nat :: y in r <==> y == n || y in s
  {
    if s == [] then [n]
    else if n == s[0] then s
    else if Earlier(chunks, n, s[0]) then [n] + s
    else
      var rest := InsertChunk(chunks, n, s[1..]);
      assert forall a | 0 <= a < |rest| :: rest[a] in rest;
      assert forall y: nat :: y in s <==> y == s[0] || y in s[1..];
      [s[0]] + rest
  }

  /** std::sort and std::unique by file, position and id. */
  function SortChunks(chunks: seq<Chunk>, s: seq<nat>): (r: seq<nat>)
    requires Ids(chunks, s)
    ensures EarlierSorted(chunks, r) && forall y: nat :: y in r <==> y in s
  {
    if s == [] then []
    else
      assert forall y: nat :: y in s <==> y == Last(s) || y in Front(s);
      InsertChunk(chunks, Last(s), SortChunks(chunks, Front(s)))
  }

  /** Chunks lie in the order of their ids. */
  lemma EarlierIsLess(chunks: seq<Chunk>, sizes: seq<nat>, s: seq<nat>)
    requires Chained(chunks, sizes) && EarlierSorted(chunks, s)
    ensures Increasing(s)
  {
    forall a, b | 0 <= a < b < |s| ensures s[a] < s[b] {
      assert Earlier(chunks, s[a], s[b]) && s[a] < |chunks| && s[b] < |chunks|;
      assert InFile(chunks[s[b]], sizes);
      if s[b] < s[a] {
        ChunksAscend(chunks, sizes, s[b], s[a]);
      }
    }
  }

  // ----- chunk candidates -----

  /** All probed rows are set in the chunk's column. */
  ghost predicate ColumnLit(x: Index, selected: seq<U32>, k: nat, li: nat)
    requires k < |x.groups| && li < |x.groups[k].gids| && Shaped(x.groups[k], x.chunks)
  {
    forall h | h in selected :: GroupLit(x.groups[k], h % x.groups[k].m, li)
  }

  ghost predicate ChunkSurvives(x: Index, selected: seq<U32>, ci: nat)
    requires Searchable(x)
  {
    exists k: nat, li: nat :: Column(x.groups, k, li, ci) && ColumnLit(x, selected, k, li)
  }

  /** The literal is too short to probe, or may straddle chunks. */
  predicate Unprobed(x: Index, q: seq<Byte>) {
    |q| < 4 || |q| > x.options.chunkOverlap
  }

  ghost predicate Candidate(hash: Hash, x: Index, q: seq<Byte>, eligible: seq<nat>, ci: nat)
    requires Searchable(x)
  {
    && ci < |x.chunks| && AllowsFile(eligible, x.chunks[ci].file)
    && (Unprobed(x, q) || ChunkSurvives(x, Planned(hash, x, q), ci))
  }

  lemma ColumnLitRows(x: Index, selected: seq<U32>, v: ClassQuery, k: nat, li: nat)
    requires k < |x.groups| && li < |x.groups[k].gids| && Shaped(x.groups[k], x.chunks)
    requires forall row: nat :: Probes(v, row) <==> HashRow(selected, x.groups[k].m, row)
    ensures Survives(x.groups[k], v, li) <==> ColumnLit(x, selected, k, li)
  {
    var g := x.groups[k];
    if Survives(g, v, li) {
      forall h | h in selected ensures GroupLit(g, h % g.m, li) {
        assert HashRow(selected, g.m, h % g.m);
        assert Probes(v, h % g.m);
      }
    }
    if ColumnLit(x, selected, k, li) {
      forall row: nat | row < g.m && Probes(v, row) ensures GroupLit(g, row, li) {
        assert HashRow(selected, g.m, row);
      }
    }
  }

  lemma CompiledInGroup(v: ClassQuery, selected: seq<U32>, m: nat)
    requires m > 0 && WholeWords(v) && forall row: nat :: Probes(v, row) <==> HashRow(selected, m, row)
    ensures InGroup(v, m)
  {
    forall k, b | 0 <= k < |v| && b in v[k].1 ensures b < 64 && v[k].0 * 64 + b < m {
      assert v[k].1 <= Full(64);
      assert Probes(v, v[k].0 * 64 + b);
    }
  }

  method ChunkCandidates(hash: Hash, x: Index, q: seq<Byte>, eligible: seq<nat>) returns (out: seq<nat>)
    requires Searchable(x)
    ensures Increasing(out)
    ensures forall ci: nat :: ci in out <==> Candidate(hash, x, q, eligible, ci)
  {
    if |q| < 4 || |q| > x.options.chunkOverlap {
      out := AllChunks(x, eligible);
      return;
    }
    var selected := PlannedHashes(hash, x, q);
    var found := ProbeGroups(x, selected, eligible);
    EarlierIsLess(x.chunks, Sizes(x.files), SortChunks(x.chunks, found));
    out := SortChunks(x.chunks, found);
    forall ci: nat ensures ci in out <==> Candidate(hash, x, q, eligible, ci) {
      FoundSurvives(x, selected, eligible, ci);
    }
  }

  method AllChunks(x: Index, eligible: seq<nat>) returns (out: seq<nat>)
    ensures Increasing(out) && forall i: nat :: i in out <==> i < |x.chunks| && AllowsFile(eligible, x.chunks[i].file)
  {
    out := [];
    for ci := 0 to |x.chunks|
      invariant Increasing(out) && forall i: nat :: i in out <==> i < ci && AllowsFile(eligible, x.chunks[i].file)
      invariant forall k | 0 <= k < |out| :: out[k] in out
    {
      if AllowsFile(eligible, x.chunks[ci].file) {
        out := out + [ci];
      }
    }
  }

  method ProbeGroups(x: Index, selected: seq<U32>, eligible: seq<nat>) returns (out: seq<nat>)
    requires Searchable(x)
    ensures Ids(x.chunks, out)
    ensures forall ci: nat :: ci in out <==> FoundBelow(x, selected, eligible, 8, ci)
  {
    out := [];
    for k := 0 to 8
      invariant forall ci: nat :: ci in out <==> FoundBelow(x, selected, eligible, k, ci)
    {
      var g := x.groups[k];
      var v := CompileClass(selected, g.lg);
      CompiledInGroup(v, selected, g.m);
      var more := GroupCandidates(x, g, v, eligible);
      FoundStep(x, selected, v, eligible, k, more);
      out := out + more;
    }
    forall i | 0 <= i < |out| ensures out[i] < |x.chunks| {
      assert FoundBelow(x, selected, eligible, 8, out[i]);
    }
  }

  lemma FoundSurvives(x: Index, selected: seq<U32>, eligible: seq<nat>, ci: nat)
    requires Searchable(x)
    ensures FoundBelow(x, selected, eligible, 8, ci)
      <==> ci < |x.chunks| && AllowsFile(eligible, x.chunks[ci].file) && ChunkSurvives(x, selected, ci)
  {
    if ci < |x.chunks| && AllowsFile(eligible, x.chunks[ci].file) && ChunkSurvives(x, selected, ci) {
      var k: nat, li: nat :| Column(x.groups, k, li, ci) && ColumnLit(x, selected, k, li);
      assert FoundIn(x, selected, eligible, k, ci);
    }
  }

  ghost predicate FoundIn(x: Index, selected: seq<U32>, eligible: seq<nat>, k: nat, ci: nat)
    requires Searchable(x)
  {
    exists li: nat :: Column(x.groups, k, li, ci) && AllowsFile(eligible, x.chunks[ci].file) && ColumnLit(x, selected, k, li)
  }

  ghost predicate FoundBelow(x: Index, selected: seq<U32>, eligible: seq<nat>, n: nat, ci: nat)
    requires Searchable(x)
  {
    exists k: nat :: k < n && FoundIn(x, selected, eligible, k, ci)
  }

  lemma FoundStep(x: Index, selected: seq<U32>, v: ClassQuery, eligible: seq<nat>, k: nat, more: seq<nat>)
    requires Searchable(x) && k < 8 && KeptIds(x, x.groups[k], v, eligible, |x.groups[k].gids|, more)
    requires forall row: nat :: Probes(v, row) <==> HashRow(selected, x.groups[k].m, row)
    ensures forall ci: nat :: ci in more <==> FoundIn(x, selected, eligible, k, ci)
    ensures forall ci: nat :: FoundBelow(x, selected, eligible, k + 1, ci) <==> (FoundBelow(x, selected, eligible, k, ci) || FoundIn(x, selected, eligible, k, ci))
  {
    var g := x.groups[k];
    forall ci: nat ensures ci in more <==> FoundIn(x, selected, eligible, k, ci) {
      if ci in more {
        var li: nat :| li < |g.gids| && g.gids[li] == ci && KeptColumn(x, g, v, eligible, li);
        ColumnLitRows(x, selected, v, k, li);
        assert Column(x.groups, k, li, ci);
      }
      if FoundIn(x, selected, eligible, k, ci) {
        var li: nat :| Column(x.groups, k, li, ci) && AllowsFile(eligible, x.chunks[ci].file) && ColumnLit(x, selected, k, li);
        ColumnLitRows(x, selected, v, k, li);
        assert KeptColumn(x, g, v, eligible, li);
      }
    }
  }

  /** Over a built index the surviving chunks are those that have every probed row. */
  lemma BuiltSurvives(hash: Hash, x: Index, selected: seq<U32>, ci: nat)
    requires Built(hash, x) && Searchable(x)
    ensures ChunkSurvives(x, selected, ci) <==> ci < |x.chunks| && forall h | h in selected :: ChunkHasRow(hash, x.files, x.chunks[ci], h)
  {
    if ci < |x.chunks| {
      var k := ClassOf(x.chunks[ci]) - FIRST_LG;
      var li := GidsAll(x.chunks, k + FIRST_LG, |x.chunks|, ci);
      var g := x.groups[k];
      assert Column(x.groups, k, li, ci);
      assert GroupExact(hash, x.files, x.chunks, g);
      forall h: U32 ensures GroupLit(g, h % g.m, li) <==> ChunkHasRow(hash, x.files, x.chunks[ci], h) {
        assert GroupLit(g, h % g.m, li) <==> li < |g.gids| && ChunkRow(hash, x.files, x.chunks[g.gids[li]], g.m, h % g.m);
      }
      forall k': nat, li': nat | Column(x.groups, k', li', ci) ensures k' == k && li' == li {}
    }
  }

  /** No false negatives: the chunk whose core holds the start of an occurrence is a
      candidate, whichever rows the plan selects. */
  lemma OccurrenceIsCandidate(hash: Hash, x: Index, q: seq<Byte>, eligible: seq<nat>, ci: nat, p: nat)
    requires Built(hash, x) && Searchable(x) && ci < |x.chunks| && ChunkSound(x.files, x.chunks[ci])
    requires StartsIn(x, x.chunks[ci], q, p) && AllowsFile(eligible, x.chunks[ci].file)
    ensures Candidate(hash, x, q, eligible, ci)
  {
    if !Unprobed(x, q) {
      PlannedRows(hash, x, q);
      BuiltSurvives(hash, x, Planned(hash, x, q), ci);
      forall h | h in Planned(hash, x, q) ensures ChunkHasRow(hash, x.files, x.chunks[ci], h) {
        ChunkKeeps(hash, x, q, x.chunks[ci], p, h);
      }
    }
  }

  /** The same for every non-empty choice of rows. */
  lemma AnyRowsKeep(hash: Hash, x: Index, q: seq<Byte>, selected: seq<U32>, ci: nat, p: nat)
    requires Built(hash, x) && Searchable(x) && ci < |x.chunks| && ChunkSound(x.files, x.chunks[ci])
    requires StartsIn(x, x.chunks[ci], q, p) && |q| <= x.options.chunkOverlap && forall h | h in selected :: HashOf(hash, q, h)
    ensures ChunkSurvives(x, selected, ci)
  {
    BuiltSurvives(hash, x, selected, ci);
    forall h | h in selected ensures ChunkHasRow(hash, x.files, x.chunks[ci], h) {
      ChunkKeeps(hash, x, q, x.chunks[ci], p, h);
    }
  }

  // ----- block candidates -----

  /** All probed rows are set for the block. */
  ghost predicate BlockLit(pos: seq<Word>, d: PosDesc, selected: seq<U32>, bi: nat)
    requires DescInside(d, |pos|) && bi / 8 < d.maskBytes && d.m > 0
  {
    forall h | h in selected :: PosLit(pos, d, h % d.m, bi)
  }

  /** Block `bi` is still set in the running intersection. */
  predicate BlockAlive(bm: seq<Word>, bi: nat)
    requires bi / 8 < |bm|
  {
    bi % 8 in bm[bi / 8]
  }

  method AndMask(bm: seq<Word>, pos: seq<Word>, d: PosDesc, row: nat) returns (r: seq<Word>)
    requires DescInside(d, |pos|) && |bm| == d.maskBytes && row < d.m
    ensures |r| == |bm| && forall j | 0 <= j < |bm| :: r[j] <= bm[j]
    ensures forall bi: nat | bi / 8 < d.maskBytes :: BlockAlive(r, bi) <==> BlockAlive(bm, bi) && PosLit(pos, d, row, bi)
  {
    TableIs(d.maskBytes, row);
    RowFits(row, d.m, d.maskBytes);
    var p := d.off + row * d.maskBytes;
    r := bm;
    for j := 0 to d.maskBytes
      invariant |r| == |bm|
      invariant forall i | 0 <= i < |bm| :: r[i] == if i < j then bm[i] * pos[p + i] else bm[i]
    {
      r := r[j := r[j] * pos[p + j]];
    }
  }

  /** The blocks left by the first `k` rows. */
  ghost predicate BlocksLeft(bm: seq<Word>, pos: seq<Word>, d: PosDesc, rows: seq<nat>, k: nat)
    requires DescInside(d, |pos|) && |bm| == d.maskBytes && k <= |rows| && forall i | 0 <= i < |rows| :: rows[i] < d.m
  {
    && (forall j | 0 <= j < |bm| :: bm[j] <= Full(8))
    && forall bi: nat | bi / 8 < d.maskBytes :: BlockAlive(bm, bi) <==> bi < d.blocks && forall i | 0 <= i < k :: PosLit(pos, d, rows[i], bi)
  }

  method AllBlocks(pos: seq<Word>, d: PosDesc, rows: seq<nat>) returns (bm: seq<Word>)
    requires DescInside(d, |pos|) && d.blocks > 0 && d.maskBytes == (d.blocks + 7) / 8 && forall i | 0 <= i < |rows| :: rows[i] < d.m
    ensures |bm| == d.maskBytes && BlocksLeft(bm, pos, d, rows, 0)
  {
    bm := seq(d.maskBytes, _ => Full(8));
    if d.blocks % 8 != 0 {
      bm := bm[|bm| - 1 := Full(d.blocks % 8)];
    }
    forall bi: nat | bi / 8 < d.maskBytes ensures BlockAlive(bm, bi) <==> bi < d.blocks {
      if bi / 8 == d.maskBytes - 1 { assert d.blocks % 8 == 0 ==> d.blocks == 8 * d.maskBytes; }
    }
  }

  /** The blocks of one chunk that have every row, in order. */
  method ChunkBlocks(pos: seq<Word>, d: PosDesc, selected: seq<U32>) returns (blocks: seq<nat>)
    requires DescInside(d, |pos|) && d.blocks > 0 && d.maskBytes == (d.blocks + 7) / 8 && d.m > 0
    ensures Increasing(blocks)
    ensures forall bi: nat :: bi in blocks <==> bi < d.blocks && BlockLit(pos, d, selected, bi)
  {
    var rows := RowsToProbe(selected, d.m);
    forall i | 0 <= i < |rows| ensures rows[i] < d.m {
      assert HashRow(selected, d.m, rows[i]);
    }
    var bm := AllBlocks(pos, d, rows);
    var k := 0;
    while k < |rows|
      invariant k <= |rows| && |bm| == d.maskBytes && BlocksLeft(bm, pos, d, rows, k)
    {
      bm := AndMask(bm, pos, d, rows[k]);
      k := k + 1;
      if forall j | 0 <= j < |bm| :: bm[j] == {} {
        break;
      }
    }
    blocks := ReadBlocks(bm, pos, d, rows, k);
    forall bi: nat | bi < d.blocks ensures BlockLit(pos, d, selected, bi) <==> forall i | 0 <= i < |rows| :: PosLit(pos, d, rows[i], bi) {
      RowsLit(pos, d, selected, rows, bi);
    }
  }

  lemma RowsLit(pos: seq<Word>, d: PosDesc, selected: seq<U32>, rows: seq<nat>, bi: nat)
    requires DescInside(d, |pos|) && bi / 8 < d.maskBytes && d.m > 0 && forall i | 0 <= i < |rows| :: rows[i] < d.m
    requires forall row: nat :: row in rows <==> HashRow(selected, d.m, row)
    ensures BlockLit(pos, d, selected, bi) <==> forall i | 0 <= i < |rows| :: PosLit(pos, d, rows[i], bi)
  {
    if BlockLit(pos, d, selected, bi) {
      forall i | 0 <= i < |rows| ensures PosLit(pos, d, rows[i], bi) {
        assert HashRow(selected, d.m, rows[i]);
      }
    }
    if forall i | 0 <= i < |rows| :: PosLit(pos, d, rows[i], bi) {
      forall h | h in selected ensures PosLit(pos, d, h % d.m, bi) {
        assert HashRow(selected, d.m, h % d.m);
        assert h % d.m in rows;
      }
    }
  }

  method ReadBlocks(bm: seq<Word>, ghost pos: seq<Word>, d: PosDesc, ghost rows: seq<nat>, ghost k: nat) returns (blocks: seq<nat>)
    requires DescInside(d, |pos|) && |bm| == d.maskBytes && k <= |rows| && forall i | 0 <= i < |rows| :: rows[i] < d.m
    requires BlocksLeft(bm, pos, d, rows, k) && (k < |rows| ==> forall j | 0 <= j < |bm| :: bm[j] == {})
    requires d.maskBytes == (d.blocks + 7) / 8
    ensures Increasing(blocks)
    ensures forall bi: nat :: bi in blocks <==> bi < d.blocks && forall i | 0 <= i < |rows| :: PosLit(pos, d, rows[i], bi)
  {
    blocks := [];
    for w := 0 to d.maskBytes
      invariant Increasing(blocks) && forall a | 0 <= a < |blocks| :: blocks[a] < w * 8
      invariant forall bi: nat :: bi in blocks <==> bi < d.blocks && bi < w * 8 && BlockAlive(bm, bi)
    {
      var more := Drain(bm[w], 8, w * 8, d.blocks);
      forall a | 0 <= a < |more| ensures w * 8 <= more[a] < w * 8 + 8 {
        assert more[a] in more;
      }
      forall bi: nat ensures bi in more <==> bi < d.blocks && w * 8 <= bi < w * 8 + 8 && BlockAlive(bm, bi) {
        if w * 8 <= bi < w * 8 + 8 { assert bi / 8 == w && bi % 8 == bi - w * 8; }
      }
      blocks := blocks + more;
    }
  }
}
