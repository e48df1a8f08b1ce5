/** The planner's estimate: for each probed row, the number of chunks in scope that have
    it set. It is exact row by row, and so a bound on the number of candidates. */
module Planner {
  import opened Basics
  import opened IndexModel
  import opened IndexQuery
  import opened IndexPlan
  import opened Candidates

  /** The chunks in scope with the row of `h` set in the bitmap of their class. */
  ghost function RowChunks(hash: Hash, x: Index, scope: seq<nat>, h: U32): (r: set<nat>)
    requires ChunksSound(x.files, x.chunks)
    ensures forall ci: nat :: ci in r <==> ci < |x.chunks| && AllowsFile(scope, x.chunks[ci].file) && ChunkHasRow(hash, x.files, x.chunks[ci], h)
  {
    set ci: nat | ci < |x.chunks| && AllowsFile(scope, x.chunks[ci].file) && ChunkHasRow(hash, x.files, x.chunks[ci], h)
  }

  ghost function ScopedChunks(x: Index, scope: seq<nat>): set<nat> {
    set ci: nat | ci < |x.chunks| && AllowsFile(scope, x.chunks[ci].file)
  }

  method ScopedChunkCount(x: Index, scope: seq<nat>) returns (n: nat)
    ensures n == |ScopedChunks(x, scope)|
  {
    ghost var counted: set<nat> := {};
    n := 0;
    for ci := 0 to |x.chunks|
      invariant n == |counted| && forall i: nat :: i in counted <==> i < ci && AllowsFile(scope, x.chunks[i].file)
    {
      if AllowsFile(scope, x.chunks[ci].file) {
        n := n + 1;
        counted := counted + {ci};
      }
    }
    assert counted == ScopedChunks(x, scope);
  }

  lemma {:induction false} BucketListExact(hash: Hash, files: seq<seq<Byte>>, chunks: seq<Chunk>, bucket: nat, n: nat)
    requires n <= |chunks| && ChunksSound(files, chunks)
    ensures forall ci: nat :: ci in BucketList(hash, files, chunks, bucket, n) <==> ci < n && ChunkRow(hash, files, chunks[ci], BUCKETS, bucket)
  {
    if n > 0 { BucketListExact(hash, files, chunks, bucket, n - 1); }
  }

  lemma FoldBy(h: nat, m: nat, k: nat)
    requires m > 0 && m * k == BUCKETS
    ensures (h % BUCKETS) % m == h % m
  {
    var a, r := h / BUCKETS, h % BUCKETS;
    var b, t := r / m, r % m;
    assert h == a * (m * k) + r && r == b * m + t;
    assert a * (m * k) == (a * k) * m;
    assert h == (a * k + b) * m + t;
    DivUnique(h, m, a * k + b, t);
  }

  lemma FoldRow(h: nat, lg: nat)
    requires FIRST_LG <= lg <= LAST_LG
    ensures (h % BUCKETS) % RowsOf(lg) == h % RowsOf(lg)
  {
    match lg
    case 9 => FoldBy(h, 512, 128);
    case 10 => FoldBy(h, 1024, 64);
    case 11 => FoldBy(h, 2048, 32);
    case 12 => FoldBy(h, 4096, 16);
    case 13 => FoldBy(h, 8192, 8);
    case 14 => FoldBy(h, 16384, 4);
    case 15 => FoldBy(h, 32768, 2);
    case _ =>
  }

  /** Among the buckets below `b` that fold onto the row, some bucket of the chunk. */
  ghost predicate InBuckets(hash: Hash, x: Index, c: Chunk, lg: nat, target: nat, b: nat)
    requires ChunkSound(x.files, c)
  {
    exists k: nat :: k < b && FoldsTo(k, lg, target) && ChunkRow(hash, x.files, c, BUCKETS, k)
  }

  predicate FoldsTo(bucket: nat, lg: nat, target: nat) {
    bucket % RowsOf(lg) == target
  }

  /** A chunk has a row of its class just when it has a bucket that folds onto it. */
  lemma BucketsAreRows(hash: Hash, x: Index, c: Chunk, h: U32)
    requires ChunkSound(x.files, c)
    ensures InBuckets(hash, x, c, ClassOf(c), h % BUCKETS % RowsOf(ClassOf(c)), BUCKETS) <==> ChunkHasRow(hash, x.files, c, h)
  {
    var lg, text := ClassOf(c), x.files[c.file];
    FoldRow(h, lg);
    if InBuckets(hash, x, c, lg, h % RowsOf(lg), BUCKETS) {
      var k: nat :| k < BUCKETS && FoldsTo(k, lg, h % RowsOf(lg)) && ChunkRow(hash, x.files, c, BUCKETS, k);
      var j: nat :| GramIn(text, c.coreBegin, c.extEnd, j) && hash(GramAt(text, j)) % BUCKETS == k;
      FoldRow(hash(GramAt(text, j)), lg);
      assert hash(GramAt(text, j)) % RowsOf(lg) == h % RowsOf(lg);
    }
    if ChunkHasRow(hash, x.files, c, h) {
      var j: nat :| GramIn(text, c.coreBegin, c.extEnd, j) && hash(GramAt(text, j)) % RowsOf(lg) == h % RowsOf(lg);
      FoldRow(hash(GramAt(text, j)), lg);
      var k := hash(GramAt(text, j)) % BUCKETS;
      assert ChunkRow(hash, x.files, c, BUCKETS, k) && FoldsTo(k, lg, h % RowsOf(lg));
    }
  }

  // ----- counting the chunks of one row -----

  predicate OfClass(x: Index, scope: seq<nat>, lg: nat, ci: nat) {
    ci < |x.chunks| && ClassOf(x.chunks[ci]) == lg && AllowsFile(scope, x.chunks[ci].file)
  }

  /** Chunks of class `lg` in scope that some bucket below `b` brings in. */
  ghost predicate Reached(hash: Hash, x: Index, scope: seq<nat>, lg: nat, target: nat, b: nat, ci: nat)
    requires ChunksSound(x.files, x.chunks)
  {
    && OfClass(x, scope, lg, ci)
    && InBuckets(hash, x, x.chunks[ci], lg, target, b)
  }

  /** `seen` marks, with the generation of the class, exactly the chunks counted in it. */
  ghost predicate MarkedChunks(seen: seq<nat>, lg: nat, counted: set<nat>) {
    && (forall ci: nat | ci < |seen| :: seen[ci] <= lg - 8)
    && forall ci: nat :: ci in counted <==> ci < |seen| && seen[ci] == lg - 8
  }

  /** One class: every listed chunk of the class is counted once. */
  method CountClass(ghost hash: Hash, x: Index, bucket: nat, scope: seq<nat>, lg: nat, before: seq<nat>)
    returns (seen: seq<nat>, n: nat, ghost counted: set<nat>)
    requires ChunksSound(x.files, x.chunks) && StatsExact(hash, x.files, x.chunks, x.stats) && x.stats.ready
    requires FIRST_LG <= lg <= LAST_LG && |before| == |x.chunks| && forall ci: nat | ci < |before| :: before[ci] < lg - 8
    ensures |seen| == |x.chunks| && forall ci: nat | ci < |seen| :: seen[ci] <= lg - 8
    ensures n == |counted| && forall ci: nat :: ci in counted <==> Reached(hash, x, scope, lg, bucket % RowsOf(lg), BUCKETS, ci)
  {
    var target := bucket % RowsOf(lg);
    seen, n, counted := before, 0, {};
    for b := 0 to BUCKETS
      invariant |seen| == |x.chunks| && MarkedChunks(seen, lg, counted) && n == |counted|
      invariant forall ci: nat :: ci in counted <==> Reached(hash, x, scope, lg, target, b, ci)
    {
      ghost var was := counted;
      if b % RowsOf(lg) == target {
        seen, n, counted := CountBucket(x, scope, lg, x.stats.bucketChunks[b], seen, n, counted);
      }
      BucketStep(hash, x, scope, lg, target, b, was, counted);
    }
  }

  method CountBucket(x: Index, scope: seq<nat>, lg: nat, list: seq<nat>, before: seq<nat>, count: nat, ghost already: set<nat>)
    returns (seen: seq<nat>, n: nat, ghost counted: set<nat>)
    requires lg >= FIRST_LG && |before| == |x.chunks| && MarkedChunks(before, lg, already) && count == |already|
    ensures |seen| == |x.chunks| && MarkedChunks(seen, lg, counted) && n == |counted|
    ensures forall ci: nat :: ci in counted <==> (ci in already || (ci in list && OfClass(x, scope, lg, ci)))
  {
    seen, n, counted := before, count, already;
    for k := 0 to |list|
      invariant |seen| == |x.chunks| && MarkedChunks(seen, lg, counted) && n == |counted|
      invariant forall ci: nat :: ci in counted <==> (ci in already || (ci in list[..k] && OfClass(x, scope, lg, ci)))
    {
      var ci := list[k];
      assert list[..k + 1] == list[..k] + [ci];
      if ci < |x.chunks| && seen[ci] != lg - 8 && AllowsFile(scope, x.chunks[ci].file) {
        var actual := LgFor(x.chunks[ci].Length());
        if actual == lg {
          seen := seen[ci := lg - 8];
          n := n + 1;
          counted := counted + {ci};
        }
      }
    }
    assert list[..|list|] == list;
  }

  lemma BucketStep(hash: Hash, x: Index, scope: seq<nat>, lg: nat, target: nat, b: nat, was: set<nat>, now: set<nat>)
    requires ChunksSound(x.files, x.chunks) && StatsExact(hash, x.files, x.chunks, x.stats) && x.stats.ready && b < BUCKETS
    requires forall ci: nat :: ci in was <==> Reached(hash, x, scope, lg, target, b, ci)
    requires
      if FoldsTo(b, lg, target) then
        forall ci: nat :: ci in now <==> (ci in was || (ci in x.stats.bucketChunks[b] && OfClass(x, scope, lg, ci)))
      else now == was
    ensures forall ci: nat :: ci in now <==> Reached(hash, x, scope, lg, target, b + 1, ci)
  {
    BucketListExact(hash, x.files, x.chunks, b, |x.chunks|);
    assert x.stats.bucketChunks[b] == BucketList(hash, x.files, x.chunks, b, |x.chunks|);
    forall ci: nat ensures ci in now <==> Reached(hash, x, scope, lg, target, b + 1, ci) {
      if ci < |x.chunks| {
        InBucketsStep(hash, x, x.chunks[ci], lg, target, b);
      }
    }
  }

  lemma InBucketsStep(hash: Hash, x: Index, c: Chunk, lg: nat, target: nat, b: nat)
    requires ChunkSound(x.files, c)
    ensures InBuckets(hash, x, c, lg, target, b + 1)
      <==> InBuckets(hash, x, c, lg, target, b) || (FoldsTo(b, lg, target) && ChunkRow(hash, x.files, c, BUCKETS, b))
  {}

  /** The chunks of classes below `lg` that have the row. */
  ghost function RowChunksBelow(hash: Hash, x: Index, scope: seq<nat>, h: U32, lg: nat): (r: set<nat>)
    requires ChunksSound(x.files, x.chunks)
  {
    set ci: nat | ci in RowChunks(hash, x, scope, h) && ClassOf(x.chunks[ci]) < lg
  }

  /** The number of chunks in scope whose size-class bitmap has the row of `h` set. */
  method ScopedHashChunks(ghost hash: Hash, x: Index, ghost h: U32, bucket: nat, scope: seq<nat>) returns (n: nat)
    requires ChunksSound(x.files, x.chunks) && StatsExact(hash, x.files, x.chunks, x.stats) && bucket == h % BUCKETS
    ensures n == if x.stats.ready then |RowChunks(hash, x, scope, h)| else |x.chunks|
  {
    if !x.stats.ready {
      return |x.chunks|;
    }
    var total := ScopedChunkCount(x, scope);
    var seen: seq<nat> := seq(|x.chunks|, _ => 0);
    var result := 0;
    for lg := FIRST_LG to LAST_LG + 1
      invariant |seen| == |x.chunks| && forall ci: nat | ci < |seen| :: seen[ci] < lg - 8
      invariant result == |RowChunksBelow(hash, x, scope, h, lg)|
    {
      var more;
      ghost var counted;
      seen, more, counted := CountClass(hash, x, bucket, scope, lg, seen);
      ClassStep(hash, x, scope, h, lg, counted);
      result := result + more;
    }
    assert RowChunksBelow(hash, x, scope, h, LAST_LG + 1) == RowChunks(hash, x, scope, h);
    SubsetSize(RowChunks(hash, x, scope, h), ScopedChunks(x, scope));
    n := Min(result, total);
  }

  lemma ClassStep(hash: Hash, x: Index, scope: seq<nat>, h: U32, lg: nat, counted: set<nat>)
    requires ChunksSound(x.files, x.chunks)
    requires forall ci: nat :: ci in counted <==> Reached(hash, x, scope, lg, h % BUCKETS % RowsOf(lg), BUCKETS, ci)
    ensures |RowChunksBelow(hash, x, scope, h, lg + 1)| == |RowChunksBelow(hash, x, scope, h, lg)| + |counted|
  {
    var below := RowChunksBelow(hash, x, scope, h, lg);
    forall ci: nat ensures ci in RowChunksBelow(hash, x, scope, h, lg + 1) <==> ci in below || ci in counted {
      if ci < |x.chunks| { BucketsAreRows(hash, x, x.chunks[ci], h); }
    }
    assert below * counted == {};
    assert RowChunksBelow(hash, x, scope, h, lg + 1) == below + counted;
  }

  // ----- the bound -----

  /** The candidates of a literal are no more than the chunks that have any one of the
      rows the plan probes. */
  lemma CandidatesBounded(hash: Hash, x: Index, q: seq<Byte>, scope: seq<nat>, cv: seq<nat>, h: U32)
    requires Built(hash, x) && Searchable(x) && 4 <= |q| <= x.options.chunkOverlap
    requires Increasing(cv) && forall ci: nat :: ci in cv <==> Candidate(hash, x, q, scope, ci)
    requires h in Planned(hash, x, q)
    ensures |cv| <= |RowChunks(hash, x, scope, h)|
  {
    var all := set ci | ci in cv;
    DistinctCount(cv, all);
    forall ci | ci in all ensures ci in RowChunks(hash, x, scope, h) {
      BuiltSurvives(hash, x, Planned(hash, x, q), ci);
    }
    SubsetSize(all, RowChunks(hash, x, scope, h));
  }

  lemma Ratios(a: nat, b: nat, total: nat)
    requires total > 0
    ensures (a as real / total as real) * total as real == a as real
    ensures a as real / total as real <= b as real / total as real <==> a <= b
  {}

  /** `best` is the least number of chunks that have one of the first `k` rows. */
  ghost predicate Least(hash: Hash, x: Index, scope: seq<nat>, selected: seq<U32>, k: nat, best: nat)
    requires ChunksSound(x.files, x.chunks) && k <= |selected|
  {
    && (forall i | 0 <= i < k :: best <= |RowChunks(hash, x, scope, selected[i])|)
    && (k == 0 || exists i :: 0 <= i < k && best == |RowChunks(hash, x, scope, selected[i])|)
  }

  lemma LeastStep(hash: Hash, x: Index, scope: seq<nat>, selected: seq<U32>, k: nat, best: nat, rows: nat)
    requires ChunksSound(x.files, x.chunks) && k < |selected| && Least(hash, x, scope, selected, k, best)
    requires rows == |RowChunks(hash, x, scope, selected[k])| && (k == 0 ==> rows <= best)
    ensures Least(hash, x, scope, selected, k + 1, Min(best, rows))
  {}

  method LowerShare(share: real, ghost best: nat, candidates: nat, total: nat) returns (s: real, ghost least: nat)
    requires total > 0 && share == best as real / total as real
    ensures least == Min(best, candidates) && s == least as real / total as real
  {
    s, least := share, best;
    Ratios(candidates, best, total);
    if candidates as real / total as real < s {
      s, least := candidates as real / total as real, candidates;
    }
  }

  /** The estimated share of the chunks in scope that are candidates is the least share
      of any probed row. */
  method EstimateSelectivity(hash: Hash, x: Index, q: seq<Byte>, scope: seq<nat>) returns (s: real, ghost best: nat)
    requires ChunksSound(x.files, x.chunks) && StatsExact(hash, x.files, x.chunks, x.stats)
    ensures |q| < 4 || ScopedChunks(x, scope) == {} || !x.stats.ready ==> s == 1.0
    ensures |q| >= 4 && ScopedChunks(x, scope) != {} && x.stats.ready ==>
      Least(hash, x, scope, Planned(hash, x, q), |Planned(hash, x, q)|, best) && s == best as real / |ScopedChunks(x, scope)| as real
  {
    var total := ScopedChunkCount(x, scope);
    best := total;
    if |q| < 4 || total == 0 || !x.stats.ready {
      return 1.0, best;
    }
    s := 1.0;
    Ratios(best, best, total);
    var selected := PlannedHashes(hash, x, q);
    PlannedRows(hash, x, q);
    for k := 0 to |selected|
      invariant s == best as real / total as real && Least(hash, x, scope, selected, k, best)
      invariant k == 0 ==> best == total
    {
      var rows := ScopedHashChunks(hash, x, selected[k], selected[k] % BUCKETS, scope);
      SubsetSize(RowChunks(hash, x, scope, selected[k]), ScopedChunks(x, scope));
      LeastStep(hash, x, scope, selected, k, best, rows);
      s, best := LowerShare(s, best, Min(total, rows), total);
    }
  }

  /** The planner's estimate bounds the real work: at most `best` candidates. */
  lemma EstimateBounds(hash: Hash, x: Index, q: seq<Byte>, scope: seq<nat>, cv: seq<nat>, best: nat)
    requires Built(hash, x) && Searchable(x) && 4 <= |q| <= x.options.chunkOverlap
    requires Increasing(cv) && forall ci: nat :: ci in cv <==> Candidate(hash, x, q, scope, ci)
    requires Least(hash, x, scope, Planned(hash, x, q), |Planned(hash, x, q)|, best)
    ensures |cv| <= best
  {
    PlannedRows(hash, x, q);
    var i :| 0 <= i < |Planned(hash, x, q)| && best == |RowChunks(hash, x, scope, Planned(hash, x, q)[i])|;
    CandidatesBounded(hash, x, q, scope, cv, Planned(hash, x, q)[i]);
  }
}
