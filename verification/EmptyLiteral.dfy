/** The fixed search of the empty literal, which stands at every place of a file. The
    operators do not agree on it; what each of them lists, and when that is every place. */
module EmptyLiteral {
  import opened Basics
  import opened IndexModel
  import opened IndexQuery
  import opened Candidates
  import opened FixedScan
  import opened FixedSearch

  /** Empty hits at the places [from, to). */
  function Empties(file: nat, from: nat, to: nat): (r: seq<Hit>)
    ensures |r| == Max(to - from, 0) && forall i | 0 <= i < |r| :: r[i] == Hit(file, from + i, from + i)
  {
    seq(Max(to - from, 0), i requires 0 <= i => Hit(file, from + i, from + i))
  }

  /** Every place of every searched file. */
  function EmptyNaive(files: seq<seq<Byte>>, s: Scope, file: nat): seq<Hit>
    decreases |files| - file
  {
    if file >= |files| then []
    else (if Searched(s, file) then Empties(file, 0, |files[file]| + 1) else []) + EmptyNaive(files, s, file + 1)
  }

  /** The last place that is visited in a chunk: the end of its core, or of its first
      block when blocks have `span` bytes. */
  function Reach(c: Chunk, span: Option<nat>): nat {
    if span.None? then c.coreEnd else Min(c.coreBegin + span.value, c.coreEnd)
  }

  /** The places still free behind a visited chunk, when overlaps are kept track of. */
  function Advanced(next: map<nat, nat>, c: Chunk, span: Option<nat>, overlapping: bool): map<nat, nat> {
    if overlapping then next else next[c.file := Max(NextOf(next, c.file), Reach(c, span) + 1)]
  }

  function FreePlace(next: map<nat, nat>, c: Chunk, overlapping: bool): nat {
    if overlapping then c.coreBegin else Max(c.coreBegin, NextOf(next, c.file))
  }

  /** What visiting the chunks from `k` on lists. */
  function Visited(chunks: seq<Chunk>, s: Scope, span: Option<nat>, overlapping: bool, k: nat, next: map<nat, nat>): seq<Hit>
    decreases |chunks| - k
  {
    if k >= |chunks| then []
    else if !Searched(s, chunks[k].file) then Visited(chunks, s, span, overlapping, k + 1, next)
    else
      var c := chunks[k];
      Empties(c.file, FreePlace(next, c, overlapping), Reach(c, span) + 1)
        + Visited(chunks, s, span, overlapping, k + 1, Advanced(next, c, span, overlapping))
  }

  // ----- the loops -----

  lemma EmptiesStep(file: nat, from: nat, to: nat, before: seq<Hit>)
    requires from < to
    ensures before + Empties(file, from, to) == (before + [Hit(file, from, from)]) + Empties(file, from + 1, to)
  {
    assert Empties(file, from, to) == [Hit(file, from, from)] + Empties(file, from + 1, to);
  }

  /** One window: the search finds the empty literal at each place, and those before `n`
      are passed over. */
  method VisitPlaces(text: seq<Byte>, file: nat, base: nat, window: nat, overlapping: bool, n: nat, limit: nat, before: seq<Hit>)
    returns (out: seq<Hit>, next: nat, full: bool)
    requires base + window <= |text| && Below(limit, before) && (overlapping ==> n == 0)
    ensures
      var all := before + Empties(file, Max(base, n), base + window + 1);
      if full then CutAt(limit, out, all) else out == all && Below(limit, out)
    ensures !full ==> next == if overlapping then n else Max(n, base + window + 1)
  {
    var pos := 0;
    out, next, full := before, n, false;
    ghost var all := before + Empties(file, Max(base, n), base + window + 1);
    while pos < window + 1
      invariant pos <= window + 1 && Below(limit, out)
      invariant next == if overlapping || pos == 0 || base + pos <= n then n else base + pos
      invariant all == out + Empties(file, Max(base + pos, n), base + window + 1)
    {
      var at := AnchorFind(text[base..], [], 0, pos, window + 1);
      FirstPlaceFound(text[base..], pos, window + 1, at);
      var p := base + at.value;
      if overlapping || p >= next {
        EmptiesStep(file, p, base + window + 1, out);
        out := out + [Hit(file, p, p)];
        if limit != 0 && |out| >= limit {
          full := true;
          return;
        }
        next := if overlapping then next else p + 1;
      }
      pos := at.value + 1;
    }
  }

  lemma FirstPlaceFound(s: seq<Byte>, start: nat, bound: nat, r: Option<nat>)
    requires start < bound && start <= |s| && FirstIn(s, [], start, bound, r)
    ensures r == Some(start)
  {
    assert OccursAt(s, [], start);
  }

  lemma InParts(all: seq<Hit>, before: seq<Hit>, a: seq<Hit>, b: seq<Hit>)
    requires all == before + (a + b)
    ensures all == (before + a) + b
  {}

  lemma CutInside(limit: nat, out: seq<Hit>, part: seq<Hit>, rest: seq<Hit>)
    requires CutAt(limit, out, part)
    ensures CutAt(limit, out, part + rest)
  {
    assert (part + rest)[..|out|] == part[..|out|];
  }

  /** `out` and what the chunks from `k` on list make up `all`. */
  ghost predicate EmptyBetween(all: seq<Hit>, out: seq<Hit>, chunks: seq<Chunk>, s: Scope, span: Option<nat>, overlapping: bool, k: nat, next: map<nat, nat>, limit: nat) {
    Below(limit, out) && all == out + Visited(chunks, s, span, overlapping, k, next) && (overlapping ==> next == map[])
  }

  lemma {:induction false} UnsearchedSkip(chunks: seq<Chunk>, s: Scope, span: Option<nat>, overlapping: bool, a: nat, b: nat, next: map<nat, nat>)
    requires a <= b <= |chunks| && forall k | a <= k < b :: !Searched(s, chunks[k].file)
    ensures Visited(chunks, s, span, overlapping, a, next) == Visited(chunks, s, span, overlapping, b, next)
    decreases b - a
  {
    if a < b { UnsearchedSkip(chunks, s, span, overlapping, a + 1, b, next); }
  }

  /** One chunk in scope, when no chunk between `k` and it is searched. */
  method VisitChunk(texts: seq<seq<Byte>>, s: Scope, chunks: seq<Chunk>, span: Option<nat>, overlapping: bool, limit: nat, ghost all: seq<Hit>,
    before: seq<Hit>, ghost k: nat, ci: nat, before': map<nat, nat>) returns (out: seq<Hit>, next: map<nat, nat>, full: bool)
    requires k <= ci < |chunks| && ChunkSound(texts, chunks[ci]) && AllowsFile(s.eligible, chunks[ci].file) && |s.binary| == |texts|
    requires forall m | k <= m < ci :: !Searched(s, chunks[m].file)
    requires EmptyBetween(all, before, chunks, s, span, overlapping, k, before', limit)
    ensures full ==> CutAt(limit, out, all)
    ensures !full ==> EmptyBetween(all, out, chunks, s, span, overlapping, ci + 1, next, limit)
  {
    var c := chunks[ci];
    UnsearchedSkip(chunks, s, span, overlapping, k, ci, before');
    out, next, full := before, before', false;
    if s.includeBinary || !s.binary[c.file] {
      var n;
      out, n, full := VisitPlaces(texts[c.file], c.file, c.coreBegin, Reach(c, span) - c.coreBegin, overlapping, NextOf(before', c.file), limit, before);
      if !overlapping {
        next := before'[c.file := n];
      }
      ghost var part := before + Empties(c.file, FreePlace(before', c, overlapping), Reach(c, span) + 1);
      InParts(all, before, Empties(c.file, FreePlace(before', c, overlapping), Reach(c, span) + 1),
        Visited(chunks, s, span, overlapping, ci + 1, Advanced(before', c, span, overlapping)));
      if full { CutInside(limit, out, part, Visited(chunks, s, span, overlapping, ci + 1, Advanced(before', c, span, overlapping))); }
    }
  }

  // ----- the chunk and the positional operator -----

  /** All chunks in scope, in order. */
  ghost predicate ChunksInScope(chunks: seq<Chunk>, s: Scope, cv: seq<nat>) {
    Increasing(cv) && forall ci: nat :: ci in cv <==> ci < |chunks| && AllowsFile(s.eligible, chunks[ci].file)
  }

  ghost function StretchBegin(cv: seq<nat>, k: nat): nat
    requires k <= |cv|
  {
    if k == 0 then 0 else cv[k - 1] + 1
  }

  /** Where the stretch that ends before the `k`th listed number ends. */
  ghost function StretchEnd(cv: seq<nat>, k: nat, end: nat): nat {
    if k < |cv| then cv[k] else end
  }

  lemma NotListed(cv: seq<nat>, k: nat, end: nat)
    requires Increasing(cv) && k <= |cv|
    ensures forall m: nat | StretchBegin(cv, k) <= m < StretchEnd(cv, k, end) :: m !in cv
  {
    forall m: nat | StretchBegin(cv, k) <= m < StretchEnd(cv, k, end) ensures m !in cv {
      forall i | 0 <= i < |cv| ensures cv[i] != m {}
    }
  }

  /** Chunks between two listed ones are out of scope. */
  lemma BetweenListed(chunks: seq<Chunk>, s: Scope, cv: seq<nat>, k: nat)
    requires ChunksInScope(chunks, s, cv) && k <= |cv|
    ensures StretchBegin(cv, k) <= StretchEnd(cv, k, |chunks|) <= |chunks|
    ensures forall m | StretchBegin(cv, k) <= m < StretchEnd(cv, k, |chunks|) :: !Searched(s, chunks[m].file)
    ensures k < |cv| ==> cv[k] < |chunks| && AllowsFile(s.eligible, chunks[cv[k]].file)
  {
    if k < |cv| { assert cv[k] in cv; }
    if k > 0 { assert cv[k - 1] in cv; }
    NotListed(cv, k, |chunks|);
  }

  method VisitListed(texts: seq<seq<Byte>>, s: Scope, chunks: seq<Chunk>, span: Option<nat>, overlapping: bool, limit: nat, cv: seq<nat>)
    returns (out: seq<Hit>)
    requires ChunksInScope(chunks, s, cv) && ChunksSound(texts, chunks) && |s.binary| == |texts|
    ensures out == Cut(Visited(chunks, s, span, overlapping, 0, map[]), limit)
  {
    ghost var all := Visited(chunks, s, span, overlapping, 0, map[]);
    out := [];
    var next: map<nat, nat> := map[];
    for k := 0 to |cv|
      invariant EmptyBetween(all, out, chunks, s, span, overlapping, StretchBegin(cv, k), next, limit)
    {
      BetweenListed(chunks, s, cv, k);
      var full;
      out, next, full := VisitChunk(texts, s, chunks, span, overlapping, limit, all, out, StretchBegin(cv, k), cv[k], next);
      if full {
        return;
      }
    }
    BetweenListed(chunks, s, cv, |cv|);
    UnsearchedSkip(chunks, s, span, overlapping, StretchBegin(cv, |cv|), |chunks|, next);
  }

  method EmptyChunks(hash: Hash, x: Index, s: Scope, overlapping: bool, limit: nat) returns (out: seq<Hit>)
    requires Exact(hash, x, s)
    ensures out == Cut(Visited(x.chunks, s, None, overlapping, 0, map[]), limit)
  {
    var cv := ChunkCandidates(hash, x, [], s.eligible);
    out := VisitListed(x.files, s, x.chunks, None, overlapping, limit, cv);
  }

  /** The chunks whose first block is a candidate: all in scope. */
  method EmptyBlocks(hash: Hash, x: Index, s: Scope, overlapping: bool, limit: nat) returns (out: seq<Hit>)
    requires Exact(hash, x, s)
    ensures out == Cut(Visited(x.chunks, s, Some(x.options.blockBytes), overlapping, 0, map[]), limit)
  {
    var blocks := CandidateBlocks(hash, x, [], s.eligible);
    FirstsInScope(x.chunks, s, blocks);
    out := VisitListed(x.files, s, x.chunks, Some(x.options.blockBytes), overlapping, limit, FirstsOf(blocks));
  }

  function FirstsOf(blocks: seq<(nat, nat)>): (cv: seq<nat>)
    ensures |cv| == |blocks| && forall k | 0 <= k < |cv| :: cv[k] == blocks[k].0
  {
    seq(|blocks|, k requires 0 <= k < |blocks| => blocks[k].0)
  }

  lemma FirstsInScope(chunks: seq<Chunk>, s: Scope, blocks: seq<(nat, nat)>)
    requires PairsOrdered(blocks)
    requires forall ci: nat, bi: nat :: (ci, bi) in blocks <==> ci < |chunks| && AllowsFile(s.eligible, chunks[ci].file) && bi == 0
    ensures ChunksInScope(chunks, s, FirstsOf(blocks))
  {
    var cv := FirstsOf(blocks);
    forall k | 0 <= k < |blocks| ensures blocks[k].1 == 0 { assert (blocks[k].0, blocks[k].1) in blocks; }
    forall ci: nat ensures ci in cv <==> ci < |chunks| && AllowsFile(s.eligible, chunks[ci].file) {
      if ci in cv {
        var k :| 0 <= k < |cv| && cv[k] == ci;
        assert (blocks[k].0, blocks[k].1) in blocks;
      }
      if ci < |chunks| && AllowsFile(s.eligible, chunks[ci].file) {
        assert (ci, 0) in blocks;
        var k :| 0 <= k < |blocks| && blocks[k] == (ci, 0);
        assert cv[k] == ci;
      }
    }
  }

  // ----- the whole-file operator -----

  lemma {:induction false} FilesSkip(files: seq<seq<Byte>>, s: Scope, a: nat, b: nat)
    requires a <= b <= |files| && forall f | a <= f < b :: !Searched(s, f)
    ensures EmptyNaive(files, s, a) == EmptyNaive(files, s, b)
    decreases b - a
  {
    if a < b { FilesSkip(files, s, a + 1, b); }
  }

  /** All files in scope, in order. */
  ghost predicate FilesInScope(count: nat, s: Scope, files: seq<nat>) {
    Increasing(files) && forall f: nat :: f in files <==> f < count && AllowsFile(s.eligible, f)
  }

  lemma EveryFileListed(hash: Hash, x: Index, s: Scope, cv: seq<nat>, files: seq<nat>)
    requires Exact(hash, x, s) && ChunksInScope(x.chunks, s, cv) && Ids(x.chunks, cv) && FilesFound(x, cv, files)
    ensures FilesInScope(|x.files|, s, files)
  {
    forall f: nat ensures f in files <==> f < |x.files| && AllowsFile(s.eligible, f) {
      if f in files { ListedFile(x, s, cv, files, f); }
      if f < |x.files| && AllowsFile(s.eligible, f) { FileListed(x, s, cv, files, f); }
    }
  }

  lemma ListedFile(x: Index, s: Scope, cv: seq<nat>, files: seq<nat>, f: nat)
    requires ChunksSound(x.files, x.chunks) && ChunksInScope(x.chunks, s, cv) && Ids(x.chunks, cv) && FilesFound(x, cv, files) && f in files
    ensures f < |x.files| && AllowsFile(s.eligible, f)
  {
    var k :| 0 <= k < |cv| && x.chunks[cv[k]].file == f;
    assert cv[k] in cv && ChunkSound(x.files, x.chunks[cv[k]]);
  }

  lemma FileListed(x: Index, s: Scope, cv: seq<nat>, files: seq<nat>, f: nat)
    requires Partition(x.chunks, Sizes(x.files)) && ChunksInScope(x.chunks, s, cv) && Ids(x.chunks, cv) && FilesFound(x, cv, files)
    requires f < |x.files| && AllowsFile(s.eligible, f)
    ensures f in files
  {
    var at := FilesReach(x.chunks, Sizes(x.files), |x.chunks| - 1, f);
    assert at in cv;
    var k :| 0 <= k < |cv| && cv[k] == at;
  }

  lemma BetweenFiles(count: nat, s: Scope, files: seq<nat>, k: nat)
    requires FilesInScope(count, s, files) && k <= |files|
    ensures StretchBegin(files, k) <= StretchEnd(files, k, count) <= count
    ensures forall f | StretchBegin(files, k) <= f < StretchEnd(files, k, count) :: !Searched(s, f)
    ensures k < |files| ==> files[k] < count && AllowsFile(s.eligible, files[k])
  {
    if k < |files| { assert files[k] in files; }
    if k > 0 { assert files[k - 1] in files; }
    NotListed(files, k, count);
  }

  /** `out` and the places of the files from `f` on make up `all`. */
  ghost predicate FilesBetween(all: seq<Hit>, out: seq<Hit>, files: seq<seq<Byte>>, s: Scope, f: nat, limit: nat) {
    Below(limit, out) && all == out + EmptyNaive(files, s, f)
  }

  /** One file in scope, when no file between `f` and it is searched. */
  method VisitWhole(files: seq<seq<Byte>>, s: Scope, limit: nat, ghost all: seq<Hit>, before: seq<Hit>, ghost f: nat, fid: nat)
    returns (out: seq<Hit>, full: bool)
    requires f <= fid < |files| && AllowsFile(s.eligible, fid) && |s.binary| == |files| && FilesBetween(all, before, files, s, f, limit)
    requires forall m | f <= m < fid :: !Searched(s, m)
    ensures full ==> CutAt(limit, out, all)
    ensures !full ==> FilesBetween(all, out, files, s, fid + 1, limit)
  {
    FilesSkip(files, s, f, fid);
    out, full := before, false;
    if s.includeBinary || !s.binary[fid] {
      var next;
      SearchedWhole(files, s, all, before, fid);
      out, next, full := VisitPlaces(files[fid], fid, 0, |files[fid]|, true, 0, limit, before);
      if full { CutInside(limit, out, before + Empties(fid, 0, |files[fid]| + 1), EmptyNaive(files, s, fid + 1)); }
    }
  }

  lemma SearchedWhole(files: seq<seq<Byte>>, s: Scope, all: seq<Hit>, before: seq<Hit>, fid: nat)
    requires fid < |files| && Searched(s, fid) && all == before + EmptyNaive(files, s, fid)
    ensures all == (before + Empties(fid, 0, |files[fid]| + 1)) + EmptyNaive(files, s, fid + 1)
  {
    InParts(all, before, Empties(fid, 0, |files[fid]| + 1), EmptyNaive(files, s, fid + 1));
  }

  method VisitWholes(texts: seq<seq<Byte>>, s: Scope, files: seq<nat>, limit: nat) returns (out: seq<Hit>)
    requires FilesInScope(|texts|, s, files) && |s.binary| == |texts|
    ensures out == Cut(EmptyNaive(texts, s, 0), limit)
  {
    ghost var all := EmptyNaive(texts, s, 0);
    out := [];
    for k := 0 to |files|
      invariant FilesBetween(all, out, texts, s, StretchBegin(files, k), limit)
    {
      BetweenFiles(|texts|, s, files, k);
      var full;
      out, full := VisitWhole(texts, s, limit, all, out, StretchBegin(files, k), files[k]);
      if full {
        return;
      }
    }
    BetweenFiles(|texts|, s, files, |files|);
    FilesSkip(texts, s, StretchBegin(files, |files|), |texts|);
  }

  method EmptyFiles(hash: Hash, x: Index, s: Scope, limit: nat) returns (out: seq<Hit>)
    requires Exact(hash, x, s)
    ensures out == Cut(EmptyNaive(x.files, s, 0), limit)
  {
    var cv := ChunkCandidates(hash, x, [], s.eligible);
    CandidateChunks(hash, x, s, [], cv);
    var files := CandidateFiles(x, cv);
    EveryFileListed(hash, x, s, cv, files);
    out := VisitWholes(x.files, s, files, limit);
  }

  // ----- which operators list every place -----

  predicate LastOf(chunks: seq<Chunk>, k: nat)
    requires k < |chunks|
  {
    k == |chunks| - 1 || chunks[k + 1].file != chunks[k].file
  }

  /** Behind the last place visited in chunk `k` its successor goes on: without a gap, and
      without a place visited twice unless the first visit is remembered. */
  predicate Seamless(chunks: seq<Chunk>, span: Option<nat>, overlapping: bool, k: nat)
    requires k < |chunks|
  {
    var c, reach := chunks[k], Reach(chunks[k], span);
    if LastOf(chunks, k) then reach == c.coreEnd
    else if overlapping then c.coreEnd == reach + 1
    else c.coreEnd <= reach + 1
  }

  ghost predicate SeamlessFrom(chunks: seq<Chunk>, s: Scope, span: Option<nat>, overlapping: bool, k: nat) {
    forall m | k <= m < |chunks| && Searched(s, chunks[m].file) :: Seamless(chunks, span, overlapping, m)
  }

  /** Every place from `p` of file `f` on. */
  function Owed(files: seq<seq<Byte>>, s: Scope, f: nat, p: nat): seq<Hit> {
    (if f < |files| && Searched(s, f) then Empties(f, p, |files[f]| + 1) else []) + EmptyNaive(files, s, f + 1)
  }

  predicate NotBefore(h: Hit, f: nat, p: int) {
    h.file > f || (h.file == f && h.begin >= p)
  }

  lemma EmptiesAt(file: nat, from: nat, to: nat, h: Hit)
    ensures h in Empties(file, from, to) <==> h.file == file && from <= h.begin < to && h.end == h.begin
  {
    if h.file == file && from <= h.begin < to && h.end == h.begin { assert Empties(file, from, to)[h.begin - from] == h; }
  }

  lemma EmptiesSplit(file: nat, from: nat, middle: nat, to: nat)
    requires from <= middle <= to
    ensures Empties(file, from, to) == Empties(file, from, middle) + Empties(file, middle, to)
  {}

  /** What is listed from a file on lies in it or behind it. */
  lemma {:induction false} NaiveNotBefore(files: seq<seq<Byte>>, s: Scope, file: nat, h: Hit)
    requires h in EmptyNaive(files, s, file)
    ensures h.file >= file
    decreases |files| - file
  {
    if file < |files| && h in EmptyNaive(files, s, file + 1) {
      NaiveNotBefore(files, s, file + 1, h);
    } else {
      EmptiesAt(file, 0, |files[file]| + 1, h);
    }
  }

  lemma {:induction false} VisitedNotBefore(chunks: seq<Chunk>, sizes: seq<nat>, s: Scope, span: Option<nat>, overlapping: bool, k: nat, next: map<nat, nat>, h: Hit)
    requires Chained(chunks, sizes) && k < |chunks| && h in Visited(chunks, s, span, overlapping, k, next)
    ensures NotBefore(h, chunks[k].file, chunks[k].coreBegin)
    decreases |chunks| - k
  {
    var c := chunks[k];
    var next' := if Searched(s, c.file) then Advanced(next, c, span, overlapping) else next;
    if h in Visited(chunks, s, span, overlapping, k + 1, next') {
      assert LinkedAt(chunks, sizes, k + 1) && InFile(c, sizes);
      VisitedNotBefore(chunks, sizes, s, span, overlapping, k + 1, next', h);
    } else {
      EmptiesAt(c.file, FreePlace(next, c, overlapping), Reach(c, span) + 1, h);
    }
  }

  /** The files before chunk `k` may have been visited, and its own up to its begin. */
  ghost predicate Ready(chunks: seq<Chunk>, k: nat, next: map<nat, nat>) {
    k < |chunks| ==> NextOf(next, chunks[k].file) <= chunks[k].coreBegin + 1 && forall f | f in next :: f <= chunks[k].file
  }

  /** Every place that is not listed yet when chunk `k` comes up. */
  function Onward(files: seq<seq<Byte>>, s: Scope, chunks: seq<Chunk>, overlapping: bool, k: nat, next: map<nat, nat>): seq<Hit> {
    if k < |chunks| then Owed(files, s, chunks[k].file, FreePlace(next, chunks[k], overlapping)) else []
  }

  /** A chunk and its successor: in the same file without a gap, or in the next file. */
  predicate Continues(chunks: seq<Chunk>, sizes: seq<nat>, k: nat)
    requires k < |chunks|
  {
    var c := chunks[k];
    && c.file < |sizes| && c.coreBegin <= c.coreEnd <= sizes[c.file]
    && if LastOf(chunks, k) then
         && c.coreEnd == sizes[c.file]
         && if k + 1 < |chunks| then chunks[k + 1].file == c.file + 1 && chunks[k + 1].coreBegin == 0 else c.file + 1 == |sizes|
       else chunks[k + 1].coreBegin == c.coreEnd
  }

  lemma Successor(chunks: seq<Chunk>, sizes: seq<nat>, k: nat)
    requires Partition(chunks, sizes) && k < |chunks|
    ensures Continues(chunks, sizes, k)
  {
    assert InFile(chunks[k], sizes);
    if k + 1 < |chunks| { assert LinkedAt(chunks, sizes, k + 1); }
  }

  /** From chunk `k` on everything owed is listed, and nothing else. */
  ghost predicate ListsAll(files: seq<seq<Byte>>, chunks: seq<Chunk>, s: Scope, span: Option<nat>, overlapping: bool, k: nat, next: map<nat, nat>) {
    Visited(chunks, s, span, overlapping, k, next) == Onward(files, s, chunks, overlapping, k, next)
  }

  /** That is so exactly when the chunks are seamless. */
  lemma {:induction false} VisitedIff(files: seq<seq<Byte>>, chunks: seq<Chunk>, s: Scope, span: Option<nat>, overlapping: bool, k: nat, next: map<nat, nat>)
    requires Partition(chunks, Sizes(files)) && k <= |chunks| && Ready(chunks, k, next)
    ensures ListsAll(files, chunks, s, span, overlapping, k, next) <==> SeamlessFrom(chunks, s, span, overlapping, k)
    decreases |chunks| - k
  {
    if k < |chunks| {
      SeamlessCons(chunks, s, span, overlapping, k);
      Successor(chunks, Sizes(files), k);
      if !Searched(s, chunks[k].file) {
        PassedOver(files, chunks, s, span, overlapping, k, next);
        VisitedIff(files, chunks, s, span, overlapping, k + 1, next);
      } else if Seamless(chunks, span, overlapping, k) {
        SeamlessGoesOn(files, chunks, s, span, overlapping, k, next);
        VisitedIff(files, chunks, s, span, overlapping, k + 1, Advanced(next, chunks[k], span, overlapping));
      } else {
        SeamShows(files, chunks, s, span, overlapping, k, next);
      }
    }
  }

  lemma PassedOver(files: seq<seq<Byte>>, chunks: seq<Chunk>, s: Scope, span: Option<nat>, overlapping: bool, k: nat, next: map<nat, nat>)
    requires k < |chunks| && Continues(chunks, Sizes(files), k) && Ready(chunks, k, next) && !Searched(s, chunks[k].file)
    ensures Ready(chunks, k + 1, next)
    ensures ListsAll(files, chunks, s, span, overlapping, k, next) <==> ListsAll(files, chunks, s, span, overlapping, k + 1, next)
  {
    UnsearchedOnward(files, chunks, s, overlapping, k, next);
  }

  lemma SeamlessGoesOn(files: seq<seq<Byte>>, chunks: seq<Chunk>, s: Scope, span: Option<nat>, overlapping: bool, k: nat, next: map<nat, nat>)
    requires k < |chunks| && Continues(chunks, Sizes(files), k) && Ready(chunks, k, next) && Searched(s, chunks[k].file)
    requires Seamless(chunks, span, overlapping, k)
    ensures
      var next' := Advanced(next, chunks[k], span, overlapping);
      && Ready(chunks, k + 1, next')
      && (ListsAll(files, chunks, s, span, overlapping, k, next) <==> ListsAll(files, chunks, s, span, overlapping, k + 1, next'))
  {
    SeamlessOnward(files, chunks, s, span, overlapping, k, next);
    SearchedIff(files, chunks, s, span, overlapping, k, next);
  }

  lemma SeamlessCons(chunks: seq<Chunk>, s: Scope, span: Option<nat>, overlapping: bool, k: nat)
    requires k < |chunks|
    ensures SeamlessFrom(chunks, s, span, overlapping, k)
       <==> (Searched(s, chunks[k].file) ==> Seamless(chunks, span, overlapping, k)) && SeamlessFrom(chunks, s, span, overlapping, k + 1)
  {}

  lemma UnsearchedOnward(files: seq<seq<Byte>>, chunks: seq<Chunk>, s: Scope, overlapping: bool, k: nat, next: map<nat, nat>)
    requires k < |chunks| && Continues(chunks, Sizes(files), k) && Ready(chunks, k, next) && !Searched(s, chunks[k].file)
    ensures Onward(files, s, chunks, overlapping, k, next) == Onward(files, s, chunks, overlapping, k + 1, next) && Ready(chunks, k + 1, next)
  {
    if k + 1 < |chunks| {
      UnsearchedOwed(files, s, chunks[k].file, FreePlace(next, chunks[k], overlapping), chunks[k + 1].file, FreePlace(next, chunks[k + 1], overlapping));
    } else {
      UnsearchedOwed(files, s, chunks[k].file, FreePlace(next, chunks[k], overlapping), |files|, 0);
    }
  }

  /** Nothing of a file is owed that is not searched. */
  lemma UnsearchedOwed(files: seq<seq<Byte>>, s: Scope, f: nat, p: nat, f': nat, p': nat)
    requires f < |files| && !Searched(s, f) && (f' == f || (f' == f + 1 && p' == 0))
    ensures Owed(files, s, f, p) == if f' < |files| then Owed(files, s, f', p') else []
  {}

  /** Behind a seamless chunk, what is owed goes on with its successor. */
  lemma SeamlessOnward(files: seq<seq<Byte>>, chunks: seq<Chunk>, s: Scope, span: Option<nat>, overlapping: bool, k: nat, next: map<nat, nat>)
    requires k < |chunks| && Continues(chunks, Sizes(files), k) && Ready(chunks, k, next) && Searched(s, chunks[k].file)
    requires Seamless(chunks, span, overlapping, k)
    ensures
      var next' := Advanced(next, chunks[k], span, overlapping);
      && Ready(chunks, k + 1, next')
      && Onward(files, s, chunks, overlapping, k + 1, next') == Owed(files, s, chunks[k].file, Reach(chunks[k], span) + 1)
  {
    var next' := Advanced(next, chunks[k], span, overlapping);
    if LastOf(chunks, k) {
      NothingOwed(files, s, chunks[k].file, Reach(chunks[k], span) + 1);
      assert k + 1 < |chunks| ==> FreePlace(next', chunks[k + 1], overlapping) == 0;
    } else {
      assert FreePlace(next', chunks[k + 1], overlapping) == Reach(chunks[k], span) + 1;
    }
  }

  /** Behind the last place of a file, everything is owed from the next file on. */
  lemma NothingOwed(files: seq<seq<Byte>>, s: Scope, f: nat, p: nat)
    requires f < |files| && (Searched(s, f) ==> p == |files[f]| + 1)
    ensures Owed(files, s, f, p) == if f + 1 < |files| then Owed(files, s, f + 1, 0) else []
  {}

  /** What one chunk lists is taken off what is owed. */
  lemma SearchedIff(files: seq<seq<Byte>>, chunks: seq<Chunk>, s: Scope, span: Option<nat>, overlapping: bool, k: nat, next: map<nat, nat>)
    requires k < |chunks| && Continues(chunks, Sizes(files), k) && Searched(s, chunks[k].file) && NextOf(next, chunks[k].file) <= chunks[k].coreBegin + 1
    ensures
      var c, next' := chunks[k], Advanced(next, chunks[k], span, overlapping);
      Visited(chunks, s, span, overlapping, k, next) == Owed(files, s, c.file, FreePlace(next, c, overlapping))
      <==> Visited(chunks, s, span, overlapping, k + 1, next') == Owed(files, s, c.file, Reach(c, span) + 1)
  {
    var c, p, e := chunks[k], FreePlace(next, chunks[k], overlapping), Reach(chunks[k], span);
    var next' := Advanced(next, c, span, overlapping);
    OwedSplit(files, s, c.file, p, e + 1);
    VisitedStep(chunks, s, span, overlapping, k, next);
    SameBehind(Visited(chunks, s, span, overlapping, k, next), Owed(files, s, c.file, p), Empties(c.file, p, e + 1),
      Visited(chunks, s, span, overlapping, k + 1, next'), Owed(files, s, c.file, e + 1));
  }

  lemma OwedSplit(files: seq<seq<Byte>>, s: Scope, f: nat, p: nat, middle: nat)
    requires f < |files| && Searched(s, f) && p <= middle <= |files[f]| + 1
    ensures Owed(files, s, f, p) == Empties(f, p, middle) + Owed(files, s, f, middle)
  {
    EmptiesSplit(f, p, middle, |files[f]| + 1);
  }

  lemma VisitedStep(chunks: seq<Chunk>, s: Scope, span: Option<nat>, overlapping: bool, k: nat, next: map<nat, nat>)
    requires k < |chunks| && Searched(s, chunks[k].file)
    ensures
      var c := chunks[k];
      Visited(chunks, s, span, overlapping, k, next) == Empties(c.file, FreePlace(next, c, overlapping), Reach(c, span) + 1)
      + Visited(chunks, s, span, overlapping, k + 1, Advanced(next, c, span, overlapping))
  {}

  lemma SameBehind(u: seq<Hit>, v: seq<Hit>, a: seq<Hit>, b: seq<Hit>, c: seq<Hit>)
    requires u == a + b && v == a + c
    ensures u == v <==> b == c
  {
    assert b == u[|a|..] && c == v[|a|..];
  }

  /** A seam shows: a place is left out, or visited again. */
  lemma SeamShows(files: seq<seq<Byte>>, chunks: seq<Chunk>, s: Scope, span: Option<nat>, overlapping: bool, k: nat, next: map<nat, nat>)
    requires Partition(chunks, Sizes(files)) && k < |chunks| && Ready(chunks, k, next) && Searched(s, chunks[k].file)
    requires !Seamless(chunks, span, overlapping, k)
    ensures !ListsAll(files, chunks, s, span, overlapping, k, next)
  {
    Successor(chunks, Sizes(files), k);
    SearchedIff(files, chunks, s, span, overlapping, k, next);
    var next' := Advanced(next, chunks[k], span, overlapping);
    if Reach(chunks[k], span) < chunks[k].coreEnd {
      LeftOut(files, chunks, s, span, overlapping, k, next');
    } else {
      ListedAgain(files, chunks, s, span, overlapping, k, next');
    }
  }

  lemma LeftOut(files: seq<seq<Byte>>, chunks: seq<Chunk>, s: Scope, span: Option<nat>, overlapping: bool, k: nat, next: map<nat, nat>)
    requires Partition(chunks, Sizes(files)) && k < |chunks| && Searched(s, chunks[k].file) && !Seamless(chunks, span, overlapping, k)
    requires Reach(chunks[k], span) < chunks[k].coreEnd
    ensures
      var h := Hit(chunks[k].file, Reach(chunks[k], span) + 1, Reach(chunks[k], span) + 1);
      h in Owed(files, s, chunks[k].file, Reach(chunks[k], span) + 1) && h !in Visited(chunks, s, span, overlapping, k + 1, next)
  {
    var c, e := chunks[k], Reach(chunks[k], span);
    Successor(chunks, Sizes(files), k);
    var h := Hit(c.file, e + 1, e + 1);
    EmptiesAt(c.file, e + 1, |files[c.file]| + 1, h);
    if h in Visited(chunks, s, span, overlapping, k + 1, next) {
      VisitedNotBefore(chunks, Sizes(files), s, span, overlapping, k + 1, next, h);
    }
  }

  lemma ListedAgain(files: seq<seq<Byte>>, chunks: seq<Chunk>, s: Scope, span: Option<nat>, overlapping: bool, k: nat, next: map<nat, nat>)
    requires Partition(chunks, Sizes(files)) && k < |chunks| && Searched(s, chunks[k].file) && !Seamless(chunks, span, overlapping, k)
    requires Reach(chunks[k], span) == chunks[k].coreEnd
    ensures
      var h := Hit(chunks[k].file, chunks[k].coreEnd, chunks[k].coreEnd);
      h in Visited(chunks, s, span, overlapping, k + 1, next) && h !in Owed(files, s, chunks[k].file, chunks[k].coreEnd + 1)
  {
    var c, after := chunks[k], chunks[k + 1];
    var h := Hit(c.file, c.coreEnd, c.coreEnd);
    Successor(chunks, Sizes(files), k);
    Successor(chunks, Sizes(files), k + 1);
    EmptiesAt(c.file, FreePlace(next, after, overlapping), Reach(after, span) + 1, h);
    VisitedStep(chunks, s, span, overlapping, k + 1, next);
    if h in Owed(files, s, c.file, c.coreEnd + 1) { OwedBehind(files, s, c.file, c.coreEnd + 1, h); }
  }

  lemma OwedBehind(files: seq<seq<Byte>>, s: Scope, f: nat, p: nat, h: Hit)
    requires h in Owed(files, s, f, p)
    ensures NotBefore(h, f, p)
  {
    if h in EmptyNaive(files, s, f + 1) {
      NaiveNotBefore(files, s, f + 1, h);
    } else {
      EmptiesAt(f, p, |files[f]| + 1, h);
    }
  }

  /** An operator lists every place of every searched file exactly when the chunks of these
      files are seamless. */
  lemma EveryPlaceListed(x: Index, s: Scope, span: Option<nat>, overlapping: bool)
    requires Partition(x.chunks, Sizes(x.files))
    ensures Visited(x.chunks, s, span, overlapping, 0, map[]) == EmptyNaive(x.files, s, 0) <==> SeamlessFrom(x.chunks, s, span, overlapping, 0)
  {
    if x.files != [] {
      Successor(x.chunks, Sizes(x.files), 0);
      VisitedIff(x.files, x.chunks, s, span, overlapping, 0, map[]);
    }
  }

  /** Without `overlapping` the chunk operator does. */
  lemma ChunksSeamless(x: Index, s: Scope)
    requires Partition(x.chunks, Sizes(x.files))
    ensures Visited(x.chunks, s, None, false, 0, map[]) == EmptyNaive(x.files, s, 0)
  {
    EveryPlaceListed(x, s, None, false);
  }

  /** With `overlapping` it does exactly when no searched file has two chunks: where one
      ends and the next begins, the place is listed twice. */
  lemma ChunksOverlap(x: Index, s: Scope)
    requires Partition(x.chunks, Sizes(x.files))
    ensures Visited(x.chunks, s, None, true, 0, map[]) == EmptyNaive(x.files, s, 0)
       <==> forall k | 0 <= k < |x.chunks| && Searched(s, x.chunks[k].file) :: LastOf(x.chunks, k)
  {
    EveryPlaceListed(x, s, None, true);
    forall k | 0 <= k < |x.chunks| ensures Seamless(x.chunks, None, true, k) <==> LastOf(x.chunks, k) {}
  }

  /** The positional operator visits the first block of a chunk only. It leaves places out
      whenever the last chunk of a searched file is longer than a block. */
  lemma BlocksLost(x: Index, s: Scope, overlapping: bool, k: nat)
    requires Partition(x.chunks, Sizes(x.files)) && k < |x.chunks| && Searched(s, x.chunks[k].file) && LastOf(x.chunks, k)
    requires x.chunks[k].coreEnd > x.chunks[k].coreBegin + x.options.blockBytes
    ensures Visited(x.chunks, s, Some(x.options.blockBytes), overlapping, 0, map[]) != EmptyNaive(x.files, s, 0)
  {
    EveryPlaceListed(x, s, Some(x.options.blockBytes), overlapping);
    assert !Seamless(x.chunks, Some(x.options.blockBytes), overlapping, k);
  }
}
