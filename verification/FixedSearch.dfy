/** Fixed-string search: the whole-file, chunk and positional operators all return the
    hits of the naive scan, cut at the result bound. */
module FixedSearch {
  import opened Basics
  import opened IndexModel
  import opened IndexQuery
  import opened IndexPlan
  import opened Candidates
  import opened FixedScan

  // ----- what a search asks for -----

  /** Listed files only, and binary ones only when asked for. */
  datatype Scope = Scope(eligible: seq<nat>, includeBinary: bool, binary: seq<bool>)

  predicate Searched(s: Scope, file: nat) {
    AllowsFile(s.eligible, file) && (s.includeBinary || (file < |s.binary| && !s.binary[file]))
  }

  /** The naive search of the files from `file` on. */
  function Naive(files: seq<seq<Byte>>, s: Scope, q: seq<Byte>, step: nat, file: nat): seq<Hit>
    requires q != [] && step > 0
    decreases |files| - file
  {
    if file >= |files| then []
    else (if Searched(s, file) then HitsFrom(file, files[file], q, step, 0) else []) + Naive(files, s, q, step, file + 1)
  }

  /** What is left of the naive search from position `from` of `file` on. */
  function Rest(files: seq<seq<Byte>>, s: Scope, q: seq<Byte>, step: nat, file: nat, from: nat): seq<Hit>
    requires q != [] && step > 0
  {
    if file >= |files| then []
    else (if Searched(s, file) then HitsFrom(file, files[file], q, step, from) else []) + Naive(files, s, q, step, file + 1)
  }

  // ----- windows in order -----

  /** Candidate starts [begin, end) of a file. */
  datatype Window = Window(file: nat, begin: nat, end: nat)

  predicate AtOrBefore(file: nat, p: nat, file': nat, p': nat) {
    file < file' || (file == file' && p <= p')
  }

  ghost predicate InOrder(ws: seq<Window>) {
    && (forall k | 0 <= k < |ws| :: ws[k].begin <= ws[k].end)
    && forall a, b | 0 <= a < b < |ws| :: AtOrBefore(ws[a].file, ws[a].end, ws[b].file, ws[b].begin)
  }

  predicate InWindow(w: Window, file: nat, p: nat) {
    w.file == file && w.begin <= p < w.end
  }

  ghost predicate Seen(ws: seq<Window>, file: nat, p: nat) {
    exists k :: 0 <= k < |ws| && InWindow(ws[k], file, p)
  }

  /** Every occurrence in a searched file begins in some window. */
  ghost predicate AllSeen(files: seq<seq<Byte>>, s: Scope, q: seq<Byte>, ws: seq<Window>) {
    forall file: nat, p: nat | file < |files| && Searched(s, file) && OccursAt(files[file], q, p) :: Seen(ws, file, p)
  }

  function NextOf(next: map<nat, nat>, file: nat): nat {
    if file in next then next[file] else 0
  }

  /** The windows before `k` lie before position `cur` of file `cf`, the others after. */
  ghost predicate Frontier(s: Scope, ws: seq<Window>, k: nat, cf: nat, cur: nat, next: map<nat, nat>) {
    && k <= |ws|
    && (forall v | 0 <= v < k && Searched(s, ws[v].file) :: AtOrBefore(ws[v].file, ws[v].end, cf, cur))
    && (forall v | k <= v < |ws| :: AtOrBefore(cf, cur, ws[v].file, ws[v].begin))
    && forall f | f in next :: f <= cf
  }

  /** Nothing searched begins from (cf, cur) up to (file, p). */
  ghost predicate Gap(files: seq<seq<Byte>>, s: Scope, q: seq<Byte>, cf: nat, cur: nat, file: nat, p: nat) {
    forall f: nat, at: nat | f < |files| && Searched(s, f) && OccursAt(files[f], q, at) && AtOrBefore(cf, cur, f, at) ::
      AtOrBefore(file, p, f, at)
  }

  lemma WindowGap(files: seq<seq<Byte>>, s: Scope, q: seq<Byte>, ws: seq<Window>, k: nat, cf: nat, cur: nat, next: map<nat, nat>)
    requires InOrder(ws) && AllSeen(files, s, q, ws) && Frontier(s, ws, k, cf, cur, next)
    ensures Gap(files, s, q, cf, cur, if k < |ws| then ws[k].file else |files|, if k < |ws| then ws[k].begin else 0)
  {
    forall f: nat, at: nat | f < |files| && Searched(s, f) && OccursAt(files[f], q, at) && AtOrBefore(cf, cur, f, at)
      ensures k < |ws| && AtOrBefore(ws[k].file, ws[k].begin, f, at)
    {
      assert Seen(ws, f, at);
      var v :| 0 <= v < |ws| && InWindow(ws[v], f, at);
      if k < v { assert AtOrBefore(ws[k].file, ws[k].end, ws[v].file, ws[v].begin); }
    }
  }

  lemma {:induction false} NaiveGap(files: seq<seq<Byte>>, s: Scope, q: seq<Byte>, step: nat, cf: nat, file: nat, p: nat)
    requires q != [] && step > 0 && cf <= file <= |files| && Gap(files, s, q, cf, 0, file, p)
    ensures Naive(files, s, q, step, cf) == Rest(files, s, q, step, file, p)
    decreases file - cf
  {
    if cf < file {
      if Searched(s, cf) { ScanEnd(files[cf], q, step, 0); }
      NaiveGap(files, s, q, step, cf + 1, file, p);
    } else if file < |files| && Searched(s, file) {
      ScanSkip(files[file], q, step, 0, p);
    }
  }

  /** Moving the frontier over a gap leaves the same hits. */
  lemma RestGap(files: seq<seq<Byte>>, s: Scope, q: seq<Byte>, step: nat, cf: nat, cur: nat, file: nat, p: nat, n: nat)
    requires q != [] && step > 0 && AtOrBefore(cf, cur, file, p) && file <= |files| && Gap(files, s, q, cf, cur, file, p)
    ensures Rest(files, s, q, step, cf, Max(n, cur)) == Rest(files, s, q, step, file, if cf == file then Max(n, p) else p)
  {
    if cf == file {
      if file < |files| && Searched(s, file) {
        ScanSkip(files[file], q, step, Max(n, cur), Max(n, p));
      }
    } else {
      if Searched(s, cf) { ScanEnd(files[cf], q, step, Max(n, cur)); }
      NaiveGap(files, s, q, step, cf + 1, file, p);
    }
  }

  // ----- the state between windows -----

  /** `out` and what remains beyond the frontier make up `all`. */
  ghost predicate BetweenWindows(files: seq<seq<Byte>>, s: Scope, q: seq<Byte>, step: nat, all: seq<Hit>, limit: nat, out: seq<Hit>,
    ws: seq<Window>, k: nat, cf: nat, cur: nat, next: map<nat, nat>)
    requires q != [] && step > 0
  {
    && Frontier(s, ws, k, cf, cur, next)
    && all == out + Rest(files, s, q, step, cf, Max(NextOf(next, cf), cur))
    && Below(limit, out)
  }

  lemma Enter(files: seq<seq<Byte>>, s: Scope, q: seq<Byte>, step: nat, all: seq<Hit>, limit: nat, out: seq<Hit>,
    ws: seq<Window>, k: nat, cf: nat, cur: nat, next: map<nat, nat>)
    requires q != [] && step > 0 && BetweenWindows(files, s, q, step, all, limit, out, ws, k, cf, cur, next)
    requires InOrder(ws) && AllSeen(files, s, q, ws) && k < |ws| && ws[k].file < |files| && Searched(s, ws[k].file)
    ensures
      var w := ws[k];
      all == out + (HitsFrom(w.file, files[w.file], q, step, Max(NextOf(next, w.file), w.begin)) + Naive(files, s, q, step, w.file + 1))
  {
    WindowGap(files, s, q, ws, k, cf, cur, next);
    RestGap(files, s, q, step, cf, cur, ws[k].file, ws[k].begin, NextOf(next, cf));
  }

  /** All hits are out when every window was visited. */
  lemma Leave(files: seq<seq<Byte>>, s: Scope, q: seq<Byte>, step: nat, all: seq<Hit>, limit: nat, out: seq<Hit>,
    ws: seq<Window>, cf: nat, cur: nat, next: map<nat, nat>)
    requires q != [] && step > 0 && BetweenWindows(files, s, q, step, all, limit, out, ws, |ws|, cf, cur, next)
    requires InOrder(ws) && AllSeen(files, s, q, ws)
    ensures out == all == Cut(all, limit)
  {
    WindowGap(files, s, q, ws, |ws|, cf, cur, next);
    if cf < |files| {
      RestGap(files, s, q, step, cf, cur, |files|, 0, NextOf(next, cf));
    }
  }

  /** Skips a window of a file that is not searched. */
  lemma PassOver(files: seq<seq<Byte>>, s: Scope, q: seq<Byte>, step: nat, all: seq<Hit>, limit: nat, out: seq<Hit>,
    ws: seq<Window>, k: nat, cf: nat, cur: nat, next: map<nat, nat>)
    requires q != [] && step > 0 && BetweenWindows(files, s, q, step, all, limit, out, ws, k, cf, cur, next)
    requires k < |ws| && !Searched(s, ws[k].file)
    ensures BetweenWindows(files, s, q, step, all, limit, out, ws, k + 1, cf, cur, next)
  {}

  /** Verifies window `k` and moves the frontier behind it. */
  method Visit(files: seq<seq<Byte>>, s: Scope, q: seq<Byte>, anchor: nat, overlapping: bool, track: bool, ghost all: seq<Hit>, limit: nat,
    before: seq<Hit>, ghost ws: seq<Window>, ghost k: nat, ghost cf: nat, ghost cur: nat, before': map<nat, nat>,
    file: nat, base: nat, window: nat, end: nat)
    returns (out: seq<Hit>, next: map<nat, nat>, full: bool)
    requires q != [] && anchor < |q| && (overlapping ==> !track) && file < |files| && Searched(s, file)
    requires WindowReadable(files[file], q, base, window, end)
    requires InOrder(ws) && AllSeen(files, s, q, ws) && k < |ws| && ws[k] == Window(file, base, base + window)
    requires BetweenWindows(files, s, q, StepOf(overlapping, q), all, limit, before, ws, k, cf, cur, before')
    requires !track ==> before' == map[]
    requires !track && !overlapping ==> base + window == |files[file]|
    ensures full ==> CutAt(limit, out, all)
    ensures !full ==> BetweenWindows(files, s, q, StepOf(overlapping, q), all, limit, out, ws, k + 1, file, base + window, next)
    ensures !track ==> next == map[]
  {
    ghost var step := StepOf(overlapping, q);
    Enter(files, s, q, step, all, limit, before, ws, k, cf, cur, before');
    ghost var part := before + HitsFrom(file, files[file], q, step, Max(NextOf(before', file), base));
    assert all == part + Naive(files, s, q, step, file + 1);
    var n: nat;
    ghost var resume: nat;
    out, n, full, resume := ScanWindow(file, files[file], q, anchor, base, window, end, overlapping, track, NextOf(before', file), limit, before);
    if full {
      next := before';
      assert all[..|out|] == part[..|out|];
    } else {
      next := if track then before'[file := n] else before';
      Resume(files[file], q, step, base + window, resume, Max(NextOf(next, file), base + window), track || overlapping);
      Exit(files, s, q, step, all, part, out, file, Max(NextOf(next, file), base + window));
      FrontierMoves(s, ws, k, cf, cur, before', next);
    }
  }

  /** Where the remaining hits begin, or the end of the file when all of it was scanned. */
  lemma Resume(text: seq<Byte>, q: seq<Byte>, step: nat, end: nat, resume: nat, from: nat, exactly: bool)
    requires q != [] && step > 0 && end <= resume && end <= from
    requires if exactly then resume == from else end == |text|
    ensures Scan(text, q, step, resume) == Scan(text, q, step, from)
  {
    if !exactly {
      ScanEnd(text, q, step, resume);
      ScanEnd(text, q, step, from);
    }
  }

  lemma Exit(files: seq<seq<Byte>>, s: Scope, q: seq<Byte>, step: nat, all: seq<Hit>, part: seq<Hit>, out: seq<Hit>, file: nat, from: nat)
    requires q != [] && step > 0 && file < |files| && Searched(s, file)
    requires part == out + HitsFrom(file, files[file], q, step, from) && all == part + Naive(files, s, q, step, file + 1)
    ensures all == out + Rest(files, s, q, step, file, from)
  {}

  lemma FrontierMoves(s: Scope, ws: seq<Window>, k: nat, cf: nat, cur: nat, before: map<nat, nat>, next: map<nat, nat>)
    requires InOrder(ws) && Frontier(s, ws, k, cf, cur, before) && k < |ws|
    requires next.Keys <= before.Keys + {ws[k].file}
    ensures Frontier(s, ws, k + 1, ws[k].file, ws[k].end, next)
  {
    forall v | 0 <= v < k + 1 && Searched(s, ws[v].file) ensures AtOrBefore(ws[v].file, ws[v].end, ws[k].file, ws[k].end) {
      if v < k { assert AtOrBefore(ws[v].file, ws[v].end, ws[k].file, ws[k].begin); }
    }
    forall f | f in next ensures f <= ws[k].file {
      assert AtOrBefore(cf, cur, ws[k].file, ws[k].begin);
    }
  }

  // ----- an index over which searches are exact -----

  ghost predicate Exact(hash: Hash, x: Index, s: Scope) {
    Built(hash, x) && Searchable(x) && |s.binary| == |x.files|
  }

  lemma CoreReadable(hash: Hash, x: Index, s: Scope, q: seq<Byte>, c: Chunk)
    requires Exact(hash, x, s) && c in x.chunks && |q| <= x.options.chunkOverlap
    ensures ChunkSound(x.files, c) && WindowReadable(x.files[c.file], q, c.coreBegin, c.coreEnd - c.coreBegin, c.extEnd)
  {
    var k :| 0 <= k < |x.chunks| && x.chunks[k] == c;
    assert ChunkSound(x.files, x.chunks[k]);
    ReadTo(x, c);
  }

  /** The chunk that a searched occurrence begins in, a candidate. */
  lemma OccurrenceChunk(hash: Hash, x: Index, s: Scope, q: seq<Byte>, file: nat, p: nat) returns (ci: nat)
    requires Exact(hash, x, s) && q != [] && file < |x.files| && Searched(s, file) && OccursAt(x.files[file], q, p)
    ensures Candidate(hash, x, q, s.eligible, ci) && ChunkSound(x.files, x.chunks[ci]) && StartsIn(x, x.chunks[ci], q, p)
    ensures x.chunks[ci].file == file
  {
    ci := CoreOf(x.chunks, Sizes(x.files), file, p);
    assert ChunkSound(x.files, x.chunks[ci]);
    OccurrenceIsCandidate(hash, x, q, s.eligible, ci, p);
  }

  // ----- the whole-file operator -----

  predicate FilesOf(x: Index, cv: seq<nat>, n: nat, files: seq<nat>)
    requires n <= |cv| && Ids(x.chunks, cv)
  {
    && Increasing(files)
    && (forall k | 0 <= k < n :: x.chunks[cv[k]].file in files)
    && (forall f: nat :: f in files ==> exists k :: 0 <= k < n && x.chunks[cv[k]].file == f)
    && (files == [] <==> n == 0)
    && (n > 0 ==> Last(files) == x.chunks[cv[n - 1]].file)
  }

  /** The files of the candidates, in order and each once. */
  ghost predicate FilesFound(x: Index, cv: seq<nat>, files: seq<nat>)
    requires Ids(x.chunks, cv)
  {
    && Increasing(files)
    && forall f: nat :: f in files <==> exists k :: 0 <= k < |cv| && x.chunks[cv[k]].file == f
  }

  /** The distinct files of sorted chunk candidates: a file is added when it differs from
      the last one added. */
  method CandidateFiles(x: Index, cv: seq<nat>) returns (files: seq<nat>)
    requires Ids(x.chunks, cv) && Increasing(cv) && Chained(x.chunks, Sizes(x.files))
    ensures FilesFound(x, cv, files)
  {
    files := [];
    for k := 0 to |cv|
      invariant FilesOf(x, cv, k, files)
    {
      var f := x.chunks[cv[k]].file;
      if k > 0 { ChunksAscend(x.chunks, Sizes(x.files), cv[k - 1], cv[k]); }
      if files == [] || Last(files) != f {
        FilesSnoc(x, cv, k, files);
        files := files + [f];
      }
    }
  }

  lemma FilesSnoc(x: Index, cv: seq<nat>, k: nat, files: seq<nat>)
    requires k < |cv| && Ids(x.chunks, cv) && FilesOf(x, cv, k, files)
    requires k > 0 ==> Last(files) < x.chunks[cv[k]].file
    ensures FilesOf(x, cv, k + 1, files + [x.chunks[cv[k]].file])
  {
    var all := files + [x.chunks[cv[k]].file];
    assert forall i | 0 <= i < |files| :: files[i] <= Last(files);
    assert Last(all) in all;
  }

  function FileWindows(texts: seq<seq<Byte>>, files: seq<nat>): (ws: seq<Window>)
    requires forall k | 0 <= k < |files| :: files[k] < |texts|
    ensures |ws| == |files| && forall k | 0 <= k < |ws| :: ws[k] == Window(files[k], 0, |texts[files[k]]|)
  {
    seq(|files|, k requires 0 <= k < |files| => Window(files[k], 0, |texts[files[k]]|))
  }

  ghost predicate AreCandidates(hash: Hash, x: Index, s: Scope, q: seq<Byte>, cv: seq<nat>)
    requires Searchable(x)
  {
    Increasing(cv) && forall ci: nat :: ci in cv <==> Candidate(hash, x, q, s.eligible, ci)
  }

  lemma CandidateChunks(hash: Hash, x: Index, s: Scope, q: seq<Byte>, cv: seq<nat>)
    requires Exact(hash, x, s) && AreCandidates(hash, x, s, q, cv)
    ensures Ids(x.chunks, cv)
    ensures forall k | 0 <= k < |cv| :: ChunkSound(x.files, x.chunks[cv[k]]) && AllowsFile(s.eligible, x.chunks[cv[k]].file)
  {
    forall k | 0 <= k < |cv| ensures cv[k] < |x.chunks| && ChunkSound(x.files, x.chunks[cv[k]]) && AllowsFile(s.eligible, x.chunks[cv[k]].file) {
      assert cv[k] in cv;
    }
  }

  lemma FoundFiles(hash: Hash, x: Index, s: Scope, q: seq<Byte>, cv: seq<nat>, files: seq<nat>)
    requires Exact(hash, x, s) && AreCandidates(hash, x, s, q, cv) && Ids(x.chunks, cv) && FilesFound(x, cv, files)
    ensures forall k | 0 <= k < |files| :: files[k] < |x.files| && AllowsFile(s.eligible, files[k])
  {
    CandidateChunks(hash, x, s, q, cv);
    forall k | 0 <= k < |files| ensures files[k] < |x.files| && AllowsFile(s.eligible, files[k]) {
      assert files[k] in files;
    }
  }

  lemma FilesComplete(hash: Hash, x: Index, s: Scope, q: seq<Byte>, cv: seq<nat>, files: seq<nat>)
    requires Exact(hash, x, s) && q != [] && AreCandidates(hash, x, s, q, cv) && Ids(x.chunks, cv) && FilesFound(x, cv, files)
    requires forall k | 0 <= k < |files| :: files[k] < |x.files|
    ensures InOrder(FileWindows(x.files, files)) && AllSeen(x.files, s, q, FileWindows(x.files, files))
  {
    var ws := FileWindows(x.files, files);
    forall file: nat, p: nat | file < |x.files| && Searched(s, file) && OccursAt(x.files[file], q, p) ensures Seen(ws, file, p) {
      var ci := OccurrenceChunk(hash, x, s, q, file, p);
      assert ci in cv;
      assert file in files;
      var k :| 0 <= k < |files| && files[k] == file;
      assert InWindow(ws[k], file, p);
    }
  }

  method VisitFiles(texts: seq<seq<Byte>>, s: Scope, q: seq<Byte>, anchor: nat, overlapping: bool, limit: nat, files: seq<nat>) returns (out: seq<Hit>)
    requires q != [] && anchor < |q| && |s.binary| == |texts|
    requires forall k | 0 <= k < |files| :: files[k] < |texts| && AllowsFile(s.eligible, files[k])
    requires InOrder(FileWindows(texts, files)) && AllSeen(texts, s, q, FileWindows(texts, files))
    ensures out == Cut(Naive(texts, s, q, StepOf(overlapping, q), 0), limit)
  {
    ghost var all, ws := Naive(texts, s, q, StepOf(overlapping, q), 0), FileWindows(texts, files);
    out := [];
    ghost var cf: nat, cur: nat := 0, 0;
    for k := 0 to |files|
      invariant BetweenWindows(texts, s, q, StepOf(overlapping, q), all, limit, out, ws, k, cf, cur, map[])
    {
      var fid := files[k];
      if !s.includeBinary && s.binary[fid] {
        PassOver(texts, s, q, StepOf(overlapping, q), all, limit, out, ws, k, cf, cur, map[]);
      } else {
        var next, full;
        out, next, full := Visit(texts, s, q, anchor, overlapping, false, all, limit, out, ws, k, cf, cur, map[], fid, 0, |texts[fid]|, |texts[fid]|);
        if full {
          return;
        }
        cf, cur := fid, |texts[fid]|;
      }
    }
    Leave(texts, s, q, StepOf(overlapping, q), all, limit, out, ws, cf, cur, map[]);
  }

  method SearchFiles(hash: Hash, x: Index, s: Scope, q: seq<Byte>, anchor: nat, overlapping: bool, limit: nat) returns (out: seq<Hit>)
    requires Exact(hash, x, s) && q != [] && anchor < |q|
    ensures out == Cut(Naive(x.files, s, q, StepOf(overlapping, q), 0), limit)
  {
    var cv := ChunkCandidates(hash, x, q, s.eligible);
    CandidateChunks(hash, x, s, q, cv);
    var files := CandidateFiles(x, cv);
    FoundFiles(hash, x, s, q, cv, files);
    FilesComplete(hash, x, s, q, cv, files);
    out := VisitFiles(x.files, s, q, anchor, overlapping, limit, files);
  }

  // ----- the chunk operator -----

  function ChunkWindows(chunks: seq<Chunk>, cv: seq<nat>): (ws: seq<Window>)
    requires Ids(chunks, cv)
    ensures |ws| == |cv| && forall k | 0 <= k < |ws| :: ws[k] == Window(chunks[cv[k]].file, chunks[cv[k]].coreBegin, chunks[cv[k]].coreEnd)
  {
    seq(|cv|, k requires 0 <= k < |cv| => Window(chunks[cv[k]].file, chunks[cv[k]].coreBegin, chunks[cv[k]].coreEnd))
  }

  lemma ChunksComplete(hash: Hash, x: Index, s: Scope, q: seq<Byte>, cv: seq<nat>)
    requires Exact(hash, x, s) && q != [] && AreCandidates(hash, x, s, q, cv) && Ids(x.chunks, cv)
    ensures InOrder(ChunkWindows(x.chunks, cv)) && AllSeen(x.files, s, q, ChunkWindows(x.chunks, cv))
  {
    var ws := ChunkWindows(x.chunks, cv);
    CandidateChunks(hash, x, s, q, cv);
    forall a, b | 0 <= a < b < |ws| ensures AtOrBefore(ws[a].file, ws[a].end, ws[b].file, ws[b].begin) {
      ChunksAscend(x.chunks, Sizes(x.files), cv[a], cv[b]);
    }
    forall k | 0 <= k < |ws| ensures ws[k].begin <= ws[k].end {
      assert ChunkSound(x.files, x.chunks[cv[k]]);
    }
    forall file: nat, p: nat | file < |x.files| && Searched(s, file) && OccursAt(x.files[file], q, p) ensures Seen(ws, file, p) {
      var ci := OccurrenceChunk(hash, x, s, q, file, p);
      assert ci in cv;
      var k :| 0 <= k < |cv| && cv[k] == ci;
      assert InWindow(ws[k], file, p);
    }
  }

  /** A chunk whose own bytes are enough to verify the hits that begin in its core. */
  ghost predicate Verifiable(texts: seq<seq<Byte>>, s: Scope, q: seq<Byte>, c: Chunk) {
    && ChunkSound(texts, c) && AllowsFile(s.eligible, c.file)
    && WindowReadable(texts[c.file], q, c.coreBegin, c.coreEnd - c.coreBegin, c.extEnd)
  }

  method VisitChunks(texts: seq<seq<Byte>>, s: Scope, q: seq<Byte>, anchor: nat, overlapping: bool, limit: nat, chunks: seq<Chunk>, cv: seq<nat>)
    returns (out: seq<Hit>)
    requires q != [] && anchor < |q| && |s.binary| == |texts| && Ids(chunks, cv)
    requires forall k | 0 <= k < |cv| :: Verifiable(texts, s, q, chunks[cv[k]])
    requires InOrder(ChunkWindows(chunks, cv)) && AllSeen(texts, s, q, ChunkWindows(chunks, cv))
    ensures out == Cut(Naive(texts, s, q, StepOf(overlapping, q), 0), limit)
  {
    ghost var all, ws := Naive(texts, s, q, StepOf(overlapping, q), 0), ChunkWindows(chunks, cv);
    out := [];
    var next: map<nat, nat> := map[];
    ghost var cf: nat, cur: nat := 0, 0;
    for k := 0 to |cv|
      invariant BetweenWindows(texts, s, q, StepOf(overlapping, q), all, limit, out, ws, k, cf, cur, next)
      invariant overlapping ==> next == map[]
    {
      var z := chunks[cv[k]];
      assert Verifiable(texts, s, q, z);
      if !s.includeBinary && s.binary[z.file] {
        PassOver(texts, s, q, StepOf(overlapping, q), all, limit, out, ws, k, cf, cur, next);
      } else {
        var full;
        out, next, full := Visit(texts, s, q, anchor, overlapping, !overlapping, all, limit, out, ws, k, cf, cur, next,
          z.file, z.coreBegin, z.coreEnd - z.coreBegin, z.extEnd);
        if full {
          return;
        }
        cf, cur := z.file, z.coreEnd;
      }
    }
    Leave(texts, s, q, StepOf(overlapping, q), all, limit, out, ws, cf, cur, next);
  }

  lemma CandidatesVerifiable(hash: Hash, x: Index, s: Scope, q: seq<Byte>, cv: seq<nat>)
    requires Exact(hash, x, s) && AreCandidates(hash, x, s, q, cv) && Ids(x.chunks, cv) && |q| <= x.options.chunkOverlap
    ensures forall k | 0 <= k < |cv| :: Verifiable(x.files, s, q, x.chunks[cv[k]])
  {
    CandidateChunks(hash, x, s, q, cv);
    forall k | 0 <= k < |cv| ensures Verifiable(x.files, s, q, x.chunks[cv[k]]) {
      CoreReadable(hash, x, s, q, x.chunks[cv[k]]);
    }
  }

  method SearchChunks(hash: Hash, x: Index, s: Scope, q: seq<Byte>, anchor: nat, overlapping: bool, limit: nat) returns (out: seq<Hit>)
    requires Exact(hash, x, s) && q != [] && anchor < |q| && |q| <= x.options.chunkOverlap
    ensures out == Cut(Naive(x.files, s, q, StepOf(overlapping, q), 0), limit)
  {
    var cv := ChunkCandidates(hash, x, q, s.eligible);
    CandidateChunks(hash, x, s, q, cv);
    CandidatesVerifiable(hash, x, s, q, cv);
    ChunksComplete(hash, x, s, q, cv);
    out := VisitChunks(x.files, s, q, anchor, overlapping, limit, x.chunks, cv);
  }

  // ----- the positional operator -----

  ghost predicate BlockCandidate(hash: Hash, x: Index, q: seq<Byte>, eligible: seq<nat>, ci: nat, bi: nat)
    requires Searchable(x)
  {
    && Candidate(hash, x, q, eligible, ci)
    && BlockKept(x, Planned(hash, x, q), ci, bi)
  }

  ghost predicate BlockKept(x: Index, selected: seq<U32>, ci: nat, bi: nat)
    requires x.options.blockBytes > 0 && Tiled(x.posDesc, x.chunks, x.options.blockBytes, |x.pos|) && ci < |x.chunks|
  {
    TileInside(x.posDesc, x.chunks, x.options.blockBytes, |x.pos|, ci);
    bi < x.posDesc[ci].blocks && BlockLit(x.pos, x.posDesc[ci], selected, bi)
  }

  predicate PairsOrdered(blocks: seq<(nat, nat)>) {
    forall a, b | 0 <= a < b < |blocks| :: blocks[a].0 < blocks[b].0 || (blocks[a].0 == blocks[b].0 && blocks[a].1 < blocks[b].1)
  }

  /** The first block of every chunk in scope. */
  method FirstBlocks(x: Index, eligible: seq<nat>) returns (out: seq<(nat, nat)>)
    ensures PairsOrdered(out)
    ensures forall ci: nat, bi: nat :: (ci, bi) in out <==> ci < |x.chunks| && AllowsFile(eligible, x.chunks[ci].file) && bi == 0
  {
    out := [];
    for ci := 0 to |x.chunks|
      invariant PairsOrdered(out) && forall k | 0 <= k < |out| :: out[k].0 < ci
      invariant forall i: nat, bi: nat :: (i, bi) in out <==> i < ci && AllowsFile(eligible, x.chunks[i].file) && bi == 0
    {
      if AllowsFile(eligible, x.chunks[ci].file) {
        out := out + [(ci, 0)];
      }
    }
  }

  /** The blocks of the listed chunks that have every row of `hs`. */
  method KeepBlocks(x: Index, hs: seq<U32>, cv: seq<nat>) returns (out: seq<(nat, nat)>)
    requires x.options.blockBytes > 0 && Tiled(x.posDesc, x.chunks, x.options.blockBytes, |x.pos|) && Increasing(cv) && Ids(x.chunks, cv)
    ensures PairsOrdered(out)
    ensures forall ci: nat, bi: nat :: (ci, bi) in out <==> ci in cv && BlockKept(x, hs, ci, bi)
  {
    out := [];
    for k := 0 to |cv|
      invariant KeptUpTo(x, hs, cv, k, out)
    {
      var d := x.posDesc[cv[k]];
      TileInside(x.posDesc, x.chunks, x.options.blockBytes, |x.pos|, cv[k]);
      if d.blocks != 0 && d.maskBytes != 0 {
        var blocks := ChunkBlocks(x.pos, d, hs);
        KeptAppend(x, hs, cv, k, out, blocks);
        out := out + Pairs(cv[k], blocks);
      }
    }
    assert cv[..|cv|] == cv;
  }

  ghost predicate KeptUpTo(x: Index, hs: seq<U32>, cv: seq<nat>, k: nat, out: seq<(nat, nat)>)
    requires x.options.blockBytes > 0 && Tiled(x.posDesc, x.chunks, x.options.blockBytes, |x.pos|) && Ids(x.chunks, cv) && k <= |cv|
  {
    && PairsOrdered(out)
    && (forall i | 0 <= i < |out| :: out[i].0 in cv[..k])
    && forall ci: nat, bi: nat :: (ci, bi) in out <==> ci in cv[..k] && BlockKept(x, hs, ci, bi)
  }

  lemma KeptAppend(x: Index, hs: seq<U32>, cv: seq<nat>, k: nat, out: seq<(nat, nat)>, blocks: seq<nat>)
    requires x.options.blockBytes > 0 && Tiled(x.posDesc, x.chunks, x.options.blockBytes, |x.pos|) && Ids(x.chunks, cv) && k < |cv|
    requires Increasing(cv) && KeptUpTo(x, hs, cv, k, out)
    requires Increasing(blocks) && forall bi: nat :: bi in blocks <==> BlockKept(x, hs, cv[k], bi)
    ensures KeptUpTo(x, hs, cv, k + 1, out + Pairs(cv[k], blocks))
  {
    var all := out + Pairs(cv[k], blocks);
    assert cv[..k + 1] == cv[..k] + [cv[k]];
    PairsAppend(out, cv[..k], cv[k], blocks);
    forall ci: nat, bi: nat ensures (ci, bi) in all <==> ci in cv[..k + 1] && BlockKept(x, hs, ci, bi) {
      assert (ci, bi) in all <==> (ci, bi) in out || (ci, bi) in Pairs(cv[k], blocks);
    }
  }

  /** The blocks of the candidate chunks that have every probed row. The empty literal
      gets the first block of every chunk in scope. */
  method CandidateBlocks(hash: Hash, x: Index, q: seq<Byte>, eligible: seq<nat>) returns (out: seq<(nat, nat)>)
    requires Searchable(x)
    ensures PairsOrdered(out)
    ensures q != [] ==> forall ci: nat, bi: nat :: (ci, bi) in out <==> BlockCandidate(hash, x, q, eligible, ci, bi)
    ensures q == [] ==> forall ci: nat, bi: nat :: (ci, bi) in out <==> ci < |x.chunks| && AllowsFile(eligible, x.chunks[ci].file) && bi == 0
  {
    if q == [] {
      out := FirstBlocks(x, eligible);
      return;
    }
    var cv := ChunkCandidates(hash, x, q, eligible);
    var hs := PlannedHashes(hash, x, q);
    forall k | 0 <= k < |cv| ensures cv[k] < |x.chunks| {
      assert cv[k] in cv;
    }
    out := KeepBlocks(x, hs, cv);
  }

  function Pairs(ci: nat, blocks: seq<nat>): (r: seq<(nat, nat)>)
    ensures |r| == |blocks| && forall k | 0 <= k < |r| :: r[k] == (ci, blocks[k])
    ensures forall i: nat, bi: nat :: (i, bi) in r <==> i == ci && bi in blocks
  {
    var r := seq(|blocks|, k requires 0 <= k < |blocks| => (ci, blocks[k]));
    assert forall k | 0 <= k < |blocks| :: r[k] in r;
    r
  }

  lemma PairsAppend(out: seq<(nat, nat)>, seen: seq<nat>, ci: nat, blocks: seq<nat>)
    requires PairsOrdered(out) && Increasing(blocks) && (forall i | 0 <= i < |out| :: out[i].0 in seen) && forall i | i in seen :: i < ci
    ensures PairsOrdered(out + Pairs(ci, blocks))
  {}

  /** The part of the core that block `bi` covers. */
  function BlockWindow(c: Chunk, blockBytes: nat, bi: nat): (w: Window)
    requires c.coreBegin <= c.coreEnd
    ensures c.coreBegin <= w.begin <= w.end <= c.coreEnd
  {
    var begin := Min(BlockBegin(c, blockBytes, bi), c.coreEnd);
    Window(c.file, begin, Min(begin + blockBytes, c.coreEnd))
  }

  predicate BlocksOf(chunks: seq<Chunk>, blocks: seq<(nat, nat)>) {
    forall k | 0 <= k < |blocks| :: blocks[k].0 < |chunks| && chunks[blocks[k].0].coreBegin <= chunks[blocks[k].0].coreEnd
  }

  function BlockWindows(chunks: seq<Chunk>, blockBytes: nat, blocks: seq<(nat, nat)>): (ws: seq<Window>)
    requires BlocksOf(chunks, blocks)
    ensures |ws| == |blocks| && forall k | 0 <= k < |ws| :: ws[k] == BlockWindow(chunks[blocks[k].0], blockBytes, blocks[k].1)
  {
    seq(|blocks|, k requires 0 <= k < |blocks| => BlockWindow(chunks[blocks[k].0], blockBytes, blocks[k].1))
  }

  lemma TableGrows(stride: nat, a: nat, b: nat)
    requires a < b
    ensures Table(stride, a) + stride <= Table(stride, b)
  {
    RowFits(a, b, stride);
  }

  lemma BlocksInOrder(chunks: seq<Chunk>, sizes: seq<nat>, blockBytes: nat, blocks: seq<(nat, nat)>)
    requires Chained(chunks, sizes) && BlocksOf(chunks, blocks) && PairsOrdered(blocks)
    ensures InOrder(BlockWindows(chunks, blockBytes, blocks))
  {
    var ws := BlockWindows(chunks, blockBytes, blocks);
    forall a, b | 0 <= a < b < |ws| ensures AtOrBefore(ws[a].file, ws[a].end, ws[b].file, ws[b].begin) {
      if blocks[a].0 == blocks[b].0 {
        TableGrows(blockBytes, blocks[a].1, blocks[b].1);
      } else {
        ChunksAscend(chunks, sizes, blocks[a].0, blocks[b].0);
      }
    }
  }

  /** Every searched occurrence begins in a candidate block. */
  lemma BlocksComplete(hash: Hash, x: Index, s: Scope, q: seq<Byte>, blocks: seq<(nat, nat)>)
    requires Exact(hash, x, s) && q != [] && |q| <= x.options.chunkOverlap && |q| <= PADDING && BlocksOf(x.chunks, blocks)
    requires forall ci: nat, bi: nat :: (ci, bi) in blocks <==> BlockCandidate(hash, x, q, s.eligible, ci, bi)
    ensures AllSeen(x.files, s, q, BlockWindows(x.chunks, x.options.blockBytes, blocks))
  {
    var ws := BlockWindows(x.chunks, x.options.blockBytes, blocks);
    forall file: nat, p: nat | file < |x.files| && Searched(s, file) && OccursAt(x.files[file], q, p) ensures Seen(ws, file, p) {
      var ci := OccurrenceChunk(hash, x, s, q, file, p);
      var bi := OccurrenceBlock(hash, x, q, ci, p);
      assert (ci, bi) in blocks;
      var k :| 0 <= k < |blocks| && blocks[k] == (ci, bi);
      assert InWindow(ws[k], file, p);
    }
  }

  /** No false negatives in the positional layer: the block that holds the start of an
      occurrence has every one of any choice of the literal's rows. */
  lemma AnyRowsKeepBlock(hash: Hash, x: Index, q: seq<Byte>, selected: seq<U32>, ci: nat, p: nat) returns (bi: nat)
    requires Built(hash, x) && Searchable(x) && |q| <= x.options.chunkOverlap && |q| <= PADDING
    requires ci < |x.chunks| && ChunkSound(x.files, x.chunks[ci]) && StartsIn(x, x.chunks[ci], q, p)
    requires forall h | h in selected :: HashOf(hash, q, h)
    ensures BlockKept(x, selected, ci, bi)
    ensures InWindow(BlockWindow(x.chunks[ci], x.options.blockBytes, bi), x.chunks[ci].file, p)
  {
    bi := RowsOfBlock(hash, x, q, x.chunks[ci], p, x.posDesc[ci].m, selected);
    KeptByRows(hash, x, selected, ci, bi);
  }

  /** So it has every probed row. */
  lemma OccurrenceBlock(hash: Hash, x: Index, q: seq<Byte>, ci: nat, p: nat) returns (bi: nat)
    requires Built(hash, x) && Searchable(x) && |q| <= x.options.chunkOverlap && |q| <= PADDING
    requires ci < |x.chunks| && ChunkSound(x.files, x.chunks[ci]) && StartsIn(x, x.chunks[ci], q, p)
    ensures BlockKept(x, Planned(hash, x, q), ci, bi)
    ensures InWindow(BlockWindow(x.chunks[ci], x.options.blockBytes, bi), x.chunks[ci].file, p)
  {
    PlannedRows(hash, x, q);
    bi := AnyRowsKeepBlock(hash, x, q, Planned(hash, x, q), ci, p);
  }

  ghost predicate RowsSet(hash: Hash, x: Index, c: Chunk, bi: nat, m: nat, selected: seq<U32>)
    requires ChunkSound(x.files, c) && m > 0 && x.options.blockBytes > 0
  {
    && bi < BlocksFor(c.coreEnd - c.coreBegin, x.options.blockBytes)
    && forall h | h in selected :: BlockRow(hash, x.files, c, x.options.blockBytes, bi, m, h % m)
  }

  lemma RowsOfBlock(hash: Hash, x: Index, q: seq<Byte>, c: Chunk, p: nat, m: nat, selected: seq<U32>) returns (bi: nat)
    requires Laid(x) && ChunkSound(x.files, c) && StartsIn(x, c, q, p) && |q| <= x.options.chunkOverlap && |q| <= PADDING && m > 0
    requires forall h | h in selected :: HashOf(hash, q, h)
    ensures RowsSet(hash, x, c, bi, m, selected)
    ensures InWindow(BlockWindow(c, x.options.blockBytes, bi), c.file, p)
  {
    bi := BlockOf(p - c.coreBegin, x.options.blockBytes);
    BlockSpan(c, x.options.blockBytes, p);
    forall h | h in selected ensures BlockRow(hash, x.files, c, x.options.blockBytes, bi, m, h % m) {
      BlockKeeps(hash, x, q, c, p, m, h);
    }
  }

  lemma KeptByRows(hash: Hash, x: Index, selected: seq<U32>, ci: nat, bi: nat)
    requires Laid(x) && ChunksSound(x.files, x.chunks) && PosBuilt(hash, x) && ci < |x.chunks|
    requires RowsSet(hash, x, x.chunks[ci], bi, x.posDesc[ci].m, selected)
    ensures BlockKept(x, selected, ci, bi)
  {
    PosFacts(hash, x, ci);
    BlockRowsLit(hash, x, x.chunks[ci], x.posDesc[ci], selected, bi);
  }

  lemma PosFacts(hash: Hash, x: Index, ci: nat)
    requires Laid(x) && ChunksSound(x.files, x.chunks) && PosBuilt(hash, x) && ci < |x.chunks|
    ensures
      var c, d := x.chunks[ci], x.posDesc[ci];
      && ChunkSound(x.files, c) && DescInside(d, |x.pos|) && DescFits(d, c, x.options.blockBytes)
      && PosExact(hash, x.files, c, x.options.blockBytes, x.pos, d)
  {
    TileInside(x.posDesc, x.chunks, x.options.blockBytes, |x.pos|, ci);
  }

  lemma BlockRowsLit(hash: Hash, x: Index, c: Chunk, d: PosDesc, selected: seq<U32>, bi: nat)
    requires ChunkSound(x.files, c) && d.m > 0 && x.options.blockBytes > 0 && DescInside(d, |x.pos|) && bi < d.blocks && bi / 8 < d.maskBytes
    requires PosExact(hash, x.files, c, x.options.blockBytes, x.pos, d) && RowsSet(hash, x, c, bi, d.m, selected)
    ensures BlockLit(x.pos, d, selected, bi)
  {
    forall h | h in selected ensures PosLit(x.pos, d, h % d.m, bi) {
      assert BlockRow(hash, x.files, c, x.options.blockBytes, bi, d.m, h % d.m);
    }
  }

  /** Skips a window without candidate starts. */
  lemma EmptyWindow(files: seq<seq<Byte>>, s: Scope, q: seq<Byte>, step: nat, all: seq<Hit>, limit: nat, out: seq<Hit>,
    ws: seq<Window>, k: nat, cf: nat, cur: nat, next: map<nat, nat>)
    requires q != [] && step > 0 && BetweenWindows(files, s, q, step, all, limit, out, ws, k, cf, cur, next)
    requires InOrder(ws) && AllSeen(files, s, q, ws) && k < |ws| && ws[k].file < |files| && Searched(s, ws[k].file) && ws[k].begin == ws[k].end
    ensures BetweenWindows(files, s, q, step, all, limit, out, ws, k + 1, ws[k].file, ws[k].end, next)
  {
    Enter(files, s, q, step, all, limit, out, ws, k, cf, cur, next);
    FrontierMoves(s, ws, k, cf, cur, next, next);
    assert all == out + Rest(files, s, q, step, ws[k].file, Max(NextOf(next, ws[k].file), ws[k].end));
  }

  /** The bytes a block is verified on: its own, and the padding after them. */
  ghost predicate BlockVerifiable(texts: seq<seq<Byte>>, s: Scope, q: seq<Byte>, c: Chunk, blockBytes: nat, bi: nat) {
    && ChunkSound(texts, c) && AllowsFile(s.eligible, c.file)
    && (Table(blockBytes, bi) < c.coreEnd - c.coreBegin ==>
          var base := BlockBegin(c, blockBytes, bi);
          WindowReadable(texts[c.file], q, base, BlockWindow(c, blockBytes, bi).end - base, BlockEnd(c, blockBytes, bi)))
  }

  lemma BlockReadable(hash: Hash, x: Index, s: Scope, q: seq<Byte>, c: Chunk, bi: nat)
    requires Exact(hash, x, s) && c in x.chunks && |q| <= x.options.chunkOverlap && |q| <= PADDING && AllowsFile(s.eligible, c.file)
    ensures BlockVerifiable(x.files, s, q, c, x.options.blockBytes, bi)
  {
    var k :| 0 <= k < |x.chunks| && x.chunks[k] == c;
    assert ChunkSound(x.files, x.chunks[k]);
    ReadTo(x, c);
  }

  /** Where a block's candidate starts lie, and the bytes they are verified on. */
  lemma BlockPlace(texts: seq<seq<Byte>>, s: Scope, q: seq<Byte>, z: Chunk, blockBytes: nat, bi: nat)
    requires BlockVerifiable(texts, s, q, z, blockBytes, bi)
    ensures
      var rb, w := Table(blockBytes, bi), BlockWindow(z, blockBytes, bi);
      if rb >= z.coreEnd - z.coreBegin then w.begin == w.end
      else
        var core, re := Min(blockBytes, z.coreEnd - z.coreBegin - rb), Min(z.extEnd - z.coreBegin, rb + blockBytes + PADDING);
        && w == Window(z.file, z.coreBegin + rb, z.coreBegin + rb + core)
        && WindowReadable(texts[z.file], q, z.coreBegin + rb, core, z.coreBegin + re)
  {}

  /** Verifies one block and moves the frontier behind it. */
  method VisitBlock(texts: seq<seq<Byte>>, s: Scope, q: seq<Byte>, anchor: nat, overlapping: bool, ghost all: seq<Hit>, limit: nat,
    before: seq<Hit>, ghost ws: seq<Window>, ghost k: nat, ghost cf: nat, ghost cur: nat, before': map<nat, nat>,
    z: Chunk, blockBytes: nat, bi: nat)
    returns (out: seq<Hit>, next: map<nat, nat>, full: bool)
    requires q != [] && anchor < |q| && Searched(s, z.file) && BlockVerifiable(texts, s, q, z, blockBytes, bi)
    requires InOrder(ws) && AllSeen(texts, s, q, ws) && k < |ws| && ws[k] == BlockWindow(z, blockBytes, bi)
    requires BetweenWindows(texts, s, q, StepOf(overlapping, q), all, limit, before, ws, k, cf, cur, before')
    requires overlapping ==> before' == map[]
    ensures full ==> CutAt(limit, out, all)
    ensures !full ==> BetweenWindows(texts, s, q, StepOf(overlapping, q), all, limit, out, ws, k + 1, ws[k].file, ws[k].end, next)
    ensures overlapping ==> next == map[]
  {
    TableIs(blockBytes, bi);
    BlockPlace(texts, s, q, z, blockBytes, bi);
    var rb := bi * blockBytes;
    if rb >= z.coreEnd - z.coreBegin {
      EmptyWindow(texts, s, q, StepOf(overlapping, q), all, limit, before, ws, k, cf, cur, before');
      out, next, full := before, before', false;
    } else {
      var core := Min(blockBytes, z.coreEnd - z.coreBegin - rb);
      var re := Min(z.extEnd - z.coreBegin, rb + blockBytes + PADDING);
      out, next, full := Visit(texts, s, q, anchor, overlapping, !overlapping, all, limit, before, ws, k, cf, cur, before',
        z.file, z.coreBegin + rb, core, z.coreBegin + re);
    }
  }

  method VisitBlocks(texts: seq<seq<Byte>>, s: Scope, q: seq<Byte>, anchor: nat, overlapping: bool, limit: nat, chunks: seq<Chunk>, blockBytes: nat,
    blocks: seq<(nat, nat)>) returns (out: seq<Hit>)
    requires q != [] && anchor < |q| && |s.binary| == |texts| && BlocksOf(chunks, blocks)
    requires forall k | 0 <= k < |blocks| :: BlockVerifiable(texts, s, q, chunks[blocks[k].0], blockBytes, blocks[k].1)
    requires InOrder(BlockWindows(chunks, blockBytes, blocks)) && AllSeen(texts, s, q, BlockWindows(chunks, blockBytes, blocks))
    ensures out == Cut(Naive(texts, s, q, StepOf(overlapping, q), 0), limit)
  {
    ghost var all, ws := Naive(texts, s, q, StepOf(overlapping, q), 0), BlockWindows(chunks, blockBytes, blocks);
    out := [];
    var next: map<nat, nat> := map[];
    ghost var cf: nat, cur: nat := 0, 0;
    for k := 0 to |blocks|
      invariant BetweenWindows(texts, s, q, StepOf(overlapping, q), all, limit, out, ws, k, cf, cur, next)
      invariant overlapping ==> next == map[]
    {
      var z, bi := chunks[blocks[k].0], blocks[k].1;
      assert BlockVerifiable(texts, s, q, z, blockBytes, bi);
      if !s.includeBinary && s.binary[z.file] {
        PassOver(texts, s, q, StepOf(overlapping, q), all, limit, out, ws, k, cf, cur, next);
      } else {
        var full;
        out, next, full := VisitBlock(texts, s, q, anchor, overlapping, all, limit, out, ws, k, cf, cur, next, z, blockBytes, bi);
        if full {
          return;
        }
        cf, cur := ws[k].file, ws[k].end;
      }
    }
    Leave(texts, s, q, StepOf(overlapping, q), all, limit, out, ws, cf, cur, next);
  }

  lemma CandidateBlocksReady(hash: Hash, x: Index, s: Scope, q: seq<Byte>, blocks: seq<(nat, nat)>)
    requires Exact(hash, x, s) && |q| <= x.options.chunkOverlap && |q| <= PADDING
    requires forall ci: nat, bi: nat :: (ci, bi) in blocks <==> BlockCandidate(hash, x, q, s.eligible, ci, bi)
    ensures BlocksOf(x.chunks, blocks)
    ensures forall k | 0 <= k < |blocks| :: BlockVerifiable(x.files, s, q, x.chunks[blocks[k].0], x.options.blockBytes, blocks[k].1)
  {
    forall k | 0 <= k < |blocks|
      ensures blocks[k].0 < |x.chunks| && x.chunks[blocks[k].0].coreBegin <= x.chunks[blocks[k].0].coreEnd
      ensures BlockVerifiable(x.files, s, q, x.chunks[blocks[k].0], x.options.blockBytes, blocks[k].1)
    {
      var ci, bi := blocks[k].0, blocks[k].1;
      assert (ci, bi) in blocks;
      assert ChunkSound(x.files, x.chunks[ci]);
      BlockReadable(hash, x, s, q, x.chunks[ci], bi);
    }
  }

  method SearchBlocks(hash: Hash, x: Index, s: Scope, q: seq<Byte>, anchor: nat, overlapping: bool, limit: nat) returns (out: seq<Hit>)
    requires Exact(hash, x, s) && q != [] && anchor < |q| && |q| <= x.options.chunkOverlap && |q| <= PADDING
    ensures out == Cut(Naive(x.files, s, q, StepOf(overlapping, q), 0), limit)
  {
    var blocks := CandidateBlocks(hash, x, q, s.eligible);
    CandidateBlocksReady(hash, x, s, q, blocks);
    BlocksInOrder(x.chunks, Sizes(x.files), x.options.blockBytes, blocks);
    BlocksComplete(hash, x, s, q, blocks);
    out := VisitBlocks(x.files, s, q, anchor, overlapping, limit, x.chunks, x.options.blockBytes, blocks);
  }
}
