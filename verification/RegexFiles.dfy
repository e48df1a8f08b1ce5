/** File-level pruning of a regex search: the list built from chunk candidates holds
    every file in which the pattern matches anywhere. */
module RegexFiles {
  import opened Basics
  import opened RegexAst
  import opened QueryIr
  import opened RegionPlan
  import opened IndexModel
  import opened IndexQuery
  import opened IndexPlan
  import opened Candidates
  import FixedSearch

  /** One verification of file `f`: the whole file is the source. */
  ghost predicate OfFile(x: Index, f: nat, c: Context) {
    f < |x.files| && c.Valid() && c.source == x.files[f] && c.sourceBegin == 0
  }

  ghost predicate HasFile(x: Index, cv: seq<nat>, f: nat)
    requires Ids(x.chunks, cv)
  {
    exists k :: 0 <= k < |cv| && x.chunks[cv[k]].file == f
  }

  /** The candidates of a literal that stands in a file bring in the file. */
  lemma LiteralKeepsFile(hash: Hash, x: Index, q: seq<Byte>, eligible: seq<nat>, cv: seq<nat>, f: nat, p: nat)
    requires Built(hash, x) && Searchable(x) && Ids(x.chunks, cv)
    requires forall ci: nat :: Candidate(hash, x, q, eligible, ci) ==> ci in cv
    requires q != [] && f < |x.files| && AllowsFile(eligible, f) && OccursAt(x.files[f], q, p)
    ensures HasFile(x, cv, f)
  {
    var ci := CoreOf(x.chunks, Sizes(x.files), f, p);
    assert IndexModel.ChunkSound(x.files, x.chunks[ci]);
    OccurrenceIsCandidate(hash, x, q, eligible, ci, p);
    var k :| 0 <= k < |cv| && cv[k] == ci;
  }

  /** Every file has a chunk. */
  lemma AllFilesChunked(x: Index, eligible: seq<nat>, cv: seq<nat>, f: nat)
    requires Partition(x.chunks, Sizes(x.files)) && Ids(x.chunks, cv) && f < |x.files| && AllowsFile(eligible, f)
    requires forall ci: nat :: ci < |x.chunks| && AllowsFile(eligible, x.chunks[ci].file) ==> ci in cv
    ensures HasFile(x, cv, f)
  {
    assert Last(x.chunks) == x.chunks[|x.chunks| - 1];
    var at := FilesReach(x.chunks, Sizes(x.files), |x.chunks| - 1, f);
    assert at in cv;
    var k :| 0 <= k < |cv| && cv[k] == at;
  }

  /** A literal inside the match stands in the file. */
  lemma SpanInFile(x: Index, f: nat, c: Context, q: seq<Byte>, i: int, j: int) returns (p: nat)
    requires OfFile(x, f, c) && q != [] && InSpan(c, q, i, j)
    ensures OccursAt(x.files[f], q, p)
  {
    var at :| i <= at && at + |q| <= j && LiteralAt(c, q, false, at);
    LiteralOccurs(c, q, at);
    p := at;
  }

  /** A file with a match is kept by the candidates of any literal the match holds, and
      by those of the empty literal. */
  lemma MatchKeepsFile(hash: Hash, x: Index, n: Node, q: seq<Byte>, eligible: seq<nat>, cv: seq<nat>, f: nat, c: Context, i: int, j: int)
    requires Built(hash, x) && Searchable(x) && Ids(x.chunks, cv)
    requires forall ci: nat :: Candidate(hash, x, q, eligible, ci) ==> ci in cv
    requires OfFile(x, f, c) && AllowsFile(eligible, f) && Matches(n, c, i, j) && (q == [] || q in Mandatory(n))
    ensures HasFile(x, cv, f)
  {
    if q == [] {
      AllFilesChunked(x, eligible, cv, f);
    } else {
      MandatoryNecessary(n, c, i, j, q);
      var p := SpanInFile(x, f, c, q, i, j);
      LiteralKeepsFile(hash, x, q, eligible, cv, f, p);
    }
  }

  /** The chunks any of the first `k` branches brings in. */
  ghost predicate OfBranch(hash: Hash, x: Index, lists: seq<seq<seq<Byte>>>, eligible: seq<nat>, k: nat, ci: nat)
    requires Searchable(x) && k <= |lists|
  {
    exists b :: 0 <= b < k && Longest(lists[b]) != [] && Candidate(hash, x, Longest(lists[b]), eligible, ci)
  }

  /** Every file in scope with a match has one of the chunks. */
  ghost predicate KeepsMatches(x: Index, n: Node, eligible: seq<nat>, cv: seq<nat>)
    requires Ids(x.chunks, cv)
  {
    forall f, c, i, j | OfFile(x, f, c) && AllowsFile(eligible, f) && Matches(n, c, i, j) :: HasFile(x, cv, f)
  }

  lemma OfBranchStep(hash: Hash, x: Index, lists: seq<seq<seq<Byte>>>, eligible: seq<nat>, k: nat)
    requires Searchable(x) && k < |lists|
    ensures forall ci: nat :: OfBranch(hash, x, lists, eligible, k + 1, ci) <==>
      (OfBranch(hash, x, lists, eligible, k, ci) || (Longest(lists[k]) != [] && Candidate(hash, x, Longest(lists[k]), eligible, ci)))
  {}

  /** Chunks of files in scope. */
  ghost predicate InScope(x: Index, eligible: seq<nat>, cv: seq<nat>) {
    forall k | 0 <= k < |cv| :: cv[k] < |x.chunks| && x.chunks[cv[k]].file < |x.files| && AllowsFile(eligible, x.chunks[cv[k]].file)
  }

  lemma ChunkOfFile(x: Index, ci: nat)
    requires Partition(x.chunks, Sizes(x.files)) && ci < |x.chunks|
    ensures x.chunks[ci].file < |x.files|
  {
    assert IndexModel.InFile(x.chunks[ci], Sizes(x.files));
  }

  method BranchCandidates(hash: Hash, x: Index, lists: seq<seq<seq<Byte>>>, eligible: seq<nat>) returns (cv: seq<nat>)
    requires Searchable(x)
    ensures Increasing(cv) && forall ci: nat :: ci in cv <==> OfBranch(hash, x, lists, eligible, |lists|, ci)
  {
    cv := [];
    for k := 0 to |lists|
      invariant forall ci: nat :: ci in cv <==> OfBranch(hash, x, lists, eligible, k, ci)
    {
      OfBranchStep(hash, x, lists, eligible, k);
      if Longest(lists[k]) != [] {
        var more := ChunkCandidates(hash, x, Longest(lists[k]), eligible);
        cv := cv + more;
      }
    }
    cv := Distinct(cv);
  }

  /** The chunk candidates of a pattern: those of each branch's longest literal, or
      those of the longest literal of the whole pattern. */
  method RegexCandidates(hash: Hash, x: Index, n: Node, insensitive: bool, eligible: seq<nat>) returns (literal: seq<Byte>, cv: seq<nat>)
    requires Built(hash, x) && Searchable(x) && WellFormed(n)
    ensures Increasing(cv) && Ids(x.chunks, cv) && InScope(x, eligible, cv) && KeepsMatches(x, n, eligible, cv)
    ensures literal == [] || literal in Mandatory(n)
  {
    literal := [];
    var lists := BranchMandatory(n);
    if !insensitive && lists != [] {
      cv := BranchCandidates(hash, x, lists, eligible);
      BranchIds(hash, x, lists, eligible, cv);
      AllBranchesKept(hash, x, n, eligible, cv);
    } else {
      if !insensitive {
        literal := Longest(DistinctMandatory(n));
      }
      cv := ChunkCandidates(hash, x, literal, eligible);
      LiteralKept(hash, x, n, literal, eligible, cv);
    }
  }

  lemma LiteralKept(hash: Hash, x: Index, n: Node, literal: seq<Byte>, eligible: seq<nat>, cv: seq<nat>)
    requires Built(hash, x) && Searchable(x) && (literal == [] || literal in Mandatory(n))
    requires forall ci: nat :: ci in cv <==> Candidate(hash, x, literal, eligible, ci)
    ensures Ids(x.chunks, cv) && InScope(x, eligible, cv) && KeepsMatches(x, n, eligible, cv)
  {
    forall k | 0 <= k < |cv| ensures cv[k] < |x.chunks| && x.chunks[cv[k]].file < |x.files| && AllowsFile(eligible, x.chunks[cv[k]].file) {
      assert cv[k] in cv;
      ChunkOfFile(x, cv[k]);
    }
    forall f, c, i, j | OfFile(x, f, c) && AllowsFile(eligible, f) && Matches(n, c, i, j) ensures HasFile(x, cv, f) {
      MatchKeepsFile(hash, x, n, literal, eligible, cv, f, c, i, j);
    }
  }

  lemma AllBranchesKept(hash: Hash, x: Index, n: Node, eligible: seq<nat>, cv: seq<nat>)
    requires Built(hash, x) && Searchable(x) && Ids(x.chunks, cv) && BranchMandatory(n) != []
    requires forall ci: nat :: OfBranch(hash, x, BranchMandatory(n), eligible, |BranchMandatory(n)|, ci) ==> ci in cv
    ensures KeepsMatches(x, n, eligible, cv)
  {
    forall f, c, i, j | OfFile(x, f, c) && AllowsFile(eligible, f) && Matches(n, c, i, j) ensures HasFile(x, cv, f) {
      BranchKeepsFile(hash, x, n, eligible, cv, f, c, i, j);
    }
  }

  lemma EveryChunkKept(x: Index, n: Node, eligible: seq<nat>, cv: seq<nat>)
    requires Searchable(x) && forall ci: nat :: ci in cv <==> ci < |x.chunks| && AllowsFile(eligible, x.chunks[ci].file)
    ensures Ids(x.chunks, cv) && InScope(x, eligible, cv) && KeepsMatches(x, n, eligible, cv)
  {
    forall k | 0 <= k < |cv| ensures cv[k] < |x.chunks| && x.chunks[cv[k]].file < |x.files| && AllowsFile(eligible, x.chunks[cv[k]].file) {
      assert cv[k] in cv;
      ChunkOfFile(x, cv[k]);
    }
    forall f, c, i, j | OfFile(x, f, c) && AllowsFile(eligible, f) && Matches(n, c, i, j) ensures HasFile(x, cv, f) {
      AllFilesChunked(x, eligible, cv, f);
    }
  }

  lemma BranchIds(hash: Hash, x: Index, lists: seq<seq<seq<Byte>>>, eligible: seq<nat>, cv: seq<nat>)
    requires Searchable(x) && forall ci: nat :: ci in cv ==> OfBranch(hash, x, lists, eligible, |lists|, ci)
    ensures Ids(x.chunks, cv) && InScope(x, eligible, cv)
  {
    forall k | 0 <= k < |cv| ensures cv[k] < |x.chunks| && x.chunks[cv[k]].file < |x.files| && AllowsFile(eligible, x.chunks[cv[k]].file) {
      assert cv[k] in cv;
      ChunkOfFile(x, cv[k]);
    }
  }

  lemma BranchKeepsFile(hash: Hash, x: Index, n: Node, eligible: seq<nat>, cv: seq<nat>, f: nat, c: Context, i: int, j: int)
    requires Built(hash, x) && Searchable(x) && Ids(x.chunks, cv) && BranchMandatory(n) != []
    requires forall ci: nat :: OfBranch(hash, x, BranchMandatory(n), eligible, |BranchMandatory(n)|, ci) ==> ci in cv
    requires OfFile(x, f, c) && AllowsFile(eligible, f) && Matches(n, c, i, j)
    ensures HasFile(x, cv, f)
  {
    var lists := BranchMandatory(n);
    var k := BranchNecessary(n, c, i, j);
    var q := Longest(lists[k]);
    assert lists[k][0] in lists[k];
    assert q in lists[k];
    var p := SpanInFile(x, f, c, q, i, j);
    assert forall ci: nat :: Candidate(hash, x, q, eligible, ci) ==> OfBranch(hash, x, lists, eligible, |lists|, ci);
    LiteralKeepsFile(hash, x, q, eligible, cv, f, p);
  }

  /** The files the verifier visits. When a region plan was asked for and turned down,
      every chunk in scope is a candidate again. */
  method FilesToVerify(hash: Hash, x: Index, n: Node, insensitive: bool, eligible: seq<nat>, rejectedPlan: bool)
    returns (literal: seq<Byte>, files: seq<nat>)
    requires Built(hash, x) && Searchable(x) && WellFormed(n)
    ensures Increasing(files) && forall k | 0 <= k < |files| :: files[k] < |x.files| && AllowsFile(eligible, files[k])
    ensures forall f, c, i, j | OfFile(x, f, c) && AllowsFile(eligible, f) && Matches(n, c, i, j) :: f in files
    ensures literal == [] || literal in Mandatory(n)
  {
    var cv;
    literal, cv := RegexCandidates(hash, x, n, insensitive, eligible);
    if rejectedPlan {
      cv := AllChunks(x, eligible);
      EveryChunkKept(x, n, eligible, cv);
    }
    files := FixedSearch.CandidateFiles(x, cv);
    KeptFiles(x, n, eligible, cv, files);
  }

  lemma KeptFiles(x: Index, n: Node, eligible: seq<nat>, cv: seq<nat>, files: seq<nat>)
    requires Ids(x.chunks, cv) && InScope(x, eligible, cv) && KeepsMatches(x, n, eligible, cv) && FixedSearch.FilesFound(x, cv, files)
    ensures forall k | 0 <= k < |files| :: files[k] < |x.files| && AllowsFile(eligible, files[k])
    ensures forall f, c, i, j | OfFile(x, f, c) && AllowsFile(eligible, f) && Matches(n, c, i, j) :: f in files
  {
    forall k | 0 <= k < |files| ensures files[k] < |x.files| && AllowsFile(eligible, files[k]) { assert files[k] in files; }
    forall f, c, i, j | OfFile(x, f, c) && AllowsFile(eligible, f) && Matches(n, c, i, j) ensures f in files {
      assert HasFile(x, cv, f);
    }
  }

  /** A file without the pattern's short literal is skipped, and holds no match. */
  method SkipFile(x: Index, ghost n: Node, f: nat, literal: seq<Byte>, sensitive: bool) returns (skip: bool)
    requires f < |x.files| && (literal == [] || literal in Mandatory(n))
    ensures skip ==> forall c, i, j | OfFile(x, f, c) :: !Matches(n, c, i, j)
  {
    skip := literal != [] && |literal| < 4 && sensitive && Find(x.files[f], literal, 0).None?;
    if skip {
      forall c, i, j | OfFile(x, f, c) ensures !Matches(n, c, i, j) {
        if Matches(n, c, i, j) {
          MandatoryNecessary(n, c, i, j, literal);
          var p := SpanInFile(x, f, c, literal, i, j);
        }
      }
    }
  }
}
