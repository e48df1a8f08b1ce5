/** The regex search of the whole corpus: pruned files, cut into records, each record
    listed by the verifier. It returns what the same loop over every file would. */
module RegexFind {
  import opened Basics
  import opened RegexAst
  import opened MatchList
  import opened NfaThreads
  import opened NfaWindow
  import opened RegexSearch
  import opened RegionSearch
  import RegionPlan
  import opened IndexModel
  import opened IndexQuery
  import opened FixedScan
  import opened FixedSearch
  import RegexFiles
  import QueryIr

  /** How records are cut and their matches listed. */
  datatype Mode = Mode(separator: Byte, crlf: bool, multiline: bool, overlapping: bool)

  // ----- records -----

  /** The hits of each record [b, e). */
  type Lister = (nat, nat) -> seq<Hit>

  /** The first separator from `b` on, or the end of the text. */
  function SeparatorAt(text: seq<Byte>, separator: Byte, b: nat): (e: nat)
    requires b <= |text|
    ensures b <= e <= |text| && (e < |text| ==> text[e] == separator) && forall k | b <= k < e :: text[k] != separator
    decreases |text| - b
  {
    if b == |text| || text[b] == separator then b else SeparatorAt(text, separator, b + 1)
  }

  /** The record stops before a carriage return that belongs to its separator. */
  function RecordEnd(text: seq<Byte>, m: Mode, b: nat, e: nat): (r: nat)
    requires b <= e <= |text|
    ensures b <= r <= e <= r + 1
  {
    if m.crlf && m.separator == LF && e > b && text[e - 1] == CR then e - 1 else e
  }

  predicate InText(text: seq<Byte>, b: nat) {
    b < |text| || (b == 0 && text == [])
  }

  ghost function LinesFrom(list: Lister, text: seq<Byte>, m: Mode, b: nat): seq<Hit>
    decreases |text| - b, 1
  {
    if InText(text, b) then
      var e := SeparatorAt(text, m.separator, b);
      list(b, RecordEnd(text, m, b, e)) + Behind(list, text, m, e)
    else []
  }

  /** What the records behind the separator at `e`, if there is one, list. */
  ghost function Behind(list: Lister, text: seq<Byte>, m: Mode, e: nat): seq<Hit>
    requires e <= |text|
    decreases |text| - e, 0
  {
    if e < |text| then LinesFrom(list, text, m, e + 1) else []
  }

  lemma LinesBehind(list: Lister, text: seq<Byte>, m: Mode, e: nat)
    requires e <= |text|
    ensures Behind(list, text, m, e) == LinesFrom(list, text, m, e + 1)
  {}

  /** The hits of a file: one record, or one after the other. */
  ghost function Records(list: Lister, text: seq<Byte>, m: Mode): seq<Hit> {
    if m.multiline then list(0, |text|) else LinesFrom(list, text, m, 0)
  }

  /** A record begins at `b`. */
  predicate Begins(text: seq<Byte>, m: Mode, b: nat) {
    InText(text, b) && (b == 0 || (!m.multiline && text[b - 1] == m.separator))
  }

  /** Where the record that begins at `b` ends. */
  function Ends(text: seq<Byte>, m: Mode, b: nat): nat
    requires b <= |text|
  {
    if m.multiline then |text| else RecordEnd(text, m, b, SeparatorAt(text, m.separator, b))
  }

  /** No record is passed over: what any one lists is listed. */
  lemma RecordsComplete(list: Lister, text: seq<Byte>, m: Mode, b: nat)
    requires Begins(text, m, b) && list(b, Ends(text, m, b)) != []
    ensures Records(list, text, m) != []
  {
    if !m.multiline { LinesComplete(list, text, m, 0, b); }
  }

  lemma {:induction false} LinesComplete(list: Lister, text: seq<Byte>, m: Mode, from: nat, b: nat)
    requires !m.multiline && from <= b && Begins(text, m, b) && list(b, Ends(text, m, b)) != []
    ensures LinesFrom(list, text, m, from) != []
    decreases b - from
  {
    if from < b {
      var e := SeparatorAt(text, m.separator, from);
      assert e <= b - 1;
      LinesComplete(list, text, m, e + 1, b);
    }
  }

  // ----- what the verifier lists in each record -----

  /** The verifier's context for the record [b, e) of a file. */
  function RecordContext(text: seq<Byte>, b: nat, e: nat, separator: Byte): Context {
    Context(text, 0, b, e, b, e + 1, false, false, separator, false, 0, 0)
  }

  function HitsOf(file: nat, spans: seq<Span>): (r: seq<Hit>)
    ensures |r| == |spans| && forall k | 0 <= k < |r| :: r[k] == Hit(file, spans[k].start, spans[k].end)
  {
    seq(|spans|, k requires 0 <= k < |spans| => Hit(file, spans[k].start, spans[k].end))
  }

  /** How a record is verified: as a whole, or region by region. */
  datatype Verifier = Whole | ByRegions(plan: seq<RegionPlan.BoundedBranch>)

  /** Regions are planned for the pattern itself. */
  predicate Fitting(v: Verifier, n: Node) {
    v.ByRegions? ==> RegionPlan.Plannable(n) && v.plan == RegionPlan.PlanOf(n)
  }

  ghost function SpansIn(pr: Program, n: Node, v: Verifier, c: Context, overlapping: bool): seq<Span>
    requires c.Valid() && Fitting(v, n)
  {
    if v.ByRegions? then RegionSpans(pr, n, c, overlapping) else ListFrom(Searches(pr, c), c.candidateEnd, overlapping, c.candidateBegin)
  }

  ghost function RecordHits(pr: Program, n: Node, v: Verifier, file: nat, text: seq<Byte>, m: Mode, b: nat, e: nat): seq<Hit>
    requires b <= e <= |text| < U64_MAX && Fitting(v, n)
  {
    HitsOf(file, SpansIn(pr, n, v, RecordContext(text, b, e, m.separator), m.overlapping))
  }

  ghost function ListerOf(pr: Program, n: Node, v: Verifier, file: nat, text: seq<Byte>, m: Mode): Lister
    requires |text| < U64_MAX && Fitting(v, n)
  {
    (b: nat, e: nat) => if b <= e <= |text| then RecordHits(pr, n, v, file, text, m, b, e) else []
  }

  ghost function FileHits(pr: Program, n: Node, v: Verifier, file: nat, text: seq<Byte>, m: Mode): seq<Hit>
    requires |text| < U64_MAX && Fitting(v, n)
  {
    Records(ListerOf(pr, n, v, file, text, m), text, m)
  }

  // ----- what the hits of a file are -----

  /** The pattern matches [i, j) in the record that begins at `b`. */
  ghost predicate MatchesIn(n: Node, text: seq<Byte>, m: Mode, b: nat, i: int, j: int) {
    && Begins(text, m, b) && b <= i <= j <= Ends(text, m, b)
    && Matches(n, RecordContext(text, b, Ends(text, m, b), m.separator), i, j)
  }

  /** The hit is a match in some record of the file. */
  ghost predicate MatchedIn(n: Node, file: nat, text: seq<Byte>, m: Mode, h: Hit) {
    h.file == file && exists b: nat :: MatchesIn(n, text, m, b, h.begin, h.end)
  }

  ghost predicate AllMatched(n: Node, file: nat, text: seq<Byte>, m: Mode, hits: seq<Hit>) {
    forall k | 0 <= k < |hits| :: MatchedIn(n, file, text, m, hits[k])
  }

  lemma {:induction false} SpansSound(pr: Program, n: Node, v: Verifier, c: Context, overlapping: bool, sp: Span)
    requires IsProgram(pr, n) && WellFormed(n) && c.Valid() && !c.bounded && Fitting(v, n)
    requires c.candidateBegin == c.recordBegin && c.candidateEnd == c.recordEnd + 1
    requires sp in SpansIn(pr, n, v, c, overlapping)
    ensures c.recordBegin <= sp.start <= sp.end <= c.recordEnd && Matches(n, c, sp.start, sp.end)
  {
    if v.ByRegions? {
      RegionSpansSound(pr, n, c, overlapping, sp);
    } else {
      FindAllSound(pr, n, c, overlapping);
    }
    MatchSpan(n, c, sp.start, sp.end);
  }

  lemma {:induction false} SpansComplete(pr: Program, n: Node, v: Verifier, c: Context, overlapping: bool, i: int, j: int)
    requires IsProgram(pr, n) && WellFormed(n) && c.Valid() && !c.bounded && Fitting(v, n)
    requires c.candidateBegin == c.recordBegin && c.candidateEnd == c.recordEnd + 1
    requires c.recordBegin <= i <= c.recordEnd && Matches(n, c, i, j)
    ensures SpansIn(pr, n, v, c, overlapping) != []
  {
    if v.ByRegions? {
      RegionsComplete(pr, n, c, overlapping, i, j);
    } else {
      WholeComplete(pr, n, c, overlapping, i, j);
    }
  }

  lemma {:induction false} RegionsComplete(pr: Program, n: Node, c: Context, overlapping: bool, i: int, j: int)
    requires IsProgram(pr, n) && WellFormed(n) && c.Valid() && !c.bounded && RegionPlan.Plannable(n) && Matches(n, c, i, j)
    ensures RegionSpans(pr, n, c, overlapping) != []
  {
    var sp := RegionSpansComplete(pr, n, c, overlapping, i, j);
  }

  lemma {:induction false} WholeComplete(pr: Program, n: Node, c: Context, overlapping: bool, i: int, j: int)
    requires IsProgram(pr, n) && WellFormed(n) && c.Valid() && !c.bounded
    requires c.candidateBegin == c.recordBegin && c.candidateEnd == c.recordEnd + 1
    requires c.recordBegin <= i <= c.recordEnd && Matches(n, c, i, j)
    ensures ListFrom(Searches(pr, c), c.candidateEnd, overlapping, c.candidateBegin) != []
  {
    assert forall q | c.recordBegin <= q < i :: c.Readable(q);
    var k := FindAllComplete(pr, n, c, overlapping, i, j);
  }

  lemma {:induction false} RecordSound(pr: Program, n: Node, v: Verifier, file: nat, text: seq<Byte>, m: Mode, b: nat)
    requires IsProgram(pr, n) && WellFormed(n) && |text| < U64_MAX && Fitting(v, n) && Begins(text, m, b)
    ensures AllMatched(n, file, text, m, RecordHits(pr, n, v, file, text, m, b, Ends(text, m, b)))
  {
    var c := RecordContext(text, b, Ends(text, m, b), m.separator);
    var spans := SpansIn(pr, n, v, c, m.overlapping);
    forall k | 0 <= k < |spans| ensures MatchedIn(n, file, text, m, HitsOf(file, spans)[k]) {
      SpansSound(pr, n, v, c, m.overlapping, spans[k]);
      assert MatchesIn(n, text, m, b, spans[k].start, spans[k].end);
    }
  }

  lemma {:induction false} LinesSound(list: Lister, n: Node, file: nat, text: seq<Byte>, m: Mode, b: nat)
    requires forall a: nat | Begins(text, m, a) :: AllMatched(n, file, text, m, list(a, Ends(text, m, a)))
    requires !m.multiline && (InText(text, b) ==> Begins(text, m, b))
    ensures AllMatched(n, file, text, m, LinesFrom(list, text, m, b))
    decreases |text| - b
  {
    if InText(text, b) {
      var e := SeparatorAt(text, m.separator, b);
      if e < |text| { LinesSound(list, n, file, text, m, e + 1); }
    }
  }

  /** Every hit of a file is a match in one of its records. */
  lemma {:induction false} FileSound(pr: Program, n: Node, v: Verifier, file: nat, text: seq<Byte>, m: Mode)
    requires IsProgram(pr, n) && WellFormed(n) && |text| < U64_MAX && Fitting(v, n)
    ensures AllMatched(n, file, text, m, FileHits(pr, n, v, file, text, m))
  {
    var list := ListerOf(pr, n, v, file, text, m);
    forall b: nat | Begins(text, m, b) ensures AllMatched(n, file, text, m, list(b, Ends(text, m, b))) {
      RecordSound(pr, n, v, file, text, m, b);
    }
    assert Begins(text, m, 0);
    if !m.multiline { LinesSound(list, n, file, text, m, 0); }
  }

  /** A match in any record of the file puts a hit on the list. */
  lemma {:induction false} FileComplete(pr: Program, n: Node, v: Verifier, file: nat, text: seq<Byte>, m: Mode, b: nat, i: int, j: int)
    requires IsProgram(pr, n) && WellFormed(n) && |text| < U64_MAX && Fitting(v, n) && MatchesIn(n, text, m, b, i, j)
    ensures FileHits(pr, n, v, file, text, m) != []
  {
    RecordLists(pr, n, v, file, text, m, b, Ends(text, m, b), i, j);
    RecordsComplete(ListerOf(pr, n, v, file, text, m), text, m, b);
  }

  lemma {:induction false} RecordLists(pr: Program, n: Node, v: Verifier, file: nat, text: seq<Byte>, m: Mode, b: nat, e: nat, i: int, j: int)
    requires IsProgram(pr, n) && WellFormed(n) && b <= e <= |text| < U64_MAX && Fitting(v, n) && b <= i <= j <= e
    requires Matches(n, RecordContext(text, b, e, m.separator), i, j)
    ensures RecordHits(pr, n, v, file, text, m, b, e) != []
  {
    SpansComplete(pr, n, v, RecordContext(text, b, e, m.separator), m.overlapping, i, j);
  }

  /** A file lists something exactly when some record of it has a match. */
  lemma {:induction false} FileExact(pr: Program, n: Node, v: Verifier, file: nat, text: seq<Byte>, m: Mode)
    requires IsProgram(pr, n) && WellFormed(n) && |text| < U64_MAX && Fitting(v, n)
    ensures FileHits(pr, n, v, file, text, m) != [] <==> exists b: nat, i, j :: MatchesIn(n, text, m, b, i, j)
  {
    var hits := FileHits(pr, n, v, file, text, m);
    FileSound(pr, n, v, file, text, m);
    if hits != [] {
      assert MatchedIn(n, file, text, m, hits[0]);
      var b: nat :| MatchesIn(n, text, m, b, hits[0].begin, hits[0].end);
    }
    if b: nat, i, j :| MatchesIn(n, text, m, b, i, j) { FileComplete(pr, n, v, file, text, m, b, i, j); }
  }

  // ----- every file -----

  /** What each file lists. */
  type Corpus = nat -> seq<Hit>

  /** The hits of every searched file in [file, count). */
  ghost function Every(hits: Corpus, s: Scope, file: nat, count: nat): seq<Hit>
    decreases count - file
  {
    if file >= count then [] else (if Searched(s, file) then hits(file) else []) + Every(hits, s, file + 1, count)
  }

  ghost predicate Addressable(files: seq<seq<Byte>>) {
    forall f | 0 <= f < |files| :: |files[f]| < U64_MAX
  }

  ghost function HitsIn(pr: Program, n: Node, v: Verifier, files: seq<seq<Byte>>, m: Mode): Corpus
    requires Addressable(files) && Fitting(v, n)
  {
    (f: nat) => if f < |files| then FileHits(pr, n, v, f, files[f], m) else []
  }

  /** The search without pruning and without a bound. */
  ghost function BruteForce(pr: Program, n: Node, v: Verifier, files: seq<seq<Byte>>, s: Scope, m: Mode): seq<Hit>
    requires Addressable(files) && Fitting(v, n)
  {
    Every(HitsIn(pr, n, v, files, m), s, 0, |files|)
  }

  lemma {:induction false} EveryHas(hits: Corpus, s: Scope, file: nat, count: nat, h: Hit)
    ensures h in Every(hits, s, file, count) <==> exists f: nat :: file <= f < count && Searched(s, f) && h in hits(f)
    decreases count - file
  {
    if file < count {
      EveryHas(hits, s, file + 1, count, h);
      if h in hits(file) && Searched(s, file) { assert h in Every(hits, s, file, count); }
    }
  }

  /** What an unpruned search lists are matches in records of searched files, and it
      lists something of such a file exactly when some record of it has a match. */
  lemma {:induction false} BruteForceExact(pr: Program, n: Node, v: Verifier, files: seq<seq<Byte>>, s: Scope, m: Mode, f: nat)
    requires IsProgram(pr, n) && WellFormed(n) && Addressable(files) && Fitting(v, n) && f < |files|
    ensures forall h | h in BruteForce(pr, n, v, files, s, m) && h.file == f :: Searched(s, f) && MatchedIn(n, f, files[f], m, h)
    ensures Searched(s, f) ==>
      ((exists h :: h in BruteForce(pr, n, v, files, s, m) && h.file == f) <==> exists b: nat, i, j :: MatchesIn(n, files[f], m, b, i, j))
  {
    var hits := HitsIn(pr, n, v, files, m);
    forall h ensures h in BruteForce(pr, n, v, files, s, m) && h.file == f <==> Searched(s, f) && h in hits(f) {
      EveryHas(hits, s, 0, |files|, h);
      forall g: nat | g < |files| && h in hits(g) ensures h.file == g { ListedThere(pr, n, v, g, files[g], m, h); }
    }
    FileSound(pr, n, v, f, files[f], m);
    FileExact(pr, n, v, f, files[f], m);
    if hits(f) != [] { assert hits(f)[0] in hits(f); }
  }

  lemma {:induction false} ListedThere(pr: Program, n: Node, v: Verifier, file: nat, text: seq<Byte>, m: Mode, h: Hit)
    requires IsProgram(pr, n) && WellFormed(n) && |text| < U64_MAX && Fitting(v, n) && h in FileHits(pr, n, v, file, text, m)
    ensures h.file == file
  {
    FileSound(pr, n, v, file, text, m);
    var hits := FileHits(pr, n, v, file, text, m);
    var k :| 0 <= k < |hits| && hits[k] == h;
    assert MatchedIn(n, file, text, m, hits[k]);
  }

  /** Listed files hold every hit. */
  ghost predicate HoldsAll(hits: Corpus, s: Scope, count: nat, files: seq<nat>) {
    && Increasing(files) && (forall k | 0 <= k < |files| :: files[k] < count && AllowsFile(s.eligible, files[k]))
    && forall f: nat | f < count && Searched(s, f) && hits(f) != [] :: f in files
  }

  function FileAt(files: seq<nat>, k: nat, count: nat): nat {
    if k < |files| then files[k] else count
  }

  lemma Between(files: seq<nat>, k: nat, f: nat)
    requires Increasing(files) && k <= |files| && (k > 0 ==> files[k - 1] < f) && (k < |files| ==> f < files[k])
    ensures f !in files
  {
    forall i | 0 <= i < |files| ensures files[i] != f {
      if i < k { assert files[i] <= files[k - 1]; } else { assert files[k] <= files[i]; }
    }
  }

  /** Nothing is lost between two listed files. */
  lemma {:induction false} NextFile(hits: Corpus, s: Scope, count: nat, files: seq<nat>, k: nat, f: nat)
    requires HoldsAll(hits, s, count, files) && k <= |files|
    requires f <= FileAt(files, k, count) && (k > 0 ==> files[k - 1] < f)
    ensures Every(hits, s, f, count) == Every(hits, s, FileAt(files, k, count), count)
    decreases FileAt(files, k, count) - f
  {
    if f < FileAt(files, k, count) {
      Between(files, k, f);
      NextFile(hits, s, count, files, k, f + 1);
    }
  }

  // ----- the loops -----

  /** `list` lists the records of this text. */
  ghost predicate Lists(list: Lister, pr: Program, n: Node, v: Verifier, file: nat, text: seq<Byte>, m: Mode)
    requires |text| < U64_MAX && Fitting(v, n)
  {
    forall b: nat, e: nat :: ListsAt(list, pr, n, v, file, text, m, b, e)
  }

  ghost predicate ListsAt(list: Lister, pr: Program, n: Node, v: Verifier, file: nat, text: seq<Byte>, m: Mode, b: nat, e: nat)
    requires |text| < U64_MAX && Fitting(v, n)
  {
    b <= e <= |text| ==> list(b, e) == RecordHits(pr, n, v, file, text, m, b, e)
  }

  lemma {:induction false} ListerLists(pr: Program, n: Node, v: Verifier, file: nat, text: seq<Byte>, m: Mode)
    requires |text| < U64_MAX && Fitting(v, n)
    ensures Lists(ListerOf(pr, n, v, file, text, m), pr, n, v, file, text, m)
  {
    forall b: nat, e: nat ensures ListsAt(ListerOf(pr, n, v, file, text, m), pr, n, v, file, text, m, b, e) {}
  }

  /** What a program needs to be run at all. */
  ghost predicate VerifierRuns(pr: Program, n: Node, v: Verifier) {
    pr.Sound() && pr.start >= 0 && WellFormed(n) && Fitting(v, n)
  }

  lemma {:induction false} ProgramRuns(pr: Program, n: Node, v: Verifier)
    requires IsProgram(pr, n) && WellFormed(n) && Fitting(v, n)
    ensures VerifierRuns(pr, n, v)
  {
    ProgramShaped(pr, n);
  }

  method ListContext(pr: Program, n: Node, v: Verifier, c: Context, file: nat, overlapping: bool, limit: nat) returns (hits: seq<Hit>)
    requires VerifierRuns(pr, n, v) && c.Valid()
    ensures hits == Cut(HitsOf(file, SpansIn(pr, n, v, c, overlapping)), limit)
  {
    var spans;
    if v.ByRegions? {
      spans := SearchByRegions(pr, n, v.plan, c, overlapping, limit);
    } else {
      spans := FindAll(pr, c, overlapping, limit);
    }
    hits := HitsOf(file, spans);
  }

  method AddRecord(pr: Program, n: Node, v: Verifier, file: nat, text: seq<Byte>, m: Mode, b: nat, e: nat, limit: nat, before: seq<Hit>,
    ghost list: Lister, ghost all: seq<Hit>, ghost rest: seq<Hit>) returns (out: seq<Hit>, full: bool)
    requires VerifierRuns(pr, n, v) && b <= e <= |text| < U64_MAX && Lists(list, pr, n, v, file, text, m)
    requires Going(all, before, list(b, e) + rest, limit)
    ensures Collecting(all, out, rest, limit, full)
  {
    assert ListsAt(list, pr, n, v, file, text, m, b, e);
    var hits := ListContext(pr, n, v, RecordContext(text, b, e, m.separator), file, m.overlapping, Remaining(limit, |before|));
    CutFurther(all, before, list(b, e), rest, limit);
    out := before + hits;
    full := limit != 0 && |out| >= limit;
  }

  /** Where the record that begins at `b` stops, and where its separator stands. */
  method FindRecord(text: seq<Byte>, m: Mode, b: nat) returns (e: nat, logical: nat)
    requires b <= |text|
    ensures e == SeparatorAt(text, m.separator, b) && logical == RecordEnd(text, m, b, e)
  {
    var at := FindByte(text, m.separator, b, |text|);
    e := if at.Some? then at.value else |text|;
    logical := e;
    if m.crlf && m.separator == LF && logical > b && text[logical - 1] == CR {
      logical := logical - 1;
    }
  }

  /** The record that begins at `b`, and where the next one does; behind the last record
      that is behind the end of the file. */
  /** The next record is what is still to come first. */
  lemma LineAhead(list: Lister, text: seq<Byte>, m: Mode, b: nat, all: seq<Hit>, before: seq<Hit>, rest: seq<Hit>, limit: nat)
    requires InText(text, b) && Going(all, before, LinesFrom(list, text, m, b) + rest, limit)
    ensures
      var e := SeparatorAt(text, m.separator, b);
      && Behind(list, text, m, e) == LinesFrom(list, text, m, e + 1)
      && Going(all, before, list(b, RecordEnd(text, m, b, e)) + (Behind(list, text, m, e) + rest), limit)
  {
    var e := SeparatorAt(text, m.separator, b);
    LinesBehind(list, text, m, e);
    GoingRegrouped(all, before, list(b, RecordEnd(text, m, b, e)), Behind(list, text, m, e), rest, limit);
  }

  method AddLine(pr: Program, n: Node, v: Verifier, file: nat, text: seq<Byte>, m: Mode, b: nat, limit: nat, before: seq<Hit>,
    ghost list: Lister, ghost all: seq<Hit>, ghost rest: seq<Hit>) returns (out: seq<Hit>, full: bool, next: nat)
    requires VerifierRuns(pr, n, v) && InText(text, b) && |text| < U64_MAX && Lists(list, pr, n, v, file, text, m)
    requires Going(all, before, LinesFrom(list, text, m, b) + rest, limit)
    ensures b < next <= |text| + 1 && Collecting(all, out, LinesFrom(list, text, m, next) + rest, limit, full)
  {
    var e, logical := FindRecord(text, m, b);
    LineAhead(list, text, m, b, all, before, rest, limit);
    ghost var more := Behind(list, text, m, e) + rest;
    out, full := AddRecord(pr, n, v, file, text, m, b, logical, limit, before, list, all, more);
    next := e + 1;
  }

  /** The record loop over one file. */
  method AddLines(pr: Program, n: Node, v: Verifier, file: nat, text: seq<Byte>, m: Mode, limit: nat, before: seq<Hit>,
    ghost list: Lister, ghost all: seq<Hit>, ghost rest: seq<Hit>) returns (out: seq<Hit>, full: bool)
    requires VerifierRuns(pr, n, v) && |text| < U64_MAX && Lists(list, pr, n, v, file, text, m)
    requires Going(all, before, LinesFrom(list, text, m, 0) + rest, limit)
    ensures Collecting(all, out, rest, limit, full)
  {
    var b: nat := 0;
    out, full := before, false;
    while !full && (b < |text| || (b == 0 && text == []))
      invariant Collecting(all, out, LinesFrom(list, text, m, b) + rest, limit, full)
      decreases !full, |text| + 1 - b
    {
      out, full, b := AddLine(pr, n, v, file, text, m, b, limit, out, list, all, rest);
    }
    NoLineLeft(list, text, m, b, rest);
  }

  lemma NoLineLeft(list: Lister, text: seq<Byte>, m: Mode, b: nat, rest: seq<Hit>)
    ensures !InText(text, b) ==> LinesFrom(list, text, m, b) + rest == rest
  {}

  method AddFile(pr: Program, n: Node, v: Verifier, file: nat, text: seq<Byte>, m: Mode, limit: nat, before: seq<Hit>, ghost all: seq<Hit>, ghost rest: seq<Hit>)
    returns (out: seq<Hit>, full: bool)
    requires VerifierRuns(pr, n, v) && |text| < U64_MAX
    requires Going(all, before, FileHits(pr, n, v, file, text, m) + rest, limit)
    ensures Collecting(all, out, rest, limit, full)
  {
    ghost var list := ListerOf(pr, n, v, file, text, m);
    ListerLists(pr, n, v, file, text, m);
    if m.multiline {
      out, full := AddRecord(pr, n, v, file, text, m, 0, |text|, limit, before, list, all, rest);
    } else {
      out, full := AddLines(pr, n, v, file, text, m, limit, before, list, all, rest);
    }
  }

  /** Nothing matches in the file under any invocation of the verifier. */
  ghost predicate Barren(x: Index, n: Node, f: nat) {
    forall c, i, j | RegexFiles.OfFile(x, f, c) :: !Matches(n, c, i, j)
  }

  lemma {:induction false} BarrenListsNone(pr: Program, n: Node, v: Verifier, x: Index, f: nat, m: Mode)
    requires IsProgram(pr, n) && WellFormed(n) && Fitting(v, n) && f < |x.files| && |x.files[f]| < U64_MAX && Barren(x, n, f)
    ensures FileHits(pr, n, v, f, x.files[f], m) == []
  {
    var text := x.files[f];
    forall b: nat, i, j ensures !MatchesIn(n, text, m, b, i, j) {
      if Begins(text, m, b) { assert RegexFiles.OfFile(x, f, RecordContext(text, b, Ends(text, m, b), m.separator)); }
    }
    FileExact(pr, n, v, f, text, m);
  }

  /** Files without a match list nothing. */
  ghost predicate Quiet(n: Node, x: Index, hits: Corpus) {
    forall f: nat :: QuietAt(n, x, hits, f)
  }

  ghost predicate QuietAt(n: Node, x: Index, hits: Corpus, f: nat) {
    f < |x.files| && Barren(x, n, f) ==> hits(f) == []
  }

  /** `hits` is what the files of the corpus list. */
  ghost predicate ListsCorpus(hits: Corpus, pr: Program, n: Node, v: Verifier, files: seq<seq<Byte>>, m: Mode)
    requires Addressable(files) && Fitting(v, n)
  {
    forall f: nat :: ListsCorpusAt(hits, pr, n, v, files, m, f)
  }

  ghost predicate ListsCorpusAt(hits: Corpus, pr: Program, n: Node, v: Verifier, files: seq<seq<Byte>>, m: Mode, f: nat)
    requires Addressable(files) && Fitting(v, n)
  {
    f < |files| ==> hits(f) == FileHits(pr, n, v, f, files[f], m)
  }

  lemma {:induction false} HitsHold(pr: Program, n: Node, v: Verifier, files: seq<seq<Byte>>, m: Mode)
    requires Addressable(files) && Fitting(v, n)
    ensures ListsCorpus(HitsIn(pr, n, v, files, m), pr, n, v, files, m)
  {
    forall f: nat ensures ListsCorpusAt(HitsIn(pr, n, v, files, m), pr, n, v, files, m, f) {}
  }

  /** A file without the pattern's short literal lists nothing. */
  method Skippable(ghost n: Node, x: Index, literal: seq<Byte>, sensitive: bool, fid: nat, ghost hits: Corpus) returns (skip: bool)
    requires fid < |x.files| && (literal == [] || literal in QueryIr.Mandatory(n)) && Quiet(n, x, hits)
    ensures skip ==> hits(fid) == []
  {
    skip := RegexFiles.SkipFile(x, n, fid, literal, sensitive);
    assert skip ==> Barren(x, n, fid);
    assert QuietAt(n, x, hits, fid);
  }

  /** One listed file, unless it is binary. Only whole records are verified after a look
      for the short literal. */
  method VisitFile(pr: Program, n: Node, v: Verifier, x: Index, s: Scope, m: Mode, literal: seq<Byte>, sensitive: bool, limit: nat, fid: nat,
    before: seq<Hit>, ghost hits: Corpus, ghost all: seq<Hit>) returns (out: seq<Hit>, full: bool)
    requires VerifierRuns(pr, n, v) && Addressable(x.files) && ListsCorpus(hits, pr, n, v, x.files, m) && Quiet(n, x, hits)
    requires fid < |x.files| == |s.binary| && AllowsFile(s.eligible, fid) && (literal == [] || literal in QueryIr.Mandatory(n))
    requires Going(all, before, Every(hits, s, fid, |x.files|), limit)
    ensures Collecting(all, out, Every(hits, s, fid + 1, |x.files|), limit, full)
  {
    var skip := !s.includeBinary && s.binary[fid];
    if !skip && v.Whole? {
      skip := Skippable(n, x, literal, sensitive, fid, hits);
    }
    EveryFrom(hits, s, fid, |x.files|);
    if skip {
      out, full := before, false;
    } else {
      assert ListsCorpusAt(hits, pr, n, v, x.files, m, fid);
      out, full := AddFile(pr, n, v, fid, x.files[fid], m, limit, before, all, Every(hits, s, fid + 1, |x.files|));
    }
  }

  lemma EveryFrom(hits: Corpus, s: Scope, file: nat, count: nat)
    requires file < count
    ensures Searched(s, file) ==> Every(hits, s, file, count) == hits(file) + Every(hits, s, file + 1, count)
    ensures !Searched(s, file) || hits(file) == [] ==> Every(hits, s, file, count) == Every(hits, s, file + 1, count)
  {}

  method VisitFiles(pr: Program, n: Node, v: Verifier, x: Index, s: Scope, m: Mode, literal: seq<Byte>, sensitive: bool, limit: nat, files: seq<nat>,
    ghost hits: Corpus) returns (out: seq<Hit>)
    requires VerifierRuns(pr, n, v) && Addressable(x.files) && ListsCorpus(hits, pr, n, v, x.files, m) && Quiet(n, x, hits)
    requires |x.files| == |s.binary| && (literal == [] || literal in QueryIr.Mandatory(n))
    requires HoldsAll(hits, s, |x.files|, files)
    ensures out == Cut(Every(hits, s, 0, |x.files|), limit)
  {
    ghost var all := Every(hits, s, 0, |x.files|);
    out := [];
    NextFile(hits, s, |x.files|, files, 0, 0);
    for k := 0 to |files|
      invariant Going(all, out, Every(hits, s, FileAt(files, k, |x.files|), |x.files|), limit)
    {
      var full;
      out, full := VisitNext(pr, n, v, x, s, m, literal, sensitive, limit, files, k, out, hits, all);
      if full {
        return;
      }
    }
  }

  method VisitNext(pr: Program, n: Node, v: Verifier, x: Index, s: Scope, m: Mode, literal: seq<Byte>, sensitive: bool, limit: nat,
    files: seq<nat>, k: nat, before: seq<Hit>, ghost hits: Corpus, ghost all: seq<Hit>) returns (out: seq<Hit>, full: bool)
    requires VerifierRuns(pr, n, v) && Addressable(x.files) && ListsCorpus(hits, pr, n, v, x.files, m) && Quiet(n, x, hits)
    requires |x.files| == |s.binary| && (literal == [] || literal in QueryIr.Mandatory(n))
    requires HoldsAll(hits, s, |x.files|, files) && k < |files|
    requires Going(all, before, Every(hits, s, files[k], |x.files|), limit)
    ensures Collecting(all, out, Every(hits, s, FileAt(files, k + 1, |x.files|), |x.files|), limit, full)
  {
    out, full := VisitFile(pr, n, v, x, s, m, literal, sensitive, limit, files[k], before, hits, all);
    NextFile(hits, s, |x.files|, files, k + 1, files[k] + 1);
  }

  lemma FilesHoldAll(n: Node, x: Index, s: Scope, hits: Corpus, files: seq<nat>)
    requires Quiet(n, x, hits)
    requires Increasing(files) && forall k | 0 <= k < |files| :: files[k] < |x.files| && AllowsFile(s.eligible, files[k])
    requires forall f, c, i, j | RegexFiles.OfFile(x, f, c) && AllowsFile(s.eligible, f) && Matches(n, c, i, j) :: f in files
    ensures HoldsAll(hits, s, |x.files|, files)
  {
    forall f: nat | f < |x.files| && f !in files && AllowsFile(s.eligible, f) ensures hits(f) == [] {
      assert Barren(x, n, f);
      assert QuietAt(n, x, hits, f);
    }
  }

  lemma {:induction false} ProgramQuiet(pr: Program, n: Node, v: Verifier, x: Index, m: Mode)
    requires IsProgram(pr, n) && WellFormed(n) && Addressable(x.files) && Fitting(v, n)
    ensures Quiet(n, x, HitsIn(pr, n, v, x.files, m))
  {
    forall f: nat ensures QuietAt(n, x, HitsIn(pr, n, v, x.files, m), f) {
      if f < |x.files| && Barren(x, n, f) { BarrenListsNone(pr, n, v, x, f, m); }
    }
  }

  /** The regex search, by whole records or by regions. Whatever the candidates left out,
      and whether or not a region plan was turned down, the hits are those of every
      searched file, cut at the bound. */
  method SearchRecords(hash: Hash, x: Index, s: Scope, pr: Program, n: Node, v: Verifier, m: Mode, insensitive: bool, rejectedPlan: bool, limit: nat)
    returns (out: seq<Hit>)
    requires Exact(hash, x, s) && IsProgram(pr, n) && WellFormed(n) && Fitting(v, n) && Addressable(x.files)
    ensures out == Cut(BruteForce(pr, n, v, x.files, s, m), limit)
  {
    var literal, files := RegexFiles.FilesToVerify(hash, x, n, insensitive, s.eligible, rejectedPlan);
    ghost var hits := HitsIn(pr, n, v, x.files, m);
    ProgramRuns(pr, n, v);
    ProgramQuiet(pr, n, v, x, m);
    HitsHold(pr, n, v, x.files, m);
    FilesHoldAll(n, x, s, hits, files);
    out := VisitFiles(pr, n, v, x, s, m, literal, !insensitive, limit, files, hits);
  }
}
