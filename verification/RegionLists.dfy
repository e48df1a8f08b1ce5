/** Searching a record by regions or as a whole: for patterns of fixed width, when both
    list the same matches. */
module RegionLists {
  import opened Basics
  import opened RegexAst
  import opened MatchList
  import opened NfaSearch
  import opened NfaThreads
  import opened NfaWindow
  import opened NfaFixed
  import opened RegexSearch
  import opened RegionSearch
  import FixedList
  import Regions
  import RegionPlan

  /** A whole record, to be searched from its begin to its end. */
  predicate WholeRecord(c: Context) {
    c.Valid() && !c.bounded && c.candidateBegin == c.recordBegin && c.candidateEnd == c.recordEnd + 1
  }

  /** What searching the whole record lists. */
  ghost function WholeSpans(pr: Program, c: Context, overlapping: bool): seq<Span> {
    ListFrom(Searches(pr, c), c.candidateEnd, overlapping, c.candidateBegin)
  }

  /** The list of one region meets every match the region covers. */
  lemma {:induction false} RegionMeets(pr: Program, n: Node, w: nat, c: Context, r: Regions.Region, overlapping: bool, s: int)
    requires IsFixed(pr, n, w) && w > 0 && WholeRecord(c) && Regions.Within(r, c.recordBegin, c.recordEnd)
    requires Regions.Covers(r, s, s + w) && MatchesAt(n, c, w, s)
    ensures Met(overlapping, Listed(pr, c, r, overlapping), s)
  {
    var c' := InRegion(c, r);
    StartKept(n, w, c, r, s);
    FixedList.FindAllGreedy(pr, n, w, c', overlapping);
    StartMet(FixedList.StartsOf(n, c', w), w, overlapping, r, s);
  }

  /** Clipping to a region that covers a match keeps it. */
  lemma StartKept(n: Node, w: nat, c: Context, r: Regions.Region, s: int)
    requires w > 0 && WholeRecord(c) && Regions.Within(r, c.recordBegin, c.recordEnd) && Regions.Covers(r, s, s + w) && MatchesAt(n, c, w, s)
    ensures FixedList.StartsOf(n, InRegion(c, r), w)(s)
  {
    MatchSpan(n, c, s, s + w);
    ClipMatch(n, InRegion(c, r), c, s, s + w);
  }

  lemma StartMet(at: Starts, w: nat, overlapping: bool, r: Regions.Region, s: int)
    requires r.candidateBegin <= s < r.candidateEnd && at(s)
    ensures Met(overlapping, Greedy(at, w, overlapping, r.candidateBegin, r.candidateEnd), s)
  {
    GreedyMeets(at, w, overlapping, r.candidateBegin, r.candidateEnd);
  }

  /** So do the lists of all regions. */
  lemma {:induction false} RegionsMeet(pr: Program, n: Node, w: nat, c: Context, overlapping: bool, s: int)
    requires IsFixed(pr, n, w) && WholeRecord(c) && RegionPlan.Plannable(n) && MatchesAt(n, c, w, s)
    requires Regions.AllWithin(RegionPlan.RegionsIn(n, c), c.recordBegin, c.recordEnd)
    ensures Met(overlapping, RegionSpans(pr, n, c, overlapping), s)
  {
    var regions := RegionPlan.RegionsIn(n, c);
    var m := CoveringRegion(n, w, c, s);
    RegionMeets(pr, n, w, c, regions[m], overlapping, s);
    MetKept(pr, c, regions, overlapping, m, s);
  }

  /** The region that covers a match, which is never empty. */
  lemma CoveringRegion(n: Node, w: nat, c: Context, s: int) returns (m: nat)
    requires WellFormed(n) && c.Valid() && RegionPlan.Plannable(n) && MatchesAt(n, c, w, s)
    ensures w > 0 && m < |RegionPlan.RegionsIn(n, c)| && Regions.Covers(RegionPlan.RegionsIn(n, c)[m], s, s + w)
  {
    RegionPlan.RegionsCover(n, c, s, s + w);
    m := Coverer(RegionPlan.RegionsIn(n, c), s, s + w);
  }

  lemma Coverer(regions: seq<Regions.Region>, i: int, j: int) returns (m: nat)
    requires Regions.Covered(regions, i, j)
    ensures m < |regions| && Regions.Covers(regions[m], i, j)
  {
    m :| 0 <= m < |regions| && Regions.Covers(regions[m], i, j);
  }

  lemma {:induction false} MetKept(pr: Program, c: Context, regions: seq<Regions.Region>, overlapping: bool, m: nat, s: int)
    requires m < |regions| && Met(overlapping, Listed(pr, c, regions[m], overlapping), s)
    ensures Met(overlapping, ListedBy(pr, c, regions, overlapping), s)
  {
    var list := Listed(pr, c, regions[m], overlapping);
    var k :| 0 <= k < |list| && list[k].start <= s < Next(list[k], overlapping);
    ListedKept(pr, c, regions, overlapping, m, list[k]);
    MetBy(overlapping, ListedBy(pr, c, regions, overlapping), list[k], s);
  }

  lemma MetBy(overlapping: bool, all: seq<Span>, sp: Span, s: int)
    requires sp in all && sp.start <= s < Next(sp, overlapping)
    ensures Met(overlapping, all, s)
  {
    var k :| 0 <= k < |all| && all[k] == sp;
  }

  lemma {:induction false} RegionStands(pr: Program, n: Node, w: nat, c: Context, overlapping: bool, sp: Span)
    requires IsFixed(pr, n, w) && WholeRecord(c) && RegionPlan.Plannable(n) && sp in RegionSpans(pr, n, c, overlapping)
    ensures StandsIn(FixedList.StartsOf(n, c, w), w, c.candidateBegin, c.candidateEnd, sp)
  {
    RegionSpansSound(pr, n, c, overlapping, sp);
    FixedList.MatchStands(n, w, c, c.candidateBegin, c.candidateEnd, sp);
  }

  /** Both searches list the same exactly when no span that the regions list overlaps an
      earlier one: the only thing the regions lose is where the last match ended. */
  lemma {:induction false} RegionsAgree(pr: Program, n: Node, w: nat, c: Context, overlapping: bool)
    requires IsFixed(pr, n, w) && WholeRecord(c) && RegionPlan.Plannable(n)
    ensures RegionSpans(pr, n, c, overlapping) == WholeSpans(pr, c, overlapping) <==> NoOverlap(overlapping, RegionSpans(pr, n, c, overlapping))
  {
    var all, at := RegionSpans(pr, n, c, overlapping), FixedList.StartsOf(n, c, w);
    FixedList.FindAllGreedy(pr, n, w, c, overlapping);
    GreedyMeets(at, w, overlapping, c.candidateBegin, c.candidateEnd);
    if NoOverlap(overlapping, all) {
      RegionsChosen(pr, n, w, c, overlapping);
      GreedyAlone(at, w, overlapping, c.candidateBegin, c.candidateEnd, all);
    }
  }

  lemma {:induction false} RegionsChosen(pr: Program, n: Node, w: nat, c: Context, overlapping: bool)
    requires IsFixed(pr, n, w) && WholeRecord(c) && RegionPlan.Plannable(n) && NoOverlap(overlapping, RegionSpans(pr, n, c, overlapping))
    ensures Chosen(FixedList.StartsOf(n, c, w), w, overlapping, c.candidateBegin, c.candidateEnd, RegionSpans(pr, n, c, overlapping))
    ensures AllMet(FixedList.StartsOf(n, c, w), overlapping, c.candidateBegin, c.candidateEnd, RegionSpans(pr, n, c, overlapping))
  {
    var all, at := RegionSpans(pr, n, c, overlapping), FixedList.StartsOf(n, c, w);
    forall k | 0 <= k < |all| ensures StandsIn(at, w, c.candidateBegin, c.candidateEnd, all[k]) {
      RegionStands(pr, n, w, c, overlapping, all[k]);
    }
    RegionPlan.RegionsWithin(n, c);
    forall s | c.candidateBegin <= s < c.candidateEnd && at(s) ensures Met(overlapping, all, s) {
      RegionsMeet(pr, n, w, c, overlapping, s);
    }
  }

  // ----- with `overlapping` the lists agree -----

  /** Spans that start in the window [begin, end), each behind the one before. */
  ghost predicate Ascending(all: seq<Span>, begin: int, end: int) {
    (forall k | 0 <= k < |all| :: begin <= all[k].start < end) && NoOverlap(true, all)
  }

  lemma AscendingAppend(a: seq<Span>, b: seq<Span>, begin: int, middle: int, end: int)
    requires begin <= middle <= end && Ascending(a, begin, middle) && Ascending(b, middle, end)
    ensures Ascending(a + b, begin, end)
  {
    var all := a + b;
    forall i, k | 0 <= i < k < |all| ensures Next(all[i], true) <= all[k].start {
      if k < |a| {
        assert Next(a[i], true) <= a[k].start;
      } else if i >= |a| {
        assert Next(b[i - |a|], true) <= b[k - |a|].start;
      }
    }
  }

  lemma RegionAscends(pr: Program, n: Node, c: Context, r: Regions.Region)
    requires IsProgram(pr, n) && WellFormed(n) && c.Valid() && !c.bounded && Regions.Within(r, c.recordBegin, c.recordEnd)
    ensures Ascending(Listed(pr, c, r, true), r.candidateBegin, r.candidateEnd)
  {
    FindAllSound(pr, n, InRegion(c, r), true);
  }

  /** For any pattern, what separated regions list ascends. */
  lemma {:induction false} RegionsAscend(pr: Program, n: Node, c: Context, regions: seq<Regions.Region>)
    requires IsProgram(pr, n) && WellFormed(n) && c.Valid() && !c.bounded
    requires Regions.AllWithin(regions, c.recordBegin, c.recordEnd) && Regions.Separated(regions)
    ensures Ascending(ListedBy(pr, c, regions, true), if regions == [] then 0 else regions[0].candidateBegin, c.recordEnd + 1)
    decreases |regions|
  {
    if regions != [] {
      var r, rest := regions[0], regions[1..];
      RegionAscends(pr, n, c, r);
      RegionsAscend(pr, n, c, rest);
      assert rest != [] ==> r.candidateEnd < rest[0].candidateBegin;
      AscendingAppend(Listed(pr, c, r, true), ListedBy(pr, c, rest, true), r.candidateBegin, r.candidateEnd, c.recordEnd + 1);
    }
  }

  /** So with `overlapping` both searches list the same. */
  lemma {:induction false} OverlappingAgree(pr: Program, n: Node, w: nat, c: Context)
    requires IsFixed(pr, n, w) && WholeRecord(c) && RegionPlan.Plannable(n)
    ensures RegionSpans(pr, n, c, true) == WholeSpans(pr, c, true)
  {
    RegionPlan.RegionsWithin(n, c);
    RegionsAscend(pr, n, c, RegionPlan.RegionsIn(n, c));
    RegionsAgree(pr, n, w, c, true);
  }

  // ----- without it they need not -----

  /** The span a region lists at or before a match it covers, none of whose starts lies
      before its window. */
  lemma {:induction false} MeetingSpan(pr: Program, n: Node, w: nat, c: Context, r: Regions.Region, s: int) returns (sp: Span)
    requires IsFixed(pr, n, w) && w > 0 && WholeRecord(c) && Regions.Within(r, c.recordBegin, c.recordEnd)
    requires Regions.Covers(r, s, s + w) && MatchesAt(n, c, w, s)
    ensures sp in Listed(pr, c, r, false) && r.candidateBegin <= sp.start <= s
  {
    RegionMeets(pr, n, w, c, r, false, s);
    FindAllSound(pr, n, InRegion(c, r), false);
    var list := Listed(pr, c, r, false);
    var k :| 0 <= k < |list| && list[k].start <= s < Next(list[k], false);
    sp := list[k];
  }

  lemma OverlapShows(all: seq<Span>, a: Span, b: Span)
    requires a in all && b in all && a.start < b.start < a.end
    ensures !NoOverlap(false, all)
  {
    var i :| 0 <= i < |all| && all[i] == a;
    var k :| 0 <= k < |all| && all[k] == b;
  }

  /** When the first place of the record has a match that overlaps a later one, and some
      start between them is not tried, both regions list a span, and these overlap. */
  lemma {:induction false} RegionsDiffer(pr: Program, n: Node, w: nat, c: Context, s: int, x: int)
    requires IsFixed(pr, n, w) && WholeRecord(c) && RegionPlan.Plannable(n)
    requires MatchesAt(n, c, w, c.recordBegin) && MatchesAt(n, c, w, s) && c.recordBegin < x <= s < c.recordBegin + w
    requires !Regions.Tried(RegionPlan.RegionsIn(n, c), x)
    ensures RegionSpans(pr, n, c, false) != WholeSpans(pr, c, false)
  {
    RegionPlan.RegionsWithin(n, c);
    SpansOverlap(pr, n, w, c, s, x);
    RegionsAgree(pr, n, w, c, false);
  }

  lemma {:induction false} SpansOverlap(pr: Program, n: Node, w: nat, c: Context, s: int, x: int)
    requires IsFixed(pr, n, w) && WholeRecord(c) && RegionPlan.Plannable(n)
    requires MatchesAt(n, c, w, c.recordBegin) && MatchesAt(n, c, w, s) && c.recordBegin < x <= s < c.recordBegin + w
    requires !Regions.Tried(RegionPlan.RegionsIn(n, c), x) && Regions.AllWithin(RegionPlan.RegionsIn(n, c), c.recordBegin, c.recordEnd)
    ensures !NoOverlap(false, RegionSpans(pr, n, c, false))
  {
    var regions := RegionPlan.RegionsIn(n, c);
    var m := CoveringRegion(n, w, c, c.recordBegin);
    var m' := CoveringRegion(n, w, c, s);
    var a := MeetingSpan(pr, n, w, c, regions[m], c.recordBegin);
    var b := MeetingSpan(pr, n, w, c, regions[m'], s);
    ListedKept(pr, c, regions, false, m, a);
    ListedKept(pr, c, regions, false, m', b);
    RegionStands(pr, n, w, c, false, a);
    assert regions[m'].candidateBegin > x;
    OverlapShows(RegionSpans(pr, n, c, false), a, b);
  }
}
