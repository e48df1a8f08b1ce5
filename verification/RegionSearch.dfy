/** The bounded-region search of one record: what it lists are matches of the record,
    and it lists something exactly when the record has a match. */
module RegionSearch {
  import opened Basics
  import opened RegexAst
  import opened NfaSearch
  import opened NfaThreads
  import opened NfaWindow
  import opened MatchList
  import opened RegexSearch
  import Regions
  import RegionPlan

  /** The verifier's context for one region of the record. */
  function InRegion(c: Context, r: Regions.Region): Context {
    c.(bounded := true, regionBegin := r.regionBegin, regionEnd := r.regionEnd,
       candidateBegin := r.candidateBegin, candidateEnd := r.candidateEnd)
  }

  /** What searching one region lists. */
  ghost function Listed(pr: Program, c: Context, r: Regions.Region, overlapping: bool): seq<Span> {
    ListFrom(Searches(pr, InRegion(c, r)), r.candidateEnd, overlapping, r.candidateBegin)
  }

  /** A match that a region covers is found by searching the region, or lies before the
      place where some listed span ends its search. */
  lemma RegionFinds(pr: Program, n: Node, c: Context, r: Regions.Region, overlapping: bool, i: int, j: int) returns (k: nat)
    requires IsProgram(pr, n) && WellFormed(n) && c.Valid() && !c.bounded
    requires Regions.Within(r, c.recordBegin, c.recordEnd) && Regions.Covers(r, i, j) && Matches(n, c, i, j)
    ensures k < |Listed(pr, c, r, overlapping)| && i < Next(Listed(pr, c, r, overlapping)[k], overlapping)
  {
    var c' := InRegion(c, r);
    MatchSpan(n, c, i, j);
    ClipMatch(n, c', c, i, j);
    assert Startable(c', r.candidateBegin, i);
    k := FindAllComplete(pr, n, c', overlapping, i, j);
  }

  /** What a region's search lists are matches in the record. */
  lemma RegionSound(pr: Program, n: Node, c: Context, r: Regions.Region, overlapping: bool, sp: Span)
    requires IsProgram(pr, n) && WellFormed(n) && c.Valid() && !c.bounded && Regions.Within(r, c.recordBegin, c.recordEnd)
    requires sp in Listed(pr, c, r, overlapping)
    ensures c.recordBegin <= sp.start <= c.recordEnd && Matches(n, c, sp.start, sp.end)
  {
    FindAllSound(pr, n, InRegion(c, r), overlapping);
    ClippedIsMatch(n, InRegion(c, r), c, sp.start, sp.end);
  }

  /** A match under clipping reads nothing the record does not offer. */
  lemma ClippedIsMatch(n: Node, c': Context, c: Context, i: int, j: int)
    requires Clips(c', c) && Matches(n, c', i, j)
    ensures Matches(n, c, i, j)
  {
    MatchSpan(n, c', i, j);
    ViewMatch(n, c', c, i, j);
  }

  // ----- all regions of a record -----

  ghost function ListedBy(pr: Program, c: Context, regions: seq<Regions.Region>, overlapping: bool): seq<Span> {
    if regions == [] then [] else Listed(pr, c, regions[0], overlapping) + ListedBy(pr, c, regions[1..], overlapping)
  }

  /** The regions one after the other, until the bound is reached. */
  method VerifyRegions(pr: Program, c: Context, regions: seq<Regions.Region>, overlapping: bool, limit: nat) returns (out: seq<Span>)
    requires pr.Sound() && pr.start >= 0 && c.Valid() && Regions.AllWithin(regions, c.recordBegin, c.recordEnd)
    ensures out == Cut(ListedBy(pr, c, regions, overlapping), limit)
  {
    ghost var all := ListedBy(pr, c, regions, overlapping);
    out := [];
    for k := 0 to |regions|
      invariant Going(all, out, ListedBy(pr, c, regions[k..], overlapping), limit)
    {
      assert regions[k..][0] == regions[k] && regions[k..][1..] == regions[k + 1..];
      var ms := VerifyRegion(pr, c, regions[k], overlapping, Remaining(limit, |out|));
      CutFurther(all, out, Listed(pr, c, regions[k], overlapping), ListedBy(pr, c, regions[k + 1..], overlapping), limit);
      out := out + ms;
      if limit != 0 && |out| >= limit {
        return;
      }
    }
  }

  method VerifyRegion(pr: Program, c: Context, r: Regions.Region, overlapping: bool, limit: nat) returns (out: seq<Span>)
    requires pr.Sound() && pr.start >= 0 && c.Valid() && Regions.Within(r, c.recordBegin, c.recordEnd)
    ensures out == Cut(Listed(pr, c, r, overlapping), limit)
  {
    out := FindAll(pr, InRegion(c, r), overlapping, limit);
  }

  lemma {:induction false} ListedFrom(pr: Program, c: Context, regions: seq<Regions.Region>, overlapping: bool, sp: Span) returns (m: nat)
    requires sp in ListedBy(pr, c, regions, overlapping)
    ensures m < |regions| && sp in Listed(pr, c, regions[m], overlapping)
  {
    if InFirst(Listed(pr, c, regions[0], overlapping), ListedBy(pr, c, regions[1..], overlapping), sp) {
      m := 0;
    } else {
      m := ListedFrom(pr, c, regions[1..], overlapping, sp);
      m := m + 1;
    }
  }

  predicate InFirst(first: seq<Span>, rest: seq<Span>, sp: Span)
    requires sp in first + rest
    ensures InFirst(first, rest, sp) || sp in rest
  {
    sp in first
  }

  lemma {:induction false} ListedKept(pr: Program, c: Context, regions: seq<Regions.Region>, overlapping: bool, m: nat, sp: Span)
    requires m < |regions| && sp in Listed(pr, c, regions[m], overlapping)
    ensures sp in ListedBy(pr, c, regions, overlapping)
  {
    if m > 0 { ListedKept(pr, c, regions[1..], overlapping, m - 1, sp); }
    InEither(Listed(pr, c, regions[0], overlapping), ListedBy(pr, c, regions[1..], overlapping), sp);
  }

  lemma InEither(first: seq<Span>, rest: seq<Span>, sp: Span)
    requires sp in first || sp in rest
    ensures sp in first + rest
  {}

  // ----- the search of one record -----

  /** What the bounded-region search of a record lists. */
  ghost function RegionSpans(pr: Program, n: Node, c: Context, overlapping: bool): seq<Span>
    requires c.Valid() && RegionPlan.Plannable(n)
  {
    ListedBy(pr, c, RegionPlan.RegionsIn(n, c), overlapping)
  }

  method SearchByRegions(pr: Program, n: Node, plan: seq<RegionPlan.BoundedBranch>, c: Context, overlapping: bool, limit: nat) returns (out: seq<Span>)
    requires pr.Sound() && pr.start >= 0 && WellFormed(n) && c.Valid() && RegionPlan.Plannable(n) && plan == RegionPlan.PlanOf(n)
    ensures out == Cut(RegionSpans(pr, n, c, overlapping), limit)
  {
    var regions := RegionPlan.RegionsOf(n, c, plan);
    RegionPlan.RegionsWithin(n, c);
    out := VerifyRegions(pr, c, regions, overlapping, limit);
  }

  /** It lists matches of the record only. */
  lemma {:induction false} RegionSpansSound(pr: Program, n: Node, c: Context, overlapping: bool, sp: Span)
    requires IsProgram(pr, n) && WellFormed(n) && c.Valid() && !c.bounded && RegionPlan.Plannable(n)
    requires sp in RegionSpans(pr, n, c, overlapping)
    ensures c.recordBegin <= sp.start <= c.recordEnd && Matches(n, c, sp.start, sp.end)
  {
    var regions := RegionPlan.RegionsIn(n, c);
    RegionPlan.RegionsWithin(n, c);
    var m := ListedFrom(pr, c, regions, overlapping, sp);
    RegionSound(pr, n, c, regions[m], overlapping, sp);
  }

  /** Every match of the record lies before the place where some listed span ends its
      search. */
  lemma {:induction false} RegionSpansComplete(pr: Program, n: Node, c: Context, overlapping: bool, i: int, j: int) returns (sp: Span)
    requires IsProgram(pr, n) && WellFormed(n) && c.Valid() && !c.bounded && RegionPlan.Plannable(n) && Matches(n, c, i, j)
    ensures sp in RegionSpans(pr, n, c, overlapping) && i < Next(sp, overlapping)
  {
    var regions := RegionPlan.RegionsIn(n, c);
    RegionPlan.RegionsWithin(n, c);
    RegionPlan.RegionsCover(n, c, i, j);
    var m :| 0 <= m < |regions| && Regions.Covers(regions[m], i, j);
    var k := RegionFinds(pr, n, c, regions[m], overlapping, i, j);
    sp := Listed(pr, c, regions[m], overlapping)[k];
    ListedKept(pr, c, regions, overlapping, m, sp);
  }

  /** So it lists something exactly when the record has a match. */
  lemma {:induction false} RegionSpansExact(pr: Program, n: Node, c: Context, overlapping: bool)
    requires IsProgram(pr, n) && WellFormed(n) && c.Valid() && !c.bounded && RegionPlan.Plannable(n)
    ensures RegionSpans(pr, n, c, overlapping) != [] <==> exists i, j :: Matches(n, c, i, j)
  {
    var all := RegionSpans(pr, n, c, overlapping);
    if all != [] {
      RegionSpansSound(pr, n, c, overlapping, all[0]);
      assert Matches(n, c, all[0].start, all[0].end);
    }
    if i, j :| Matches(n, c, i, j) {
      var sp := RegionSpansComplete(pr, n, c, overlapping, i, j);
    }
  }
}
