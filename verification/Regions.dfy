/** Bounded-region planning: from the places where a pattern's literals stand, the
    intervals of candidate starts and the regions the verifier may read. */
module Regions {
  import opened Basics
  import opened RegexAst
  import opened QueryIr
  import opened Width

  /** Candidate starts [candidateBegin, candidateEnd), executed on [regionBegin, regionEnd). */
  datatype Region = Region(candidateBegin: nat, candidateEnd: nat, regionBegin: nat, regionEnd: nat)

  predicate Covers(r: Region, i: int, j: int) {
    r.candidateBegin <= i < r.candidateEnd && r.regionBegin <= i && j <= r.regionEnd
  }

  ghost predicate Covered(regions: seq<Region>, i: int, j: int) {
    exists k :: 0 <= k < |regions| && Covers(regions[k], i, j)
  }

  /** A region the verifier accepts as part of the record's context. */
  predicate Within(r: Region, recordBegin: int, recordEnd: int) {
    && recordBegin <= r.regionBegin <= r.candidateBegin <= r.candidateEnd <= recordEnd + 1
    && r.regionBegin <= r.regionEnd <= recordEnd
  }

  ghost predicate AllWithin(regions: seq<Region>, recordBegin: int, recordEnd: int) {
    forall k | 0 <= k < |regions| :: Within(regions[k], recordBegin, recordEnd)
  }

  // ----- merging through the last region -----

  /** A region that begins inside or right after the last one widens it. */
  function MergeBack(regions: seq<Region>, next: Region): seq<Region> {
    if regions != [] && next.candidateBegin <= Last(regions).candidateEnd then
      var current := Last(regions);
      Front(regions) + [Region(current.candidateBegin, Max(current.candidateEnd, next.candidateEnd),
        Min(current.regionBegin, next.regionBegin), Max(current.regionEnd, next.regionEnd))]
    else regions + [next]
  }

  /** Fed in order of their begins, merged regions lose nothing. */
  lemma MergeKeeps(regions: seq<Region>, next: Region)
    requires regions != [] ==> Last(regions).candidateBegin <= next.candidateBegin
    ensures Last(MergeBack(regions, next)).candidateBegin <= next.candidateBegin
    ensures forall i, j | Covered(regions, i, j) || Covers(next, i, j) :: Covered(MergeBack(regions, next), i, j)
    ensures forall b, e | AllWithin(regions, b, e) && Within(next, b, e) :: AllWithin(MergeBack(regions, next), b, e)
  {
    var merged := MergeBack(regions, next);
    forall i, j | Covered(regions, i, j) || Covers(next, i, j) ensures Covered(merged, i, j) {
      if Covers(next, i, j) {
        assert Covers(merged[|merged| - 1], i, j);
      } else {
        var k :| 0 <= k < |regions| && Covers(regions[k], i, j);
        assert Covers(merged[k], i, j);
      }
    }
  }

  /** All regions, merged one after the other. */
  function MergeAll(regions: seq<Region>): seq<Region> {
    if regions == [] then [] else MergeBack(MergeAll(Front(regions)), Last(regions))
  }

  ghost predicate InBeginOrder(regions: seq<Region>) {
    forall a, b | 0 <= a < b < |regions| :: regions[a].candidateBegin <= regions[b].candidateBegin
  }

  lemma {:induction false} MergeAllLast(regions: seq<Region>)
    requires InBeginOrder(regions) && regions != []
    ensures MergeAll(regions) != [] && Last(MergeAll(regions)).candidateBegin <= Last(regions).candidateBegin
  {
    var before := Front(regions);
    if before != [] { MergeAllLast(before); }
    MergeKeeps(MergeAll(before), Last(regions));
  }

  /** Regions in order of their begins cover, once merged, what they covered. */
  lemma {:induction false} MergeAllCovers(regions: seq<Region>, i: int, j: int)
    requires InBeginOrder(regions) && Covered(regions, i, j)
    ensures Covered(MergeAll(regions), i, j)
  {
    var before := Front(regions);
    var k :| 0 <= k < |regions| && Covers(regions[k], i, j);
    if k < |before| {
      assert Covers(before[k], i, j);
      MergeAllCovers(before, i, j);
    }
    if before != [] { MergeAllLast(before); }
    MergeBackCovers(MergeAll(before), Last(regions), i, j);
  }

  lemma MergeBackCovers(regions: seq<Region>, next: Region, i: int, j: int)
    requires (regions != [] ==> Last(regions).candidateBegin <= next.candidateBegin) && (Covered(regions, i, j) || Covers(next, i, j))
    ensures Covered(MergeBack(regions, next), i, j)
  {
    MergeKeeps(regions, next);
  }

  lemma {:induction false} MergeAllWithin(regions: seq<Region>, recordBegin: int, recordEnd: int)
    requires InBeginOrder(regions) && AllWithin(regions, recordBegin, recordEnd)
    ensures AllWithin(MergeAll(regions), recordBegin, recordEnd)
  {
    if regions != [] {
      var before := Front(regions);
      if before != [] { MergeAllLast(before); }
      MergeAllWithin(before, recordBegin, recordEnd);
      MergeKeeps(MergeAll(before), Last(regions));
    }
  }

  /** Candidate windows in order, with a start between any two that belongs to neither. */
  ghost predicate Separated(regions: seq<Region>) {
    && (forall k | 0 <= k < |regions| :: regions[k].candidateBegin <= regions[k].candidateEnd)
    && forall a, b | 0 <= a < b < |regions| :: regions[a].candidateEnd < regions[b].candidateBegin
  }

  /** Merging leaves no two windows that touch. */
  lemma {:induction false} MergeAllSeparated(regions: seq<Region>)
    requires forall k | 0 <= k < |regions| :: regions[k].candidateBegin <= regions[k].candidateEnd
    ensures Separated(MergeAll(regions))
  {
    if regions != [] {
      MergeAllSeparated(Front(regions));
      MergeSeparates(MergeAll(Front(regions)), Last(regions));
    }
  }

  lemma MergeSeparates(regions: seq<Region>, next: Region)
    requires Separated(regions) && next.candidateBegin <= next.candidateEnd
    ensures Separated(MergeBack(regions, next))
  {
    if regions != [] {
      forall a | 0 <= a < |regions| - 1 ensures regions[a].candidateEnd < Last(regions).candidateBegin {}
    }
  }

  /** Some region tries `x` as a start. */
  ghost predicate Tried(regions: seq<Region>, x: int) {
    exists k :: 0 <= k < |regions| && regions[k].candidateBegin <= x < regions[k].candidateEnd
  }

  /** Merging adds no start. */
  lemma {:induction false} MergeAllTries(regions: seq<Region>, x: int)
    requires InBeginOrder(regions) && Tried(MergeAll(regions), x)
    ensures Tried(regions, x)
  {
    if regions != [] {
      var before := Front(regions);
      if before != [] { MergeAllLast(before); }
      if MergeBackTries(MergeAll(before), Last(regions), x) {
        MergeAllTries(before, x);
        TriedMore(before, [Last(regions)], x);
      } else {
        assert Last(regions) == regions[|regions| - 1];
      }
    }
  }

  /** Whether the earlier regions tried it already; otherwise the last one does. */
  ghost predicate MergeBackTries(regions: seq<Region>, next: Region, x: int)
    requires (regions != [] ==> Last(regions).candidateBegin <= next.candidateBegin) && Tried(MergeBack(regions, next), x)
    ensures MergeBackTries(regions, next, x) || next.candidateBegin <= x < next.candidateEnd
  {
    var merged := MergeBack(regions, next);
    var k :| 0 <= k < |merged| && merged[k].candidateBegin <= x < merged[k].candidateEnd;
    assert k < |merged| - 1 ==> merged[k] == regions[k];
    Tried(regions, x)
  }

  lemma TriedMore(a: seq<Region>, b: seq<Region>, x: int)
    ensures Tried(a + b, x) <==> Tried(a, x) || Tried(b, x)
  {
    if k :| 0 <= k < |a| && a[k].candidateBegin <= x < a[k].candidateEnd { assert (a + b)[k] == a[k]; }
    if k :| 0 <= k < |b| && b[k].candidateBegin <= x < b[k].candidateEnd { assert (a + b)[|a| + k] == b[k]; }
  }

  method Merged(regions: seq<Region>) returns (merged: seq<Region>)
    ensures merged == MergeAll(regions)
  {
    merged := [];
    for k := 0 to |regions|
      invariant merged == MergeAll(regions[..k])
    {
      assert Front(regions[..k + 1]) == regions[..k];
      merged := MergeBack(merged, regions[k]);
    }
    assert regions[..|regions|] == regions;
  }

  // ----- regions around one literal -----

  function Extension(width: nat, lookahead: nat): nat {
    if width > U64_MAX - lookahead then U64_MAX else width + lookahead
  }

  /** A span of at most `width` that holds the literal at record offset `p`. */
  predicate Around(recordBegin: nat, recordEnd: nat, q: seq<Byte>, width: nat, p: int, i: int, j: int) {
    recordBegin <= i <= recordBegin + p && recordBegin + p + |q| <= j <= recordEnd && j <= i + width
  }

  /** The region of one occurrence, at record offset `at`. */
  function RegionAt(recordBegin: nat, recordEnd: nat, q: seq<Byte>, width: nat, lookahead: nat, at: nat): Region
    requires |q| <= width && recordBegin + at <= recordEnd
  {
    var absolute, slack, extension := recordBegin + at, width - |q|, Extension(width, lookahead);
    var begin := if absolute > slack then Max(recordBegin, absolute - slack) else recordBegin;
    var end := Min(recordEnd + 1, absolute + 1);
    Region(begin, end, begin, if recordEnd - end < extension then recordEnd else end + extension)
  }

  predicate Useful(r: Region) {
    r.candidateBegin < r.candidateEnd && r.candidateBegin < r.regionEnd
  }

  /** Adding the region of one occurrence. */
  function Absorbed(before: seq<Region>, r: Region): seq<Region> {
    if Useful(r) then MergeBack(before, r) else before
  }

  /** The regions of the occurrences from `from` on, merged into those before. */
  function RegionsFrom(record: seq<Byte>, recordBegin: nat, recordEnd: nat, q: seq<Byte>, width: nat, lookahead: nat, from: nat,
    before: seq<Region>): seq<Region>
    requires q != [] && |q| <= width && recordEnd == recordBegin + |record|
    decreases |record| + 1 - from
  {
    var at := Find(record, q, from);
    if at.None? then before
    else
      var r := RegionAt(recordBegin, recordEnd, q, width, lookahead, at.value);
      RegionsFrom(record, recordBegin, recordEnd, q, width, lookahead, at.value + 1, Absorbed(before, r))
  }

  function RegionsAround(record: seq<Byte>, recordBegin: nat, recordEnd: nat, q: seq<Byte>, width: nat, lookahead: nat): seq<Region>
    requires recordEnd == recordBegin + |record|
  {
    if q == [] || record == [] || |q| > width then [] else RegionsFrom(record, recordBegin, recordEnd, q, width, lookahead, 0, [])
  }

  /** The spans around the occurrences from `from` on are covered. */
  ghost predicate AroundCovered(record: seq<Byte>, recordBegin: nat, recordEnd: nat, q: seq<Byte>, width: nat, from: nat, regions: seq<Region>) {
    forall p, i, j | from <= p && OccursAt(record, q, p) && Around(recordBegin, recordEnd, q, width, p, i, j) :: Covered(regions, i, j)
  }

  lemma AroundNext(record: seq<Byte>, recordBegin: nat, recordEnd: nat, q: seq<Byte>, width: nat, from: nat, at: nat, regions: seq<Region>)
    requires Find(record, q, from) == Some(at) && AroundCovered(record, recordBegin, recordEnd, q, width, at + 1, regions)
    requires forall i, j | Around(recordBegin, recordEnd, q, width, at, i, j) :: Covered(regions, i, j)
    ensures AroundCovered(record, recordBegin, recordEnd, q, width, from, regions)
  {
    forall p, i, j | from <= p && OccursAt(record, q, p) && Around(recordBegin, recordEnd, q, width, p, i, j) ensures Covered(regions, i, j) {
      assert p == at || p >= at + 1;
    }
  }

  lemma RegionAtCovers(recordBegin: nat, recordEnd: nat, q: seq<Byte>, width: nat, lookahead: nat, at: nat, i: int, j: int)
    requires q != [] && |q| <= width && recordBegin + at <= recordEnd < U64_MAX && Around(recordBegin, recordEnd, q, width, at, i, j)
    ensures var r := RegionAt(recordBegin, recordEnd, q, width, lookahead, at); Covers(r, i, j) && Useful(r)
  {}

  lemma RegionAtPlace(recordBegin: nat, recordEnd: nat, q: seq<Byte>, width: nat, lookahead: nat, at: nat)
    requires q != [] && |q| <= width && recordBegin + at <= recordEnd < U64_MAX
    ensures
      var r := RegionAt(recordBegin, recordEnd, q, width, lookahead, at);
      r.candidateBegin == Max(recordBegin, recordBegin + at - (width - |q|)) && (Useful(r) ==> Within(r, recordBegin, recordEnd))
  {}

  /** The regions so far, and none that begins behind the region of an occurrence at `from`. */
  ghost predicate Upto(before: seq<Region>, recordBegin: nat, recordEnd: nat, q: seq<Byte>, width: nat, from: nat) {
    && AllWithin(before, recordBegin, recordEnd)
    && (before != [] ==> Last(before).candidateBegin <= Max(recordBegin, recordBegin + from - (width - |q|)))
  }

  lemma AbsorbedKeeps(recordBegin: nat, recordEnd: nat, q: seq<Byte>, width: nat, lookahead: nat, from: nat, at: nat, before: seq<Region>)
    requires q != [] && |q| <= width && from <= at && recordBegin + at <= recordEnd < U64_MAX && Upto(before, recordBegin, recordEnd, q, width, from)
    ensures
      var r := RegionAt(recordBegin, recordEnd, q, width, lookahead, at);
      var more := Absorbed(before, r);
      && Upto(more, recordBegin, recordEnd, q, width, at + 1)
      && (forall i, j | Covered(before, i, j) :: Covered(more, i, j))
      && forall i, j | Around(recordBegin, recordEnd, q, width, at, i, j) :: Covered(more, i, j)
  {
    var r := RegionAt(recordBegin, recordEnd, q, width, lookahead, at);
    RegionAtPlace(recordBegin, recordEnd, q, width, lookahead, at);
    if Useful(r) { MergeKeeps(before, r); }
    forall i, j | Around(recordBegin, recordEnd, q, width, at, i, j) ensures Covered(Absorbed(before, r), i, j) {
      RegionAtCovers(recordBegin, recordEnd, q, width, lookahead, at, i, j);
    }
  }

  lemma {:induction false} RegionsFromCover(record: seq<Byte>, recordBegin: nat, recordEnd: nat, q: seq<Byte>, width: nat, lookahead: nat, from: nat,
    before: seq<Region>)
    requires q != [] && |q| <= width && recordEnd == recordBegin + |record| && recordEnd < U64_MAX
    requires Upto(before, recordBegin, recordEnd, q, width, from)
    ensures
      var regions := RegionsFrom(record, recordBegin, recordEnd, q, width, lookahead, from, before);
      && AroundCovered(record, recordBegin, recordEnd, q, width, from, regions)
      && AllWithin(regions, recordBegin, recordEnd)
      && forall i, j | Covered(before, i, j) :: Covered(regions, i, j)
    decreases |record| + 1 - from
  {
    var at := Find(record, q, from);
    if at.Some? {
      var more := Absorbed(before, RegionAt(recordBegin, recordEnd, q, width, lookahead, at.value));
      AbsorbedKeeps(recordBegin, recordEnd, q, width, lookahead, from, at.value, before);
      RegionsFromCover(record, recordBegin, recordEnd, q, width, lookahead, at.value + 1, more);
      AroundNext(record, recordBegin, recordEnd, q, width, from, at.value,
        RegionsFrom(record, recordBegin, recordEnd, q, width, lookahead, at.value + 1, more));
    }
  }

  /** Every span around some occurrence of the literal is covered by a region. */
  lemma RegionsAroundCover(record: seq<Byte>, recordBegin: nat, recordEnd: nat, q: seq<Byte>, width: nat, lookahead: nat)
    requires recordEnd == recordBegin + |record| && recordEnd < U64_MAX
    ensures q != [] ==> AroundCovered(record, recordBegin, recordEnd, q, width, 0, RegionsAround(record, recordBegin, recordEnd, q, width, lookahead))
    ensures AllWithin(RegionsAround(record, recordBegin, recordEnd, q, width, lookahead), recordBegin, recordEnd)
  {
    if q != [] && |q| <= width { RegionsFromCover(record, recordBegin, recordEnd, q, width, lookahead, 0, []); }
  }

  method LiteralRegions(record: seq<Byte>, recordBegin: nat, recordEnd: nat, q: seq<Byte>, width: nat, lookahead: nat)
    returns (regions: seq<Region>)
    requires recordEnd == recordBegin + |record|
    ensures regions == RegionsAround(record, recordBegin, recordEnd, q, width, lookahead)
  {
    regions := [];
    if q == [] || record == [] || |q| > width {
      return;
    }
    ghost var from: nat := 0;
    var at := Find(record, q, 0);
    while at.Some?
      invariant at == Find(record, q, from)
      invariant RegionsAround(record, recordBegin, recordEnd, q, width, lookahead)
        == RegionsFrom(record, recordBegin, recordEnd, q, width, lookahead, from, regions)
      decreases |record| + 1 - from
    {
      var next := RegionAt(recordBegin, recordEnd, q, width, lookahead, at.value);
      regions := Absorbed(regions, next);
      from := at.value + 1;
      at := Find(record, q, at.value + 1);
    }
  }

  // ----- joining the starts several literals allow -----

  datatype Interval = Interval(begin: nat, end: nat)

  ghost predicate InSome(a: seq<Interval>, x: int) {
    exists k :: 0 <= k < |a| && a[k].begin <= x < a[k].end
  }

  /** Intervals that are not empty, begins and ends both in order; they may overlap. */
  ghost predicate Ordered(a: seq<Interval>) {
    && (forall k | 0 <= k < |a| :: a[k].begin < a[k].end)
    && forall k, m | 0 <= k < m < |a| :: a[k].begin <= a[m].begin && a[k].end <= a[m].end
  }

  /** Some occurrence of the constraint's literal stands at an allowed offset from `x`. */
  ghost predicate Allows(record: seq<Byte>, recordBegin: nat, q: Constraint, x: int) {
    exists p :: OccursAt(record, q.literal, p) && x + q.minStart <= recordBegin + p <= x + q.maxStart
  }

  /** The starts one occurrence allows, or nothing. */
  function StartsAt(recordBegin: nat, recordEnd: nat, q: Constraint, at: nat): seq<Interval> {
    if at < q.minStart then []
    else
      var absolute := recordBegin + at;
      var low := if absolute > q.maxStart then Max(recordBegin, absolute - q.maxStart) else recordBegin;
      var high := Min(recordEnd + 1, SatAdd(absolute - q.minStart, 1));
      if low < high then [Interval(low, high)] else []
  }

  /** The starts the occurrences from `from` on allow. */
  function ConstraintStarts(record: seq<Byte>, recordBegin: nat, recordEnd: nat, q: Constraint, from: nat): seq<Interval>
    decreases |record| + 1 - from
  {
    var at := Find(record, q.literal, from);
    if at.None? then [] else StartsAt(recordBegin, recordEnd, q, at.value) + ConstraintStarts(record, recordBegin, recordEnd, q, at.value + 1)
  }

  /** The starts all occurrences allow. */
  function AllStarts(record: seq<Byte>, recordBegin: nat, recordEnd: nat, q: Constraint): seq<Interval> {
    if q.literal == [] then [] else ConstraintStarts(record, recordBegin, recordEnd, q, 0)
  }

  lemma StartsSnoc(record: seq<Byte>, recordBegin: nat, recordEnd: nat, q: Constraint, from: nat, at: nat, before: seq<Interval>)
    requires Find(record, q.literal, from) == Some(at)
    ensures before + ConstraintStarts(record, recordBegin, recordEnd, q, from)
      == (before + StartsAt(recordBegin, recordEnd, q, at)) + ConstraintStarts(record, recordBegin, recordEnd, q, at + 1)
  {}

  /** Some occurrence from `from` on stands at an allowed offset from `x`. */
  ghost predicate AllowsFrom(record: seq<Byte>, recordBegin: nat, q: Constraint, from: nat, x: int) {
    exists p :: from <= p && OccursAt(record, q.literal, p) && x + q.minStart <= recordBegin + p <= x + q.maxStart
  }

  lemma InSomeCons(first: seq<Interval>, rest: seq<Interval>, x: int)
    requires |first| <= 1
    ensures InSome(first + rest, x) <==> InSome(first, x) || InSome(rest, x)
  {
    var all := first + rest;
    assert forall k | 0 <= k < |first| :: all[k] == first[k];
    if k :| 0 <= k < |all| && all[k].begin <= x < all[k].end && k >= |first| { assert rest[k - |first|] == all[k]; }
    if k :| 0 <= k < |rest| && rest[k].begin <= x < rest[k].end { assert all[|first| + k] == rest[k]; }
  }

  lemma OrderedCons(first: seq<Interval>, rest: seq<Interval>)
    requires |first| <= 1 && Ordered(rest) && (first != [] ==> first[0].begin < first[0].end)
    requires first != [] ==> forall k | 0 <= k < |rest| :: first[0].begin <= rest[k].begin && first[0].end <= rest[k].end
    ensures Ordered(first + rest)
  {
    var all := first + rest;
    forall k, m | 0 <= k < m < |all| ensures all[k].begin <= all[m].begin && all[k].end <= all[m].end {
      assert all[m] == rest[m - |first|];
      if k >= |first| { assert all[k] == rest[k - |first|]; }
    }
  }

  /** No interval begins or ends before the given places. */
  ghost predicate AtLeastFrom(a: seq<Interval>, begin: int, end: int) {
    forall k | 0 <= k < |a| :: begin <= a[k].begin && end <= a[k].end
  }

  lemma AtLeastCons(first: seq<Interval>, rest: seq<Interval>, begin: int, end: int)
    requires AtLeastFrom(first, begin, end) && AtLeastFrom(rest, begin, end)
    ensures AtLeastFrom(first + rest, begin, end)
  {
    forall k | 0 <= k < |first + rest| ensures begin <= (first + rest)[k].begin && end <= (first + rest)[k].end {
      if k >= |first| { assert (first + rest)[k] == rest[k - |first|]; }
    }
  }

  /** The places before which the starts of occurrences from `from` on neither begin nor end. */
  function LeastBegin(recordBegin: nat, q: Constraint, from: nat): int {
    Max(recordBegin, recordBegin + from - q.maxStart)
  }

  function LeastEnd(recordBegin: nat, recordEnd: nat, q: Constraint, from: nat): int {
    Min(recordEnd + 1, recordBegin + from - q.minStart + 1)
  }

  lemma StartsAtPlace(recordBegin: nat, recordEnd: nat, q: Constraint, at: nat)
    requires recordBegin + at <= recordEnd < U64_MAX && q.minStart <= q.maxStart && StartsAt(recordBegin, recordEnd, q, at) != []
    ensures
      var v := StartsAt(recordBegin, recordEnd, q, at)[0];
      v.begin < v.end && v.begin == LeastBegin(recordBegin, q, at) && v.end == LeastEnd(recordBegin, recordEnd, q, at)
  {}

  lemma AtLeastLess(a: seq<Interval>, begin: int, end: int, begin': int, end': int)
    requires AtLeastFrom(a, begin', end') && begin <= begin' && end <= end'
    ensures AtLeastFrom(a, begin, end)
  {}

  /** An occurrence further on allows intervals that begin and end further on. */
  lemma {:induction false} StartsFromOrdered(record: seq<Byte>, recordBegin: nat, recordEnd: nat, q: Constraint, from: nat)
    requires recordEnd == recordBegin + |record| && recordEnd < U64_MAX && q.literal != [] && q.minStart <= q.maxStart
    ensures
      var current := ConstraintStarts(record, recordBegin, recordEnd, q, from);
      Ordered(current) && AtLeastFrom(current, LeastBegin(recordBegin, q, from), LeastEnd(recordBegin, recordEnd, q, from))
    decreases |record| + 1 - from
  {
    var at := Find(record, q.literal, from);
    if at.Some? {
      var rest := ConstraintStarts(record, recordBegin, recordEnd, q, at.value + 1);
      StartsFromOrdered(record, recordBegin, recordEnd, q, at.value + 1);
      StartsCons(recordBegin, recordEnd, q, at.value, rest);
      AtLeastLess(StartsAt(recordBegin, recordEnd, q, at.value) + rest, LeastBegin(recordBegin, q, from), LeastEnd(recordBegin, recordEnd, q, from),
        LeastBegin(recordBegin, q, at.value), LeastEnd(recordBegin, recordEnd, q, at.value));
    }
  }

  /** The starts of one place, before those of later places. */
  lemma StartsCons(recordBegin: nat, recordEnd: nat, q: Constraint, at: nat, rest: seq<Interval>)
    requires recordBegin + at <= recordEnd < U64_MAX && q.minStart <= q.maxStart && Ordered(rest)
    requires AtLeastFrom(rest, LeastBegin(recordBegin, q, at + 1), LeastEnd(recordBegin, recordEnd, q, at + 1))
    ensures
      var all := StartsAt(recordBegin, recordEnd, q, at) + rest;
      Ordered(all) && AtLeastFrom(all, LeastBegin(recordBegin, q, at), LeastEnd(recordBegin, recordEnd, q, at))
  {
    var first := StartsAt(recordBegin, recordEnd, q, at);
    AtLeastLess(rest, LeastBegin(recordBegin, q, at), LeastEnd(recordBegin, recordEnd, q, at),
      LeastBegin(recordBegin, q, at + 1), LeastEnd(recordBegin, recordEnd, q, at + 1));
    if first != [] { StartsAtPlace(recordBegin, recordEnd, q, at); }
    OrderedCons(first, rest);
    AtLeastCons(first, rest, LeastBegin(recordBegin, q, at), LeastEnd(recordBegin, recordEnd, q, at));
  }

  lemma StartsAtIs(recordBegin: nat, recordEnd: nat, q: Constraint, at: nat, x: int)
    requires recordBegin + at <= recordEnd < U64_MAX && q.minStart <= q.maxStart
    ensures InSome(StartsAt(recordBegin, recordEnd, q, at), x)
      <==> recordBegin <= x <= recordEnd && x + q.minStart <= recordBegin + at <= x + q.maxStart
  {
    var s := StartsAt(recordBegin, recordEnd, q, at);
    assert s != [] ==> (InSome(s, x) <==> s[0].begin <= x < s[0].end);
  }

  lemma {:induction false} StartsFromExact(record: seq<Byte>, recordBegin: nat, recordEnd: nat, q: Constraint, from: nat, x: int)
    requires recordEnd == recordBegin + |record| && recordEnd < U64_MAX && q.literal != [] && q.minStart <= q.maxStart
    ensures InSome(ConstraintStarts(record, recordBegin, recordEnd, q, from), x)
      <==> recordBegin <= x <= recordEnd && AllowsFrom(record, recordBegin, q, from, x)
    decreases |record| + 1 - from
  {
    var at := Find(record, q.literal, from);
    if at.Some? {
      var rest := ConstraintStarts(record, recordBegin, recordEnd, q, at.value + 1);
      StartsFromExact(record, recordBegin, recordEnd, q, at.value + 1, x);
      StartsAtIs(recordBegin, recordEnd, q, at.value, x);
      InSomeCons(StartsAt(recordBegin, recordEnd, q, at.value), rest, x);
      NextAllows(record, recordBegin, q, from, at.value, x);
    }
  }

  lemma NextAllows(record: seq<Byte>, recordBegin: nat, q: Constraint, from: nat, at: nat, x: int)
    requires Find(record, q.literal, from) == Some(at)
    ensures AllowsFrom(record, recordBegin, q, from, x)
      <==> AllowsFrom(record, recordBegin, q, at + 1, x) || x + q.minStart <= recordBegin + at <= x + q.maxStart
  {
    if p :| from <= p && OccursAt(record, q.literal, p) && x + q.minStart <= recordBegin + p <= x + q.maxStart {
      assert p == at || p >= at + 1;
    }
  }

  /** The starts in the record one constraint allows, as intervals. */
  method AllowedStarts(record: seq<Byte>, recordBegin: nat, recordEnd: nat, q: Constraint) returns (current: seq<Interval>)
    ensures current == AllStarts(record, recordBegin, recordEnd, q)
  {
    current := [];
    if q.literal == [] {
      return;
    }
    var at := Find(record, q.literal, 0);
    ghost var from: nat := 0;
    while at.Some?
      invariant at == Find(record, q.literal, from)
      invariant ConstraintStarts(record, recordBegin, recordEnd, q, 0) == current + ConstraintStarts(record, recordBegin, recordEnd, q, from)
      decreases |record| + 1 - from
    {
      StartsSnoc(record, recordBegin, recordEnd, q, from, at.value, current);
      current := current + StartsAt(recordBegin, recordEnd, q, at.value);
      from := at.value + 1;
      at := Find(record, q.literal, at.value + 1);
    }
  }

  ghost predicate InFrom(a: seq<Interval>, from: nat, x: int) {
    exists k :: from <= k < |a| && a[k].begin <= x < a[k].end
  }

  /** The common starts of two intervals, or nothing. */
  function Common(v: Interval, w: Interval): seq<Interval> {
    var begin, end := Max(v.begin, w.begin), Min(v.end, w.end);
    if begin < end then [Interval(begin, end)] else []
  }

  /** What the two pointers, at `i` and `j`, still find in common. */
  function JoinFrom(a: seq<Interval>, b: seq<Interval>, i: nat, j: nat): seq<Interval>
    decreases |a| + |b| - i - j
  {
    if i >= |a| || j >= |b| then []
    else Common(a[i], b[j]) + if a[i].end < b[j].end then JoinFrom(a, b, i + 1, j) else JoinFrom(a, b, i, j + 1)
  }

  lemma {:induction false} JoinFromOrdered(a: seq<Interval>, b: seq<Interval>, i: nat, j: nat)
    requires Ordered(a) && Ordered(b)
    ensures Ordered(JoinFrom(a, b, i, j))
    ensures i < |a| && j < |b| ==> AtLeastFrom(JoinFrom(a, b, i, j), Max(a[i].begin, b[j].begin), Min(a[i].end, b[j].end))
    decreases |a| + |b| - i - j
  {
    if i < |a| && j < |b| {
      var begin, end := Max(a[i].begin, b[j].begin), Min(a[i].end, b[j].end);
      var first := Common(a[i], b[j]);
      var i', j' := if a[i].end < b[j].end then i + 1 else i, if a[i].end < b[j].end then j else j + 1;
      var rest := JoinFrom(a, b, i', j');
      JoinFromOrdered(a, b, i', j');
      assert AtLeastFrom(rest, begin, end);
      OrderedCons(first, rest);
      AtLeastCons(first, rest, begin, end);
    }
  }

  /** Over ordered lists that is exactly the common starts. */
  lemma {:induction false} JoinFromExact(a: seq<Interval>, b: seq<Interval>, i: nat, j: nat, x: int)
    requires Ordered(a) && Ordered(b)
    ensures InSome(JoinFrom(a, b, i, j), x) <==> InFrom(a, i, x) && InFrom(b, j, x)
    decreases |a| + |b| - i - j
  {
    if i < |a| && j < |b| {
      var first := Common(a[i], b[j]);
      JoinStep(a, b, i, j, x);
      assert first != [] ==> (InSome(first, x) <==> first[0].begin <= x < first[0].end);
      if a[i].end < b[j].end {
        JoinFromExact(a, b, i + 1, j, x);
        InSomeCons(first, JoinFrom(a, b, i + 1, j), x);
      } else {
        JoinFromExact(a, b, i, j + 1, x);
        InSomeCons(first, JoinFrom(a, b, i, j + 1), x);
      }
    }
  }

  /** A common start lies in both intervals at the pointers, or behind the one that ends
      first. */
  lemma JoinStep(a: seq<Interval>, b: seq<Interval>, i: nat, j: nat, x: int)
    requires Ordered(a) && Ordered(b) && i < |a| && j < |b|
    ensures InFrom(a, i, x) && InFrom(b, j, x) <==>
      (|| Max(a[i].begin, b[j].begin) <= x < Min(a[i].end, b[j].end)
       || (if a[i].end < b[j].end then InFrom(a, i + 1, x) && InFrom(b, j, x) else InFrom(a, i, x) && InFrom(b, j + 1, x)))
  {
    if InFrom(a, i, x) && InFrom(b, j, x) {
      var k :| i <= k < |a| && a[k].begin <= x < a[k].end;
      var m :| j <= m < |b| && b[m].begin <= x < b[m].end;
      assert a[i].begin <= a[k].begin && b[j].begin <= b[m].begin;
      assert k == i && m == j ==> Max(a[i].begin, b[j].begin) <= x < Min(a[i].end, b[j].end);
    }
  }

  lemma Regrouped(a: seq<Interval>, b: seq<Interval>, c: seq<Interval>)
    ensures a + (b + c) == (a + b) + c
  {}

  /** The two-pointer join. */
  method Join(a: seq<Interval>, b: seq<Interval>) returns (next: seq<Interval>)
    ensures next == JoinFrom(a, b, 0, 0)
  {
    next := [];
    var i: nat, j: nat := 0, 0;
    while i < |a| && j < |b|
      invariant JoinFrom(a, b, 0, 0) == next + JoinFrom(a, b, i, j)
      decreases |a| + |b| - i - j
    {
      Regrouped(next, Common(a[i], b[j]), if a[i].end < b[j].end then JoinFrom(a, b, i + 1, j) else JoinFrom(a, b, i, j + 1));
      next := next + Common(a[i], b[j]);
      if a[i].end < b[j].end {
        i := i + 1;
      } else {
        j := j + 1;
      }
    }
  }

  /** The starts each constraint allows. */
  function StartLists(record: seq<Byte>, recordBegin: nat, recordEnd: nat, constraints: seq<Constraint>): (lists: seq<seq<Interval>>)
    ensures |lists| == |constraints|
    ensures forall k | 0 <= k < |lists| :: lists[k] == AllStarts(record, recordBegin, recordEnd, constraints[k])
  {
    seq(|constraints|, k requires 0 <= k < |constraints| => AllStarts(record, recordBegin, recordEnd, constraints[k]))
  }

  /** The lists joined one after the other. */
  function JoinAll(lists: seq<seq<Interval>>): seq<Interval>
    requires lists != []
  {
    if |lists| == 1 then lists[0] else JoinFrom(JoinAll(Front(lists)), Last(lists), 0, 0)
  }

  /** Nothing joined with anything is nothing. */
  lemma {:induction false} JoinAllNone(lists: seq<seq<Interval>>, n: nat)
    requires 0 < n <= |lists| && JoinAll(lists[..n]) == []
    ensures JoinAll(lists) == []
  {
    if n == |lists| {
      assert lists[..n] == lists;
    } else {
      assert Front(lists)[..n] == lists[..n];
      JoinAllNone(Front(lists), n);
    }
  }

  ghost predicate AllowedByFirst(record: seq<Byte>, recordBegin: nat, constraints: seq<Constraint>, n: int, x: int)
    requires n <= |constraints|
  {
    forall k | 0 <= k < n :: Allows(record, recordBegin, constraints[k], x)
  }

  predicate Proper(constraints: seq<Constraint>) {
    forall k | 0 <= k < |constraints| :: constraints[k].literal != [] && constraints[k].minStart <= constraints[k].maxStart
  }

  /** A list that holds exactly the starts in the record one constraint allows. */
  lemma AllStartsExact(record: seq<Byte>, recordBegin: nat, recordEnd: nat, q: Constraint, x: int)
    requires recordEnd == recordBegin + |record| && recordEnd < U64_MAX && q.literal != [] && q.minStart <= q.maxStart
    ensures Ordered(AllStarts(record, recordBegin, recordEnd, q))
    ensures InSome(AllStarts(record, recordBegin, recordEnd, q), x) <==> recordBegin <= x <= recordEnd && Allows(record, recordBegin, q, x)
  {
    StartsFromOrdered(record, recordBegin, recordEnd, q, 0);
    StartsFromExact(record, recordBegin, recordEnd, q, 0, x);
    assert AllowsFrom(record, recordBegin, q, 0, x) <==> Allows(record, recordBegin, q, x);
  }

  /** The join of ordered lists is ordered and holds exactly what all of them hold. */
  lemma {:induction false} JoinAllExact(lists: seq<seq<Interval>>, x: int)
    requires lists != [] && forall k | 0 <= k < |lists| :: Ordered(lists[k])
    ensures Ordered(JoinAll(lists))
    ensures InSome(JoinAll(lists), x) <==> forall k | 0 <= k < |lists| :: InSome(lists[k], x)
  {
    if |lists| > 1 {
      var fewer := Front(lists);
      var joined, current := JoinAll(fewer), Last(lists);
      JoinAllExact(fewer, x);
      JoinFromOrdered(joined, current, 0, 0);
      JoinFromExact(joined, current, 0, 0, x);
      assert InFrom(joined, 0, x) <==> InSome(joined, x);
      assert InFrom(current, 0, x) <==> InSome(current, x);
      if forall k | 0 <= k < |fewer| :: InSome(fewer[k], x) {
        assert forall k | 0 <= k < |lists| - 1 :: lists[k] == fewer[k];
      }
      if forall k | 0 <= k < |lists| :: InSome(lists[k], x) {
        assert forall k | 0 <= k < |fewer| :: fewer[k] == lists[k];
      }
    }
  }

  /** The joined intervals hold exactly the starts that all constraints allow. */
  lemma JoinedExact(record: seq<Byte>, recordBegin: nat, recordEnd: nat, constraints: seq<Constraint>, x: int)
    requires recordEnd == recordBegin + |record| && recordEnd < U64_MAX && Proper(constraints) && constraints != []
    ensures
      var joined := JoinAll(StartLists(record, recordBegin, recordEnd, constraints));
      && Ordered(joined)
      && (InSome(joined, x) <==> recordBegin <= x <= recordEnd && AllowedByFirst(record, recordBegin, constraints, |constraints|, x))
  {
    var lists := StartLists(record, recordBegin, recordEnd, constraints);
    forall k | 0 <= k < |lists|
      ensures Ordered(lists[k])
      ensures InSome(lists[k], x) <==> recordBegin <= x <= recordEnd && Allows(record, recordBegin, constraints[k], x)
    {
      AllStartsExact(record, recordBegin, recordEnd, constraints[k], x);
    }
    JoinAllExact(lists, x);
    assert InSome(lists[0], x) ==> recordBegin <= x <= recordEnd;
  }

  /** The starts all constraints allow. */
  method JoinedStarts(record: seq<Byte>, recordBegin: nat, recordEnd: nat, constraints: seq<Constraint>) returns (joined: seq<Interval>)
    requires constraints != []
    ensures joined == JoinAll(StartLists(record, recordBegin, recordEnd, constraints))
  {
    ghost var lists := StartLists(record, recordBegin, recordEnd, constraints);
    joined := AllowedStarts(record, recordBegin, recordEnd, constraints[0]);
    var n: nat := 1;
    while joined != [] && n < |constraints|
      invariant 1 <= n <= |constraints| && joined == JoinAll(lists[..n])
      decreases |constraints| - n
    {
      var current := AllowedStarts(record, recordBegin, recordEnd, constraints[n]);
      assert Front(lists[..n + 1]) == lists[..n] && Last(lists[..n + 1]) == current;
      joined := Join(joined, current);
      n := n + 1;
    }
    if joined == [] {
      JoinAllNone(lists, n);
    } else {
      assert lists[..n] == lists;
    }
  }

  /** The region of one interval of starts, or nothing. */
  function RegionOf(recordBegin: nat, recordEnd: nat, v: Interval, width: nat, lookahead: nat, back: nat): seq<Region> {
    var regionBegin := if v.begin > back then Max(recordBegin, v.begin - back) else recordBegin;
    var regionEnd := Min(recordEnd, SatAdd(v.end, SatAdd(width, lookahead)));
    if v.begin < v.end && regionBegin < regionEnd then [Region(v.begin, v.end, regionBegin, regionEnd)] else []
  }

  function RegionsOver(recordBegin: nat, recordEnd: nat, joined: seq<Interval>, width: nat, lookahead: nat, back: nat): seq<Region> {
    if joined == [] then []
    else RegionsOver(recordBegin, recordEnd, Front(joined), width, lookahead, back) + RegionOf(recordBegin, recordEnd, Last(joined), width, lookahead, back)
  }

  function RegionsJoined(record: seq<Byte>, recordBegin: nat, recordEnd: nat, constraints: seq<Constraint>, width: nat, lookahead: nat, back: nat): seq<Region> {
    if constraints == [] || record == [] then []
    else MergeAll(RegionsOver(recordBegin, recordEnd, JoinAll(StartLists(record, recordBegin, recordEnd, constraints)), width, lookahead, back))
  }

  /** The short enough spans from the given starts are covered. */
  ghost predicate SpansCovered(recordBegin: nat, recordEnd: nat, joined: seq<Interval>, width: nat, regions: seq<Region>) {
    forall i, j | recordBegin <= i < j <= recordEnd && j <= i + width && InSome(joined, i) :: Covered(regions, i, j)
  }

  /** Useful regions inside the record, their begins in order and none behind `bound`. */
  ghost predicate Lined(regions: seq<Region>, recordBegin: nat, recordEnd: nat, bound: int) {
    && AllWithin(regions, recordBegin, recordEnd) && InBeginOrder(regions)
    && forall a | 0 <= a < |regions| :: regions[a].candidateBegin <= bound
  }

  lemma LinedSnoc(before: seq<Region>, more: seq<Region>, recordBegin: nat, recordEnd: nat, bound: int, next: int)
    requires Lined(before, recordBegin, recordEnd, bound) && bound <= next && |more| <= 1
    requires forall a | 0 <= a < |more| :: Within(more[a], recordBegin, recordEnd) && more[a].candidateBegin == next
    ensures Lined(before + more, recordBegin, recordEnd, next)
  {
    var all := before + more;
    forall a | 0 <= a < |all| ensures Within(all[a], recordBegin, recordEnd) && all[a].candidateBegin <= next {
      if a >= |before| { assert all[a] == more[a - |before|]; }
    }
  }

  lemma {:induction false} RegionsOverOrdered(recordBegin: nat, recordEnd: nat, joined: seq<Interval>, width: nat, lookahead: nat, back: nat)
    requires recordBegin <= recordEnd < U64_MAX && Ordered(joined)
    requires forall k | 0 <= k < |joined| :: recordBegin <= joined[k].begin && joined[k].end <= recordEnd + 1
    ensures Lined(RegionsOver(recordBegin, recordEnd, joined, width, lookahead, back), recordBegin, recordEnd,
      if joined == [] then 0 else Last(joined).begin)
  {
    if joined != [] {
      var fewer, v := Front(joined), Last(joined);
      RegionsOverOrdered(recordBegin, recordEnd, fewer, width, lookahead, back);
      assert |joined| > 1 ==> Last(fewer) == joined[|joined| - 2];
      LinedSnoc(RegionsOver(recordBegin, recordEnd, fewer, width, lookahead, back), RegionOf(recordBegin, recordEnd, v, width, lookahead, back),
        recordBegin, recordEnd, if fewer == [] then 0 else Last(fewer).begin, v.begin);
    }
  }

  lemma {:induction false} RegionsOverCover(recordBegin: nat, recordEnd: nat, joined: seq<Interval>, width: nat, lookahead: nat, back: nat)
    requires recordBegin <= recordEnd < U64_MAX
    ensures SpansCovered(recordBegin, recordEnd, joined, width, RegionsOver(recordBegin, recordEnd, joined, width, lookahead, back))
  {
    if joined != [] {
      RegionsOverCover(recordBegin, recordEnd, Front(joined), width, lookahead, back);
      SpansCoveredSnoc(recordBegin, recordEnd, joined, width, lookahead, back, RegionsOver(recordBegin, recordEnd, Front(joined), width, lookahead, back));
    }
  }

  lemma SpansCoveredSnoc(recordBegin: nat, recordEnd: nat, joined: seq<Interval>, width: nat, lookahead: nat, back: nat, before: seq<Region>)
    requires recordBegin <= recordEnd < U64_MAX && joined != [] && SpansCovered(recordBegin, recordEnd, Front(joined), width, before)
    ensures SpansCovered(recordBegin, recordEnd, joined, width, before + RegionOf(recordBegin, recordEnd, Last(joined), width, lookahead, back))
  {
    var fewer, all := Front(joined), before + RegionOf(recordBegin, recordEnd, Last(joined), width, lookahead, back);
    forall i, j | recordBegin <= i < j <= recordEnd && j <= i + width && InSome(joined, i) ensures Covered(all, i, j) {
      var k :| 0 <= k < |joined| && joined[k].begin <= i < joined[k].end;
      if k < |fewer| {
        assert fewer[k] == joined[k];
        assert InSome(fewer, i) && Covered(before, i, j);
        var m :| 0 <= m < |before| && Covers(before[m], i, j);
        assert Covers(all[m], i, j);
      } else {
        assert Covers(all[|before|], i, j);
      }
    }
  }

  /** Every short enough span from a start that all constraints allow is covered. */
  lemma RegionsJoinedCover(record: seq<Byte>, recordBegin: nat, recordEnd: nat, constraints: seq<Constraint>, width: nat, lookahead: nat, back: nat)
    requires recordEnd == recordBegin + |record| && recordEnd < U64_MAX && Proper(constraints)
    ensures
      var merged := RegionsJoined(record, recordBegin, recordEnd, constraints, width, lookahead, back);
      && AllWithin(merged, recordBegin, recordEnd)
      && forall i, j | constraints != [] && recordBegin <= i < j <= recordEnd && j <= i + width
           && AllowedByFirst(record, recordBegin, constraints, |constraints|, i) :: Covered(merged, i, j)
  {
    if constraints != [] && record != [] {
      var joined := JoinAll(StartLists(record, recordBegin, recordEnd, constraints));
      forall x ensures InSome(joined, x) <==> recordBegin <= x <= recordEnd && AllowedByFirst(record, recordBegin, constraints, |constraints|, x) {
        JoinedExact(record, recordBegin, recordEnd, constraints, x);
      }
      JoinedPlace(record, recordBegin, recordEnd, constraints);
      RegionsOverOrdered(recordBegin, recordEnd, joined, width, lookahead, back);
      RegionsOverCover(recordBegin, recordEnd, joined, width, lookahead, back);
      var regions := RegionsOver(recordBegin, recordEnd, joined, width, lookahead, back);
      MergeAllWithin(regions, recordBegin, recordEnd);
      forall i, j | Covered(regions, i, j) ensures Covered(MergeAll(regions), i, j) { MergeAllCovers(regions, i, j); }
    }
  }

  lemma {:induction false} RegionsOverTry(recordBegin: nat, recordEnd: nat, joined: seq<Interval>, width: nat, lookahead: nat, back: nat, x: int)
    requires Tried(RegionsOver(recordBegin, recordEnd, joined, width, lookahead, back), x)
    ensures InSome(joined, x)
  {
    if joined != [] {
      var fewer, v := Front(joined), Last(joined);
      TriedMore(RegionsOver(recordBegin, recordEnd, fewer, width, lookahead, back), RegionOf(recordBegin, recordEnd, v, width, lookahead, back), x);
      if Tried(RegionsOver(recordBegin, recordEnd, fewer, width, lookahead, back), x) {
        RegionsOverTry(recordBegin, recordEnd, fewer, width, lookahead, back, x);
        var k :| 0 <= k < |fewer| && fewer[k].begin <= x < fewer[k].end;
        assert joined[k] == fewer[k];
      } else {
        assert joined[|joined| - 1] == v;
      }
    }
  }

  /** Only starts that all constraints allow are tried. */
  lemma RegionsJoinedTry(record: seq<Byte>, recordBegin: nat, recordEnd: nat, constraints: seq<Constraint>, width: nat, lookahead: nat, back: nat, x: int)
    requires recordEnd == recordBegin + |record| && recordEnd < U64_MAX && Proper(constraints)
    requires Tried(RegionsJoined(record, recordBegin, recordEnd, constraints, width, lookahead, back), x)
    ensures AllowedByFirst(record, recordBegin, constraints, |constraints|, x)
  {
    var joined := JoinAll(StartLists(record, recordBegin, recordEnd, constraints));
    JoinedPlace(record, recordBegin, recordEnd, constraints);
    RegionsOverOrdered(recordBegin, recordEnd, joined, width, lookahead, back);
    MergeAllTries(RegionsOver(recordBegin, recordEnd, joined, width, lookahead, back), x);
    RegionsOverTry(recordBegin, recordEnd, joined, width, lookahead, back, x);
    JoinedExact(record, recordBegin, recordEnd, constraints, x);
  }

  /** The joined intervals lie in the record. */
  lemma JoinedPlace(record: seq<Byte>, recordBegin: nat, recordEnd: nat, constraints: seq<Constraint>)
    requires recordEnd == recordBegin + |record| && recordEnd < U64_MAX && Proper(constraints) && constraints != []
    ensures
      var joined := JoinAll(StartLists(record, recordBegin, recordEnd, constraints));
      Ordered(joined) && forall k | 0 <= k < |joined| :: recordBegin <= joined[k].begin && joined[k].end <= recordEnd + 1
  {
    var joined := JoinAll(StartLists(record, recordBegin, recordEnd, constraints));
    JoinedExact(record, recordBegin, recordEnd, constraints, 0);
    forall k | 0 <= k < |joined| ensures recordBegin <= joined[k].begin && joined[k].end <= recordEnd + 1 {
      JoinedExact(record, recordBegin, recordEnd, constraints, joined[k].begin);
      JoinedExact(record, recordBegin, recordEnd, constraints, joined[k].end - 1);
      assert InSome(joined, joined[k].begin) && InSome(joined, joined[k].end - 1);
    }
  }

  method JoinedRegions(record: seq<Byte>, recordBegin: nat, recordEnd: nat, constraints: seq<Constraint>, width: nat, lookahead: nat, back: nat)
    returns (merged: seq<Region>)
    ensures merged == RegionsJoined(record, recordBegin, recordEnd, constraints, width, lookahead, back)
  {
    if constraints == [] || record == [] {
      return [];
    }
    var joined := JoinedStarts(record, recordBegin, recordEnd, constraints);
    var regions: seq<Region> := [];
    for k := 0 to |joined|
      invariant regions == RegionsOver(recordBegin, recordEnd, joined[..k], width, lookahead, back)
    {
      assert Front(joined[..k + 1]) == joined[..k];
      regions := regions + RegionOf(recordBegin, recordEnd, joined[k], width, lookahead, back);
    }
    assert joined[..|joined|] == joined;
    merged := Merged(regions);
  }
}
