/** The list of matches that repeated searches produce, whatever does the searching. */
module MatchList {
  import opened Basics
  import opened RegexAst

  /** The first match a search reports, for each first candidate start. */
  type Finder = nat -> Option<Span>

  /** Where the search goes on after a match. */
  function Next(sp: Span, overlapping: bool): int {
    if overlapping || sp.end <= sp.start then sp.start + 1 else sp.end
  }

  /** The matches one search after the other reports, from `pos` on. A search that
      reported a span before its window would end the list. */
  ghost function ListFrom(find: Finder, end: nat, overlapping: bool, pos: nat): seq<Span>
    decreases end - pos
  {
    if pos >= end || find(pos).None? || find(pos).value.start < pos then []
    else [find(pos).value] + ListFrom(find, end, overlapping, Next(find(pos).value, overlapping))
  }

  /** Spans are matches that start in the window from `pos` on; starts ascend, and
      without `overlapping` no two spans overlap. */
  ghost predicate Listing(n: Node, c: Context, overlapping: bool, pos: int, all: seq<Span>) {
    && (forall k | 0 <= k < |all| :: pos <= all[k].start < c.candidateEnd && Matches(n, c, all[k].start, all[k].end))
    && forall a, b | 0 <= a < b < |all| :: Next(all[a], overlapping) <= all[b].start
  }

  lemma ListingCons(n: Node, c: Context, overlapping: bool, pos: int, sp: Span, rest: seq<Span>)
    requires pos <= sp.start < c.candidateEnd && Matches(n, c, sp.start, sp.end) && Listing(n, c, overlapping, Next(sp, overlapping), rest)
    ensures Listing(n, c, overlapping, pos, [sp] + rest)
  {
    var all := [sp] + rest;
    forall k | 0 <= k < |all| ensures pos <= all[k].start < c.candidateEnd && Matches(n, c, all[k].start, all[k].end) {
      if k > 0 { assert all[k] == rest[k - 1]; }
    }
  }

  /** When each search reports a match in its window, the list is a listing. */
  lemma {:induction false} ListIsListing(find: Finder, n: Node, c: Context, overlapping: bool, pos: nat)
    requires c.candidateBegin <= pos
    requires forall p: nat | c.candidateBegin <= p < c.candidateEnd && find(p).Some? ::
      find(p).value.start < c.candidateEnd && Matches(n, c, find(p).value.start, find(p).value.end)
    ensures Listing(n, c, overlapping, pos, ListFrom(find, c.candidateEnd, overlapping, pos))
    decreases c.candidateEnd - pos
  {
    if pos < c.candidateEnd && find(pos).Some? && pos <= find(pos).value.start {
      var next := Next(find(pos).value, overlapping);
      ListIsListing(find, n, c, overlapping, next);
      ListingCons(n, c, overlapping, pos, find(pos).value, ListFrom(find, c.candidateEnd, overlapping, next));
    }
  }

  ghost predicate FindsAhead(find: Finder, p: nat) {
    find(p).Some? && p <= find(p).value.start
  }

  /** While searches report something, the list goes on past `i`. */
  lemma {:induction false} ListReaches(find: Finder, end: nat, overlapping: bool, pos: nat, i: nat) returns (k: nat)
    requires pos <= i < end && forall p: nat | pos <= p <= i :: FindsAhead(find, p)
    ensures k < |ListFrom(find, end, overlapping, pos)| && i < Next(ListFrom(find, end, overlapping, pos)[k], overlapping)
    decreases end - pos
  {
    assert FindsAhead(find, pos);
    var next := Next(find(pos).value, overlapping);
    k := 0;
    if next <= i {
      var m := ListReaches(find, end, overlapping, next, i);
      k := m + 1;
    }
  }

  // ----- the greedy choice among spans of one width -----

  /** Where a match starts. */
  type Starts = int -> bool

  function SpanAt(s: int, w: nat): Span {
    Span(s, s + w)
  }

  /** Left to right from `pos` on: every start that is met, and on from behind its match. */
  ghost function Greedy(at: Starts, w: nat, overlapping: bool, pos: nat, end: nat): seq<Span>
    decreases end - pos
  {
    if pos >= end then []
    else if at(pos) then [SpanAt(pos, w)] + Greedy(at, w, overlapping, Next(SpanAt(pos, w), overlapping), end)
    else Greedy(at, w, overlapping, pos + 1, end)
  }

  ghost predicate NoStart(at: Starts, a: int, b: int) {
    forall s | a <= s < b :: !at(s)
  }

  lemma {:induction false} GreedySkip(at: Starts, w: nat, overlapping: bool, a: nat, b: nat, end: nat)
    requires a <= b <= end && NoStart(at, a, b)
    ensures Greedy(at, w, overlapping, a, end) == Greedy(at, w, overlapping, b, end)
    decreases b - a
  {
    if a < b { GreedySkip(at, w, overlapping, a + 1, b, end); }
  }

  /** The search from `pos` reports the first start of the window. */
  ghost predicate FindsFirst(at: Starts, w: nat, pos: int, end: int, found: Option<Span>) {
    match found
    case Some(sp) => pos <= sp.start < end && sp == SpanAt(sp.start, w) && at(sp.start) && NoStart(at, pos, sp.start)
    case None => NoStart(at, pos, end)
  }

  /** Searches that report the first start list the greedy choice. */
  lemma {:induction false} ListIsGreedy(find: Finder, at: Starts, w: nat, overlapping: bool, pos: nat, end: nat)
    requires forall p: nat | pos <= p < end :: FindsFirst(at, w, p, end, find(p))
    ensures ListFrom(find, end, overlapping, pos) == Greedy(at, w, overlapping, pos, end)
    decreases end - pos
  {
    if pos < end {
      assert FindsFirst(at, w, pos, end, find(pos));
      if find(pos).None? {
        GreedySkip(at, w, overlapping, pos, end, end);
      } else {
        GreedySkip(at, w, overlapping, pos, find(pos).value.start, end);
        ListIsGreedy(find, at, w, overlapping, Next(find(pos).value, overlapping), end);
      }
    }
  }

  /** Listed spans stand at starts of the window, and none begins before the last one ends
      its search. */
  ghost predicate Chosen(at: Starts, w: nat, overlapping: bool, pos: int, end: int, all: seq<Span>) {
    (forall k | 0 <= k < |all| :: StandsIn(at, w, pos, end, all[k])) && NoOverlap(overlapping, all)
  }

  ghost predicate StandsIn(at: Starts, w: nat, pos: int, end: int, sp: Span) {
    pos <= sp.start < end && at(sp.start) && sp == SpanAt(sp.start, w)
  }

  ghost predicate NoOverlap(overlapping: bool, all: seq<Span>) {
    forall a, b | 0 <= a < b < |all| :: Next(all[a], overlapping) <= all[b].start
  }

  /** A listed span begins at `s`, or before it and goes on past it. */
  ghost predicate Met(overlapping: bool, all: seq<Span>, s: int) {
    exists k :: 0 <= k < |all| && all[k].start <= s < Next(all[k], overlapping)
  }

  ghost predicate AllMet(at: Starts, overlapping: bool, pos: int, end: int, all: seq<Span>) {
    forall s {:trigger Met(overlapping, all, s)} | pos <= s < end && at(s) :: Met(overlapping, all, s)
  }

  lemma ChosenCons(at: Starts, w: nat, overlapping: bool, pos: int, end: int, rest: seq<Span>)
    requires pos < end && at(pos) && Chosen(at, w, overlapping, Next(SpanAt(pos, w), overlapping), end, rest)
    ensures Chosen(at, w, overlapping, pos, end, [SpanAt(pos, w)] + rest)
  {
    var all := [SpanAt(pos, w)] + rest;
    forall k | 0 <= k < |all| ensures StandsIn(at, w, pos, end, all[k]) {
      if k > 0 { assert all[k] == rest[k - 1] && StandsIn(at, w, Next(SpanAt(pos, w), overlapping), end, rest[k - 1]); }
    }
    forall a, b | 0 <= a < b < |all| ensures Next(all[a], overlapping) <= all[b].start {
      assert all[b] == rest[b - 1] && StandsIn(at, w, Next(SpanAt(pos, w), overlapping), end, rest[b - 1]);
      if a > 0 { assert all[a] == rest[a - 1]; }
    }
  }

  lemma MetCons(overlapping: bool, sp: Span, rest: seq<Span>, s: int)
    requires sp.start <= s < Next(sp, overlapping) || Met(overlapping, rest, s)
    ensures Met(overlapping, [sp] + rest, s)
  {
    var all := [sp] + rest;
    if sp.start <= s < Next(sp, overlapping) {
      assert all[0] == sp;
    } else {
      var k :| 0 <= k < |rest| && rest[k].start <= s < Next(rest[k], overlapping);
      assert all[k + 1] == rest[k];
    }
  }

  /** The greedy list is such a choice, and meets every start. */
  lemma {:induction false} GreedyMeets(at: Starts, w: nat, overlapping: bool, pos: nat, end: nat)
    ensures Chosen(at, w, overlapping, pos, end, Greedy(at, w, overlapping, pos, end))
    ensures AllMet(at, overlapping, pos, end, Greedy(at, w, overlapping, pos, end))
    decreases end - pos
  {
    if pos < end {
      var sp := SpanAt(pos, w);
      var next := if at(pos) then Next(sp, overlapping) else pos + 1;
      GreedyMeets(at, w, overlapping, next, end);
      var rest := Greedy(at, w, overlapping, next, end);
      if at(pos) { ChosenCons(at, w, overlapping, pos, end, rest); }
      forall s | pos <= s < end && at(s) ensures Met(overlapping, Greedy(at, w, overlapping, pos, end), s) {
        if s >= next { assert Met(overlapping, rest, s); }
        if at(pos) { MetCons(overlapping, sp, rest, s); }
      }
    }
  }

  /** It is the only one: a choice that meets every start is the greedy list. */
  lemma {:induction false} GreedyAlone(at: Starts, w: nat, overlapping: bool, pos: nat, end: nat, all: seq<Span>)
    requires Chosen(at, w, overlapping, pos, end, all) && AllMet(at, overlapping, pos, end, all)
    ensures all == Greedy(at, w, overlapping, pos, end)
    decreases end - pos
  {
    if pos >= end {
      if all != [] { WindowLeft(at, w, overlapping, pos, end, all); }
    } else if at(pos) {
      FirstMet(at, w, overlapping, pos, end, all);
      var next := Next(SpanAt(pos, w), overlapping);
      RestChosen(at, w, overlapping, pos, end, SpanAt(pos, w), all[1..]);
      RestMet(at, overlapping, pos, end, SpanAt(pos, w), all[1..]);
      GreedyAlone(at, w, overlapping, next, end, all[1..]);
    } else {
      LaterChosen(at, w, overlapping, pos, end, all);
      GreedyAlone(at, w, overlapping, pos + 1, end, all);
    }
  }

  lemma WindowLeft(at: Starts, w: nat, overlapping: bool, pos: nat, end: nat, all: seq<Span>)
    requires all != [] && Chosen(at, w, overlapping, pos, end, all)
    ensures pos < end
  {
    assert StandsIn(at, w, pos, end, all[0]);
  }

  lemma FirstMet(at: Starts, w: nat, overlapping: bool, pos: nat, end: nat, all: seq<Span>)
    requires pos < end && at(pos) && Chosen(at, w, overlapping, pos, end, all) && AllMet(at, overlapping, pos, end, all)
    ensures all != [] && all == [SpanAt(pos, w)] + all[1..]
  {
    assert Met(overlapping, all, pos);
    var k :| 0 <= k < |all| && all[k].start <= pos < Next(all[k], overlapping);
    assert StandsIn(at, w, pos, end, all[k]) && StandsIn(at, w, pos, end, all[0]);
    assert all[0].start <= all[k].start;
  }

  lemma LaterChosen(at: Starts, w: nat, overlapping: bool, pos: nat, end: nat, all: seq<Span>)
    requires !at(pos) && Chosen(at, w, overlapping, pos, end, all)
    ensures Chosen(at, w, overlapping, pos + 1, end, all)
  {
    forall k | 0 <= k < |all| ensures StandsIn(at, w, pos + 1, end, all[k]) { assert StandsIn(at, w, pos, end, all[k]); }
  }

  lemma RestChosen(at: Starts, w: nat, overlapping: bool, pos: int, end: int, sp: Span, rest: seq<Span>)
    requires Chosen(at, w, overlapping, pos, end, [sp] + rest)
    ensures Chosen(at, w, overlapping, Next(sp, overlapping), end, rest)
  {
    var all := [sp] + rest;
    forall k | 0 <= k < |rest| ensures StandsIn(at, w, Next(sp, overlapping), end, rest[k]) {
      assert all[k + 1] == rest[k] && all[0] == sp && StandsIn(at, w, pos, end, all[k + 1]);
    }
    forall a, b | 0 <= a < b < |rest| ensures Next(rest[a], overlapping) <= rest[b].start {
      assert all[a + 1] == rest[a] && all[b + 1] == rest[b];
    }
  }

  lemma RestMet(at: Starts, overlapping: bool, pos: int, end: int, sp: Span, rest: seq<Span>)
    requires pos <= sp.start && AllMet(at, overlapping, pos, end, [sp] + rest)
    ensures AllMet(at, overlapping, Next(sp, overlapping), end, rest)
  {
    var all := [sp] + rest;
    forall s | Next(sp, overlapping) <= s < end && at(s) ensures Met(overlapping, rest, s) {
      assert Met(overlapping, all, s);
      var k :| 0 <= k < |all| && all[k].start <= s < Next(all[k], overlapping);
      assert rest[k - 1] == all[k];
    }
  }

  /** With `overlapping`, exactly the spans that stand at starts are listed. */
  lemma GreedyAll(at: Starts, w: nat, pos: nat, end: nat, sp: Span)
    ensures sp in Greedy(at, w, true, pos, end) <==> StandsIn(at, w, pos, end, sp)
  {
    GreedyMeets(at, w, true, pos, end);
    var all := Greedy(at, w, true, pos, end);
    if sp in all { ListedStands(at, w, true, pos, end, all, sp); }
    if StandsIn(at, w, pos, end, sp) { StandingListed(at, w, pos, end, all, sp); }
  }

  lemma ListedStands(at: Starts, w: nat, overlapping: bool, pos: int, end: int, all: seq<Span>, sp: Span)
    requires Chosen(at, w, overlapping, pos, end, all) && sp in all
    ensures StandsIn(at, w, pos, end, sp)
  {
    var k :| 0 <= k < |all| && all[k] == sp;
    assert StandsIn(at, w, pos, end, all[k]);
  }

  lemma StandingListed(at: Starts, w: nat, pos: int, end: int, all: seq<Span>, sp: Span)
    requires Chosen(at, w, true, pos, end, all) && AllMet(at, true, pos, end, all) && StandsIn(at, w, pos, end, sp)
    ensures sp in all
  {
    assert Met(true, all, sp.start);
    var k :| 0 <= k < |all| && all[k].start <= sp.start < Next(all[k], true);
    assert StandsIn(at, w, pos, end, all[k]);
  }
}
