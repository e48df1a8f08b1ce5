/** Listing the matches of a record: the simulation is run again and again, each time
    from behind the last match. */
module RegexSearch {
  import opened Basics
  import opened RegexAst
  import opened MatchList
  import opened NfaCode
  import opened NfaSearch
  import opened NfaThreads
  import opened NfaWindow

  // ----- no search reports a span before its window -----

  ghost predicate StartsFrom(list: seq<Thread>, b: int) {
    forall k | 0 <= k < |list| :: b <= list[k].start
  }

  lemma {:induction false} SteppedStarts(p: Code, c: Context, pos: int, cur: seq<Thread>, b: int)
    requires AllInRange(p, cur) && StartsFrom(cur, b)
    ensures StartsFrom(Stepped(p, c, pos, cur).0, b)
  {
    if cur != [] {
      assert Last(cur) == cur[|cur| - 1];
      SteppedStarts(p, c, pos, Front(cur), b);
    }
  }

  lemma {:induction false} PikeStarts(pr: Program, c: Context, s: State, b: int)
    requires StateOk(pr, s) && c.sourceBegin <= s.pos && b <= s.pos && StartsFrom(s.cur, b) && (s.best.Some? ==> b <= s.best.value.start)
    ensures Pike(pr, c, s).Some? ==> b <= Pike(pr, c, s).value.start
    decreases c.recordEnd - s.pos
  {
    var jump := Jump(pr, c, s.cur, s.best, s.pos);
    if !(s.cur == [] && s.best == None && s.pos >= c.candidateEnd) && jump.Some? {
      var list := Seeded(pr, c, s, jump.value).0;
      assert StartsFrom(list, b);
      SteppedStarts(pr.nfa, c, jump.value, list[..FirstAccept(pr.nfa, list)], b);
      var turn := Consider(pr, c, s, jump.value, list);
      if turn.More? { PikeStarts(pr, c, turn.next, b); }
    }
  }

  // ----- listing -----

  /** Searching with a compiled pattern, as a function of the first candidate start. */
  ghost function Searches(pr: Program, c: Context): Finder {
    (p: nat) =>
      if c.Valid() && c.candidateBegin <= p < c.candidateEnd then Pike(pr, c.(candidateBegin := p), InitialState(c.(candidateBegin := p))) else None
  }

  method FindNext(pr: Program, c: Context, pos: nat) returns (found: Option<Span>)
    requires pr.Sound() && pr.start >= 0 && c.Valid() && c.candidateBegin <= pos < c.candidateEnd
    ensures found == Searches(pr, c)(pos) && (found.Some? ==> pos <= found.value.start)
  {
    var attempt := c.(candidateBegin := pos);
    PikeStarts(pr, attempt, InitialState(attempt), pos);
    found := Search(pr, attempt);
  }

  method FindAll(pr: Program, c: Context, overlapping: bool, limit: nat) returns (out: seq<Span>)
    requires pr.Sound() && pr.start >= 0 && c.Valid()
    ensures out == Cut(ListFrom(Searches(pr, c), c.candidateEnd, overlapping, c.candidateBegin), limit)
  {
    out := [];
    var pos: nat, full := c.candidateBegin, false;
    ghost var find := Searches(pr, c);
    ghost var all := ListFrom(find, c.candidateEnd, overlapping, pos);
    while !full && pos < c.candidateEnd
      invariant c.candidateBegin <= pos
      invariant Collecting(all, out, ListFrom(find, c.candidateEnd, overlapping, pos), limit, full)
      decreases !full, c.candidateEnd - pos
    {
      out, pos, full := AddMatch(pr, c, overlapping, limit, pos, out, all);
    }
  }

  /** One search: its match joins the list, and without one the list is complete. */
  method AddMatch(pr: Program, c: Context, overlapping: bool, limit: nat, pos: nat, before: seq<Span>, ghost all: seq<Span>)
    returns (out: seq<Span>, next: nat, full: bool)
    requires pr.Sound() && pr.start >= 0 && c.Valid() && c.candidateBegin <= pos < c.candidateEnd
    requires Going(all, before, ListFrom(Searches(pr, c), c.candidateEnd, overlapping, pos), limit)
    ensures c.candidateBegin <= next && (!full ==> pos < next)
    ensures Collecting(all, out, ListFrom(Searches(pr, c), c.candidateEnd, overlapping, next), limit, full)
  {
    var found := FindNext(pr, c, pos);
    if found.None? {
      return before, pos, true;
    }
    next := Next(found.value, overlapping);
    ghost var rest := ListFrom(Searches(pr, c), c.candidateEnd, overlapping, next);
    CutFurther(all, before, [found.value], rest, limit);
    out := before + [found.value];
    full := limit != 0 && |out| >= limit;
  }

  /** A compiled pattern's searches advance, and report matches of the tree. */
  lemma SearchesMatch(pr: Program, n: Node, c: Context, p: nat)
    requires IsProgram(pr, n) && WellFormed(n) && c.Valid() && c.candidateBegin <= p < c.candidateEnd && Searches(pr, c)(p).Some?
    ensures var sp := Searches(pr, c)(p).value; p <= sp.start < c.candidateEnd && Matches(n, c, sp.start, sp.end)
  {
    var attempt := c.(candidateBegin := p);
    SearchSound(pr, n, attempt);
    var sp := Searches(pr, c)(p).value;
    SameMatches(n, attempt, c, sp.start, sp.end);
  }

  /** Everything listed is a match; nothing listed overlaps. */
  lemma FindAllSound(pr: Program, n: Node, c: Context, overlapping: bool)
    requires IsProgram(pr, n) && WellFormed(n) && c.Valid()
    ensures Listing(n, c, overlapping, c.candidateBegin, ListFrom(Searches(pr, c), c.candidateEnd, overlapping, c.candidateBegin))
  {
    var find := Searches(pr, c);
    forall p: nat | c.candidateBegin <= p < c.candidateEnd && find(p).Some?
      ensures find(p).value.start < c.candidateEnd && Matches(n, c, find(p).value.start, find(p).value.end)
    {
      SearchesMatch(pr, n, c, p);
    }
    ListIsListing(find, n, c, overlapping, c.candidateBegin);
  }

  /** The candidate window does not change what matches. */
  lemma SameMatches(n: Node, c': Context, c: Context, i: int, j: int)
    requires c' == c.(candidateBegin := c'.candidateBegin, candidateEnd := c'.candidateEnd)
    ensures Matches(n, c', i, j) <==> Matches(n, c, i, j)
  {
    assert forall p :: c'.Readable(p) <==> c.Readable(p);
    ViewMatch(n, c', c, i, j);
  }

  /** Every window up to a start with a match reports something. */
  lemma {:induction false} SearchesFind(pr: Program, n: Node, c: Context, p: nat, i: int, j: int)
    requires IsProgram(pr, n) && WellFormed(n) && c.Valid() && c.candidateBegin <= p <= i
    requires Startable(c, c.candidateBegin, i) && Matches(n, c, i, j)
    ensures FindsAhead(Searches(pr, c), p)
  {
    var attempt := c.(candidateBegin := p);
    assert forall q :: attempt.Readable(q) <==> c.Readable(q);
    assert Startable(attempt, p, i);
    SameMatches(n, attempt, c, i, j);
    SearchComplete(pr, n, attempt, i, j);
    PikeStarts(pr, attempt, InitialState(attempt), p);
  }

  /** The list goes on as long as there is anything to report: every match the search
      can read up to starts before the place where some listed span ends its search. */
  lemma {:induction false} FindAllComplete(pr: Program, n: Node, c: Context, overlapping: bool, i: int, j: int) returns (k: nat)
    requires IsProgram(pr, n) && WellFormed(n) && c.Valid()
    requires Startable(c, c.candidateBegin, i) && Matches(n, c, i, j)
    ensures
      var all := ListFrom(Searches(pr, c), c.candidateEnd, overlapping, c.candidateBegin);
      k < |all| && i < Next(all[k], overlapping)
  {
    forall p: nat | c.candidateBegin <= p <= i ensures FindsAhead(Searches(pr, c), p) {
      SearchesFind(pr, n, c, p, i, j);
    }
    k := ListReaches(Searches(pr, c), c.candidateEnd, overlapping, c.candidateBegin, i);
  }
}
