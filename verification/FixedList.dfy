/** What is listed for a pattern of fixed width: exactly the greedy choice from left to
    right, or every match when matches may overlap. */
module FixedList {
  import opened Basics
  import opened RegexAst
  import opened MatchList
  import opened NfaSearch
  import opened NfaThreads
  import opened NfaWindow
  import opened NfaFixed
  import opened RegexSearch

  ghost function StartsOf(n: Node, c: Context, w: nat): Starts {
    (s: int) => MatchesAt(n, c, w, s)
  }

  /** No start of the window lies behind the region, where only empty matches stand. */
  predicate WindowOpen(c: Context, w: nat) {
    c.bounded && w == 0 ==> c.candidateEnd <= c.regionEnd + 1
  }

  lemma MatchStartable(n: Node, c: Context, w: nat, from: int, s: int)
    requires c.Valid() && WindowOpen(c, w) && c.recordBegin <= from <= s < c.candidateEnd && MatchesAt(n, c, w, s)
    ensures Startable(c, from, s)
  {
    MatchSpan(n, c, s, s + w);
  }

  /** Each search reports the first start of what is left of the window. */
  lemma {:induction false} FixedFindsFirst(pr: Program, n: Node, w: nat, c: Context, p: nat)
    requires IsFixed(pr, n, w) && c.Valid() && WindowOpen(c, w) && c.candidateBegin <= p < c.candidateEnd
    ensures FindsFirst(StartsOf(n, c, w), w, p, c.candidateEnd, Searches(pr, c)(p))
  {
    if Searches(pr, c)(p).Some? { FoundStands(pr, n, w, c, p); }
    NoneReportedBefore(pr, n, w, c, p);
  }

  lemma {:induction false} FoundStands(pr: Program, n: Node, w: nat, c: Context, p: nat)
    requires IsFixed(pr, n, w) && c.Valid() && c.candidateBegin <= p < c.candidateEnd && Searches(pr, c)(p).Some?
    ensures StandsIn(StartsOf(n, c, w), w, p, c.candidateEnd, Searches(pr, c)(p).value)
  {
    SearchesMatch(pr, n, c, p);
    MatchStands(n, w, c, p, c.candidateEnd, Searches(pr, c)(p).value);
  }

  lemma MatchStands(n: Node, w: nat, c: Context, pos: int, end: int, sp: Span)
    requires WellFormed(n) && FixedWidth(n) == Some(w) && pos <= sp.start < end && Matches(n, c, sp.start, sp.end)
    ensures StandsIn(StartsOf(n, c, w), w, pos, end, sp)
  {
    FixedMatch(n, c, sp.start, sp.end);
  }

  lemma {:induction false} NoneReportedBefore(pr: Program, n: Node, w: nat, c: Context, p: nat)
    requires IsFixed(pr, n, w) && c.Valid() && WindowOpen(c, w) && c.candidateBegin <= p < c.candidateEnd
    ensures var found := Searches(pr, c)(p);
      NoStart(StartsOf(n, c, w), p, if found.Some? then Min(found.value.start, c.candidateEnd) else c.candidateEnd)
  {
    forall s | p <= s < c.candidateEnd && MatchesAt(n, c, w, s) ensures Searches(pr, c)(p).Some? && Searches(pr, c)(p).value.start <= s {
      StartFound(pr, n, w, c, p, s);
    }
  }

  lemma {:induction false} StartFound(pr: Program, n: Node, w: nat, c: Context, p: nat, s: int)
    requires IsFixed(pr, n, w) && c.Valid() && WindowOpen(c, w) && c.candidateBegin <= p <= s < c.candidateEnd && MatchesAt(n, c, w, s)
    ensures Searches(pr, c)(p).Some? && Searches(pr, c)(p).value.start <= s
  {
    var attempt := c.(candidateBegin := p);
    SameMatches(n, attempt, c, s, s + w);
    MatchStartable(n, attempt, w, p, s);
    FixedBefore(pr, n, w, attempt, s, s + w);
  }

  /** The list of a record is the greedy choice among its matches. */
  lemma {:induction false} FindAllGreedy(pr: Program, n: Node, w: nat, c: Context, overlapping: bool)
    requires IsFixed(pr, n, w) && c.Valid() && WindowOpen(c, w)
    ensures ListFrom(Searches(pr, c), c.candidateEnd, overlapping, c.candidateBegin)
         == Greedy(StartsOf(n, c, w), w, overlapping, c.candidateBegin, c.candidateEnd)
  {
    forall p: nat | c.candidateBegin <= p < c.candidateEnd
      ensures FindsFirst(StartsOf(n, c, w), w, p, c.candidateEnd, Searches(pr, c)(p))
    {
      FixedFindsFirst(pr, n, w, c, p);
    }
    ListIsGreedy(Searches(pr, c), StartsOf(n, c, w), w, overlapping, c.candidateBegin, c.candidateEnd);
  }

  /** With `overlapping`, exactly the matches that start in the window. */
  lemma {:induction false} FindAllOverlapping(pr: Program, n: Node, w: nat, c: Context, sp: Span)
    requires IsFixed(pr, n, w) && c.Valid() && WindowOpen(c, w)
    ensures sp in ListFrom(Searches(pr, c), c.candidateEnd, true, c.candidateBegin)
       <==> c.candidateBegin <= sp.start < c.candidateEnd && Matches(n, c, sp.start, sp.end)
  {
    FindAllGreedy(pr, n, w, c, true);
    OverlappingHas(n, w, c, c.candidateBegin, c.candidateEnd, sp);
  }

  lemma OverlappingHas(n: Node, w: nat, c: Context, pos: nat, end: nat, sp: Span)
    requires WellFormed(n) && FixedWidth(n) == Some(w)
    ensures sp in Greedy(StartsOf(n, c, w), w, true, pos, end) <==> pos <= sp.start < end && Matches(n, c, sp.start, sp.end)
  {
    if Matches(n, c, sp.start, sp.end) { FixedMatch(n, c, sp.start, sp.end); }
    GreedyAll(StartsOf(n, c, w), w, pos, end, sp);
  }
}
