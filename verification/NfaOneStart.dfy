/** A window of one start: the simulation reports exactly the end ordered
    backtracking finds first. */
module NfaOneStart {
  import opened Basics
  import opened RegexAst
  import opened NfaCode
  import opened NfaMeaning
  import opened NfaExpand
  import opened NfaThreads
  import opened NfaSearch
  import opened NfaPriority
  import opened NfaWindow

  /** An end found by backtracking is the end of an accepting run. */
  lemma {:induction false} DfsSound(p: Code, c: Context, pc: int, pos: int, v: Levels)
    requires Wired(p) && LevelsOk(p, c, pos, v) && v != []
    ensures Dfs(p, c, pc, pos, v).0.Some? ==> AcceptsFrom(p, c, pc, pos, Dfs(p, c, pc, pos, v).0.value)
    decreases |v|, Pcs(p) - v[0]
  {
    var found := Dfs(p, c, pc, pos, v).0;
    if found.Some? {
      var v' := [v[0] + {pc}] + v[1..];
      var op, hi := p[pc].op, |p| - 1;
      if op == Accept {
        AcceptHere(p, c, pos);
      } else if op.Consume? {
        DfsSound(p, c, p[pc].x, pos + 1, v'[1..]);
        StepJoin(p, c, 0, hi, pc, pos, p[pc].x, hi, found.value);
      } else {
        DfsSound(p, c, p[pc].x, pos, v');
        var first := Dfs(p, c, p[pc].x, pos, v');
        if first.0.Some? {
          StepJoin(p, c, 0, hi, pc, pos, p[pc].x, hi, found.value);
        } else {
          DfsSound(p, c, p[pc].y, pos, first.1);
          StepJoin(p, c, 0, hi, pc, pos, p[pc].y, hi, found.value);
        }
      }
    }
  }

  /** Backtracking from the entry of a compiled pattern, nothing visited yet. */
  ghost function Backtrack(pr: Program, c: Context): Option<int>
    requires c.candidateBegin <= c.recordEnd
  {
    Dfs(pr.nfa, c, pr.start, c.candidateBegin, Untouched(c.recordEnd - c.candidateBegin + 1)).0
  }

  /** No prefix stands at the only start, so backtracking finds nothing either. */
  lemma NothingToFind(pr: Program, n: Node, c: Context)
    requires IsProgram(pr, n) && WellFormed(n) && c.Valid() && c.candidateEnd == c.candidateBegin + 1
    requires Jump(pr, c, [], None, c.candidateBegin).None?
    ensures Backtrack(pr, c).None?
  {
    ProgramShaped(pr, n);
    if Backtrack(pr, c).Some? {
      DfsSound(pr.nfa, c, pr.start, c.candidateBegin, Untouched(c.recordEnd - c.candidateBegin + 1));
      var head := ProgramPrefixes(pr, n, c);
    }
  }

  lemma SeededIsDfs(pr: Program, c: Context, list: seq<Thread>)
    requires c.candidateBegin <= c.recordEnd
    requires list == Seeded(pr, c, InitialState(c), c.candidateBegin).0 && c.candidateBegin < c.candidateEnd
    ensures StartedAt(pr.nfa, list, c.candidateBegin)
    ensures DfsList(pr.nfa, c, PcsOf(list), c.candidateBegin, Untouched(c.recordEnd - c.candidateBegin)).0 == Backtrack(pr, c)
  {
    var pos := c.candidateBegin;
    var levels := Untouched(c.recordEnd - pos + 1);
    DfsIsExpand(pr.nfa, c, pr.start, pos, levels);
    assert levels[1..] == Untouched(c.recordEnd - pos);
    var pcs := Expand(pr.nfa, c, pos, [pr.start], {}).0;
    ThreadsStarted(pr.nfa, [], pcs, pos);
    assert list == [] + Threads(pcs, pos);
    assert PcsOf(list) == pcs;
  }

  lemma SearchFirst(pr: Program, n: Node, c: Context)
    requires IsProgram(pr, n) && WellFormed(n) && c.Valid() && c.candidateEnd == c.candidateBegin + 1
    ensures Pike(pr, c, InitialState(c)) == Report(Backtrack(pr, c), c.candidateBegin, None)
  {
    var s, pos := InitialState(c), c.candidateBegin;
    if Jump(pr, c, s.cur, s.best, s.pos).None? {
      NothingToFind(pr, n, c);
    } else {
      NoJumpAhead(pr, c);
      OnlyTurn(pr, c, s);
      var list := Seeded(pr, c, s, pos).0;
      SeededIsDfs(pr, c, list);
      ConsiderIsDfs(pr, c, s, pos, list, pos);
    }
  }

  /** The first turn seeds at the start itself: a jump could only leave the window. */
  lemma NoJumpAhead(pr: Program, c: Context)
    requires c.Valid() && c.candidateEnd == c.candidateBegin + 1 && Jump(pr, c, [], None, c.candidateBegin).Some?
    ensures Jump(pr, c, [], None, c.candidateBegin) == Some(c.candidateBegin)
  {
  }

  lemma OnlyTurn(pr: Program, c: Context, s: State)
    requires StateOk(pr, s) && s.pos >= c.sourceBegin && s.pos < c.candidateEnd && Jump(pr, c, s.cur, s.best, s.pos) == Some(s.pos)
    ensures TurnOf(pr, c, s) == Consider(pr, c, s, s.pos, Seeded(pr, c, s, s.pos).0)
  {
  }

  /** So backtracking with memory finds an end exactly when the tree matches there. */
  lemma BacktrackExact(pr: Program, n: Node, c: Context)
    requires IsProgram(pr, n) && WellFormed(n) && c.Valid() && c.candidateEnd == c.candidateBegin + 1
    ensures Backtrack(pr, c).Some? <==> exists j :: Matches(n, c, c.candidateBegin, j)
    ensures Backtrack(pr, c).Some? ==> Matches(n, c, c.candidateBegin, Backtrack(pr, c).value)
  {
    SearchFirst(pr, n, c);
    var begin, found := c.candidateBegin, Backtrack(pr, c);
    if found.Some? {
      SearchSound(pr, n, c);
      assert Matches(n, c, begin, found.value);
    } else if j :| Matches(n, c, begin, j) {
      assert Startable(c, begin, begin);
      SearchComplete(pr, n, c, begin, j);
    }
  }
}
