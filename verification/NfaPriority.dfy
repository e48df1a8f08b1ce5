/** Ordered backtracking: a depth-first search that tries `x` before `y` and never
    visits an instruction twice at one position. The Pike simulation, started at
    one position, reports the end this search finds first. */
module NfaPriority {
  import opened Basics
  import opened RegexAst
  import opened NfaCode
  import opened NfaExpand
  import opened NfaThreads
  import opened NfaSearch

  /** What has been visited at the current position and at every later one. */
  type Levels = seq<set<int>>

  ghost predicate LevelsOk(p: Code, c: Context, pos: int, v: Levels) {
    |v| == c.recordEnd - pos + 1 && forall k | 0 <= k < |v| :: v[k] <= Pcs(p)
  }

  /** The first end the search finds from (pc, pos), and what it has visited. */
  ghost function Dfs(p: Code, c: Context, pc: int, pos: int, v: Levels): (r: (Option<int>, Levels))
    requires LevelsOk(p, c, pos, v) && v != []
    ensures LevelsOk(p, c, pos, r.1) && r.1 != [] && v[0] <= r.1[0]
    decreases |v|, Pcs(p) - v[0]
  {
    if !InRange(p, pc) || pc in v[0] then (None, v)
    else
      var v' := [v[0] + {pc}] + v[1..];
      match p[pc].op
      case Accept => (Some(pos), v')
      case Consume(m) =>
        if Consumes(c, m, pos) then
          var (found, later) := Dfs(p, c, p[pc].x, pos + 1, v'[1..]);
          (found, [v'[0]] + later)
        else (None, v')
      case Test(a) => if Holds(c, a, pos) then Dfs(p, c, p[pc].x, pos, v') else (None, v')
      case Split =>
        var (found, v'') := Dfs(p, c, p[pc].x, pos, v');
        if found.Some? then (found, v'') else Dfs(p, c, p[pc].y, pos, v'')
      case _ => Dfs(p, c, p[pc].x, pos, v')
  }

  ghost predicate Leaves(p: Code, list: seq<int>) {
    forall k | 0 <= k < |list| :: InRange(p, list[k]) && IsLeaf(p, list[k])
  }

  /** The search continued from leaves at `pos`, in order; `later` are the levels after `pos`. */
  ghost function DfsList(p: Code, c: Context, list: seq<int>, pos: int, later: Levels): (r: (Option<int>, Levels))
    requires Leaves(p, list) && pos <= c.recordEnd && LevelsOk(p, c, pos + 1, later)
    ensures LevelsOk(p, c, pos + 1, r.1)
    decreases |later|, |list|
  {
    if list == [] then (None, later)
    else if p[list[0]].op == Accept then (Some(pos), later)
    else if Consumes(c, p[list[0]].op.m, pos) then
      var (found, later') := Dfs(p, c, p[list[0]].x, pos + 1, later);
      if found.Some? then (found, later') else DfsList(p, c, list[1..], pos, later')
    else DfsList(p, c, list[1..], pos, later)
  }

  lemma {:induction false} DfsListAppend(p: Code, c: Context, a: seq<int>, b: seq<int>, pos: int, later: Levels)
    requires Leaves(p, a) && Leaves(p, b) && pos <= c.recordEnd && LevelsOk(p, c, pos + 1, later)
    ensures Leaves(p, a + b)
    ensures
      var first := DfsList(p, c, a, pos, later);
      DfsList(p, c, a + b, pos, later) == if first.0.Some? then first else DfsList(p, c, b, pos, first.1)
    decreases |a|
  {
    if a == [] {
      assert a + b == b;
    } else {
      assert (a + b)[1..] == a[1..] + b;
      if p[a[0]].op == Accept {
      } else if Consumes(c, p[a[0]].op.m, pos) {
        var (found, later') := Dfs(p, c, p[a[0]].x, pos + 1, later);
        DfsListAppend(p, c, a[1..], b, pos, later');
      } else {
        DfsListAppend(p, c, a[1..], b, pos, later);
      }
    }
  }

  lemma ExpandLeavesOnly(p: Code, c: Context, pos: int, stack: seq<int>, seen: set<int>)
    requires seen <= Pcs(p)
    ensures Leaves(p, Expand(p, c, pos, stack, seen).0)
  {
    ExpandLeaves(p, c, pos, stack, seen);
    var list := Expand(p, c, pos, stack, seen).0;
    forall k | 0 <= k < |list| ensures InRange(p, list[k]) && IsLeaf(p, list[k]) {
      assert list[k] in list;
    }
  }

  /** Searching from `pc` is expanding it and searching on from the leaves in order. */
  lemma {:induction false} DfsIsExpand(p: Code, c: Context, pc: int, pos: int, v: Levels)
    requires LevelsOk(p, c, pos, v) && v != []
    ensures
      var (list, seen) := Expand(p, c, pos, [pc], v[0]);
      && Leaves(p, list)
      && var r := DfsList(p, c, list, pos, v[1..]);
      && Dfs(p, c, pc, pos, v).0 == r.0
      && (r.0.None? ==> Dfs(p, c, pc, pos, v).1 == [seen] + r.1)
    decreases |v|, Pcs(p) - v[0]
  {
    ExpandLeavesOnly(p, c, pos, [pc], v[0]);
    assert [v[0]] + v[1..] == v;
    assert Front([pc]) == [];
    if InRange(p, pc) && pc !in v[0] {
      var v' := [v[0] + {pc}] + v[1..];
      assert v'[1..] == v[1..];
      match p[pc].op
      case Accept =>
      case Consume(m) => assert [pc][1..] == [];
      case Test(a) => if Holds(c, a, pos) { assert [] + [p[pc].x] == [p[pc].x]; DfsIsExpand(p, c, p[pc].x, pos, v'); }
      case Split => DfsSplit(p, c, pc, pos, v);
      case _ => assert [] + [p[pc].x] == [p[pc].x]; DfsIsExpand(p, c, p[pc].x, pos, v');
    }
  }

  lemma {:induction false} DfsSplit(p: Code, c: Context, pc: int, pos: int, v: Levels)
    requires LevelsOk(p, c, pos, v) && v != [] && InRange(p, pc) && pc !in v[0] && p[pc].op == Split
    ensures
      var (list, seen) := Expand(p, c, pos, [pc], v[0]);
      && Leaves(p, list)
      && var r := DfsList(p, c, list, pos, v[1..]);
      && Dfs(p, c, pc, pos, v).0 == r.0
      && (r.0.None? ==> Dfs(p, c, pc, pos, v).1 == [seen] + r.1)
    decreases |v|, Pcs(p) - v[0], 0
  {
    var v' := [v[0] + {pc}] + v[1..];
    var x, y := p[pc].x, p[pc].y;
    assert v'[1..] == v[1..];
    assert [] + [y, x] == [y] + [x] && Front([pc]) == [];
    ExpandAppend(p, c, pos, [y], [x], v'[0]);
    DfsIsExpand(p, c, x, pos, v');
    var (l1, s1) := Expand(p, c, pos, [x], v'[0]);
    var (l2, s2) := Expand(p, c, pos, [y], s1);
    ExpandLeavesOnly(p, c, pos, [x], v'[0]);
    ExpandLeavesOnly(p, c, pos, [y], s1);
    DfsListAppend(p, c, l1, l2, pos, v[1..]);
    var r1 := DfsList(p, c, l1, pos, v[1..]);
    if r1.0.None? {
      var v'' := [s1] + r1.1;
      assert v''[1..] == r1.1;
      DfsIsExpand(p, c, y, pos, v'');
    }
  }

  // ----- level by level -----

  /** The leaves of the next position, in the order the search meets them. */
  ghost function NextLevel(p: Code, c: Context, list: seq<int>, pos: int, seen: set<int>): (r: (seq<int>, set<int>))
    requires Leaves(p, list) && seen <= Pcs(p)
    ensures seen <= r.1 <= Pcs(p)
  {
    if list == [] then ([], seen)
    else if Moves(p, c, pos, list[0]) then
      var (l1, s1) := Expand(p, c, pos + 1, [p[list[0]].x], seen);
      var (l2, s2) := NextLevel(p, c, list[1..], pos, s1);
      (l1 + l2, s2)
    else NextLevel(p, c, list[1..], pos, seen)
  }

  lemma {:induction false} NextLevelLeaves(p: Code, c: Context, list: seq<int>, pos: int, seen: set<int>)
    requires Leaves(p, list) && seen <= Pcs(p)
    ensures Leaves(p, NextLevel(p, c, list, pos, seen).0)
  {
    if list != [] {
      if Moves(p, c, pos, list[0]) {
        ExpandLeavesOnly(p, c, pos + 1, [p[list[0]].x], seen);
        NextLevelLeaves(p, c, list[1..], pos, Expand(p, c, pos + 1, [p[list[0]].x], seen).1);
      } else {
        NextLevelLeaves(p, c, list[1..], pos, seen);
      }
    }
  }

  /** Searching leaf after leaf, each to its end, is searching the next level as one list. */
  lemma {:induction false} DfsByLevel(p: Code, c: Context, list: seq<int>, pos: int, later: Levels)
    requires Leaves(p, list) && c.Readable(pos) && LevelsOk(p, c, pos + 1, later)
    requires forall k | 0 <= k < |list| :: p[list[k]].op != Accept
    ensures
      var (next, seen) := NextLevel(p, c, list, pos, later[0]);
      && Leaves(p, next)
      && var r := DfsList(p, c, next, pos + 1, later[1..]);
      && DfsList(p, c, list, pos, later).0 == r.0
      && (r.0.None? ==> DfsList(p, c, list, pos, later).1 == [seen] + r.1)
    decreases |list|
  {
    NextLevelLeaves(p, c, list, pos, later[0]);
    if list == [] {
      assert [later[0]] + later[1..] == later;
    } else if Moves(p, c, pos, list[0]) {
      var x := p[list[0]].x;
      DfsIsExpand(p, c, x, pos + 1, later);
      var (l1, s1) := Expand(p, c, pos + 1, [x], later[0]);
      var (l2, s2) := NextLevel(p, c, list[1..], pos, s1);
      ExpandLeavesOnly(p, c, pos + 1, [x], later[0]);
      NextLevelLeaves(p, c, list[1..], pos, s1);
      DfsListAppend(p, c, l1, l2, pos + 1, later[1..]);
      var r1 := DfsList(p, c, l1, pos + 1, later[1..]);
      if r1.0.None? {
        var later' := [s1] + r1.1;
        assert later'[1..] == r1.1;
        DfsByLevel(p, c, list[1..], pos, later');
      }
    } else {
      DfsByLevel(p, c, list[1..], pos, later);
    }
  }

  /** Past the region or record nothing is consumed, and only accepting leaves count. */
  lemma {:induction false} DfsUnreadable(p: Code, c: Context, list: seq<int>, pos: int, later: Levels)
    requires Leaves(p, list) && pos <= c.recordEnd && !c.Readable(pos) && LevelsOk(p, c, pos + 1, later)
    requires forall k | 0 <= k < |list| :: p[list[k]].op != Accept
    ensures DfsList(p, c, list, pos, later).0 == None
    decreases |list|
  {
    if list != [] { DfsUnreadable(p, c, list[1..], pos, later); }
  }

  lemma {:induction false} NextLevelSnoc(p: Code, c: Context, list: seq<int>, pc: int, pos: int, seen: set<int>)
    requires Leaves(p, list) && InRange(p, pc) && IsLeaf(p, pc) && seen <= Pcs(p)
    ensures Leaves(p, list + [pc])
    ensures
      var (l1, s1) := NextLevel(p, c, list, pos, seen);
      NextLevel(p, c, list + [pc], pos, seen) ==
        if Moves(p, c, pos, pc) then
          var (l2, s2) := Expand(p, c, pos + 1, [p[pc].x], s1);
          (l1 + l2, s2)
        else (l1, s1)
    decreases |list|
  {
    if list == [] {
      assert [] + [pc] == [pc] && [pc][1..] == [];
      if Moves(p, c, pos, pc) {
        var l2 := Expand(p, c, pos + 1, [p[pc].x], seen).0;
        assert [] + l2 == l2 == l2 + [];
      }
    } else {
      assert (list + [pc])[1..] == list[1..] + [pc];
      if Moves(p, c, pos, list[0]) {
        var (l1, s1) := Expand(p, c, pos + 1, [p[list[0]].x], seen);
        NextLevelSnoc(p, c, list[1..], pc, pos, s1);
        var (l2, s2) := NextLevel(p, c, list[1..], pos, s1);
        if Moves(p, c, pos, pc) {
          var l3 := Expand(p, c, pos + 1, [p[pc].x], s2).0;
          assert l1 + (l2 + l3) == l1 + l2 + l3;
        }
      } else {
        NextLevelSnoc(p, c, list[1..], pc, pos, seen);
      }
    }
  }

  // ----- the simulation from one start -----

  ghost function PcsOf(list: seq<Thread>): (r: seq<int>)
    ensures |r| == |list|
  {
    seq(|list|, k requires 0 <= k < |list| => list[k].pc)
  }

  /** A list of leaves, all of threads that started at `start`. */
  ghost predicate StartedAt(p: Code, list: seq<Thread>, start: int) {
    Leaves(p, PcsOf(list)) && forall k | 0 <= k < |list| :: InRange(p, list[k].pc) && list[k].start == start
  }

  lemma ThreadsStarted(p: Code, list: seq<Thread>, pcs: seq<int>, start: int)
    requires StartedAt(p, list, start) && Leaves(p, pcs)
    ensures StartedAt(p, list + Threads(pcs, start), start)
    ensures PcsOf(list + Threads(pcs, start)) == PcsOf(list) + pcs
  {
    var more := Threads(pcs, start);
    assert forall k | 0 <= k < |more| :: more[k].pc == pcs[k];
    var all := PcsOf(list + more);
    assert forall k | 0 <= k < |list| :: all[k] == PcsOf(list)[k];
    assert forall k | |list| <= k < |all| :: all[k] == pcs[k - |list|];
  }

  lemma {:induction false} SteppedLevel(p: Code, c: Context, pos: int, cur: seq<Thread>, start: int)
    requires StartedAt(p, cur, start)
    ensures
      var (next, marks) := Stepped(p, c, pos, cur);
      && StartedAt(p, next, start)
      && NextLevel(p, c, PcsOf(cur), pos, {}) == (PcsOf(next), marks)
    decreases |cur|
  {
    if cur != [] {
      var t := Last(cur);
      assert PcsOf(Front(cur)) == Front(PcsOf(cur));
      assert PcsOf(cur) == PcsOf(Front(cur)) + [t.pc];
      assert PcsOf(cur)[|cur| - 1] == t.pc;
      SteppedLevel(p, c, pos, Front(cur), start);
      var (list, visited) := Stepped(p, c, pos, Front(cur));
      NextLevelSnoc(p, c, PcsOf(Front(cur)), t.pc, pos, {});
      if Moves(p, c, pos, t.pc) {
        ExpandLeavesOnly(p, c, pos + 1, [p[t.pc].x], visited);
        ThreadsStarted(p, list, Expand(p, c, pos + 1, [p[t.pc].x], visited).0, start);
      }
    }
  }

  ghost function Untouched(levels: int): (v: seq<set<int>>)
    requires levels >= 0
    ensures |v| == levels && forall k | 0 <= k < |v| :: v[k] == {}
  {
    seq(levels, _ => {})
  }

  ghost function Report(found: Option<int>, start: int, otherwise: Option<Span>): Option<Span> {
    if found.Some? then Some(Span(start, found.value)) else otherwise
  }

  /** The best end of an ordered list: what its threads before an accepting one lead
      to, and failing that, the accepting one itself. */
  lemma ListByLevel(p: Code, c: Context, list: seq<Thread>, pos: int, start: int)
    requires StartedAt(p, list, start) && pos <= c.recordEnd && c.recordBegin <= pos
    ensures
      var k := FirstAccept(p, list);
      var (next, _) := Stepped(p, c, pos, list[..k]);
      && StartedAt(p, next, start)
      && var deeper := if c.Readable(pos) then DfsList(p, c, PcsOf(next), pos + 1, Untouched(c.recordEnd - pos - 1)).0 else None;
      && DfsList(p, c, PcsOf(list), pos, Untouched(c.recordEnd - pos)).0
         == if deeper.Some? then deeper else if k < |list| then Some(pos) else None
  {
    var k := FirstAccept(p, list);
    var head, tail := PcsOf(list[..k]), PcsOf(list[k..]);
    var later := Untouched(c.recordEnd - pos);
    assert PcsOf(list) == head + tail;
    assert forall i | 0 <= i < k :: head[i] == list[i].pc == PcsOf(list)[i];
    assert forall i | 0 <= i < |tail| :: tail[i] == PcsOf(list)[k + i];
    assert StartedAt(p, list[..k], start);
    DfsListAppend(p, c, head, tail, pos, later);
    SteppedLevel(p, c, pos, list[..k], start);
    if c.Readable(pos) {
      DfsByLevel(p, c, head, pos, later);
      assert later[1..] == Untouched(c.recordEnd - pos - 1);
    } else {
      DfsUnreadable(p, c, head, pos, later);
    }
  }

  ghost function Finish(pr: Program, c: Context, turn: Turn): Option<Span>
    requires turn.More? ==> StateOk(pr, turn.next) && turn.next.pos >= c.sourceBegin
  {
    match turn
    case Done(result) => result
    case More(next) => Pike(pr, c, next)
  }

  /** With no start left to seed, the rest of the simulation finds what the search finds. */
  lemma {:induction false} ConsiderIsDfs(pr: Program, c: Context, s: State, pos: int, list: seq<Thread>, start: int)
    requires c.Valid() && StartedAt(pr.nfa, list, start) && AllInRange(pr.nfa, list)
    requires c.candidateBegin <= s.pos <= pos <= c.recordEnd && pos + 1 >= c.candidateEnd
    requires s.best.Some? ==> s.best.value.start == start
    ensures Finish(pr, c, Consider(pr, c, s, pos, list))
      == Report(DfsList(pr.nfa, c, PcsOf(list), pos, Untouched(c.recordEnd - pos)).0, start, s.best)
    decreases c.recordEnd - pos, 1
  {
    ListByLevel(pr.nfa, c, list, pos, start);
    Considered(pr, c, s, pos, list);
    var turn := Consider(pr, c, s, pos, list);
    if turn.More? {
      PikeIsDfs(pr, c, turn.next, start);
    }
  }

  /** What a turn keeps: it ends with the best match, or goes on with what can improve it. */
  lemma Considered(pr: Program, c: Context, s: State, pos: int, list: seq<Thread>)
    requires AllInRange(pr.nfa, list) && pos >= s.pos
    ensures
      var k := FirstAccept(pr.nfa, list);
      var best := if k < |list| then Some(Span(list[k].start, pos)) else s.best;
      var next := Stepped(pr.nfa, c, pos, list[..k]).0;
      match Consider(pr, c, s, pos, list)
      case Done(result) => result == best && (!c.Readable(pos) || next == [])
      case More(more) => c.Readable(pos) && more.cur == next && more.pos == pos + 1 && more.best == best
  {}

  lemma {:induction false} PikeIsDfs(pr: Program, c: Context, s: State, start: int)
    requires c.Valid() && StateOk(pr, s) && StartedAt(pr.nfa, s.cur, start)
    requires c.candidateBegin <= s.pos <= c.recordEnd && s.pos >= c.candidateEnd
    requires s.best.Some? ==> s.best.value.start == start
    ensures Pike(pr, c, s) == Report(DfsList(pr.nfa, c, PcsOf(s.cur), s.pos, Untouched(c.recordEnd - s.pos)).0, start, s.best)
    decreases c.recordEnd - s.pos, 2
  {
    if s.cur == [] && s.best == None {
    } else {
      ConsiderIsDfs(pr, c, s, s.pos, s.cur, start);
      assert Seeded(pr, c, s, s.pos).0 == s.cur;
      assert Jump(pr, c, s.cur, s.best, s.pos) == Some(s.pos);
      assert TurnOf(pr, c, s) == Consider(pr, c, s, s.pos, s.cur);
    }
  }
}
