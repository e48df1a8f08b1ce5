/** The ordered Pike simulation over a window of candidate starts: the method with
    its stamped lists, and the function on values it computes. */
module NfaSearch {
  import opened Basics
  import opened RegexAst
  import opened NfaCode
  import opened NfaExpand
  import opened NfaThreads

  // ----- prefix jumps -----

  /** The first offset from `from` on at which one of `qs` stands. */
  function FindAny(text: seq<Byte>, qs: seq<seq<Byte>>, from: nat): (r: Option<nat>)
    ensures r.Some? ==> from <= r.value && exists k | 0 <= k < |qs| :: OccursAt(text, qs[k], r.value)
    ensures forall k, p | 0 <= k < |qs| && from <= p && (r.Some? ==> p < r.value) :: !OccursAt(text, qs[k], p)
  {
    if qs == [] then None
    else
      var a, b := Find(text, qs[0], from), FindAny(text, qs[1..], from);
      if a.None? then b else if b.None? then a else Some(Min(a.value, b.value))
  }

  // ----- the simulation on values -----

  lemma ExpandInRange(p: Code, c: Context, pos: int, seed: int, visited: set<int>)
    requires visited <= Pcs(p)
    ensures
      var list := Expand(p, c, pos, [seed], visited).0;
      forall k | 0 <= k < |list| :: InRange(p, list[k]) && IsLeaf(p, list[k])
  {
    ExpandLeaves(p, c, pos, [seed], visited);
    var list := Expand(p, c, pos, [seed], visited).0;
    forall k | 0 <= k < |list| ensures InRange(p, list[k]) && IsLeaf(p, list[k]) {
      assert list[k] in list;
    }
  }

  lemma AddedInRange(p: Code, c: Context, pos: int, seed: Thread, list: seq<Thread>, visited: set<int>)
    requires visited <= Pcs(p) && AllInRange(p, list)
    ensures AllInRange(p, list + Threads(Expand(p, c, pos, [seed.pc], visited).0, seed.start))
  {
    ExpandInRange(p, c, pos, seed.pc, visited);
    var pcs := Expand(p, c, pos, [seed.pc], visited).0;
    var more := Threads(pcs, seed.start);
    assert forall k | 0 <= k < |more| :: more[k].pc == pcs[k];
  }

  /** Adds the expansion of one seed to a list under construction. */
  ghost function Added(p: Code, c: Context, pos: int, seed: Thread, list: seq<Thread>, visited: set<int>): (r: (seq<Thread>, set<int>))
    requires visited <= Pcs(p)
    ensures r.1 <= Pcs(p)
    ensures AllInRange(p, list) ==> AllInRange(p, r.0)
  {
    var e := Expand(p, c, pos, [seed.pc], visited);
    assert AllInRange(p, list) ==> AllInRange(p, list + Threads(e.0, seed.start)) by {
      if AllInRange(p, list) { AddedInRange(p, c, pos, seed, list, visited); }
    }
    (list + Threads(e.0, seed.start), e.1)
  }

  /** The next list: every thread that consumes the unit at `pos` moves on, in order. */
  ghost function Stepped(p: Code, c: Context, pos: int, cur: seq<Thread>): (r: (seq<Thread>, set<int>))
    requires AllInRange(p, cur)
    ensures AllInRange(p, r.0) && r.1 <= Pcs(p)
  {
    if cur == [] then ([], {})
    else
      var (list, visited) := Stepped(p, c, pos, Front(cur));
      var t := Last(cur);
      if Moves(p, c, pos, t.pc) then Added(p, c, pos + 1, Thread(p[t.pc].x, t.start), list, visited) else (list, visited)
  }

  predicate Moves(p: Code, c: Context, pos: int, pc: int)
    requires InRange(p, pc)
  {
    p[pc].op.Consume? && Accepts(p[pc].op.m, c.ByteAt(pos), c.separator)
  }

  ghost predicate AllInRange(p: Code, list: seq<Thread>) {
    forall k | 0 <= k < |list| :: InRange(p, list[k].pc)
  }

  /** The index of the first thread at the accepting instruction, or the length. */
  function FirstAccept(p: Code, list: seq<Thread>): (k: nat)
    requires AllInRange(p, list)
    ensures k <= |list|
    ensures forall i | 0 <= i < k :: p[list[i].pc].op != Accept
    ensures k < |list| ==> p[list[k].pc].op == Accept
  {
    if list == [] then 0
    else if p[list[0].pc].op == Accept then 0
    else 1 + FirstAccept(p, list[1..])
  }

  /** The simulation's state at the top of its loop. `nextGen` is the 32-bit stamp
      the next list will use; when it wraps, all stamps are cleared. */
  datatype State = State(cur: seq<Thread>, visited: set<int>, nextGen: nat, pos: int, best: Option<Span>)

  ghost predicate StateOk(pr: Program, s: State) {
    AllInRange(pr.nfa, s.cur) && s.visited <= Pcs(pr.nfa)
  }

  /** No list, no result and a literal that must come first: skip to it. */
  function Jump(pr: Program, c: Context, cur: seq<Thread>, best: Option<Span>, pos: int): (r: Option<int>)
    requires pos >= c.sourceBegin
    ensures r.Some? ==> pos <= r.value
  {
    if cur == [] && best == None && pr.prefixes != [] && pos < c.recordEnd then
      var found := FindAny(c.source, pr.prefixes, pos - c.sourceBegin);
      if found.None? || c.sourceBegin + found.value >= c.candidateEnd then None
      else Some(c.sourceBegin + found.value)
    else Some(pos)
  }

  /** A start inside the window joins the list, after everything already there. */
  ghost function Seeded(pr: Program, c: Context, s: State, pos: int): (r: (seq<Thread>, set<int>))
    requires StateOk(pr, s)
    ensures AllInRange(pr.nfa, r.0) && r.1 <= Pcs(pr.nfa)
  {
    if pos < c.candidateEnd then Added(pr.nfa, c, pos, Thread(pr.start, pos), s.cur, s.visited) else (s.cur, s.visited)
  }

  datatype Turn = Done(result: Option<Span>) | More(next: State)

  /** One turn of the simulation's loop. */
  ghost function TurnOf(pr: Program, c: Context, s: State): (r: Turn)
    requires StateOk(pr, s) && s.pos >= c.sourceBegin
    ensures r.More? ==> StateOk(pr, r.next) && s.pos < r.next.pos <= c.recordEnd
  {
    if s.cur == [] && s.best == None && s.pos >= c.candidateEnd then Done(None)
    else
      var jump := Jump(pr, c, s.cur, s.best, s.pos);
      if jump.None? then Done(s.best) else Consider(pr, c, s, jump.value, Seeded(pr, c, s, jump.value).0)
  }

  /** The part of a turn after the seeded list is known. */
  ghost function Consider(pr: Program, c: Context, s: State, pos: int, list: seq<Thread>): (r: Turn)
    requires AllInRange(pr.nfa, list) && pos >= s.pos
    ensures r.More? ==> StateOk(pr, r.next) && s.pos < r.next.pos <= c.recordEnd
  {
    var k := FirstAccept(pr.nfa, list);
    var best := if k < |list| then Some(Span(list[k].start, pos)) else s.best;
    var cur := list[..k];
    if (best.Some? && cur == []) || !c.Readable(pos) then Done(best)
    else
      var (next, marks) := Stepped(pr.nfa, c, pos, cur);
      if next == [] && best.Some? then Done(best)
      else More(NextState(next, marks, s.nextGen, pos, best))
  }

  /** What the simulation reports. */
  ghost function Pike(pr: Program, c: Context, s: State): Option<Span>
    requires StateOk(pr, s) && s.pos >= c.sourceBegin
    decreases c.recordEnd - s.pos
  {
    match TurnOf(pr, c, s)
    case Done(result) => result
    case More(next) => Pike(pr, c, next)
  }

  ghost function NextState(next: seq<Thread>, marks: set<int>, gen: nat, pos: int, best: Option<Span>): State {
    if gen + 1 == U32_SIZE then State(next, {}, 2, pos + 1, best) else State(next, marks, gen + 1, pos + 1, best)
  }

  ghost function InitialState(c: Context): State {
    State([], {}, 2, c.candidateBegin, None)
  }

  // ----- what is kept at every position -----

  /** The visited set is closed, and the list holds all its leaves. */
  ghost predicate Complete(pr: Program, c: Context, pos: int, list: seq<Thread>, visited: set<int>) {
    && AllInRange(pr.nfa, list) && visited <= Pcs(pr.nfa)
    && (forall k | 0 <= k < |list| :: InRange(pr.nfa, list[k].pc) && IsLeaf(pr.nfa, list[k].pc))
    && ClosedSet(pr.nfa, c, pos, visited)
    && forall pc | pc in visited && IsLeaf(pr.nfa, pc) :: exists k :: 0 <= k < |list| && list[k].pc == pc
  }

  lemma AddedComplete(pr: Program, c: Context, pos: int, seed: Thread, list: seq<Thread>, visited: set<int>)
    requires Complete(pr, c, pos, list, visited)
    ensures
      var (list', visited') := Added(pr.nfa, c, pos, seed, list, visited);
      && Complete(pr, c, pos, list', visited')
      && (InRange(pr.nfa, seed.pc) ==> seed.pc in visited')
  {
    var p := pr.nfa;
    var (pcs, visited') := Expand(p, c, pos, [seed.pc], visited);
    ExpandCloses(p, c, pos, [seed.pc], visited, {});
    ExpandLeaves(p, c, pos, [seed.pc], visited);
    ExpandInRange(p, c, pos, seed.pc, visited);
    var list' := list + Threads(pcs, seed.start);
    forall pc | pc in visited' && IsLeaf(p, pc) ensures exists k :: 0 <= k < |list'| && list'[k].pc == pc {
      if pc in visited {
        var k :| 0 <= k < |list| && list[k].pc == pc;
        assert list'[k].pc == pc;
      } else {
        assert pc in pcs;
        var k :| 0 <= k < |pcs| && pcs[k] == pc;
        assert list'[|list| + k].pc == pc;
      }
    }
    assert seed.pc in [seed.pc];
  }

  lemma {:induction false} SteppedComplete(pr: Program, c: Context, pos: int, cur: seq<Thread>)
    requires AllInRange(pr.nfa, cur)
    ensures Complete(pr, c, pos + 1, Stepped(pr.nfa, c, pos, cur).0, Stepped(pr.nfa, c, pos, cur).1)
  {
    if cur != [] {
      SteppedComplete(pr, c, pos, Front(cur));
      var t := Last(cur);
      var (list, visited) := Stepped(pr.nfa, c, pos, Front(cur));
      AddedComplete(pr, c, pos + 1, Thread(pr.nfa[t.pc].x, t.start), list, visited);
    }
  }

  lemma PlainClosed(p: Code, c: Context, pos: int, pos': int, visited: set<int>)
    requires Plain(p) && ClosedSet(p, c, pos, visited)
    ensures ClosedSet(p, c, pos', visited)
  {
    forall pc, q | pc in visited && InRange(p, pc) && q in Pushed(p, c, pos', pc) && InRange(p, q) ensures q in visited {
      assert Pushed(p, c, pos', pc) == Pushed(p, c, pos, pc);
    }
  }

  // ----- the method -----

  /** The stamps stand for `visited` under the current generation, and no stamp is newer. */
  ghost predicate StampsOk(pr: Program, c: Context, pos: int, seen: seq<int>, generation: int, visited: set<int>) {
    && |seen| == |pr.nfa| && visited <= Pcs(pr.nfa)
    && Marked(seen, generation) == Stamped(pr, visited)
    && (pr.Tabled() ==> ClosedSet(pr.nfa, c, pos, visited))
    && forall pc | 0 <= pc < |seen| :: 0 <= seen[pc] <= generation
  }

  /** Moves every thread that consumes the unit at `pos` to the next list. */
  method Step(pr: Program, c: Context, pos: int, cur: seq<Thread>, seen: array<int>, generation: int) returns (next: seq<Thread>)
    requires pr.Sound() && seen.Length == |pr.nfa| && AllInRange(pr.nfa, cur)
    requires forall pc | 0 <= pc < seen.Length :: 0 <= seen[pc] < generation
    modifies seen
    ensures next == Stepped(pr.nfa, c, pos, cur).0
    ensures StampsOk(pr, c, pos + 1, seen[..], generation, Stepped(pr.nfa, c, pos, cur).1)
  {
    next := [];
    ghost var visited: set<int> := {};
    assert Marked(seen[..], generation) == {} == Stamped(pr, {});
    for k := 0 to |cur|
      invariant (next, visited) == Stepped(pr.nfa, c, pos, cur[..k])
      invariant StampsOk(pr, c, pos + 1, seen[..], generation, visited)
    {
      var t := cur[k];
      assert Front(cur[..k + 1]) == cur[..k];
      if Moves(pr.nfa, c, pos, t.pc) {
        var seed := Thread(pr.nfa[t.pc].x, t.start);
        SteppedComplete(pr, c, pos, cur[..k + 1]);
        next := AddThread(pr, c, pos + 1, seed, next, seen, generation, visited);
        visited := Stepped(pr.nfa, c, pos, cur[..k + 1]).1;
      }
    }
    assert cur[..|cur|] == cur;
  }

  /** Inside the window, a thread for a match starting here joins the list last. */
  method Seed(pr: Program, c: Context, pos: int, cur: seq<Thread>, seen: array<int>, generation: int, ghost s: State)
    returns (list: seq<Thread>)
    requires pr.Sound() && seen.Length == |pr.nfa| && StateOk(pr, s) && s.cur == cur
    requires StampsOk(pr, c, pos, seen[..], generation, s.visited)
    modifies seen
    ensures list == Seeded(pr, c, s, pos).0
    ensures forall pc | 0 <= pc < seen.Length :: 0 <= seen[pc] <= generation
  {
    list := cur;
    if pos < c.candidateEnd {
      if seen.Length > 0 { assert 0 <= seen[0] <= generation; }
      list := AddThread(pr, c, pos, Thread(pr.start, pos), cur, seen, generation, s.visited);
    }
  }

  /** The next 32-bit generation; when it wraps, every stamp is cleared. */
  method Renew(pr: Program, c: Context, pos: int, seen: array<int>, used: int, ghost visited: set<int>, ghost marks: set<int>)
    returns (generation: int, next: int)
    requires 2 <= used < U32_SIZE && StampsOk(pr, c, pos, seen[..], used, marks)
    requires visited == if used + 1 == U32_SIZE then {} else marks
    modifies seen
    ensures 1 <= generation && generation + 1 == next < U32_SIZE
    ensures next == if used + 1 == U32_SIZE then 2 else used + 1
    ensures StampsOk(pr, c, pos, seen[..], generation, visited)
  {
    generation := used;
    next := (used + 1) % U32_SIZE;
    if next == 0 {
      forall i | 0 <= i < seen.Length { seen[i] := 0; }
      generation, next := 1, 2;
      assert Marked(seen[..], 1) == {} == Stamped(pr, {});
    }
  }

  lemma StampsMoved(pr: Program, c: Context, pos: int, pos': int, seen: seq<int>, generation: int, visited: set<int>)
    requires pr.Sound() && StampsOk(pr, c, pos, seen, generation, visited)
    ensures StampsOk(pr, c, pos', seen, generation, visited)
  {
    if pr.Tabled() { PlainClosed(pr.nfa, c, pos, pos', visited); }
  }

  /** The method's variables stand for state `s`. */
  ghost predicate Tracks(pr: Program, c: Context, s: State, cur: seq<Thread>, best: Option<Span>, pos: int, seen: seq<int>, generation: int) {
    && s == State(cur, s.visited, s.nextGen, pos, best) && StateOk(pr, s) && c.sourceBegin <= pos
    && 1 <= generation && generation + 1 == s.nextGen < U32_SIZE
    && StampsOk(pr, c, pos, seen, generation, s.visited)
  }

  /** Consumes the unit at `pos` and renews the generations. */
  method Forward(pr: Program, c: Context, pos: int, cur: seq<Thread>, best: Option<Span>, seen: array<int>, used: int)
    returns (next: seq<Thread>, generation: int, ghost s: State)
    requires pr.Sound() && seen.Length == |pr.nfa| && AllInRange(pr.nfa, cur) && 2 <= used < U32_SIZE
    requires c.sourceBegin <= pos && forall pc | 0 <= pc < seen.Length :: 0 <= seen[pc] < used
    modifies seen
    ensures next == Stepped(pr.nfa, c, pos, cur).0
    ensures s == NextState(next, Stepped(pr.nfa, c, pos, cur).1, used, pos, best)
    ensures Tracks(pr, c, s, next, best, pos + 1, seen[..], generation)
  {
    next := Step(pr, c, pos, cur, seen, used);
    ghost var marks := Stepped(pr.nfa, c, pos, cur).1;
    s := NextState(next, marks, used, pos, best);
    var nextGeneration;
    generation, nextGeneration := Renew(pr, c, pos + 1, seen, used, s.visited, marks);
  }

  /** The loop body: seed, cut at the first accepting thread, and consume one unit. */
  method TakeTurn(pr: Program, c: Context, cur: seq<Thread>, best: Option<Span>, pos: int, seen: array<int>, generation: int, ghost s: State)
    returns (done: bool, cur': seq<Thread>, best': Option<Span>, pos': int, generation': int, ghost s': State)
    requires pr.Sound() && seen.Length == |pr.nfa| && Tracks(pr, c, s, cur, best, pos, seen[..], generation)
    modifies seen
    ensures done ==> TurnOf(pr, c, s) == Done(best')
    ensures !done ==> TurnOf(pr, c, s) == More(s') && Tracks(pr, c, s', cur', best', pos', seen[..], generation')
  {
    cur', best', pos', generation', s' := cur, best, pos, generation, s;
    if cur == [] && best == None && pos >= c.candidateEnd {
      return true, cur', best', pos', generation', s';
    }
    var jump := Jump(pr, c, cur, best, pos);
    if jump.None? {
      return true, cur', best', pos', generation', s';
    }
    pos' := jump.value;
    StampsMoved(pr, c, pos, pos', seen[..], generation, s.visited);
    var list := Seed(pr, c, pos', cur, seen, generation, s);
    done, cur', best', pos', generation', s' := CutAndConsume(pr, c, list, best, pos', seen, generation, s);
  }

  /** The rest of the turn, once the list at `pos` is known. */
  method CutAndConsume(pr: Program, c: Context, list: seq<Thread>, best: Option<Span>, pos: int, seen: array<int>, generation: int, ghost s: State)
    returns (done: bool, cur': seq<Thread>, best': Option<Span>, pos': int, generation': int, ghost s': State)
    requires pr.Sound() && seen.Length == |pr.nfa| && AllInRange(pr.nfa, list) && s.best == best
    requires c.sourceBegin <= s.pos <= pos && 1 <= generation && generation + 1 == s.nextGen < U32_SIZE
    requires forall pc | 0 <= pc < seen.Length :: 0 <= seen[pc] <= generation
    modifies seen
    ensures done ==> Consider(pr, c, s, pos, list) == Done(best')
    ensures !done ==> Consider(pr, c, s, pos, list) == More(s') && Tracks(pr, c, s', cur', best', pos', seen[..], generation')
  {
    cur', best', pos', generation', s' := list, best, pos, generation, s;
    var k := FirstAccept(pr.nfa, list);
    if k < |list| {
      best' := Some(Span(list[k].start, pos));
    }
    cur' := list[..k];
    if (best'.Some? && cur' == []) || !c.Readable(pos) {
      return true, cur', best', pos', generation', s';
    }
    cur', generation', s' := Forward(pr, c, pos, cur', best', seen, generation + 1);
    pos' := pos + 1;
    done := cur' == [] && best'.Some?;
  }

  method Search(pr: Program, c: Context) returns (r: Option<Span>)
    requires pr.Sound()
    ensures r == if c.Valid() && pr.start >= 0 then Pike(pr, c, InitialState(c)) else None
  {
    if !c.Valid() || pr.start < 0 {
      return None;
    }
    var cur: seq<Thread> := [];
    var best: Option<Span> := None;
    var seen := new int[|pr.nfa|](_ => 0);
    var generation := 1;
    var pos := c.candidateBegin;
    ghost var s := InitialState(c);
    assert Marked(seen[..], 1) == {} == Stamped(pr, {});
    while true
      invariant Tracks(pr, c, s, cur, best, pos, seen[..], generation)
      invariant Pike(pr, c, InitialState(c)) == Pike(pr, c, s)
      decreases c.recordEnd - pos
    {
      var done;
      done, cur, best, pos, generation, s := TakeTurn(pr, c, cur, best, pos, seen, generation, s);
      if done {
        return best;
      }
    }
  }
}
