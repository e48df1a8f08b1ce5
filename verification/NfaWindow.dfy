/** The simulation over a whole window of starts: what it reports is a match that
    starts inside the window, and it reports one whenever there is one. */
module NfaWindow {
  import opened Basics
  import opened RegexAst
  import opened NfaCode
  import opened NfaMeaning
  import opened NfaExpand
  import opened NfaThreads
  import opened NfaSearch
  import opened QueryIr

  // ----- the zone before the first unit -----

  /** The instructions of the code of `n` reached before any unit is consumed, for
      trees that must begin with a literal. */
  ghost function Head(n: Node, lo: int): set<int>
    decreases n, 0
  {
    match n
    case Literal(_, _) => {lo + 1}
    case Group(child, _) => Head(child, lo) + {lo + Size(child)}
    case Repeat(child, _, _, _) => {lo} + Head(child, lo + 1)
    case Concat(children) => if children == [] then {lo} else {lo} + Head(children[0], lo + 1)
    case Alt(children) => if children == [] then {lo} else AltHead(children, lo)
    case _ => {lo}
  }

  ghost function AltHead(ns: seq<Node>, lo: int): set<int>
    requires ns != []
    decreases ns, 0
  {
    if |ns| == 1 then Head(ns[0], lo)
    else
      var mid := lo + AltSize(Front(ns));
      AltHead(Front(ns), lo) + Head(Last(ns), mid) + {mid + Size(Last(ns))}
  }

  /** Without consuming, control stays in `head`; otherwise it never enters it. */
  ghost predicate Zoned(p: Code, a: int, b: int, head: set<int>) {
    && 0 <= a <= b <= |p|
    && (forall q | q in head :: a <= q < b)
    && forall q {:trigger p[q]} | a <= q < b ::
         if q in head && !p[q].op.Consume?
         then p[q].x in head && (p[q].op == Split ==> p[q].y in head)
         else p[q].x !in head && (p[q].op == Split ==> p[q].y !in head)
  }

  lemma ZoneExtends(p: Code, a: int, m: int, b: int, head: set<int>, exits: set<int>)
    requires Zoned(p, a, m, head) && m <= b <= |p| && 0 <= a && Closed(p, m, b, exits) && exits !! head
    ensures Zoned(p, a, b, head)
  {
  }

  /** A jump into a zone joins it. */
  lemma JumpZoned(p: Code, lo: int, hi: int, head: set<int>, t: int)
    requires 0 <= lo && Zoned(p, lo + 1, hi, head) && Closed(p, lo + 1, hi, {t}) && Apart(t, lo, hi)
    requires !p[lo].op.Consume? && p[lo].op != Split && p[lo].x in head
    ensures Zoned(p, lo, hi, {lo} + head)
  {
  }

  /** A choice between two zones joins them. */
  lemma SplitZoned(p: Code, lo: int, mid: int, pc: int, a: set<int>, b: set<int>, t: int)
    requires 0 <= lo <= mid <= pc < |p| && Zoned(p, lo, mid, a) && Zoned(p, mid, pc, b) && Apart(t, lo, pc + 1)
    requires Closed(p, lo, mid, {t}) && Closed(p, mid, pc, {t})
    requires p[pc].op == Split && p[pc].x in a && p[pc].y in b
    ensures Zoned(p, lo, pc + 1, a + b + {pc})
  {
  }

  /** A repeat's branch lies outside the zone and does not lead into it. */
  lemma BranchZoned(p: Code, lo: int, mid: int, pc: int, greedy: bool, body: int, exit: int, head: set<int>)
    requires Zoned(p, lo, pc, head) && lo <= mid <= body < pc < |p| && p[pc] == Branch(greedy, body, exit)
    requires (forall q | q in head :: q < mid) && exit !in head
    ensures Zoned(p, lo, pc + 1, head)
  {
  }

  lemma {:induction false} HeadZoned(p: Code, n: Node, lo: int, t: int)
    requires Prefixes(n) != [] && Fits(p, lo, Size(n)) && IsCode(p, n, lo, t) && Apart(t, lo, lo + Size(n))
    ensures Zoned(p, lo, lo + Size(n), Head(n, lo)) && Entry(n, lo) in Head(n, lo)
    decreases n, 0
  {
    match n
    case Literal(text, icase) => LiteralZoned(p, text, icase, lo, t);
    case Group(child, group) =>
      HeadZoned(p, child, lo, lo + Size(child) + 1);
      CodeClosed(p, child, lo, lo + Size(child) + 1);
    case Concat(children) => ConcatZoned(p, children, lo, t);
    case Alt(children) =>
      AltPrefixes(children);
      AltZoned(p, children, lo, t);
    case Repeat(child, min, max, greedy) => RepeatZoned(p, child, min, max, greedy, lo, t);
  }

  lemma LiteralZoned(p: Code, text: seq<Byte>, icase: bool, lo: int, t: int)
    requires text != [] && Fits(p, lo, 1 + |text|) && IsCode(p, Literal(text, icase), lo, t) && Apart(t, lo, lo + 1 + |text|)
    ensures Zoned(p, lo, lo + 1 + |text|, {lo + 1})
  {
    forall q | lo < q < lo + 1 + |text| ensures p[q].op.Consume? && p[q].x != lo + 1 {
      assert p[q].op == Consume(Rune(text[q - lo - 1], icase));
    }
  }

  lemma AltPrefixes(ns: seq<Node>)
    requires SortedUnique(PrefixesOfEach(ns)) != []
    ensures ns != [] && forall k | 0 <= k < |ns| :: Prefixes(ns[k]) != []
  {
    forall k | 0 <= k < |ns| ensures Prefixes(ns[k]) != [] {
      EachPrefix(ns, k);
    }
  }

  lemma {:induction false} ConcatZoned(p: Code, ns: seq<Node>, lo: int, t: int)
    requires ns != [] && Prefixes(ns[0]) != []
    requires Fits(p, lo, ConcatSize(ns)) && IsConcat(p, ns, lo, t) && Apart(t, lo, lo + ConcatSize(ns))
    ensures Zoned(p, lo, lo + ConcatSize(ns), {lo} + Head(ns[0], lo + 1))
    decreases ns, 0
  {
    var mid := lo + ConcatSize(Front(ns));
    if |ns| == 1 {
      assert Front(ns) == [];
      HeadZoned(p, ns[0], mid, t);
      CodeClosed(p, ns[0], mid, t);
      JumpZoned(p, lo, mid + Size(ns[0]), Head(ns[0], mid), t);
    } else {
      ConcatZoned(p, Front(ns), lo, Entry(Last(ns), mid));
      CodeClosed(p, Last(ns), mid, t);
      ZoneExtends(p, lo, mid, mid + Size(Last(ns)), {lo} + Head(ns[0], lo + 1), {t});
    }
  }

  lemma {:induction false} AltZoned(p: Code, ns: seq<Node>, lo: int, t: int)
    requires ns != [] && forall k | 0 <= k < |ns| :: Prefixes(ns[k]) != []
    requires Fits(p, lo, AltSize(ns)) && IsAlt(p, ns, lo, t) && Apart(t, lo, lo + AltSize(ns))
    ensures Zoned(p, lo, lo + AltSize(ns), AltHead(ns, lo)) && AltEntry(ns, lo) in AltHead(ns, lo)
    decreases ns, 1
  {
    if |ns| == 1 {
      HeadZoned(p, ns[0], lo, t);
    } else {
      AltZoned(p, Front(ns), lo, t);
      LastZoned(p, ns, lo, t);
      AltZonedStep(p, ns, lo, t);
    }
  }

  /** The last alternative, and where the alternatives lead. */
  lemma {:induction false} LastZoned(p: Code, ns: seq<Node>, lo: int, t: int)
    requires |ns| > 1 && Prefixes(Last(ns)) != [] && Fits(p, lo, AltSize(ns)) && IsAlt(p, ns, lo, t) && Apart(t, lo, lo + AltSize(ns))
    ensures
      var mid := lo + AltSize(Front(ns));
      var pc := mid + Size(Last(ns));
      && Zoned(p, mid, pc, Head(Last(ns), mid)) && Entry(Last(ns), mid) in Head(Last(ns), mid)
      && Closed(p, lo, mid, {t}) && Closed(p, mid, pc, {t})
      && p[pc] == Inst(Split, AltEntry(Front(ns), lo), Entry(Last(ns), mid))
    decreases ns, 0
  {
    var mid := lo + AltSize(Front(ns));
    HeadZoned(p, Last(ns), mid, t);
    AltClosed(p, Front(ns), lo, t);
    CodeClosed(p, Last(ns), mid, t);
  }

  lemma AltZonedStep(p: Code, ns: seq<Node>, lo: int, t: int)
    requires |ns| > 1 && Fits(p, lo, AltSize(ns)) && Apart(t, lo, lo + AltSize(ns))
    requires
      var mid := lo + AltSize(Front(ns));
      var pc := mid + Size(Last(ns));
      && Zoned(p, lo, mid, AltHead(Front(ns), lo)) && AltEntry(Front(ns), lo) in AltHead(Front(ns), lo)
      && Zoned(p, mid, pc, Head(Last(ns), mid)) && Entry(Last(ns), mid) in Head(Last(ns), mid)
      && Closed(p, lo, mid, {t}) && Closed(p, mid, pc, {t})
      && p[pc] == Inst(Split, AltEntry(Front(ns), lo), Entry(Last(ns), mid))
    ensures Zoned(p, lo, lo + AltSize(ns), AltHead(ns, lo)) && AltEntry(ns, lo) in AltHead(ns, lo)
  {
    var mid := lo + AltSize(Front(ns));
    SplitZoned(p, lo, mid, mid + Size(Last(ns)), AltHead(Front(ns), lo), Head(Last(ns), mid), t);
  }

  lemma {:induction false} CopiesZoned(p: Code, n: Node, k: nat, lo: int, t: int)
    requires k > 0 && Prefixes(n) != []
    requires Fits(p, lo, CopiesSize(n, k)) && IsCopies(p, n, k, lo, t) && Apart(t, lo, lo + CopiesSize(n, k))
    ensures Zoned(p, lo, lo + CopiesSize(n, k), {lo} + Head(n, lo + 1))
    decreases n, 1, k
  {
    var mid := lo + CopiesSize(n, k - 1);
    if k == 1 {
      HeadZoned(p, n, mid, t);
      CodeClosed(p, n, mid, t);
      JumpZoned(p, lo, mid + Size(n), Head(n, mid), t);
    } else {
      CopiesZoned(p, n, k - 1, lo, Entry(n, mid));
      CodeClosed(p, n, mid, t);
      ZoneExtends(p, lo, mid, mid + Size(n), {lo} + Head(n, lo + 1), {t});
    }
  }

  lemma {:induction false} OptionalZoned(p: Code, n: Node, min: nat, r: nat, greedy: bool, lo: int, exit: int, t: int)
    requires min > 0 && Prefixes(n) != []
    requires Fits(p, lo, OptionalSize(n, min, r)) && IsOptional(p, n, min, r, greedy, lo, exit, t)
    requires Apart(t, lo, lo + OptionalSize(n, min, r)) && Apart(exit, lo, lo + OptionalSize(n, min, r))
    ensures Zoned(p, lo, lo + OptionalSize(n, min, r), {lo} + Head(n, lo + 1))
    decreases n, 2, r
  {
    if r == 0 {
      CopiesZoned(p, n, min, lo, t);
    } else {
      var mid := lo + OptionalSize(n, min, r - 1);
      OptionalZoned(p, n, min, r - 1, greedy, lo, exit, mid + Size(n));
      OptionalCopyZoned(p, n, greedy, lo, mid, exit, t);
    }
  }

  /** One more optional copy, and the branch that skips it. */
  lemma OptionalCopyZoned(p: Code, n: Node, greedy: bool, lo: int, mid: int, exit: int, t: int)
    requires 0 <= lo < mid && Fits(p, mid, Size(n) + 1) && IsCode(p, n, mid, t) && p[mid + Size(n)] == Branch(greedy, Entry(n, mid), exit)
    requires Apart(t, lo, mid + Size(n) + 1) && Apart(exit, lo, mid + Size(n) + 1) && Zoned(p, lo, mid, {lo} + Head(n, lo + 1))
    ensures Zoned(p, lo, mid + Size(n) + 1, {lo} + Head(n, lo + 1))
  {
    CodeClosed(p, n, mid, t);
    ZoneExtends(p, lo, mid, mid + Size(n), {lo} + Head(n, lo + 1), {t});
    BranchZoned(p, lo, mid, mid + Size(n), greedy, Entry(n, mid), exit, {lo} + Head(n, lo + 1));
  }

  lemma {:induction false} RepeatZoned(p: Code, child: Node, min: nat, max: Option<nat>, greedy: bool, lo: int, t: int)
    requires min > 0 && Prefixes(child) != []
    requires Fits(p, lo, Size(Repeat(child, min, max, greedy))) && IsCode(p, Repeat(child, min, max, greedy), lo, t)
    requires Apart(t, lo, lo + Size(Repeat(child, min, max, greedy)))
    ensures Zoned(p, lo, lo + Size(Repeat(child, min, max, greedy)), {lo} + Head(child, lo + 1))
    decreases child, 3
  {
    if max == Some(min) {
      CopiesZoned(p, child, min, lo, t);
    } else if max == None {
      var mid := lo + CopiesSize(child, min);
      var pc := mid + Size(child);
      CopiesZoned(p, child, min, lo, pc);
      CodeClosed(p, child, mid, pc);
      ZoneExtends(p, lo, mid, pc, {lo} + Head(child, lo + 1), {pc});
      BranchZoned(p, lo, mid, pc, greedy, Entry(child, mid), t, {lo} + Head(child, lo + 1));
    } else {
      OptionalZoned(p, child, min, if max.value < min then 0 else max.value - min, greedy, lo, t, t);
    }
  }

  /** An expansion that starts outside the zone never enters it. */
  lemma {:induction false} ExpandAvoids(p: Code, c: Context, pos: int, stack: seq<int>, seen: set<int>, head: set<int>)
    requires seen <= Pcs(p) && Zoned(p, 0, |p|, head) && seen !! head
    requires forall k | 0 <= k < |stack| :: stack[k] !in head
    ensures Expand(p, c, pos, stack, seen).1 !! head
    decreases Pcs(p) - seen, |stack|
  {
    if stack != [] {
      var pc, rest := Last(stack), Front(stack);
      if !InRange(p, pc) || pc in seen {
        ExpandAvoids(p, c, pos, rest, seen, head);
      } else {
        ExpandAvoids(p, c, pos, rest + Pushed(p, c, pos, pc), seen + {pc}, head);
        assert IsLeaf(p, pc) ==> rest + Pushed(p, c, pos, pc) == rest;
      }
    }
  }

  lemma {:induction false} SteppedAvoids(p: Code, c: Context, pos: int, cur: seq<Thread>, head: set<int>)
    requires AllInRange(p, cur) && Zoned(p, 0, |p|, head)
    ensures Stepped(p, c, pos, cur).1 !! head
    decreases |cur|
  {
    if cur != [] {
      SteppedAvoids(p, c, pos, Front(cur), head);
      var t := Last(cur);
      if Moves(p, c, pos, t.pc) {
        ExpandAvoids(p, c, pos + 1, [p[t.pc].x], Stepped(p, c, pos, Front(cur)).1, head);
      }
    }
  }

  // ----- accepting runs and lists -----

  /** A program with one accepting instruction, its last. */
  ghost predicate Wired(p: Code) {
    p != [] && forall q {:trigger p[q]} | 0 <= q < |p| :: p[q].op == Accept <==> q == |p| - 1
  }

  lemma AcceptHere(p: Code, c: Context, pos: int)
    requires Wired(p)
    ensures AcceptsFrom(p, c, |p| - 1, pos, pos)
  {
    ReachSelf(p, c, 0, |p| - 1, |p| - 1, pos);
  }

  /** What an accepting run does first, at an instruction other than the last. */
  lemma AcceptStep(p: Code, c: Context, pc: int, pos: int, j: int) returns (next: int)
    requires Wired(p) && AcceptsFrom(p, c, pc, pos, j) && pc != |p| - 1
    ensures 0 <= pc < |p| - 1 && Passes(c, p[pc].op, pos)
    ensures next == p[pc].x || (p[pc].op == Split && next == p[pc].y)
    ensures AcceptsFrom(p, c, next, After(p[pc].op, pos), j)
  {
    var hi := |p| - 1;
    var k: nat :| Runs(p, c, 0, hi, k, pc, pos, hi, j);
    next := if Runs(p, c, 0, hi, k - 1, p[pc].x, After(p[pc].op, pos), hi, j) then p[pc].x else p[pc].y;
    assert Runs(p, c, 0, hi, k - 1, next, After(p[pc].op, pos), hi, j);
  }

  /** Everything listed was reachable from the stack. */
  lemma {:induction false} ExpandSound(p: Code, c: Context, pos: int, stack: seq<int>, seen: set<int>, leaf: int, j: int)
    returns (k: nat)
    requires Wired(p) && seen <= Pcs(p) && leaf in Expand(p, c, pos, stack, seen).0 && AcceptsFrom(p, c, leaf, pos, j)
    ensures k < |stack| && AcceptsFrom(p, c, stack[k], pos, j)
    decreases Pcs(p) - seen, |stack|
  {
    var pc, rest := Last(stack), Front(stack);
    if !InRange(p, pc) || pc in seen {
      k := ExpandSound(p, c, pos, rest, seen, leaf, j);
    } else if IsLeaf(p, pc) {
      if leaf == pc {
        k := |stack| - 1;
      } else {
        k := ExpandSound(p, c, pos, rest, seen + {pc}, leaf, j);
      }
    } else {
      var stack' := rest + Pushed(p, c, pos, pc);
      k := ExpandSound(p, c, pos, stack', seen + {pc}, leaf, j);
      if k >= |rest| {
        StepJoin(p, c, 0, |p| - 1, pc, pos, stack'[k], |p| - 1, j);
        k := |stack| - 1;
      }
    }
  }

  /** An accepting run inside a closed set passes a leaf of that set. */
  lemma {:induction false} LeafOnTheWay(p: Code, c: Context, pos: int, k: nat, pc: int, closed: set<int>, j: int) returns (leaf: int)
    requires Wired(p) && ClosedSet(p, c, pos, closed) && pc in closed && InRange(p, pc)
    requires Runs(p, c, 0, |p| - 1, k, pc, pos, |p| - 1, j)
    ensures leaf in closed && InRange(p, leaf) && IsLeaf(p, leaf) && AcceptsFrom(p, c, leaf, pos, j)
  {
    if IsLeaf(p, pc) {
      leaf := pc;
    } else {
      var next := if Runs(p, c, 0, |p| - 1, k - 1, p[pc].x, pos, |p| - 1, j) then p[pc].x else p[pc].y;
      assert next in Pushed(p, c, pos, pc);
      leaf := LeafOnTheWay(p, c, pos, k - 1, next, closed, j);
    }
  }

  // ----- every reported span is a match from inside the window -----

  /** Whatever this thread will accept, a start inside the window accepts. */
  ghost predicate SoundThread(pr: Program, c: Context, pos: int, t: Thread)
    requires Wired(pr.nfa)
  {
    c.candidateBegin <= t.start < c.candidateEnd
    && forall j :: AcceptsFrom(pr.nfa, c, t.pc, pos, j) ==> AcceptsFrom(pr.nfa, c, pr.start, t.start, j)
  }

  ghost predicate SoundList(pr: Program, c: Context, pos: int, list: seq<Thread>)
    requires Wired(pr.nfa)
  {
    AllInRange(pr.nfa, list) && forall k | 0 <= k < |list| :: SoundThread(pr, c, pos, list[k])
  }

  ghost predicate SoundSpan(pr: Program, c: Context, best: Option<Span>)
    requires Wired(pr.nfa)
  {
    best.Some? ==>
      && c.candidateBegin <= best.value.start < c.candidateEnd
      && AcceptsFrom(pr.nfa, c, pr.start, best.value.start, best.value.end)
  }

  lemma AddedSound(pr: Program, c: Context, pos: int, seed: Thread, list: seq<Thread>, visited: set<int>)
    requires Wired(pr.nfa) && visited <= Pcs(pr.nfa) && SoundList(pr, c, pos, list) && SoundThread(pr, c, pos, seed)
    ensures SoundList(pr, c, pos, Added(pr.nfa, c, pos, seed, list, visited).0)
  {
    var pcs := Expand(pr.nfa, c, pos, [seed.pc], visited).0;
    var all := Added(pr.nfa, c, pos, seed, list, visited).0;
    forall k | 0 <= k < |all| ensures SoundThread(pr, c, pos, all[k]) {
      if k >= |list| {
        assert all[k] == Thread(pcs[k - |list|], seed.start);
        forall j | AcceptsFrom(pr.nfa, c, all[k].pc, pos, j) ensures AcceptsFrom(pr.nfa, c, pr.start, seed.start, j) {
          assert pcs[k - |list|] in pcs;
          var q := ExpandSound(pr.nfa, c, pos, [seed.pc], visited, all[k].pc, j);
        }
      }
    }
  }

  lemma {:induction false} SteppedSound(pr: Program, c: Context, pos: int, cur: seq<Thread>)
    requires Wired(pr.nfa) && SoundList(pr, c, pos, cur) && c.Readable(pos)
    ensures SoundList(pr, c, pos + 1, Stepped(pr.nfa, c, pos, cur).0)
    decreases |cur|
  {
    if cur != [] {
      SteppedSound(pr, c, pos, Front(cur));
      var t := Last(cur);
      if Moves(pr.nfa, c, pos, t.pc) {
        var seed := Thread(pr.nfa[t.pc].x, t.start);
        assert SoundThread(pr, c, pos, cur[|cur| - 1]);
        forall j | AcceptsFrom(pr.nfa, c, seed.pc, pos + 1, j) ensures AcceptsFrom(pr.nfa, c, pr.start, seed.start, j) {
          StepJoin(pr.nfa, c, 0, |pr.nfa| - 1, t.pc, pos, seed.pc, |pr.nfa| - 1, j);
        }
        var r := Stepped(pr.nfa, c, pos, Front(cur));
        AddedSound(pr, c, pos + 1, seed, r.0, r.1);
      }
    }
  }

  lemma {:induction false} PikeSound(pr: Program, c: Context, s: State)
    requires c.Valid() && Wired(pr.nfa) && StateOk(pr, s) && s.pos >= c.candidateBegin
    requires SoundList(pr, c, s.pos, s.cur) && SoundSpan(pr, c, s.best)
    ensures SoundSpan(pr, c, Pike(pr, c, s))
    decreases c.recordEnd - s.pos
  {
    if !(s.cur == [] && s.best == None && s.pos >= c.candidateEnd) {
      var jump := Jump(pr, c, s.cur, s.best, s.pos);
      if jump.Some? {
        var pos := jump.value;
        var list := Seeded(pr, c, s, pos).0;
        SeededSound(pr, c, s, pos);
        ConsiderSound(pr, c, s, pos, list);
        var turn := TurnOf(pr, c, s);
        if turn.More? { PikeSound(pr, c, turn.next); }
      }
    }
  }

  lemma SeededSound(pr: Program, c: Context, s: State, pos: int)
    requires Wired(pr.nfa) && StateOk(pr, s) && SoundList(pr, c, s.pos, s.cur)
    requires pos >= c.candidateBegin && (pos != s.pos ==> s.cur == [])
    ensures SoundList(pr, c, pos, Seeded(pr, c, s, pos).0)
  {
    if pos < c.candidateEnd {
      AddedSound(pr, c, pos, Thread(pr.start, pos), s.cur, s.visited);
    }
  }

  lemma ConsiderSound(pr: Program, c: Context, s: State, pos: int, list: seq<Thread>)
    requires Wired(pr.nfa) && SoundList(pr, c, pos, list) && SoundSpan(pr, c, s.best) && pos >= s.pos
    ensures
      var turn := Consider(pr, c, s, pos, list);
      match turn
      case Done(result) => SoundSpan(pr, c, result)
      case More(next) => SoundList(pr, c, next.pos, next.cur) && SoundSpan(pr, c, next.best)
  {
    var k := FirstAccept(pr.nfa, list);
    if k < |list| { AcceptHere(pr.nfa, c, pos); }
    if c.Readable(pos) { SteppedSound(pr, c, pos, list[..k]); }
  }

  // ----- whenever some start of the window has a match, one is reported -----

  /** Positions the simulation reads through from `from` up to a start at `s`. */
  ghost predicate Startable(c: Context, from: int, s: int) {
    from <= s < c.candidateEnd && forall q | from <= q < s :: c.Readable(q)
  }

  /** A thread of the list, or a start still ahead, leads to a match. */
  ghost predicate Hope(pr: Program, c: Context, best: Option<Span>, list: seq<Thread>, pos: int, from: int)
    requires Wired(pr.nfa)
  {
    || best.Some?
    || (exists k, j :: 0 <= k < |list| && AcceptsFrom(pr.nfa, c, list[k].pc, pos, j))
    || (exists s, j :: from <= s && Startable(c, pos, s) && AcceptsFrom(pr.nfa, c, pr.start, s, j))
  }

  /** Matches begin with one of the prefixes, and the code reached before the first
      unit is never entered again. */
  ghost predicate PrefixOk(pr: Program, c: Context, head: set<int>)
    requires Wired(pr.nfa)
  {
    pr.prefixes != [] ==>
      && Zoned(pr.nfa, 0, |pr.nfa|, head) && pr.start in head
      && forall s, j | AcceptsFrom(pr.nfa, c, pr.start, s, j) ::
           exists k :: 0 <= k < |pr.prefixes| && pr.prefixes[k] != [] && OccursAt(c.source, pr.prefixes[k], s - c.sourceBegin)
  }

  ghost predicate Kept(pr: Program, c: Context, s: State, head: set<int>) {
    && Complete(pr, c, s.pos, s.cur, s.visited)
    && (pr.prefixes != [] ==> s.visited !! head)
  }

  /** A start that accepts puts a thread on the list that accepts. */
  lemma SeedFinds(pr: Program, c: Context, s: State, pos: int, head: set<int>, j: int) returns (k: nat)
    requires c.Valid() && Wired(pr.nfa) && PrefixOk(pr, c, head) && Kept(pr, c, s, head)
    requires s.pos <= pos < c.candidateEnd && (pos != s.pos ==> pr.prefixes != [])
    requires AcceptsFrom(pr.nfa, c, pr.start, pos, j) && InRange(pr.nfa, pr.start)
    ensures k < |Seeded(pr, c, s, pos).0| && AcceptsFrom(pr.nfa, c, Seeded(pr, c, s, pos).0[k].pc, pos, j)
  {
    var p := pr.nfa;
    var (pcs, visited) := Expand(p, c, pos, [pr.start], s.visited);
    var list := Seeded(pr, c, s, pos).0;
    ExpandLeaves(p, c, pos, [pr.start], s.visited);
    assert [pr.start][0] in [pr.start];
    var n: nat :| Runs(p, c, 0, |p| - 1, n, pr.start, pos, |p| - 1, j);
    if pos == s.pos {
      AddedComplete(pr, c, pos, Thread(pr.start, pos), s.cur, s.visited);
      var leaf := LeafOnTheWay(p, c, pos, n, pr.start, visited, j);
      k :| 0 <= k < |list| && list[k].pc == leaf;
    } else {
      var added := FreshZone(pr, c, pos, s.visited, head);
      var leaf := LeafOnTheWay(p, c, pos, n, pr.start, added, j);
      assert leaf in pcs;
      var i :| 0 <= i < |pcs| && pcs[i] == leaf;
      k := |s.cur| + i;
    }
  }

  /** After a jump the stale marks lie outside the zone, so the zone is expanded anew. */
  lemma FreshZone(pr: Program, c: Context, pos: int, stale: set<int>, head: set<int>) returns (added: set<int>)
    requires Wired(pr.nfa) && stale <= Pcs(pr.nfa) && stale !! head
    requires Zoned(pr.nfa, 0, |pr.nfa|, head) && pr.start in head
    ensures added == Expand(pr.nfa, c, pos, [pr.start], stale).1 - stale
    ensures ClosedSet(pr.nfa, c, pos, added) && pr.start in added
  {
    var p := pr.nfa;
    var visited := Expand(p, c, pos, [pr.start], stale).1;
    added := visited - stale;
    ExpandCloses(p, c, pos, [pr.start], stale, stale);
    assert [pr.start][0] in [pr.start];
    assert ClosedSet(p, c, pos, head);
    ExpandInside(p, c, pos, [pr.start], stale, head);
    forall pc, q | pc in added && InRange(p, pc) && q in Pushed(p, c, pos, pc) && InRange(p, q) ensures q in added {
      assert q in head;
    }
  }

  lemma {:induction false} SteppedMarks(p: Code, c: Context, pos: int, cur: seq<Thread>, k: nat)
    requires AllInRange(p, cur) && k < |cur| && Moves(p, c, pos, cur[k].pc) && InRange(p, p[cur[k].pc].x)
    ensures p[cur[k].pc].x in Stepped(p, c, pos, cur).1
    decreases |cur|
  {
    var t := Last(cur);
    var r := Stepped(p, c, pos, Front(cur));
    if k < |cur| - 1 {
      SteppedMarks(p, c, pos, Front(cur), k);
    } else {
      SeedVisited(p, c, pos + 1, p[t.pc].x, r.1);
    }
  }

  /** A thread that accepts hands its acceptance on to the next list. */
  lemma StepFinds(pr: Program, c: Context, pos: int, cur: seq<Thread>, k: nat, j: int) returns (m: nat)
    requires Wired(pr.nfa) && AllInRange(pr.nfa, cur) && k < |cur| && IsLeaf(pr.nfa, cur[k].pc)
    requires pr.nfa[cur[k].pc].op != Accept && AcceptsFrom(pr.nfa, c, cur[k].pc, pos, j)
    ensures c.Readable(pos)
    ensures m < |Stepped(pr.nfa, c, pos, cur).0| && AcceptsFrom(pr.nfa, c, Stepped(pr.nfa, c, pos, cur).0[m].pc, pos + 1, j)
  {
    var p := pr.nfa;
    var (next, marks) := Stepped(p, c, pos, cur);
    var x := AcceptStep(p, c, cur[k].pc, pos, j);
    var n: nat :| Runs(p, c, 0, |p| - 1, n, x, pos + 1, |p| - 1, j);
    SteppedMarks(p, c, pos, cur, k);
    SteppedComplete(pr, c, pos, cur);
    var leaf := LeafOnTheWay(p, c, pos + 1, n, x, marks, j);
    m :| 0 <= m < |next| && next[m].pc == leaf;
  }

  ghost predicate AllLeaves(p: Code, list: seq<Thread>) {
    forall k | 0 <= k < |list| :: InRange(p, list[k].pc) && IsLeaf(p, list[k].pc)
  }

  lemma SeededLeaves(pr: Program, c: Context, s: State, pos: int)
    requires StateOk(pr, s) && AllLeaves(pr.nfa, s.cur)
    ensures AllLeaves(pr.nfa, Seeded(pr, c, s, pos).0)
    ensures forall k | 0 <= k < |s.cur| :: k < |Seeded(pr, c, s, pos).0| && Seeded(pr, c, s, pos).0[k] == s.cur[k]
  {
    ExpandLeaves(pr.nfa, c, pos, [pr.start], s.visited);
    var pcs := Expand(pr.nfa, c, pos, [pr.start], s.visited).0;
    var list := Seeded(pr, c, s, pos).0;
    forall k | 0 <= k < |list| ensures InRange(pr.nfa, list[k].pc) && IsLeaf(pr.nfa, list[k].pc) {
      if k >= |s.cur| {
        var pc := pcs[k - |s.cur|];
        assert pc in pcs;
        assert list[k].pc == pc;
      } else {
        assert list[k] == s.cur[k];
      }
    }
  }

  ghost predicate Hopeful(pr: Program, c: Context, s: State, head: set<int>)
    requires Wired(pr.nfa)
  {
    Kept(pr, c, s, head) && Hope(pr, c, s.best, s.cur, s.pos, s.pos)
  }

  lemma ConsiderHope(pr: Program, c: Context, s: State, pos: int, list: seq<Thread>, head: set<int>)
    requires c.Valid() && Wired(pr.nfa) && PrefixOk(pr, c, head) && pos >= s.pos
    requires AllLeaves(pr.nfa, list) && Hope(pr, c, s.best, list, pos, pos + 1)
    ensures
      var turn := Consider(pr, c, s, pos, list);
      match turn
      case Done(result) => result.Some?
      case More(next) => Hopeful(pr, c, next, head)
  {
    var k := FirstAccept(pr.nfa, list);
    var cur := list[..k];
    var best := if k < |list| then Some(Span(list[k].start, pos)) else s.best;
    var (next, marks) := Stepped(pr.nfa, c, pos, cur);
    if best == None {
      assert cur == list;
      HopeMoves(pr, c, pos, list);
    }
    SteppedKept(pr, c, pos, cur, head, s.nextGen, best);
  }

  /** Marks and list of the next state agree. */
  lemma SteppedKept(pr: Program, c: Context, pos: int, cur: seq<Thread>, head: set<int>, gen: nat, best: Option<Span>)
    requires Wired(pr.nfa) && AllInRange(pr.nfa, cur) && PrefixOk(pr, c, head)
    ensures Kept(pr, c, NextState(Stepped(pr.nfa, c, pos, cur).0, Stepped(pr.nfa, c, pos, cur).1, gen, pos, best), head)
  {
    SteppedComplete(pr, c, pos, cur);
    if pr.prefixes != [] { SteppedAvoids(pr.nfa, c, pos, cur, head); }
  }

  /** With nothing accepted yet, a hope survives the next unit. */
  lemma HopeMoves(pr: Program, c: Context, pos: int, list: seq<Thread>)
    requires Wired(pr.nfa) && AllLeaves(pr.nfa, list) && FirstAccept(pr.nfa, list) == |list|
    requires Hope(pr, c, None, list, pos, pos + 1)
    ensures c.Readable(pos) && Hope(pr, c, None, Stepped(pr.nfa, c, pos, list).0, pos + 1, pos + 1)
  {
    if k, j :| 0 <= k < |list| && AcceptsFrom(pr.nfa, c, list[k].pc, pos, j) {
      var m := StepFinds(pr, c, pos, list, k, j);
    } else {
      var s, j :| pos + 1 <= s && Startable(c, pos, s) && AcceptsFrom(pr.nfa, c, pr.start, s, j);
      assert c.Readable(pos);
      assert Startable(c, pos + 1, s);
    }
  }

  /** Jumping to the first prefix passes over no start that has a match. */
  lemma JumpKeeps(pr: Program, c: Context, s: State, head: set<int>)
    requires c.Valid() && Wired(pr.nfa) && PrefixOk(pr, c, head) && Hopeful(pr, c, s, head) && s.pos >= c.candidateBegin
    requires !(s.cur == [] && s.best == None && s.pos >= c.candidateEnd)
    ensures var jump := Jump(pr, c, s.cur, s.best, s.pos); jump.Some? && Hope(pr, c, s.best, s.cur, jump.value, jump.value)
  {
    if s.cur == [] && s.best == None && pr.prefixes != [] && s.pos < c.recordEnd {
      var st, j :| s.pos <= st && Startable(c, s.pos, st) && AcceptsFrom(pr.nfa, c, pr.start, st, j);
      var k :| 0 <= k < |pr.prefixes| && OccursAt(c.source, pr.prefixes[k], st - c.sourceBegin);
      var found := FindAny(c.source, pr.prefixes, s.pos - c.sourceBegin);
      assert found.Some? && found.value <= st - c.sourceBegin;
      assert Startable(c, c.sourceBegin + found.value, st);
    }
  }

  /** Adding the start at `pos` turns hope at `pos` into a thread. */
  lemma SeedKeeps(pr: Program, c: Context, s: State, pos: int, head: set<int>)
    requires c.Valid() && Wired(pr.nfa) && PrefixOk(pr, c, head) && Kept(pr, c, s, head)
    requires s.pos <= pos && (pos != s.pos ==> pr.prefixes != []) && InRange(pr.nfa, pr.start)
    requires Hope(pr, c, s.best, s.cur, pos, pos)
    ensures Hope(pr, c, s.best, Seeded(pr, c, s, pos).0, pos, pos + 1)
  {
    SeededLeaves(pr, c, s, pos);
    var list := Seeded(pr, c, s, pos).0;
    if s.best.Some? {
    } else if k, j :| 0 <= k < |s.cur| && AcceptsFrom(pr.nfa, c, s.cur[k].pc, pos, j) {
      assert list[k] == s.cur[k];
    } else {
      var st, j :| pos <= st && Startable(c, pos, st) && AcceptsFrom(pr.nfa, c, pr.start, st, j);
      if st == pos {
        var k := SeedFinds(pr, c, s, pos, head, j);
      }
    }
  }

  lemma {:induction false} PikeComplete(pr: Program, c: Context, s: State, head: set<int>)
    requires c.Valid() && Wired(pr.nfa) && PrefixOk(pr, c, head) && InRange(pr.nfa, pr.start)
    requires Hopeful(pr, c, s, head) && s.pos >= c.candidateBegin
    ensures Pike(pr, c, s).Some?
    decreases c.recordEnd - s.pos
  {
    assert !(s.cur == [] && s.best == None && s.pos >= c.candidateEnd);
    JumpKeeps(pr, c, s, head);
    var pos := Jump(pr, c, s.cur, s.best, s.pos).value;
    SeedKeeps(pr, c, s, pos, head);
    SeededLeaves(pr, c, s, pos);
    ConsiderHope(pr, c, s, pos, Seeded(pr, c, s, pos).0, head);
    var turn := TurnOf(pr, c, s);
    if turn.More? { PikeComplete(pr, c, turn.next, head); }
  }

  // ----- the search of a compiled pattern -----

  /** `pr` is what compiling `n` and reading its prefixes produce. */
  ghost predicate IsProgram(pr: Program, n: Node) {
    pr.Sound() && Compiled(pr.nfa, pr.start, n) && pr.prefixes == Prefixes(n)
  }

  lemma ProgramShaped(pr: Program, n: Node)
    requires IsProgram(pr, n)
    ensures Wired(pr.nfa) && InRange(pr.nfa, pr.start)
  {
    CodeClosed(pr.nfa, n, 0, Size(n));
  }

  lemma ProgramPrefixes(pr: Program, n: Node, c: Context) returns (head: set<int>)
    requires IsProgram(pr, n) && WellFormed(n) && c.Valid() && Wired(pr.nfa)
    ensures PrefixOk(pr, c, head)
  {
    head := Head(n, 0);
    if Prefixes(n) != [] {
      var p := pr.nfa;
      HeadZoned(p, n, 0, Size(n));
      assert Zoned(p, 0, |p|, head);
      forall s, j | AcceptsFrom(p, c, pr.start, s, j)
        ensures exists k :: 0 <= k < |pr.prefixes| && pr.prefixes[k] != [] && OccursAt(c.source, pr.prefixes[k], s - c.sourceBegin)
      {
        CompiledMeaning(p, pr.start, n, c, s, j);
        var q := PrefixNecessary(n, c, s, j);
        LiteralOccurs(c, q, s);
        var k :| 0 <= k < |pr.prefixes| && pr.prefixes[k] == q;
      }
    }
  }

  /** A reported span starts in the window and is a match of the tree. */
  lemma SearchSound(pr: Program, n: Node, c: Context)
    requires IsProgram(pr, n) && WellFormed(n) && c.Valid() && Pike(pr, c, InitialState(c)).Some?
    ensures
      var r := Pike(pr, c, InitialState(c)).value;
      c.candidateBegin <= r.start < c.candidateEnd && Matches(n, c, r.start, r.end)
  {
    ProgramShaped(pr, n);
    PikeSound(pr, c, InitialState(c));
    var r := Pike(pr, c, InitialState(c)).value;
    CompiledMeaning(pr.nfa, pr.start, n, c, r.start, r.end);
  }

  /** A match from any start the search can read up to makes it report something. */
  lemma SearchComplete(pr: Program, n: Node, c: Context, s: int, j: int)
    requires IsProgram(pr, n) && WellFormed(n) && c.Valid()
    requires Startable(c, c.candidateBegin, s) && Matches(n, c, s, j)
    ensures Pike(pr, c, InitialState(c)).Some?
  {
    ProgramShaped(pr, n);
    var head := ProgramPrefixes(pr, n, c);
    CompiledMeaning(pr.nfa, pr.start, n, c, s, j);
    PikeComplete(pr, c, InitialState(c), head);
  }

  /** When the region, if any, reaches the last candidate start, the search succeeds
      exactly when some start of the window has a match. */
  lemma SearchExact(pr: Program, n: Node, c: Context)
    requires IsProgram(pr, n) && WellFormed(n) && c.Valid()
    requires c.bounded ==> c.candidateEnd <= c.regionEnd + 1
    ensures Pike(pr, c, InitialState(c)).Some?
      <==> exists s, j :: c.candidateBegin <= s < c.candidateEnd && Matches(n, c, s, j)
  {
    var found := Pike(pr, c, InitialState(c));
    if found.Some? {
      SearchSound(pr, n, c);
      assert Matches(n, c, found.value.start, found.value.end);
    } else if s, j :| c.candidateBegin <= s < c.candidateEnd && Matches(n, c, s, j) {
      assert Startable(c, c.candidateBegin, s);
      SearchComplete(pr, n, c, s, j);
    }
  }
}
