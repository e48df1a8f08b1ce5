/** Which windows report the leftmost match. Starts are still seeded after a match
    is known, and a later one may replace it: only a window of at most one start is
    safe for every pattern and every text. */
module NfaWide {
  import opened Basics
  import opened RegexAst
  import opened NfaCode
  import opened NfaExpand
  import opened NfaThreads
  import opened NfaSearch
  import opened NfaWindow
  import opened QueryIr

  /** No start of the window before the reported one has a match. */
  ghost predicate ReportsLeftmost(pr: Program, n: Node, c: Context)
    requires c.Valid() && StateOk(pr, InitialState(c))
  {
    Pike(pr, c, InitialState(c)).Some? ==>
      forall s, j | c.candidateBegin <= s < c.candidateEnd && Matches(n, c, s, j) :: Pike(pr, c, InitialState(c)).value.start <= s
  }

  lemma OneStartLeftmost(pr: Program, n: Node, c: Context)
    requires IsProgram(pr, n) && WellFormed(n) && c.Valid() && c.candidateEnd <= c.candidateBegin + 1
    ensures ReportsLeftmost(pr, n, c)
  {
    if Pike(pr, c, InitialState(c)).Some? { SearchSound(pr, n, c); }
  }

  // ----- two starts are too many: `ab|` where an `a` stands first -----

  const A: Byte := 97
  const B: Byte := 98

  function AbOrNothing(): Node {
    Alt([Literal([A, B], false), Empty])
  }

  /** Its program: the branch `ab`, the empty one, the choice, the accepting instruction. */
  function AbCode(): Code {
    [Inst(Jmp, -1, -1), Inst(Consume(Rune(A, false)), 2, -1), Inst(Consume(Rune(B, false)), 5, -1),
      Inst(Jmp, 5, -1), Inst(Split, 1, 3), Inst(Accept, -1, -1)]
  }

  function AbProgram(): Program {
    Program(AbCode(), 4, 0, [], [], [])
  }

  lemma AbCompiled()
    ensures IsProgram(AbProgram(), AbOrNothing())
  {
    var p, text: seq<Byte> := AbCode(), [A, B];
    var long := Literal(text, false);
    var ns := [long, Empty];
    assert Front(ns) == [long] && Last(ns) == Empty;
    assert Size(long) == 3 && AltSize(Front(ns)) == 3 && AltSize(ns) == 5;
    assert text[0] == A && text[1] == B;
    assert IsSpelled(p, text, false, 1, 5);
    assert IsCode(p, long, 0, 5);
    assert IsAlt(p, [long], 0, 5) && AltEntry([long], 0) == 1;
    assert IsCode(p, Empty, 3, 5) && Entry(Empty, 3) == 3;
    assert IsAlt(p, ns, 0, 5);
    assert IsCode(p, AbOrNothing(), 0, 5);
    AbHasNoPrefix();
  }

  lemma AbHasNoPrefix()
    ensures Prefixes(AbOrNothing()) == []
  {
    var ns := AbOrNothing().children;
    assert PrefixesOfEach(ns[1..]) == [];
    assert PrefixesOfEach(ns) == [];
  }

  lemma LeafExpand(p: Code, c: Context, pos: int, pc: int, seen: set<int>)
    requires seen <= Pcs(p) && InRange(p, pc) && IsLeaf(p, pc) && pc !in seen
    ensures Expand(p, c, pos, [pc], seen) == ([pc], seen + {pc})
  {
    assert Front([pc]) == [];
    assert pc in Pcs(p);
    assert Expand(p, c, pos, [], seen + {pc}) == ([], seen + {pc});
    assert [pc] + [] == [pc];
  }

  /** A choice puts its preferred branch on top. */
  lemma SplitExpand(p: Code, c: Context, pos: int, pc: int, seen: set<int>)
    requires seen <= Pcs(p) && InRange(p, pc) && p[pc].op == Split && pc !in seen
    ensures Expand(p, c, pos, [pc], seen) == Expand(p, c, pos, [p[pc].y, p[pc].x], seen + {pc})
  {
    assert pc in Pcs(p) && Front([pc]) == [] && [] + Pushed(p, c, pos, pc) == [p[pc].y, p[pc].x];
  }

  lemma LeafFirst(p: Code, c: Context, pos: int, pc: int, below: int, seen: set<int>)
    requires seen <= Pcs(p) && InRange(p, pc) && IsLeaf(p, pc) && pc !in seen
    ensures
      var rest := Expand(p, c, pos, [below], seen + {pc});
      Expand(p, c, pos, [below, pc], seen) == ([pc] + rest.0, rest.1)
  {
    assert pc in Pcs(p) && Front([below, pc]) == [below];
  }

  lemma JumpExpand(p: Code, c: Context, pos: int, pc: int, seen: set<int>)
    requires seen <= Pcs(p) && InRange(p, pc) && p[pc].op == Jmp && pc !in seen
    ensures Expand(p, c, pos, [pc], seen) == Expand(p, c, pos, [p[pc].x], seen + {pc})
  {
    assert pc in Pcs(p) && Front([pc]) == [] && [] + Pushed(p, c, pos, pc) == [p[pc].x];
  }

  /** A new start waits for its `a`, and failing that has already matched nothing. */
  lemma StartExpand(c: Context, pos: int, seen: set<int>)
    requires seen <= {2}
    ensures Expand(AbCode(), c, pos, [4], seen) == ([1, 5], seen + {4, 1, 3, 5})
  {
    var p := AbCode();
    assert seen <= Pcs(p);
    SplitExpand(p, c, pos, 4, seen);
    LeafFirst(p, c, pos, 1, 3, seen + {4});
    JumpExpand(p, c, pos, 3, seen + {4} + {1});
    LeafExpand(p, c, pos, 5, seen + {4} + {1} + {3});
    assert [1] + [5] == [1, 5] && seen + {4} + {1} + {3} + {5} == seen + {4, 1, 3, 5};
  }

  lemma SeedsAt(c: Context, s: State)
    requires StateOk(AbProgram(), s) && s.visited <= {2} && s.pos < c.candidateEnd
    ensures Seeded(AbProgram(), c, s, s.pos).0 == s.cur + [Thread(1, s.pos), Thread(5, s.pos)]
  {
    StartExpand(c, s.pos, s.visited);
    assert Threads([1, 5], s.pos) == [Thread(1, s.pos), Thread(5, s.pos)];
  }

  /** The first start matches nothing at once, and its `ab` is half read. */
  ghost function HalfRead(b: int): State {
    State([Thread(2, b)], {2}, 3, b + 1, Some(Span(b, b)))
  }

  lemma FirstTurn(c: Context)
    requires c.Valid() && c.candidateBegin < c.candidateEnd && c.Readable(c.candidateBegin) && c.ByteAt(c.candidateBegin) == A
    ensures TurnOf(AbProgram(), c, InitialState(c)) == More(HalfRead(c.candidateBegin))
  {
    var p, s, b := AbCode(), InitialState(c), c.candidateBegin;
    SeedsAt(c, s);
    var list := s.cur + [Thread(1, b), Thread(5, b)];
    assert list[0] == Thread(1, b) && list[1] == Thread(5, b) && list[..1] == [Thread(1, b)];
    assert FirstAccept(p, list) == 1;
    assert Front([Thread(1, b)]) == [] && Last([Thread(1, b)]) == Thread(1, b);
    LeafExpand(p, c, b + 1, 2, {});
    assert Threads([2], b) == [Thread(2, b)];
    assert [] + [Thread(2, b)] == [Thread(2, b)] && {} + {2} == {2};
    assert Stepped(p, c, b, [Thread(1, b)]) == ([Thread(2, b)], {2});
  }

  /** The second start is seeded all the same, and replaces the match. */
  lemma SecondTurn(c: Context)
    requires c.Valid() && c.candidateBegin + 1 < c.candidateEnd
    requires c.ByteAt(c.candidateBegin + 1) != A && c.ByteAt(c.candidateBegin + 1) != B
    ensures
      var b := c.candidateBegin;
      TurnOf(AbProgram(), c, HalfRead(b)) == Done(Some(Span(b + 1, b + 1)))
  {
    var p, b := AbCode(), c.candidateBegin;
    var s := HalfRead(b);
    SeedsAt(c, s);
    var list := s.cur + [Thread(1, b + 1), Thread(5, b + 1)];
    var cur := [Thread(2, b), Thread(1, b + 1)];
    assert list[0] == Thread(2, b) && list[1] == Thread(1, b + 1) && list[2] == Thread(5, b + 1);
    assert FirstAccept(p, list) == 2;
    assert list[..2] == cur;
    assert Front(cur) == [Thread(2, b)] && Front([Thread(2, b)]) == [];
    assert Stepped(p, c, b + 1, [Thread(2, b)]) == ([], {});
    assert Stepped(p, c, b + 1, cur) == ([], {});
  }

  /** In every window of two or more starts whose first byte is an `a` without a `b`
      behind it, `ab|` matches at the first start and is reported at the second. */
  lemma LeftmostLost(c: Context)
    requires c.Valid() && c.candidateBegin + 1 < c.candidateEnd && c.Readable(c.candidateBegin)
    requires c.ByteAt(c.candidateBegin) == A
    requires c.ByteAt(c.candidateBegin + 1) != A && c.ByteAt(c.candidateBegin + 1) != B
    ensures
      var b := c.candidateBegin;
      && IsProgram(AbProgram(), AbOrNothing()) && WellFormed(AbOrNothing()) && Matches(AbOrNothing(), c, b, b)
      && Pike(AbProgram(), c, InitialState(c)) == Some(Span(b + 1, b + 1))
  {
    AbCompiled();
    FirstTurn(c);
    SecondTurn(c);
    assert Matches(AbOrNothing().children[1], c, c.candidateBegin, c.candidateBegin);
  }

  /** Every search over the window [b, e) reports the leftmost match. */
  ghost predicate AlwaysLeftmost(b: nat, e: nat) {
    forall pr, n, c: Context | IsProgram(pr, n) && WellFormed(n) && c.Valid() && c.candidateBegin == b && c.candidateEnd == e ::
      ReportsLeftmost(pr, n, c)
  }

  function LoneA(b: nat, e: nat): Context
    requires b < e
  {
    Context(seq(e, k => if k == b then A else 0), 0, 0, e, b, e, false, false, LF, false, 0, 0)
  }

  /** The exact windows: those with at most one start. */
  lemma LeftmostWindows(b: nat, e: nat)
    requires b <= e < U64_MAX
    ensures AlwaysLeftmost(b, e) <==> e <= b + 1
  {
    if e <= b + 1 {
      forall pr, n, c: Context | IsProgram(pr, n) && WellFormed(n) && c.Valid() && c.candidateBegin == b && c.candidateEnd == e
        ensures ReportsLeftmost(pr, n, c)
      {
        OneStartLeftmost(pr, n, c);
      }
    } else {
      var c := LoneA(b, e);
      LeftmostLost(c);
      assert !ReportsLeftmost(AbProgram(), AbOrNothing(), c);
    }
  }
}
