/** The simulation of a pattern of fixed width. A thread's address says how many units it
    still needs; the first acceptance is then the leftmost match. */
module NfaFixed {
  import opened Basics
  import opened RegexAst
  import opened NfaCode
  import opened NfaMeaning
  import opened NfaExpand
  import opened NfaThreads
  import opened NfaSearch
  import opened NfaWindow
  import opened NfaWide

  // ----- patterns of fixed width -----

  function Product(k: nat, w: nat): nat {
    if k == 0 then 0 else Product(k - 1, w) + w
  }

  /** The number of units every match takes, when the form of the pattern fixes it. */
  function FixedWidth(n: Node): Option<nat>
    decreases n, 0
  {
    match n
    case Empty => Some(0)
    case Literal(text, _) => Some(|text|)
    case Dot(_) => Some(1)
    case Class(_) => Some(1)
    case Assert(_) => Some(0)
    case Group(child, _) => FixedWidth(child)
    case Concat(children) => FixedSum(children)
    case Alt(children) => if children == [] then Some(0) else FixedCommon(children)
    case Repeat(child, min, max, _) =>
      if max == Some(min) && FixedWidth(child).Some? then Some(Product(min, FixedWidth(child).value)) else None
  }

  function FixedSum(ns: seq<Node>): Option<nat>
    decreases ns, 0
  {
    if ns == [] then Some(0)
    else
      var a, b := FixedSum(Front(ns)), FixedWidth(Last(ns));
      if a.Some? && b.Some? then Some(a.value + b.value) else None
  }

  function FixedCommon(ns: seq<Node>): Option<nat>
    requires ns != []
    decreases ns, 0
  {
    if |ns| == 1 then FixedWidth(ns[0])
    else if FixedCommon(Front(ns)) == FixedWidth(Last(ns)) then FixedWidth(Last(ns))
    else None
  }

  /** Every match is that wide. */
  lemma {:induction false} FixedMatch(n: Node, c: Context, i: int, j: int)
    requires WellFormed(n) && FixedWidth(n).Some? && Matches(n, c, i, j)
    ensures j == i + FixedWidth(n).value
    decreases n, 0
  {
    match n
    case Group(child, _) => FixedMatch(child, c, i, j);
    case Concat(children) => FixedMatchAll(children, c, i, j);
    case Alt(children) =>
      var k :| 0 <= k < |children| && Matches(children[k], c, i, j);
      CommonWidth(children, k);
      FixedMatch(children[k], c, i, j);
    case Repeat(child, min, max, _) =>
      var k: nat :| min <= k && (max.Some? ==> k <= max.value) && Times(child, k, c, i, j);
      FixedMatchTimes(child, k, c, i, j);
    case _ =>
  }

  lemma {:induction false} FixedMatchAll(ns: seq<Node>, c: Context, i: int, j: int)
    requires (forall k | 0 <= k < |ns| :: WellFormed(ns[k])) && FixedSum(ns).Some? && MatchesAll(ns, c, i, j)
    ensures j == i + FixedSum(ns).value
    decreases ns, 0
  {
    if ns != [] {
      var m :| MatchesAll(Front(ns), c, i, m) && Matches(Last(ns), c, m, j);
      FixedMatchAll(Front(ns), c, i, m);
      FixedMatch(Last(ns), c, m, j);
    }
  }

  lemma {:induction false} FixedMatchTimes(n: Node, k: nat, c: Context, i: int, j: int)
    requires WellFormed(n) && FixedWidth(n).Some? && Times(n, k, c, i, j)
    ensures j == i + Product(k, FixedWidth(n).value)
    decreases n, 1, k
  {
    if k > 0 {
      var m :| Times(n, k - 1, c, i, m) && Matches(n, c, m, j);
      FixedMatchTimes(n, k - 1, c, i, m);
      FixedMatch(n, c, m, j);
    }
  }

  lemma {:induction false} CommonWidth(ns: seq<Node>, k: nat)
    requires k < |ns| && FixedCommon(ns).Some?
    ensures FixedWidth(ns[k]) == FixedCommon(ns)
    decreases |ns|
  {
    if |ns| > 1 && k < |ns| - 1 { CommonWidth(Front(ns), k); }
  }

  // ----- units left at an address -----

  /** Units the code of `n`, placed at `lo`, still consumes from `q` on, plus `v`. */
  ghost function RankAt(n: Node, lo: int, v: nat, q: int): int
    requires FixedWidth(n).Some?
    decreases n, 0
  {
    match n
    case Literal(text, _) => RankText(text, lo, v, q)
    case Dot(_) => v + 1
    case Class(_) => v + 1
    case Group(child, _) => RankGroup(child, lo, v, q)
    case Concat(children) => RankAll(children, lo, v, q)
    case Alt(children) => if children == [] then v else RankAlt(children, lo, v, q)
    case Repeat(child, min, _, _) => RankCopies(child, min, lo, v, q)
    case _ => v
  }

  ghost function RankText(text: seq<Byte>, lo: int, v: nat, q: int): int {
    if text == [] || q == lo then v else v + |text| - (q - lo - 1)
  }

  ghost function RankGroup(child: Node, lo: int, v: nat, q: int): int
    requires FixedWidth(child).Some?
    decreases child, 2
  {
    var a := lo + Size(child);
    if q < a then RankAt(child, lo, v, q) else if q == a then v + FixedWidth(child).value else v
  }

  ghost function RankAll(ns: seq<Node>, lo: int, v: nat, q: int): int
    requires FixedSum(ns).Some?
    decreases ns, 0
  {
    if ns == [] then v
    else
      var mid := lo + ConcatSize(Front(ns));
      if q < mid then RankAll(Front(ns), lo, v + FixedWidth(Last(ns)).value, q) else RankAt(Last(ns), mid, v, q)
  }

  ghost function RankAlt(ns: seq<Node>, lo: int, v: nat, q: int): int
    requires ns != [] && FixedCommon(ns).Some?
    decreases ns, 0
  {
    if |ns| == 1 then RankAt(ns[0], lo, v, q)
    else
      var mid := lo + AltSize(Front(ns));
      if q < mid then RankAlt(Front(ns), lo, v, q)
      else if q < mid + Size(Last(ns)) then RankAt(Last(ns), mid, v, q)
      else v + FixedCommon(ns).value
  }

  ghost function RankCopies(n: Node, k: nat, lo: int, v: nat, q: int): int
    requires FixedWidth(n).Some?
    decreases n, 1, k
  {
    if k == 0 then v
    else
      var mid := lo + CopiesSize(n, k - 1);
      if q < mid then RankCopies(n, k - 1, lo, v + FixedWidth(n).value, q) else RankAt(n, mid, v, q)
  }

  function Cost(op: Op): nat {
    if op.Consume? then 1 else 0
  }

  /** A successor inside [lo, hi) has rank `next`; leaving for `t` leaves rank `v`. */
  predicate Leads(x: int, lo: int, hi: int, t: int, v: int, r: int, next: int) {
    (x == t && r == v) || (lo <= x < hi && r == next)
  }

  /** An instruction of rank `r` in code [lo, hi) that ends at `t` with rank `v`. */
  predicate ChainStep(i: Inst, lo: int, hi: int, t: int, v: int, r: int, next: int, other: int) {
    && i.op != Accept && v + Cost(i.op) <= r
    && ((i.x == -1 && i.op == Jmp) || Leads(i.x, lo, hi, t, v, r - Cost(i.op), next))
    && (i.op == Split ==> Leads(i.y, lo, hi, t, v, r, other))
  }

  lemma {:induction false} EntryRank(n: Node, lo: int, v: nat)
    requires FixedWidth(n).Some?
    ensures RankAt(n, lo, v, Entry(n, lo)) == v + FixedWidth(n).value
    decreases n, 0
  {
    match n
    case Concat(children) => EntryAll(children, lo, v);
    case Alt(children) => if children != [] { EntryAlt(children, lo, v); }
    case Repeat(child, min, _, _) => EntryCopies(child, min, lo, v);
    case _ =>
  }

  lemma {:induction false} EntryAll(ns: seq<Node>, lo: int, v: nat)
    requires FixedSum(ns).Some?
    ensures RankAll(ns, lo, v, lo) == v + FixedSum(ns).value
    decreases ns, 0
  {
    if ns != [] { EntryAll(Front(ns), lo, v + FixedWidth(Last(ns)).value); }
  }

  lemma {:induction false} EntryAlt(ns: seq<Node>, lo: int, v: nat)
    requires ns != [] && FixedCommon(ns).Some?
    ensures RankAlt(ns, lo, v, AltEntry(ns, lo)) == v + FixedCommon(ns).value
    decreases ns, 0
  {
    if |ns| == 1 { EntryRank(ns[0], lo, v); }
  }

  lemma {:induction false} EntryCopies(n: Node, k: nat, lo: int, v: nat)
    requires FixedWidth(n).Some?
    ensures RankCopies(n, k, lo, v, lo) == v + Product(k, FixedWidth(n).value)
    decreases n, 1, k
  {
    if k > 0 { EntryCopies(n, k - 1, lo, v + FixedWidth(n).value); }
  }

  /** Every instruction leads where exactly the units it does not take are still needed. */
  lemma {:induction false} RankStep(p: Code, n: Node, lo: int, t: int, v: nat, q: int)
    requires Fits(p, lo, Size(n)) && IsCode(p, n, lo, t) && FixedWidth(n).Some? && Apart(t, lo, lo + Size(n)) && lo <= q < lo + Size(n)
    ensures ChainStep(p[q], lo, lo + Size(n), t, v, RankAt(n, lo, v, q), RankAt(n, lo, v, p[q].x), RankAt(n, lo, v, p[q].y))
    ensures RankAt(n, lo, v, q) <= v + FixedWidth(n).value
    decreases n, 1
  {
    match n
    case Literal(text, icase) => SpelledStep(p, text, icase, lo, t, v, q);
    case Group(child, group) => GroupRank(p, child, group, lo, t, v, q);
    case Alt(_) => BranchingStep(p, n, lo, t, v, q);
    case Concat(_) => BranchingStep(p, n, lo, t, v, q);
    case Repeat(_, _, _, _) => BranchingStep(p, n, lo, t, v, q);
    case _ => LoneStep(p, n, lo, t, v);
  }

  lemma {:induction false} BranchingStep(p: Code, n: Node, lo: int, t: int, v: nat, q: int)
    requires n.Concat? || n.Alt? || n.Repeat?
    requires Fits(p, lo, Size(n)) && IsCode(p, n, lo, t) && FixedWidth(n).Some? && Apart(t, lo, lo + Size(n)) && lo <= q < lo + Size(n)
    ensures ChainStep(p[q], lo, lo + Size(n), t, v, RankAt(n, lo, v, q), RankAt(n, lo, v, p[q].x), RankAt(n, lo, v, p[q].y))
    ensures RankAt(n, lo, v, q) <= v + FixedWidth(n).value
    decreases n, 0
  {
    match n
    case Concat(children) => RankSteps(p, children, lo, t, v, q);
    case Alt(children) => if children == [] { LoneStep(p, n, lo, t, v); } else { AltSteps(p, children, lo, t, v, q); }
    case Repeat(child, min, _, _) => CopiesSteps(p, child, min, lo, t, v, q);
  }

  /** A tree compiled to one instruction. */
  lemma LoneStep(p: Code, n: Node, lo: int, t: int, v: nat)
    requires n.Empty? || n.Dot? || n.Class? || n.Assert? || n == Alt([])
    requires Fits(p, lo, Size(n)) && IsCode(p, n, lo, t)
    ensures Size(n) == 1 && ChainStep(p[lo], lo, lo + 1, t, v, RankAt(n, lo, v, lo), RankAt(n, lo, v, p[lo].x), RankAt(n, lo, v, p[lo].y))
    ensures RankAt(n, lo, v, lo) <= v + FixedWidth(n).value
  {}

  lemma SpelledStep(p: Code, text: seq<Byte>, icase: bool, lo: int, t: int, v: nat, q: int)
    requires var n := Literal(text, icase); Fits(p, lo, Size(n)) && IsCode(p, n, lo, t) && Apart(t, lo, lo + Size(n)) && lo <= q < lo + Size(n)
    ensures ChainStep(p[q], lo, lo + Size(Literal(text, icase)), t, v,
      RankText(text, lo, v, q), RankText(text, lo, v, p[q].x), RankText(text, lo, v, p[q].y))
    ensures RankText(text, lo, v, q) <= v + |text|
  {
    if text != [] && q > lo {
      var k := q - lo - 1;
      assert p[lo + 1 + k] == Inst(Consume(Rune(text[k], icase)), if k + 1 < |text| then lo + 1 + k + 1 else t, -1);
    }
  }

  lemma {:induction false} GroupRank(p: Code, child: Node, group: nat, lo: int, t: int, v: nat, q: int)
    requires var n := Group(child, group);
      Fits(p, lo, Size(n)) && IsCode(p, n, lo, t) && FixedWidth(child).Some? && Apart(t, lo, lo + Size(n)) && lo <= q < lo + Size(n)
    ensures ChainStep(p[q], lo, lo + Size(child) + 2, t, v,
      RankGroup(child, lo, v, q), RankGroup(child, lo, v, p[q].x), RankGroup(child, lo, v, p[q].y))
    ensures RankGroup(child, lo, v, q) <= v + FixedWidth(child).value
    decreases child, 2
  {
    var a := lo + Size(child);
    if q < a {
      RankStep(p, child, lo, a + 1, v, q);
    } else if q == a {
      EntryRank(child, lo, v);
    }
  }

  lemma {:induction false} RankSteps(p: Code, ns: seq<Node>, lo: int, t: int, v: nat, q: int)
    requires Fits(p, lo, ConcatSize(ns)) && IsConcat(p, ns, lo, t) && FixedSum(ns).Some? && Apart(t, lo, lo + ConcatSize(ns))
    requires lo <= q < lo + ConcatSize(ns)
    ensures ChainStep(p[q], lo, lo + ConcatSize(ns), t, v, RankAll(ns, lo, v, q), RankAll(ns, lo, v, p[q].x), RankAll(ns, lo, v, p[q].y))
    ensures RankAll(ns, lo, v, q) <= v + FixedSum(ns).value
    decreases ns, 0
  {
    if ns != [] {
      var mid := lo + ConcatSize(Front(ns));
      EntryRank(Last(ns), mid, v);
      if q < mid {
        RankSteps(p, Front(ns), lo, Entry(Last(ns), mid), v + FixedWidth(Last(ns)).value, q);
      } else {
        RankStep(p, Last(ns), mid, t, v, q);
      }
    }
  }

  lemma {:induction false} AltSteps(p: Code, ns: seq<Node>, lo: int, t: int, v: nat, q: int)
    requires ns != [] && Fits(p, lo, AltSize(ns)) && IsAlt(p, ns, lo, t) && FixedCommon(ns).Some? && Apart(t, lo, lo + AltSize(ns))
    requires lo <= q < lo + AltSize(ns)
    ensures ChainStep(p[q], lo, lo + AltSize(ns), t, v, RankAlt(ns, lo, v, q), RankAlt(ns, lo, v, p[q].x), RankAlt(ns, lo, v, p[q].y))
    ensures RankAlt(ns, lo, v, q) <= v + FixedCommon(ns).value
    decreases ns, 0
  {
    if |ns| == 1 {
      RankStep(p, ns[0], lo, t, v, q);
    } else {
      var mid := lo + AltSize(Front(ns));
      if q < mid {
        AltSteps(p, Front(ns), lo, t, v, q);
        FrontChain(p[q], ns, lo, t, v, RankAlt(Front(ns), lo, v, q));
      } else if q < mid + Size(Last(ns)) {
        RankStep(p, Last(ns), mid, t, v, q);
        BackChain(p[q], ns, lo, t, v, RankAt(Last(ns), mid, v, q));
      } else {
        EntryAlt(Front(ns), lo, v);
        EntryRank(Last(ns), mid, v);
      }
    }
  }

  lemma FrontChain(i: Inst, ns: seq<Node>, lo: int, t: int, v: nat, r: int)
    requires |ns| > 1 && FixedCommon(ns).Some?
    requires ChainStep(i, lo, lo + AltSize(Front(ns)), t, v, r, RankAlt(Front(ns), lo, v, i.x), RankAlt(Front(ns), lo, v, i.y))
    ensures ChainStep(i, lo, lo + AltSize(ns), t, v, r, RankAlt(ns, lo, v, i.x), RankAlt(ns, lo, v, i.y))
  {}

  lemma BackChain(i: Inst, ns: seq<Node>, lo: int, t: int, v: nat, r: int)
    requires |ns| > 1 && FixedCommon(ns).Some?
    requires
      var mid := lo + AltSize(Front(ns));
      ChainStep(i, mid, mid + Size(Last(ns)), t, v, r, RankAt(Last(ns), mid, v, i.x), RankAt(Last(ns), mid, v, i.y))
    ensures ChainStep(i, lo, lo + AltSize(ns), t, v, r, RankAlt(ns, lo, v, i.x), RankAlt(ns, lo, v, i.y))
  {}

  lemma {:induction false} CopiesSteps(p: Code, n: Node, k: nat, lo: int, t: int, v: nat, q: int)
    requires Fits(p, lo, CopiesSize(n, k)) && IsCopies(p, n, k, lo, t) && FixedWidth(n).Some? && Apart(t, lo, lo + CopiesSize(n, k))
    requires lo <= q < lo + CopiesSize(n, k)
    ensures ChainStep(p[q], lo, lo + CopiesSize(n, k), t, v, RankCopies(n, k, lo, v, q), RankCopies(n, k, lo, v, p[q].x), RankCopies(n, k, lo, v, p[q].y))
    ensures RankCopies(n, k, lo, v, q) <= v + Product(k, FixedWidth(n).value)
    decreases n, 2, k
  {
    if k > 0 {
      var mid := lo + CopiesSize(n, k - 1);
      if q < mid {
        CopiesSteps(p, n, k - 1, lo, Entry(n, mid), v + FixedWidth(n).value, q);
        CopyChain(p[q], n, k, lo, t, v, RankCopies(n, k - 1, lo, v + FixedWidth(n).value, q));
      } else {
        LastCopySteps(p, n, k, lo, t, v, q);
      }
    }
  }

  lemma {:induction false} LastCopySteps(p: Code, n: Node, k: nat, lo: int, t: int, v: nat, q: int)
    requires k > 0 && Fits(p, lo, CopiesSize(n, k)) && IsCopies(p, n, k, lo, t) && FixedWidth(n).Some? && Apart(t, lo, lo + CopiesSize(n, k))
    requires lo + CopiesSize(n, k - 1) <= q < lo + CopiesSize(n, k)
    ensures ChainStep(p[q], lo, lo + CopiesSize(n, k), t, v, RankCopies(n, k, lo, v, q), RankCopies(n, k, lo, v, p[q].x), RankCopies(n, k, lo, v, p[q].y))
    ensures RankCopies(n, k, lo, v, q) <= v + Product(k, FixedWidth(n).value)
    decreases n, 2, 0
  {
    var mid := lo + CopiesSize(n, k - 1);
    RankStep(p, n, mid, t, v, q);
    LastChain(p[q], n, k, lo, t, v, RankAt(n, mid, v, q));
  }

  lemma LastChain(i: Inst, n: Node, k: nat, lo: int, t: int, v: nat, r: int)
    requires FixedWidth(n).Some? && k > 0
    requires
      var mid := lo + CopiesSize(n, k - 1);
      ChainStep(i, mid, mid + Size(n), t, v, r, RankAt(n, mid, v, i.x), RankAt(n, mid, v, i.y))
    ensures ChainStep(i, lo, lo + CopiesSize(n, k), t, v, r, RankCopies(n, k, lo, v, i.x), RankCopies(n, k, lo, v, i.y))
  {
  }

  lemma CopyChain(i: Inst, n: Node, k: nat, lo: int, t: int, v: nat, r: int)
    requires FixedWidth(n).Some? && k > 0
    requires
      var mid, w := lo + CopiesSize(n, k - 1), FixedWidth(n).value;
      ChainStep(i, lo, mid, Entry(n, mid), v + w, r, RankCopies(n, k - 1, lo, v + w, i.x), RankCopies(n, k - 1, lo, v + w, i.y))
    ensures ChainStep(i, lo, lo + CopiesSize(n, k), t, v, r, RankCopies(n, k, lo, v, i.x), RankCopies(n, k, lo, v, i.y))
  {
    CopyStep(i.x, n, k, lo, v);
    CopyStep(i.y, n, k, lo, v);
  }

  /** The last copy begins where the copies before it end. */
  lemma CopyStep(x: int, n: Node, k: nat, lo: int, v: nat)
    requires FixedWidth(n).Some? && k > 0
    ensures
      var mid, w := lo + CopiesSize(n, k - 1), FixedWidth(n).value;
      && (x < mid ==> RankCopies(n, k, lo, v, x) == RankCopies(n, k - 1, lo, v + w, x))
      && (x == Entry(n, mid) ==> RankCopies(n, k, lo, v, x) == v + w)
  {
    EntryRank(n, lo + CopiesSize(n, k - 1), v);
  }

  // ----- the whole program -----

  ghost predicate IsFixed(pr: Program, n: Node, w: nat) {
    IsProgram(pr, n) && WellFormed(n) && FixedWidth(n) == Some(w)
  }

  /** Units an address of the program still needs. */
  ghost function Units(n: Node, q: int): int
    requires FixedWidth(n).Some?
  {
    if q == Size(n) then 0 else RankAt(n, 0, 0, q)
  }

  lemma UnitsStep(pr: Program, n: Node, w: nat, pc: int)
    requires IsFixed(pr, n, w) && InRange(pr.nfa, pc)
    ensures pr.nfa[pc].op == Accept <==> pc == Size(n)
    ensures 0 <= Units(n, pc) <= w && (pr.nfa[pc].op.Consume? ==> Units(n, pc) > 0)
    ensures pc != Size(n) && InRange(pr.nfa, pr.nfa[pc].x) ==> Units(n, pr.nfa[pc].x) == Units(n, pc) - Cost(pr.nfa[pc].op)
    ensures pr.nfa[pc].op == Split && InRange(pr.nfa, pr.nfa[pc].y) ==> Units(n, pr.nfa[pc].y) == Units(n, pc)
  {
    UnitsOfCode(pr.nfa, n, pc);
  }

  lemma UnitsOfCode(p: Code, n: Node, pc: int)
    requires FixedWidth(n).Some? && |p| == Size(n) + 1 && IsCode(p, n, 0, Size(n)) && p[Size(n)] == Inst(Accept, -1, -1) && InRange(p, pc)
    ensures p[pc].op == Accept <==> pc == Size(n)
    ensures 0 <= Units(n, pc) <= FixedWidth(n).value && (p[pc].op.Consume? ==> Units(n, pc) > 0)
    ensures pc != Size(n) && InRange(p, p[pc].x) ==> Units(n, p[pc].x) == Units(n, pc) - Cost(p[pc].op)
    ensures p[pc].op == Split && InRange(p, p[pc].y) ==> Units(n, p[pc].y) == Units(n, pc)
  {
    if pc < Size(n) { RankStep(p, n, 0, Size(n), 0, pc); }
  }

  /** Expansion keeps the number of units left. */
  lemma {:induction false} ExpandUnits(pr: Program, n: Node, w: nat, c: Context, pos: int, stack: seq<int>, seen: set<int>, r: int)
    requires IsFixed(pr, n, w) && seen <= Pcs(pr.nfa)
    requires forall k | 0 <= k < |stack| && InRange(pr.nfa, stack[k]) :: Units(n, stack[k]) == r
    ensures forall leaf | leaf in Expand(pr.nfa, c, pos, stack, seen).0 :: Units(n, leaf) == r
    decreases Pcs(pr.nfa) - seen, |stack|
  {
    if stack != [] {
      var pc, rest := Last(stack), Front(stack);
      if !InRange(pr.nfa, pc) || pc in seen {
        ExpandUnits(pr, n, w, c, pos, rest, seen, r);
      } else if IsLeaf(pr.nfa, pc) {
        ExpandUnits(pr, n, w, c, pos, rest, seen + {pc}, r);
      } else {
        UnitsStep(pr, n, w, pc);
        var pushed := Pushed(pr.nfa, c, pos, pc);
        assert forall k | 0 <= k < |pushed| && InRange(pr.nfa, pushed[k]) :: Units(n, pushed[k]) == r;
        ExpandUnits(pr, n, w, c, pos, rest + pushed, seen + {pc}, r);
      }
    }
  }

  /** Threads in the order of their starts, each as far along as its start is back. */
  ghost predicate InStep(n: Node, length: int, pos: int, list: seq<Thread>)
    requires FixedWidth(n).Some?
  {
    && (forall k | 0 <= k < |list| :: Units(n, list[k].pc) == length - (pos - list[k].start))
    && forall a, b | 0 <= a < b < |list| :: list[a].start <= list[b].start
  }

  lemma AddedInStep(pr: Program, n: Node, w: nat, c: Context, pos: int, seed: Thread, list: seq<Thread>, visited: set<int>)
    requires IsFixed(pr, n, w) && visited <= Pcs(pr.nfa) && InStep(n, w, pos, list)
    requires InRange(pr.nfa, seed.pc) ==> Units(n, seed.pc) == w - (pos - seed.start)
    requires forall k | 0 <= k < |list| :: list[k].start <= seed.start
    ensures InStep(n, w, pos, Added(pr.nfa, c, pos, seed, list, visited).0)
    ensures forall k | 0 <= k < |Added(pr.nfa, c, pos, seed, list, visited).0| :: Added(pr.nfa, c, pos, seed, list, visited).0[k].start <= seed.start
  {
    ExpandUnits(pr, n, w, c, pos, [seed.pc], visited, w - (pos - seed.start));
    var pcs := Expand(pr.nfa, c, pos, [seed.pc], visited).0;
    var all := list + Threads(pcs, seed.start);
    forall k | 0 <= k < |all| ensures Units(n, all[k].pc) == w - (pos - all[k].start) && all[k].start <= seed.start {
      if k >= |list| {
        assert pcs[k - |list|] in pcs;
        assert all[k] == Thread(pcs[k - |list|], seed.start);
      }
    }
    forall a, b | 0 <= a < b < |all| ensures all[a].start <= all[b].start {
      if b >= |list| { assert all[b].start == seed.start; }
    }
  }

  lemma {:induction false} SteppedInStep(pr: Program, n: Node, w: nat, c: Context, pos: int, cur: seq<Thread>)
    requires IsFixed(pr, n, w) && AllInRange(pr.nfa, cur) && InStep(n, w, pos, cur)
    ensures InStep(n, w, pos + 1, Stepped(pr.nfa, c, pos, cur).0)
    ensures forall k | 0 <= k < |Stepped(pr.nfa, c, pos, cur).0| :: cur != [] && Stepped(pr.nfa, c, pos, cur).0[k].start <= Last(cur).start
  {
    if cur != [] {
      var t, front := Last(cur), Front(cur);
      SteppedInStep(pr, n, w, c, pos, front);
      var (list, visited) := Stepped(pr.nfa, c, pos, front);
      assert front != [] ==> Last(front).start <= t.start;
      UnitsStep(pr, n, w, t.pc);
      if Moves(pr.nfa, c, pos, t.pc) {
        AddedInStep(pr, n, w, c, pos + 1, Thread(pr.nfa[t.pc].x, t.start), list, visited);
      }
    }
  }

  lemma SeededInStep(pr: Program, n: Node, w: nat, c: Context, s: State, pos: int)
    requires IsFixed(pr, n, w) && StateOk(pr, s) && InStep(n, w, s.pos, s.cur) && (s.cur == [] || pos == s.pos)
    ensures InStep(n, w, pos, Seeded(pr, c, s, pos).0)
  {
    forall k | 0 <= k < |s.cur| ensures s.cur[k].start <= pos { UnitsStep(pr, n, w, s.cur[k].pc); }
    if pos < c.candidateEnd {
      EntryRank(n, 0, 0);
      UnitsStep(pr, n, w, pr.start);
      AddedInStep(pr, n, w, c, pos, Thread(pr.start, pos), s.cur, s.visited);
    }
  }

  /** The first thread that accepts has no thread before it. */
  lemma {:induction false} AcceptFirst(pr: Program, n: Node, w: nat, pos: int, list: seq<Thread>)
    requires IsFixed(pr, n, w) && AllLeaves(pr.nfa, list) && AllInRange(pr.nfa, list) && InStep(n, w, pos, list)
    requires FirstAccept(pr.nfa, list) < |list|
    ensures FirstAccept(pr.nfa, list) == 0
  {
    var k := FirstAccept(pr.nfa, list);
    UnitsStep(pr, n, w, list[k].pc);
    UnitsStep(pr, n, w, list[0].pc);
    assert Units(n, list[k].pc) == 0 && Units(n, list[k].pc) == w - (pos - list[k].start);
    assert Units(n, list[0].pc) == w - (pos - list[0].start);
    assert list[0].start <= list[k].start;
  }

  // ----- leftmost -----

  /** A thread accepts at `j`, or the start `s0` that does is still ahead. */
  ghost predicate HopeFor(pr: Program, c: Context, list: seq<Thread>, pos: int, from: int, s0: int, j: int)
    requires Wired(pr.nfa)
  {
    || (exists k :: 0 <= k < |list| && AcceptsFrom(pr.nfa, c, list[k].pc, pos, j))
    || (from <= s0 && Startable(c, pos, s0) && AcceptsFrom(pr.nfa, c, pr.start, s0, j))
  }

  lemma {:induction false} RunsForward(p: Code, c: Context, lo: int, hi: int, k: nat, pc: int, i: int, t: int, j: int)
    requires 0 <= lo <= hi <= |p| && Runs(p, c, lo, hi, k, pc, i, t, j)
    ensures i <= j
    decreases k
  {
    if !(pc == t && i == j) {
      var i' := After(p[pc].op, i);
      var next := if Runs(p, c, lo, hi, k - 1, p[pc].x, i', t, j) then p[pc].x else p[pc].y;
      RunsForward(p, c, lo, hi, k - 1, next, i', t, j);
    }
  }

  lemma HopeBounds(pr: Program, c: Context, list: seq<Thread>, pos: int, from: int, s0: int, j: int)
    requires Wired(pr.nfa) && HopeFor(pr, c, list, pos, from, s0, j) && pos <= from
    ensures pos <= j
  {
    if k :| 0 <= k < |list| && AcceptsFrom(pr.nfa, c, list[k].pc, pos, j) {
      var d: nat :| Runs(pr.nfa, c, 0, |pr.nfa| - 1, d, list[k].pc, pos, |pr.nfa| - 1, j);
      RunsForward(pr.nfa, c, 0, |pr.nfa| - 1, d, list[k].pc, pos, |pr.nfa| - 1, j);
    } else {
      var d: nat :| Runs(pr.nfa, c, 0, |pr.nfa| - 1, d, pr.start, s0, |pr.nfa| - 1, j);
      RunsForward(pr.nfa, c, 0, |pr.nfa| - 1, d, pr.start, s0, |pr.nfa| - 1, j);
    }
  }

  /** The state of a search that has accepted nothing and is in step. */
  ghost predicate Hunting(pr: Program, n: Node, w: nat, c: Context, s: State, head: set<int>, s0: int, j: int)
    requires IsFixed(pr, n, w) && Wired(pr.nfa)
  {
    && Kept(pr, c, s, head) && s.best == None && s.pos >= c.candidateBegin
    && InStep(n, w, s.pos, s.cur) && HopeFor(pr, c, s.cur, s.pos, s.pos, s0, j)
  }

  lemma {:induction false} JumpFor(pr: Program, n: Node, w: nat, c: Context, s: State, head: set<int>, s0: int, j: int)
    requires c.Valid() && IsFixed(pr, n, w) && Wired(pr.nfa) && PrefixOk(pr, c, head) && Hunting(pr, n, w, c, s, head, s0, j)
    ensures !(s.cur == [] && s.pos >= c.candidateEnd)
    ensures var jump := Jump(pr, c, s.cur, s.best, s.pos); jump.Some? && HopeFor(pr, c, s.cur, jump.value, jump.value, s0, j)
  {
    if s.cur == [] && pr.prefixes != [] && s.pos < c.recordEnd {
      var k :| 0 <= k < |pr.prefixes| && OccursAt(c.source, pr.prefixes[k], s0 - c.sourceBegin);
      var found := FindAny(c.source, pr.prefixes, s.pos - c.sourceBegin);
      assert found.Some? && found.value <= s0 - c.sourceBegin;
      assert Startable(c, c.sourceBegin + found.value, s0);
    }
  }

  lemma {:induction false} SeedFor(pr: Program, n: Node, w: nat, c: Context, s: State, pos: int, head: set<int>, s0: int, j: int)
    requires c.Valid() && IsFixed(pr, n, w) && Wired(pr.nfa) && InRange(pr.nfa, pr.start) && PrefixOk(pr, c, head)
    requires Hunting(pr, n, w, c, s, head, s0, j) && s.pos <= pos && (pos != s.pos ==> pr.prefixes != [])
    requires HopeFor(pr, c, s.cur, pos, pos, s0, j)
    ensures HopeFor(pr, c, Seeded(pr, c, s, pos).0, pos, pos + 1, s0, j)
  {
    SeededLeaves(pr, c, s, pos);
    var list := Seeded(pr, c, s, pos).0;
    if k :| 0 <= k < |s.cur| && AcceptsFrom(pr.nfa, c, s.cur[k].pc, pos, j) {
      assert list[k] == s.cur[k];
    } else if s0 == pos {
      var k := SeedFinds(pr, c, s, pos, head, j);
    }
  }

  /** With nothing accepted at `pos`, the hope moves on with the unit consumed there. */
  lemma {:induction false} ForwardFor(pr: Program, c: Context, pos: int, list: seq<Thread>, s0: int, j: int)
    requires Wired(pr.nfa) && AllInRange(pr.nfa, list) && AllLeaves(pr.nfa, list) && FirstAccept(pr.nfa, list) == |list|
    requires HopeFor(pr, c, list, pos, pos + 1, s0, j)
    ensures c.Readable(pos) && HopeFor(pr, c, Stepped(pr.nfa, c, pos, list).0, pos + 1, pos + 1, s0, j)
  {
    if k :| 0 <= k < |list| && AcceptsFrom(pr.nfa, c, list[k].pc, pos, j) {
      var m := StepFinds(pr, c, pos, list, k, j);
    } else {
      assert c.Readable(pos);
      assert Startable(c, pos + 1, s0);
    }
  }

  /** A turn that accepts ends the search there and then. */
  lemma {:induction false} TurnAccepts(pr: Program, n: Node, w: nat, c: Context, s: State, pos: int, list: seq<Thread>)
    requires IsFixed(pr, n, w) && AllInRange(pr.nfa, list) && AllLeaves(pr.nfa, list) && InStep(n, w, pos, list) && pos >= s.pos
    requires FirstAccept(pr.nfa, list) < |list|
    ensures Consider(pr, c, s, pos, list) == Done(Some(Span(list[0].start, pos)))
  {
    AcceptFirst(pr, n, w, pos, list);
    assert list[..0] == [];
  }

  /** A turn that accepts nothing goes on hunting. */
  lemma {:induction false} TurnHunts(pr: Program, n: Node, w: nat, c: Context, s: State, pos: int, list: seq<Thread>, head: set<int>, s0: int, j: int)
    requires c.Valid() && IsFixed(pr, n, w) && Wired(pr.nfa) && PrefixOk(pr, c, head)
    requires s.best == None && c.candidateBegin <= s.pos <= pos && AllInRange(pr.nfa, list) && AllLeaves(pr.nfa, list)
    requires InStep(n, w, pos, list) && HopeFor(pr, c, list, pos, pos + 1, s0, j) && FirstAccept(pr.nfa, list) == |list|
    ensures Consider(pr, c, s, pos, list).More? && Hunting(pr, n, w, c, Consider(pr, c, s, pos, list).next, head, s0, j)
  {
    assert list[..|list|] == list;
    ForwardFor(pr, c, pos, list, s0, j);
    SteppedInStep(pr, n, w, c, pos, list);
    SteppedKept(pr, c, pos, list, head, s.nextGen, None);
  }

  lemma {:induction false} PikeFirst(pr: Program, n: Node, w: nat, c: Context, s: State, head: set<int>, s0: int, j: int)
    requires c.Valid() && IsFixed(pr, n, w) && Wired(pr.nfa) && InRange(pr.nfa, pr.start) && PrefixOk(pr, c, head)
    requires Hunting(pr, n, w, c, s, head, s0, j)
    ensures Pike(pr, c, s).Some? && Pike(pr, c, s).value.end <= j
    decreases c.recordEnd - s.pos
  {
    JumpFor(pr, n, w, c, s, head, s0, j);
    var pos := Jump(pr, c, s.cur, s.best, s.pos).value;
    SeedFor(pr, n, w, c, s, pos, head, s0, j);
    SeededLeaves(pr, c, s, pos);
    SeededInStep(pr, n, w, c, s, pos);
    var list := Seeded(pr, c, s, pos).0;
    HopeBounds(pr, c, s.cur, pos, pos, s0, j);
    assert TurnOf(pr, c, s) == Consider(pr, c, s, pos, list);
    if FirstAccept(pr.nfa, list) < |list| {
      TurnAccepts(pr, n, w, c, s, pos, list);
    } else {
      TurnHunts(pr, n, w, c, s, pos, list, head, s0, j);
      PikeFirst(pr, n, w, c, TurnOf(pr, c, s).next, head, s0, j);
    }
  }

  /** With a match at `s0`, something that ends no later is reported. */
  lemma {:induction false} FixedFound(pr: Program, n: Node, w: nat, c: Context, s0: int)
    requires IsFixed(pr, n, w) && c.Valid() && Startable(c, c.candidateBegin, s0) && Matches(n, c, s0, s0 + w)
    ensures Pike(pr, c, InitialState(c)).Some? && Pike(pr, c, InitialState(c)).value.end <= s0 + w
  {
    ProgramShaped(pr, n);
    var head := ProgramPrefixes(pr, n, c);
    CompiledMeaning(pr.nfa, pr.start, n, c, s0, s0 + w);
    PikeFirst(pr, n, w, c, InitialState(c), head, s0, s0 + w);
  }

  /** Whatever is reported has the width of the pattern. */
  lemma {:induction false} FixedReported(pr: Program, n: Node, w: nat, c: Context)
    requires IsFixed(pr, n, w) && c.Valid() && Pike(pr, c, InitialState(c)).Some?
    ensures var r := Pike(pr, c, InitialState(c)).value; c.candidateBegin <= r.start && Matches(n, c, r.start, r.end) && r.end == r.start + w
  {
    SearchSound(pr, n, c);
    var r := Pike(pr, c, InitialState(c)).value;
    FixedMatch(n, c, r.start, r.end);
  }

  /** A start with a match is never behind the one reported. */
  lemma {:induction false} FixedBefore(pr: Program, n: Node, w: nat, c: Context, s: int, j: int)
    requires IsFixed(pr, n, w) && c.Valid() && Startable(c, c.candidateBegin, s) && Matches(n, c, s, j)
    ensures Pike(pr, c, InitialState(c)).Some? && Pike(pr, c, InitialState(c)).value.start <= s
  {
    FixedMatch(n, c, s, j);
    FixedFound(pr, n, w, c, s);
    FixedReported(pr, n, w, c);
  }

  ghost predicate MatchesAt(n: Node, c: Context, w: nat, s: int) {
    Matches(n, c, s, s + w)
  }

  ghost predicate NoneEarlier(n: Node, c: Context, w: nat, s0: int) {
    forall s | c.candidateBegin <= s < s0 :: !MatchesAt(n, c, w, s)
  }

  lemma Earliest(n: Node, c: Context, w: nat, s0: int, r: Span)
    requires NoneEarlier(n, c, w, s0) && c.candidateBegin <= r.start <= s0 && r.end == r.start + w && Matches(n, c, r.start, r.end)
    ensures r == Span(s0, s0 + w)
  {
    assert MatchesAt(n, c, w, r.start);
  }

  /** The search of a pattern of fixed width reports its leftmost match in the window. */
  lemma {:induction false} FixedLeftmost(pr: Program, n: Node, w: nat, c: Context, s0: int)
    requires IsFixed(pr, n, w) && c.Valid() && Startable(c, c.candidateBegin, s0) && MatchesAt(n, c, w, s0)
    requires NoneEarlier(n, c, w, s0)
    ensures Pike(pr, c, InitialState(c)) == Some(Span(s0, s0 + w))
  {
    FixedBefore(pr, n, w, c, s0, s0 + w);
    FixedReported(pr, n, w, c);
    Earliest(n, c, w, s0, Pike(pr, c, InitialState(c)).value);
  }

  /** So windows of any width are safe for it. */
  lemma {:induction false} FixedReportsLeftmost(pr: Program, n: Node, w: nat, c: Context)
    requires IsFixed(pr, n, w) && c.Valid() && (c.bounded ==> c.candidateEnd <= c.regionEnd + 1)
    ensures ReportsLeftmost(pr, n, c)
  {
    forall s, j | c.candidateBegin <= s < c.candidateEnd && Matches(n, c, s, j) ensures Pike(pr, c, InitialState(c)).Some? && Pike(pr, c, InitialState(c)).value.start <= s {
      assert Startable(c, c.candidateBegin, s);
      FixedBefore(pr, n, w, c, s, j);
    }
  }
}
