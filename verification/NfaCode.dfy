/** NFA instructions, paths through them, the finished code of a pattern tree,
    and the proof that this code accepts exactly what the tree matches. */
module NfaCode {
  import opened Basics
  import opened RegexAst

  datatype Op =
    | Consume(m: Matcher)
    | Split
    | Jmp
    | SaveStart(group: nat)
    | SaveEnd(group: nat)
    | Test(a: Assertion)
    | Accept

  /** `x` is the only or the preferred successor, `y` the other one; -1 is none. */
  datatype Inst = Inst(op: Op, x: int, y: int)

  type Code = seq<Inst>

  // ----- paths -----

  /** Control at `pos` passes an instruction with operation `op`. */
  predicate Passes(c: Context, op: Op, pos: int) {
    match op
    case Consume(m) => Consumes(c, m, pos)
    case Test(a) => Holds(c, a, pos)
    case Accept => false
    case _ => true
  }

  function After(op: Op, pos: int): int {
    if op.Consume? then pos + 1 else pos
  }

  /** Within at most `k` steps, taken inside [lo, hi), control moves from
      (pc, i) to (t, j). Consumption follows the text of `c`. */
  ghost predicate Runs(p: Code, c: Context, lo: int, hi: int, k: nat, pc: int, i: int, t: int, j: int)
    requires 0 <= lo <= hi <= |p|
  {
    || (pc == t && i == j)
    || (k > 0 && lo <= pc < hi && Passes(c, p[pc].op, i) &&
        var i' := After(p[pc].op, i);
        || Runs(p, c, lo, hi, k - 1, p[pc].x, i', t, j)
        || (p[pc].op == Split && Runs(p, c, lo, hi, k - 1, p[pc].y, i', t, j)))
  }

  ghost predicate Reaches(p: Code, c: Context, lo: int, hi: int, pc: int, i: int, t: int, j: int)
    requires 0 <= lo <= hi <= |p|
  {
    exists k: nat :: Runs(p, c, lo, hi, k, pc, i, t, j)
  }

  /** Every successor of the code in [a, b) stays there, is one of `exits`, or is none. */
  ghost predicate Closed(p: Code, a: int, b: int, exits: set<int>)
    requires 0 <= a <= b <= |p|
  {
    forall q {:trigger p[q]} | a <= q < b ::
      && p[q].op != Accept
      && (a <= p[q].x < b || p[q].x in exits || p[q].x == -1)
      && (p[q].op == Split ==> a <= p[q].y < b || p[q].y in exits)
  }

  /** A run that starts in a closed section leaves it through the section's exit. */
  lemma {:induction false} RunThrough(p: Code, c: Context, a: int, b: int, u: int,
      lo: int, hi: int, k: nat, pc: int, i: int, t: int, j: int) returns (m: int, k': nat, d: nat)
    requires 0 <= lo <= a <= b <= hi <= |p| && 0 <= u && 0 <= t
    requires !(a <= t < b) && !(a <= u < b) && a <= pc < b && Closed(p, a, b, {u})
    requires Runs(p, c, lo, hi, k, pc, i, t, j)
    ensures Runs(p, c, a, b, d, pc, i, u, m)
    ensures k' < k && Runs(p, c, lo, hi, k', u, m, t, j)
    decreases k
  {
    var i' := After(p[pc].op, i);
    var next := if Runs(p, c, lo, hi, k - 1, p[pc].x, i', t, j) then p[pc].x else p[pc].y;
    assert Runs(p, c, lo, hi, k - 1, next, i', t, j);
    if next == u {
      m, k', d := i', k - 1, 1;
    } else {
      m, k', d := RunThrough(p, c, a, b, u, lo, hi, k - 1, next, i', t, j);
      d := d + 1;
    }
  }

  /** A run inside a section, followed by a run from its end, is a run. */
  lemma {:induction false} RunJoin(p: Code, c: Context, a: int, b: int, u: int,
      lo: int, hi: int, k: nat, pc: int, i: int, m: int, t: int, j: int)
    requires 0 <= lo <= a <= b <= hi <= |p|
    requires Runs(p, c, a, b, k, pc, i, u, m) && Reaches(p, c, lo, hi, u, m, t, j)
    ensures Reaches(p, c, lo, hi, pc, i, t, j)
    decreases k
  {
    if pc == u && i == m {
    } else {
      var i' := After(p[pc].op, i);
      var next := if Runs(p, c, a, b, k - 1, p[pc].x, i', u, m) then p[pc].x else p[pc].y;
      RunJoin(p, c, a, b, u, lo, hi, k - 1, next, i', m, t, j);
      var d: nat :| Runs(p, c, lo, hi, d, next, i', t, j);
      assert Runs(p, c, lo, hi, d + 1, pc, i, t, j);
    }
  }

  // ----- finished code -----

  ghost function Size(n: Node): (s: nat)
    ensures s >= 1
    decreases n, 0
  {
    match n
    case Literal(text, _) => if text == [] then 2 else 1 + |text|
    case Group(child, _) => Size(child) + 2
    case Concat(children) => ConcatSize(children)
    case Alt(children) => if children == [] then 1 else AltSize(children)
    case Repeat(child, min, max, _) =>
      if max == Some(min) then CopiesSize(child, min)
      else if max == None then CopiesSize(child, min) + Size(child) + 1
      else OptionalSize(child, min, if max.value < min then 0 else max.value - min)
    case _ => 1
  }

  ghost function ConcatSize(ns: seq<Node>): (s: nat)
    ensures s >= 1
    decreases ns, 0
  {
    if ns == [] then 1 else ConcatSize(Front(ns)) + Size(Last(ns))
  }

  ghost function AltSize(ns: seq<Node>): (s: nat)
    requires ns != []
    ensures s >= 1
    decreases ns, 0
  {
    if |ns| == 1 then Size(ns[0]) else AltSize(Front(ns)) + Size(Last(ns)) + 1
  }

  ghost function CopiesSize(n: Node, k: nat): (s: nat)
    ensures s >= 1
    decreases n, 1, k
  {
    if k == 0 then 1 else CopiesSize(n, k - 1) + Size(n)
  }

  ghost function OptionalSize(n: Node, min: nat, r: nat): (s: nat)
    ensures s >= 1
    decreases n, 2, r
  {
    if r == 0 then CopiesSize(n, min) else OptionalSize(n, min, r - 1) + Size(n) + 1
  }

  lemma {:induction false} OptionalGrows(n: Node, min: nat, k: nat, r: nat)
    requires k <= r
    ensures OptionalSize(n, min, k) <= OptionalSize(n, min, r)
    ensures k < r ==> OptionalSize(n, min, k) + Size(n) + 1 <= OptionalSize(n, min, r)
    decreases r
  {
    if k < r { OptionalGrows(n, min, k, r - 1); }
  }

  /** The address at which the code of `n`, placed at `lo`, is entered. */
  ghost function Entry(n: Node, lo: int): (e: int)
    ensures lo <= e < lo + Size(n)
    decreases n, 0
  {
    match n
    case Literal(text, _) => lo + 1
    case Group(child, _) => lo + Size(child)
    case Alt(children) => if children == [] then lo else AltEntry(children, lo)
    case _ => lo
  }

  ghost function AltEntry(ns: seq<Node>, lo: int): (e: int)
    requires ns != []
    ensures lo <= e < lo + AltSize(ns)
    decreases ns, 0
  {
    if |ns| == 1 then Entry(ns[0], lo) else lo + AltSize(ns) - 1
  }

  /** A choice between entering a repeat body and leaving, preferred first. */
  function Branch(greedy: bool, body: int, exit: int): Inst {
    if greedy then Inst(Split, body, exit) else Inst(Split, exit, body)
  }

  ghost predicate Fits(p: Code, lo: int, size: nat) {
    0 <= lo && lo + size <= |p|
  }

  /** The finished code of `n` stands at `lo` and continues at `t` when `n` has matched. */
  ghost predicate IsCode(p: Code, n: Node, lo: int, t: int)
    requires Fits(p, lo, Size(n))
    decreases n, 0
  {
    match n
    case Empty => p[lo] == Inst(Jmp, t, -1)
    case Literal(text, icase) =>
      // The first jump is emitted before any unit and never entered.
      && p[lo] == Inst(Jmp, -1, -1)
      && if text == [] then p[lo + 1] == Inst(Jmp, t, -1) else IsSpelled(p, text, icase, lo + 1, t)
    case Dot(dotall) => p[lo] == Inst(Consume(Any(dotall)), t, -1)
    case Class(members) => p[lo] == Inst(Consume(InClass(members)), t, -1)
    case Assert(a) => p[lo] == Inst(Test(a), t, -1)
    case Group(child, group) =>
      var a := lo + Size(child);
      && IsCode(p, child, lo, a + 1)
      && p[a] == Inst(SaveStart(group), Entry(child, lo), -1)
      && p[a + 1] == Inst(SaveEnd(group), t, -1)
    case Concat(children) => IsConcat(p, children, lo, t)
    case Alt(children) => if children == [] then p[lo] == Inst(Jmp, t, -1) else IsAlt(p, children, lo, t)
    case Repeat(child, min, max, greedy) =>
      if max == Some(min) then IsCopies(p, child, min, lo, t)
      else if max == None then
        var mid := lo + CopiesSize(child, min);
        var pc := mid + Size(child);
        && IsCopies(p, child, min, lo, pc)
        && IsCode(p, child, mid, pc)
        && p[pc] == Branch(greedy, Entry(child, mid), t)
      else IsOptional(p, child, min, if max.value < min then 0 else max.value - min, greedy, lo, t, t)
  }

  ghost predicate IsSpelled(p: Code, text: seq<Byte>, icase: bool, lo: int, t: int)
    requires Fits(p, lo, |text|)
  {
    forall k {:trigger text[k]} | 0 <= k < |text| ::
      p[lo + k] == Inst(Consume(Rune(text[k], icase)), if k + 1 < |text| then lo + k + 1 else t, -1)
  }

  ghost predicate IsConcat(p: Code, ns: seq<Node>, lo: int, t: int)
    requires Fits(p, lo, ConcatSize(ns))
    decreases ns, 0
  {
    if ns == [] then p[lo] == Inst(Jmp, t, -1)
    else
      var mid := lo + ConcatSize(Front(ns));
      IsConcat(p, Front(ns), lo, Entry(Last(ns), mid)) && IsCode(p, Last(ns), mid, t)
  }

  ghost predicate IsAlt(p: Code, ns: seq<Node>, lo: int, t: int)
    requires ns != [] && Fits(p, lo, AltSize(ns))
    decreases ns, 0
  {
    if |ns| == 1 then IsCode(p, ns[0], lo, t)
    else
      var mid := lo + AltSize(Front(ns));
      && IsAlt(p, Front(ns), lo, t)
      && IsCode(p, Last(ns), mid, t)
      && p[mid + Size(Last(ns))] == Inst(Split, AltEntry(Front(ns), lo), Entry(Last(ns), mid))
  }

  /** A leading jump and `k` copies of `n`. */
  ghost predicate IsCopies(p: Code, n: Node, k: nat, lo: int, t: int)
    requires Fits(p, lo, CopiesSize(n, k))
    decreases n, 1, k
  {
    if k == 0 then p[lo] == Inst(Jmp, t, -1)
    else
      var mid := lo + CopiesSize(n, k - 1);
      IsCopies(p, n, k - 1, lo, Entry(n, mid)) && IsCode(p, n, mid, t)
  }

  /** `min` copies of `n`, then `r` optional ones: skipping one leaves for `exit`,
      finishing the last continues at `t`. */
  ghost predicate IsOptional(p: Code, n: Node, min: nat, r: nat, greedy: bool, lo: int, exit: int, t: int)
    requires Fits(p, lo, OptionalSize(n, min, r))
    decreases n, 2, r
  {
    if r == 0 then IsCopies(p, n, min, lo, t)
    else
      var mid := lo + OptionalSize(n, min, r - 1);
      var pc := mid + Size(n);
      && IsOptional(p, n, min, r - 1, greedy, lo, exit, pc)
      && IsCode(p, n, mid, t)
      && p[pc] == Branch(greedy, Entry(n, mid), exit)
  }

  ghost predicate Apart(t: int, lo: int, hi: int) {
    0 <= t && !(lo <= t < hi)
  }

  lemma ClosedJoin(p: Code, a: int, m: int, b: int, us: set<int>, vs: set<int>, ws: set<int>)
    requires 0 <= a <= m <= b <= |p| && Closed(p, a, m, us) && Closed(p, m, b, vs)
    requires forall u | u in us + vs :: a <= u < b || u in ws
    ensures Closed(p, a, b, ws)
  {
  }

  lemma {:induction false} CodeClosed(p: Code, n: Node, lo: int, t: int)
    requires Fits(p, lo, Size(n)) && IsCode(p, n, lo, t)
    ensures Closed(p, lo, lo + Size(n), {t})
    decreases n, 0
  {
    match n
    case Literal(text, icase) =>
      if text != [] { SpelledClosed(p, text, icase, lo + 1, t); }
    case Group(child, group) =>
      CodeClosed(p, child, lo, lo + Size(child) + 1);
    case Concat(children) => ConcatClosed(p, children, lo, t);
    case Alt(children) => if children != [] { AltClosed(p, children, lo, t); }
    case Repeat(child, min, max, greedy) =>
      if max == Some(min) {
        CopiesClosed(p, child, min, lo, t);
      } else if max == None {
        StarClosed(p, child, min, greedy, lo, t);
      } else {
        OptionalClosed(p, child, min, if max.value < min then 0 else max.value - min, greedy, lo, t, t);
      }
    case _ =>
  }

  lemma {:induction false} StarClosed(p: Code, child: Node, min: nat, greedy: bool, lo: int, t: int)
    requires Fits(p, lo, CopiesSize(child, min) + Size(child) + 1) && IsCode(p, Repeat(child, min, None, greedy), lo, t)
    ensures Closed(p, lo, lo + CopiesSize(child, min) + Size(child) + 1, {t})
    decreases child, 2
  {
    var mid := lo + CopiesSize(child, min);
    var pc := mid + Size(child);
    CopiesClosed(p, child, min, lo, pc);
    CodeClosed(p, child, mid, pc);
    ClosedJoin(p, lo, mid, pc, {pc}, {pc}, {pc});
    ClosedJoin(p, lo, pc, pc + 1, {pc}, {Entry(child, mid), t}, {t});
  }

  lemma {:induction false} ConcatClosed(p: Code, ns: seq<Node>, lo: int, t: int)
    requires Fits(p, lo, ConcatSize(ns)) && IsConcat(p, ns, lo, t)
    ensures Closed(p, lo, lo + ConcatSize(ns), {t})
    decreases ns, 0
  {
    if ns == [] {
    } else {
      var mid := lo + ConcatSize(Front(ns));
      var e := Entry(Last(ns), mid);
      ConcatClosed(p, Front(ns), lo, e);
      CodeClosed(p, Last(ns), mid, t);
      ClosedJoin(p, lo, mid, mid + Size(Last(ns)), {e}, {t}, {t});
    }
  }

  lemma {:induction false} AltClosed(p: Code, ns: seq<Node>, lo: int, t: int)
    requires ns != [] && Fits(p, lo, AltSize(ns)) && IsAlt(p, ns, lo, t)
    ensures Closed(p, lo, lo + AltSize(ns), {t})
    decreases ns, 0
  {
    if |ns| == 1 {
      CodeClosed(p, ns[0], lo, t);
    } else {
      var mid := lo + AltSize(Front(ns));
      var pc := mid + Size(Last(ns));
      var split := Inst(Split, AltEntry(Front(ns), lo), Entry(Last(ns), mid));
      AltClosed(p, Front(ns), lo, t);
      CodeClosed(p, Last(ns), mid, t);
      ClosedJoin(p, lo, mid, pc, {t}, {t}, {t});
      ClosedJoin(p, lo, pc, pc + 1, {t}, {split.x, split.y}, {t});
    }
  }

  lemma {:induction false} CopiesClosed(p: Code, n: Node, k: nat, lo: int, t: int)
    requires Fits(p, lo, CopiesSize(n, k)) && IsCopies(p, n, k, lo, t)
    ensures Closed(p, lo, lo + CopiesSize(n, k), {t})
    decreases n, 1, k
  {
    if k == 0 {
    } else {
      var mid := lo + CopiesSize(n, k - 1);
      var e := Entry(n, mid);
      CopiesClosed(p, n, k - 1, lo, e);
      CodeClosed(p, n, mid, t);
      ClosedJoin(p, lo, mid, mid + Size(n), {e}, {t}, {t});
    }
  }

  lemma SpelledClosed(p: Code, text: seq<Byte>, icase: bool, lo: int, t: int)
    requires Fits(p, lo, |text|) && IsSpelled(p, text, icase, lo, t)
    ensures Closed(p, lo, lo + |text|, {t})
  {
    forall q {:trigger p[q]} | lo <= q < lo + |text| ensures p[q].op.Consume? && (lo < p[q].x < lo + |text| || p[q].x == t) {
      assert p[lo + (q - lo)].op == Consume(Rune(text[q - lo], icase));
    }
  }

  lemma {:induction false} OptionalClosed(p: Code, n: Node, min: nat, r: nat, greedy: bool, lo: int, exit: int, t: int)
    requires Fits(p, lo, OptionalSize(n, min, r)) && IsOptional(p, n, min, r, greedy, lo, exit, t)
    ensures Closed(p, lo, lo + OptionalSize(n, min, r), {exit, t})
    decreases n, 2, r
  {
    if r == 0 {
      CopiesClosed(p, n, min, lo, t);
    } else {
      var mid := lo + OptionalSize(n, min, r - 1);
      var pc := mid + Size(n);
      var branch := Branch(greedy, Entry(n, mid), exit);
      OptionalClosed(p, n, min, r - 1, greedy, lo, exit, pc);
      CodeClosed(p, n, mid, t);
      BranchCloses(p, lo, mid, pc, branch, exit, t);
    }
  }

  lemma BranchCloses(p: Code, lo: int, mid: int, pc: int, branch: Inst, exit: int, t: int)
    requires 0 <= lo <= mid <= pc < |p| && Closed(p, lo, mid, {exit, pc}) && Closed(p, mid, pc, {t}) && p[pc] == branch && branch.op == Split
    requires (mid <= branch.x < pc && branch.y == exit) || (branch.x == exit && mid <= branch.y < pc)
    ensures Closed(p, lo, pc + 1, {exit, t})
  {
    ClosedJoin(p, lo, mid, pc, {exit, pc}, {t}, {exit, t, pc});
    ClosedJoin(p, lo, pc, pc + 1, {exit, t, pc}, {branch.x, branch.y}, {exit, t});
  }

  /** `p` is the finished program of `n`: its code at address 0, then the accepting instruction. */
  ghost predicate Compiled(p: Code, start: int, n: Node) {
    && |p| == Size(n) + 1
    && IsCode(p, n, 0, Size(n))
    && p[Size(n)] == Inst(Accept, -1, -1)
    && start == Entry(n, 0)
  }

  /** A run from (pc, i) reaches the accepting instruction at `j`. */
  ghost predicate AcceptsFrom(p: Code, c: Context, pc: int, i: int, j: int)
    requires p != []
  {
    Reaches(p, c, 0, |p| - 1, pc, i, |p| - 1, j)
  }
}
