/** The finished code of a tree accepts exactly what the tree matches. */
module NfaMeaning {
  import opened Basics
  import opened RegexAst
  import opened NfaCode

  // ----- from runs to matches -----

  /** Whatever the code of `n` lets through, `n` matches. */
  lemma {:induction false} CodeSound(p: Code, c: Context, n: Node, lo: int, t: int, k: nat, i: int, j: int)
    requires WellFormed(n) && Fits(p, lo, Size(n)) && IsCode(p, n, lo, t) && Apart(t, lo, lo + Size(n))
    requires Runs(p, c, lo, lo + Size(n), k, Entry(n, lo), i, t, j)
    ensures Matches(n, c, i, j)
    decreases n, 0
  {
    var hi := lo + Size(n);
    match n
    case Literal(text, icase) =>
      if text != [] { SpellSound(p, c, text, icase, lo, hi, t, k, 0, i, j); }
    case Group(child, group) => GroupSound(p, c, child, group, lo, t, k, i, j);
    case Concat(children) => ConcatSound(p, c, children, lo, t, k, i, j);
    case Alt(children) => var q := AltSound(p, c, children, lo, t, k, i, j);
    case Repeat(child, min, max, greedy) =>
      var q := RepeatSound(p, c, child, min, max, greedy, lo, t, k, i, j);
    case _ =>
  }

  lemma {:induction false} RepeatSound(p: Code, c: Context, child: Node, min: nat, max: Option<nat>, greedy: bool, lo: int, t: int, k: nat, i: int, j: int)
    returns (q: nat)
    requires var n := Repeat(child, min, max, greedy);
      WellFormed(n) && Fits(p, lo, Size(n)) && IsCode(p, n, lo, t) && Apart(t, lo, lo + Size(n)) &&
      Runs(p, c, lo, lo + Size(n), k, lo, i, t, j)
    ensures min <= q && (max.Some? ==> q <= max.value) && Times(child, q, c, i, j)
    decreases child, 6
  {
    if max == Some(min) {
      q := min;
      CopiesSound(p, c, child, min, lo, t, k, i, j);
    } else if max == None {
      q := StarSound(p, c, child, min, greedy, lo, t, k, i, j);
    } else {
      q := OptionalSound(p, c, child, min, max.value - min, greedy, lo, t, k, i, j);
    }
  }

  /** A run entering the code of `n` inside a larger section leaves it matched. */
  lemma {:induction false} SectionSound(p: Code, c: Context, n: Node, mid: int, u: int, lo: int, hi: int, k: nat, i: int, t: int, j: int)
    returns (m: int, k': nat)
    requires WellFormed(n) && Fits(p, mid, Size(n)) && IsCode(p, n, mid, u) && Apart(u, mid, mid + Size(n))
    requires 0 <= lo <= mid && mid + Size(n) <= hi <= |p| && Apart(t, lo, hi)
    requires Runs(p, c, lo, hi, k, Entry(n, mid), i, t, j)
    ensures Matches(n, c, i, m)
    ensures k' < k && Runs(p, c, lo, hi, k', u, m, t, j)
    decreases n, 1
  {
    var d;
    CodeClosed(p, n, mid, u);
    m, k', d := RunThrough(p, c, mid, mid + Size(n), u, lo, hi, k, Entry(n, mid), i, t, j);
    CodeSound(p, c, n, mid, u, d, i, m);
  }

  lemma {:induction false} GroupSound(p: Code, c: Context, child: Node, group: nat, lo: int, t: int, k: nat, i: int, j: int)
    requires WellFormed(child) && Fits(p, lo, Size(child) + 2) && IsCode(p, Group(child, group), lo, t)
    requires Apart(t, lo, lo + Size(child) + 2)
    requires Runs(p, c, lo, lo + Size(child) + 2, k, lo + Size(child), i, t, j)
    ensures Matches(child, c, i, j)
    decreases child, 3
  {
    var hi, u := lo + Size(child) + 2, lo + Size(child) + 1;
    var m, k' := SectionSound(p, c, child, lo, u, lo, hi, k - 1, i, t, j);
  }

  lemma {:induction false} StarSound(p: Code, c: Context, child: Node, min: nat, greedy: bool, lo: int, t: int, k: nat, i: int, j: int)
    returns (q: nat)
    requires WellFormed(child) && Fits(p, lo, CopiesSize(child, min) + Size(child) + 1)
    requires IsCode(p, Repeat(child, min, None, greedy), lo, t)
    requires Apart(t, lo, lo + CopiesSize(child, min) + Size(child) + 1)
    requires Runs(p, c, lo, lo + CopiesSize(child, min) + Size(child) + 1, k, lo, i, t, j)
    ensures q >= min && Times(child, q, c, i, j)
    decreases child, 3
  {
    var mid := lo + CopiesSize(child, min);
    var pc := mid + Size(child);
    CopiesClosed(p, child, min, lo, pc);
    var m, k', d := RunThrough(p, c, lo, mid, pc, lo, pc + 1, k, lo, i, t, j);
    CopiesSound(p, c, child, min, lo, pc, d, i, m);
    var q' := LoopSound(p, c, child, lo, mid, pc + 1, greedy, t, k', m, j);
    TimesAdd(child, min, q', c, i, m, j);
    q := min + q';
  }

  lemma {:induction false} SpellSound(p: Code, c: Context, text: seq<Byte>, icase: bool, lo: int, hi: int, t: int, k: nat, at: nat, i: int, j: int)
    requires 0 <= lo && hi == lo + 1 + |text| <= |p| && IsSpelled(p, text, icase, lo + 1, t) && Apart(t, lo, hi)
    requires at < |text| && Runs(p, c, lo, hi, k, lo + 1 + at, i, t, j)
    ensures j == i + |text| - at
    ensures forall q {:trigger text[q]} | at <= q < |text| :: Consumes(c, Rune(text[q], icase), i + q - at)
    decreases |text| - at
  {
    assert p[lo + 1 + at].op == Consume(Rune(text[at], icase));
    if at + 1 < |text| {
      SpellSound(p, c, text, icase, lo, hi, t, k - 1, at + 1, i + 1, j);
    }
  }

  lemma {:induction false} ConcatSound(p: Code, c: Context, ns: seq<Node>, lo: int, t: int, k: nat, i: int, j: int)
    requires (forall q | 0 <= q < |ns| :: WellFormed(ns[q])) && Fits(p, lo, ConcatSize(ns)) && IsConcat(p, ns, lo, t)
    requires Apart(t, lo, lo + ConcatSize(ns)) && Runs(p, c, lo, lo + ConcatSize(ns), k, lo, i, t, j)
    ensures MatchesAll(ns, c, i, j)
    decreases ns, 0
  {
    var hi := lo + ConcatSize(ns);
    if ns == [] {
    } else {
      var mid := lo + ConcatSize(Front(ns));
      var e := Entry(Last(ns), mid);
      ConcatClosed(p, Front(ns), lo, e);
      var m, k', d := RunThrough(p, c, lo, mid, e, lo, hi, k, lo, i, t, j);
      ConcatSound(p, c, Front(ns), lo, e, d, i, m);
      var m', k'' := SectionSound(p, c, Last(ns), mid, t, lo, hi, k', m, t, j);
    }
  }

  lemma {:induction false} AltSound(p: Code, c: Context, ns: seq<Node>, lo: int, t: int, k: nat, i: int, j: int)
    returns (q: nat)
    requires ns != [] && (forall q | 0 <= q < |ns| :: WellFormed(ns[q])) && Fits(p, lo, AltSize(ns)) && IsAlt(p, ns, lo, t)
    requires Apart(t, lo, lo + AltSize(ns)) && Runs(p, c, lo, lo + AltSize(ns), k, AltEntry(ns, lo), i, t, j)
    ensures q < |ns| && Matches(ns[q], c, i, j)
    decreases ns, 1
  {
    if |ns| == 1 {
      q := 0;
      CodeSound(p, c, ns[0], lo, t, k, i, j);
    } else {
      var mid := lo + AltSize(Front(ns));
      var pc := mid + Size(Last(ns));
      if Runs(p, c, lo, lo + AltSize(ns), k - 1, p[pc].x, i, t, j) {
        var d := EarlierRun(p, c, ns, lo, t, k - 1, i, j);
        q := AltSound(p, c, Front(ns), lo, t, d, i, j);
      } else {
        q := |ns| - 1;
        LastSound(p, c, ns, lo, t, k - 1, i, j);
      }
    }
  }

  /** A run into the earlier branches of an alternation stays in their code. */
  lemma EarlierRun(p: Code, c: Context, ns: seq<Node>, lo: int, t: int, k: nat, i: int, j: int)
    returns (d: nat)
    requires |ns| > 1 && Fits(p, lo, AltSize(ns)) && IsAlt(p, ns, lo, t) && Apart(t, lo, lo + AltSize(ns))
    requires Runs(p, c, lo, lo + AltSize(ns), k, AltEntry(Front(ns), lo), i, t, j)
    ensures Runs(p, c, lo, lo + AltSize(Front(ns)), d, AltEntry(Front(ns), lo), i, t, j)
  {
    var mid := lo + AltSize(Front(ns));
    AltClosed(p, Front(ns), lo, t);
    var m, k', d' := RunThrough(p, c, lo, mid, t, lo, lo + AltSize(ns), k, AltEntry(Front(ns), lo), i, t, j);
    d := d';
  }

  lemma {:induction false} LastSound(p: Code, c: Context, ns: seq<Node>, lo: int, t: int, k: nat, i: int, j: int)
    requires |ns| > 1 && WellFormed(Last(ns)) && Fits(p, lo, AltSize(ns)) && IsAlt(p, ns, lo, t)
    requires Apart(t, lo, lo + AltSize(ns))
    requires Runs(p, c, lo, lo + AltSize(ns), k, Entry(Last(ns), lo + AltSize(Front(ns))), i, t, j)
    ensures Matches(Last(ns), c, i, j)
    decreases ns, 0
  {
    var m, k' := SectionSound(p, c, Last(ns), lo + AltSize(Front(ns)), t, lo, lo + AltSize(ns), k, i, t, j);
  }

  lemma {:induction false} CopiesSound(p: Code, c: Context, n: Node, times: nat, lo: int, t: int, k: nat, i: int, j: int)
    requires WellFormed(n) && Fits(p, lo, CopiesSize(n, times)) && IsCopies(p, n, times, lo, t) && Apart(t, lo, lo + CopiesSize(n, times))
    requires Runs(p, c, lo, lo + CopiesSize(n, times), k, lo, i, t, j)
    ensures Times(n, times, c, i, j)
    decreases n, 2, times
  {
    var hi := lo + CopiesSize(n, times);
    if times == 0 {
    } else {
      var mid := lo + CopiesSize(n, times - 1);
      var e := Entry(n, mid);
      CopiesClosed(p, n, times - 1, lo, e);
      var m, k', d := RunThrough(p, c, lo, mid, e, lo, hi, k, lo, i, t, j);
      CopiesSound(p, c, n, times - 1, lo, e, d, i, m);
      var m', k'' := SectionSound(p, c, n, mid, t, lo, hi, k', m, t, j);
    }
  }

  /** Rounds of an unbounded repeat, counted along a run from its branch. */
  lemma {:induction false} LoopSound(p: Code, c: Context, n: Node, lo: int, mid: int, hi: int, greedy: bool, t: int, k: nat, i: int, j: int)
    returns (q: nat)
    requires WellFormed(n) && 0 <= lo <= mid && hi == mid + Size(n) + 1 && hi <= |p| && Apart(t, lo, hi)
    requires Fits(p, mid, Size(n)) && IsCode(p, n, mid, hi - 1) && p[hi - 1] == Branch(greedy, Entry(n, mid), t)
    requires Runs(p, c, lo, hi, k, hi - 1, i, t, j)
    ensures Times(n, q, c, i, j)
    decreases n, 2, k
  {
    var e := Entry(n, mid);
    if k > 0 && Runs(p, c, lo, hi, k - 1, e, i, t, j) {
      var m, k' := SectionSound(p, c, n, mid, hi - 1, lo, hi, k - 1, i, t, j);
      var q' := LoopSound(p, c, n, lo, mid, hi, greedy, t, k', m, j);
      assert Times(n, 0, c, i, i) && Times(n, 1, c, i, m);
      TimesAdd(n, 1, q', c, i, m, j);
      q := 1 + q';
    } else {
      q := 0;
    }
  }

  /** What follows the k-th optional copy: the branch of the next one, or `t`. */
  ghost function NextBranch(n: Node, min: nat, r: nat, lo: int, t: int, k: nat): int {
    if k >= r then t else lo + OptionalSize(n, min, k) + Size(n)
  }

  /** Where the k-th optional copy lies in the code of a bounded repeat. */
  lemma {:induction false} OptionalPart(p: Code, n: Node, min: nat, r: nat, greedy: bool, lo: int, exit: int, t: int, k: nat)
    requires Fits(p, lo, OptionalSize(n, min, r)) && IsOptional(p, n, min, r, greedy, lo, exit, t) && 1 <= k <= r
    ensures Fits(p, lo, OptionalSize(n, min, k))
    ensures
      var mid := lo + OptionalSize(n, min, k - 1);
      && IsCode(p, n, mid, NextBranch(n, min, r, lo, t, k))
      && p[mid + Size(n)] == Branch(greedy, Entry(n, mid), exit)
    decreases r
  {
    if k < r {
      var pc := lo + OptionalSize(n, min, r - 1) + Size(n);
      OptionalPart(p, n, min, r - 1, greedy, lo, exit, pc, k);
    }
  }

  lemma {:induction false} OptionalBase(p: Code, n: Node, min: nat, r: nat, greedy: bool, lo: int, exit: int, t: int)
    requires Fits(p, lo, OptionalSize(n, min, r)) && IsOptional(p, n, min, r, greedy, lo, exit, t)
    ensures Fits(p, lo, CopiesSize(n, min)) && IsCopies(p, n, min, lo, NextBranch(n, min, r, lo, t, 0))
    decreases r
  {
    if r > 0 {
      OptionalBase(p, n, min, r - 1, greedy, lo, exit, lo + OptionalSize(n, min, r - 1) + Size(n));
    }
  }

  lemma {:induction false} OptionalSound(p: Code, c: Context, n: Node, min: nat, r: nat, greedy: bool, lo: int, t: int, k: nat, i: int, j: int)
    returns (q: nat)
    requires WellFormed(n) && Fits(p, lo, OptionalSize(n, min, r)) && IsOptional(p, n, min, r, greedy, lo, t, t)
    requires Apart(t, lo, lo + OptionalSize(n, min, r)) && Runs(p, c, lo, lo + OptionalSize(n, min, r), k, lo, i, t, j)
    ensures min <= q <= min + r && Times(n, q, c, i, j)
    decreases n, 5
  {
    var m, k' := BaseSound(p, c, n, min, r, greedy, lo, t, k, i, j);
    var q' := BranchesSound(p, c, n, min, r, greedy, lo, t, 0, k', m, j);
    TimesAdd(n, min, q', c, i, m, j);
    q := min + q';
  }

  /** The mandatory copies come first. */
  lemma {:induction false} BaseSound(p: Code, c: Context, n: Node, min: nat, r: nat, greedy: bool, lo: int, t: int, k: nat, i: int, j: int)
    returns (m: int, k': nat)
    requires WellFormed(n) && Fits(p, lo, OptionalSize(n, min, r)) && IsOptional(p, n, min, r, greedy, lo, t, t)
    requires Apart(t, lo, lo + OptionalSize(n, min, r)) && Runs(p, c, lo, lo + OptionalSize(n, min, r), k, lo, i, t, j)
    ensures Times(n, min, c, i, m)
    ensures Runs(p, c, lo, lo + OptionalSize(n, min, r), k', NextBranch(n, min, r, lo, t, 0), m, t, j)
    decreases n, 3
  {
    var hi := lo + OptionalSize(n, min, r);
    OptionalBase(p, n, min, r, greedy, lo, t, t);
    OptionalGrows(n, min, 0, r);
    var u := NextBranch(n, min, r, lo, t, 0);
    var mid := lo + CopiesSize(n, min);
    var d;
    CopiesClosed(p, n, min, lo, u);
    m, k', d := RunThrough(p, c, lo, mid, u, lo, hi, k, lo, i, t, j);
    CopiesSound(p, c, n, min, lo, u, d, i, m);
  }

  lemma {:induction false} BranchesSound(p: Code, c: Context, n: Node, min: nat, r: nat, greedy: bool, lo: int, t: int, at: nat, k: nat, i: int, j: int)
    returns (q: nat)
    requires WellFormed(n) && Fits(p, lo, OptionalSize(n, min, r)) && IsOptional(p, n, min, r, greedy, lo, t, t) && at <= r
    requires Apart(t, lo, lo + OptionalSize(n, min, r))
    requires Runs(p, c, lo, lo + OptionalSize(n, min, r), k, NextBranch(n, min, r, lo, t, at), i, t, j)
    ensures q <= r - at && Times(n, q, c, i, j)
    decreases n, 4, r - at
  {
    q := 0;
    if at < r {
      var m, k', entered := BranchSound(p, c, n, min, r, greedy, lo, t, at, k, i, j);
      if entered {
        var q' := BranchesSound(p, c, n, min, r, greedy, lo, t, at + 1, k', m, j);
        assert Times(n, 0, c, i, i) && Times(n, 1, c, i, m);
        TimesAdd(n, 1, q', c, i, m, j);
        q := 1 + q';
      }
    }
  }

  /** One optional copy is entered and matched, or skipped. */
  lemma {:induction false} BranchSound(p: Code, c: Context, n: Node, min: nat, r: nat, greedy: bool, lo: int, t: int, at: nat, k: nat, i: int, j: int)
    returns (m: int, k': nat, entered: bool)
    requires WellFormed(n) && Fits(p, lo, OptionalSize(n, min, r)) && IsOptional(p, n, min, r, greedy, lo, t, t) && at < r
    requires Apart(t, lo, lo + OptionalSize(n, min, r))
    requires Runs(p, c, lo, lo + OptionalSize(n, min, r), k, NextBranch(n, min, r, lo, t, at), i, t, j)
    ensures if entered
      then Matches(n, c, i, m) && Runs(p, c, lo, lo + OptionalSize(n, min, r), k', NextBranch(n, min, r, lo, t, at + 1), m, t, j)
      else i == j
    decreases n, 3
  {
    var hi := lo + OptionalSize(n, min, r);
    var mid := lo + OptionalSize(n, min, at);
    OptionalPart(p, n, min, r, greedy, lo, t, t, at + 1);
    OptionalGrows(n, min, at, r);
    NextApart(n, min, r, lo, t, at);
    m, k', entered := CopySound(p, c, n, mid, NextBranch(n, min, r, lo, t, at + 1), lo, hi, greedy, k, i, t, j);
  }

  /** A run from the branch behind a copy enters the copy, or is over. */
  lemma {:induction false} CopySound(p: Code, c: Context, n: Node, mid: int, u: int, lo: int, hi: int, greedy: bool, k: nat, i: int, t: int, j: int)
    returns (m: int, k': nat, entered: bool)
    requires WellFormed(n) && 0 <= lo <= mid && mid + Size(n) < hi <= |p| && Apart(t, lo, hi) && Apart(u, mid, mid + Size(n))
    requires IsCode(p, n, mid, u) && p[mid + Size(n)] == Branch(greedy, Entry(n, mid), t)
    requires Runs(p, c, lo, hi, k, mid + Size(n), i, t, j)
    ensures if entered then Matches(n, c, i, m) && Runs(p, c, lo, hi, k', u, m, t, j) else i == j
    decreases n, 2
  {
    entered := k > 0 && Runs(p, c, lo, hi, k - 1, Entry(n, mid), i, t, j);
    m, k' := i, 0;
    if entered {
      m, k' := SectionSound(p, c, n, mid, u, lo, hi, k - 1, i, t, j);
    }
  }

  /** What follows a copy lies outside it. */
  lemma NextApart(n: Node, min: nat, r: nat, lo: int, t: int, at: nat)
    requires 0 <= lo && at < r && Apart(t, lo, lo + OptionalSize(n, min, r))
    ensures var mid := lo + OptionalSize(n, min, at); Apart(NextBranch(n, min, r, lo, t, at + 1), mid, mid + Size(n))
  {
    OptionalGrows(n, min, at, r);
    if at + 1 < r { OptionalGrows(n, min, at, at + 1); }
  }

  // ----- from matches to runs -----

  /** Passing the instruction at `pc` prolongs a run to the left. */
  lemma StepJoin(p: Code, c: Context, lo: int, hi: int, pc: int, i: int, next: int, t: int, j: int)
    requires 0 <= lo <= pc < hi <= |p| && Passes(c, p[pc].op, i)
    requires next == p[pc].x || (p[pc].op == Split && next == p[pc].y)
    requires Reaches(p, c, lo, hi, next, After(p[pc].op, i), t, j)
    ensures Reaches(p, c, lo, hi, pc, i, t, j)
  {
    var k: nat :| Runs(p, c, lo, hi, k, next, After(p[pc].op, i), t, j);
    assert Runs(p, c, lo, hi, k + 1, pc, i, t, j);
  }

  lemma ReachSelf(p: Code, c: Context, lo: int, hi: int, t: int, j: int)
    requires 0 <= lo <= hi <= |p|
    ensures Reaches(p, c, lo, hi, t, j, t, j)
  {
    assert Runs(p, c, lo, hi, 0, t, j, t, j);
  }

  /** Whatever `n` matches, its code lets through. */
  lemma {:induction false} CodeComplete(p: Code, c: Context, n: Node, lo: int, t: int, i: int, j: int)
    requires Fits(p, lo, Size(n)) && IsCode(p, n, lo, t) && Matches(n, c, i, j)
    ensures Reaches(p, c, lo, lo + Size(n), Entry(n, lo), i, t, j)
    decreases n, 1
  {
    var hi := lo + Size(n);
    ReachSelf(p, c, lo, hi, t, j);
    match n
    case Literal(text, icase) =>
      if text == [] {
        StepJoin(p, c, lo, hi, lo + 1, i, t, t, j);
      } else {
        SpellComplete(p, c, text, icase, lo, hi, t, 0, i, j);
      }
    case Group(child, group) =>
      var u := lo + Size(child) + 1;
      StepJoin(p, c, lo, hi, u, j, t, t, j);
      SectionComplete(p, c, child, lo, u, lo, hi, i, j, t, j);
      StepJoin(p, c, lo, hi, u - 1, i, Entry(child, lo), t, j);
    case Concat(children) => ConcatComplete(p, c, children, lo, t, i, j);
    case Alt(children) =>
      var q :| 0 <= q < |children| && Matches(children[q], c, i, j);
      AltComplete(p, c, children, lo, t, q, i, j);
    case Repeat(child, min, max, greedy) =>
      var q: nat :| min <= q && (max.Some? ==> q <= max.value) && Times(child, q, c, i, j);
      RepeatComplete(p, c, n, lo, t, q, i, j);
    case _ => StepJoin(p, c, lo, hi, lo, i, t, t, j);
  }

  /** The code of `n` inside a larger section, run up to its continuation and on. */
  lemma {:induction false} SectionComplete(p: Code, c: Context, n: Node, mid: int, u: int, lo: int, hi: int, i: int, m: int, t: int, j: int)
    requires Fits(p, mid, Size(n)) && IsCode(p, n, mid, u) && 0 <= lo <= mid && mid + Size(n) <= hi <= |p|
    requires Matches(n, c, i, m) && Reaches(p, c, lo, hi, u, m, t, j)
    ensures Reaches(p, c, lo, hi, Entry(n, mid), i, t, j)
    decreases n, 2, 0
  {
    CodeComplete(p, c, n, mid, u, i, m);
    var k: nat :| Runs(p, c, mid, mid + Size(n), k, Entry(n, mid), i, u, m);
    RunJoin(p, c, mid, mid + Size(n), u, lo, hi, k, Entry(n, mid), i, m, t, j);
  }

  lemma {:induction false} SpellComplete(p: Code, c: Context, text: seq<Byte>, icase: bool, lo: int, hi: int, t: int, at: nat, i: int, j: int)
    requires 0 <= lo && hi == lo + 1 + |text| <= |p| && IsSpelled(p, text, icase, lo + 1, t)
    requires at < |text| && j == i + |text| - at && Reaches(p, c, lo, hi, t, j, t, j)
    requires forall q {:trigger text[q]} | at <= q < |text| :: Consumes(c, Rune(text[q], icase), i + q - at)
    ensures Reaches(p, c, lo, hi, lo + 1 + at, i, t, j)
    decreases |text| - at
  {
    assert p[lo + 1 + at].op == Consume(Rune(text[at], icase));
    if at + 1 < |text| {
      SpellComplete(p, c, text, icase, lo, hi, t, at + 1, i + 1, j);
    }
    StepJoin(p, c, lo, hi, lo + 1 + at, i, p[lo + 1 + at].x, t, j);
  }

  lemma {:induction false} ConcatComplete(p: Code, c: Context, ns: seq<Node>, lo: int, t: int, i: int, j: int)
    requires Fits(p, lo, ConcatSize(ns)) && IsConcat(p, ns, lo, t) && MatchesAll(ns, c, i, j)
    ensures Reaches(p, c, lo, lo + ConcatSize(ns), lo, i, t, j)
    decreases ns, 0
  {
    var hi := lo + ConcatSize(ns);
    ReachSelf(p, c, lo, hi, t, j);
    if ns == [] {
      StepJoin(p, c, lo, hi, lo, i, t, t, j);
    } else {
      var mid := lo + ConcatSize(Front(ns));
      var e := Entry(Last(ns), mid);
      var m :| MatchesAll(Front(ns), c, i, m) && Matches(Last(ns), c, m, j);
      SectionComplete(p, c, Last(ns), mid, t, lo, hi, m, j, t, j);
      ConcatComplete(p, c, Front(ns), lo, e, i, m);
      var k: nat :| Runs(p, c, lo, mid, k, lo, i, e, m);
      RunJoin(p, c, lo, mid, e, lo, hi, k, lo, i, m, t, j);
    }
  }

  lemma {:induction false} AltComplete(p: Code, c: Context, ns: seq<Node>, lo: int, t: int, q: nat, i: int, j: int)
    requires ns != [] && Fits(p, lo, AltSize(ns)) && IsAlt(p, ns, lo, t)
    requires q < |ns| && Matches(ns[q], c, i, j)
    ensures Reaches(p, c, lo, lo + AltSize(ns), AltEntry(ns, lo), i, t, j)
    decreases ns, 0
  {
    var hi := lo + AltSize(ns);
    if |ns| == 1 {
      CodeComplete(p, c, ns[0], lo, t, i, j);
    } else {
      var mid := lo + AltSize(Front(ns));
      var pc := mid + Size(Last(ns));
      ReachSelf(p, c, lo, hi, t, j);
      if q == |ns| - 1 {
        SectionComplete(p, c, Last(ns), mid, t, lo, hi, i, j, t, j);
        StepJoin(p, c, lo, hi, pc, i, p[pc].y, t, j);
      } else {
        AltComplete(p, c, Front(ns), lo, t, q, i, j);
        var k: nat :| Runs(p, c, lo, mid, k, AltEntry(Front(ns), lo), i, t, j);
        RunJoin(p, c, lo, mid, t, lo, hi, k, AltEntry(Front(ns), lo), i, j, t, j);
        StepJoin(p, c, lo, hi, pc, i, p[pc].x, t, j);
      }
    }
  }

  lemma {:induction false} RepeatComplete(p: Code, c: Context, n: Node, lo: int, t: int, q: nat, i: int, j: int)
    requires n.Repeat? && Fits(p, lo, Size(n)) && IsCode(p, n, lo, t)
    requires n.min <= q && (n.max.Some? ==> q <= n.max.value) && Times(n.child, q, c, i, j)
    ensures Reaches(p, c, lo, lo + Size(n), lo, i, t, j)
    decreases n, 0
  {
    var hi := lo + Size(n);
    ReachSelf(p, c, lo, hi, t, j);
    var m := TimesSplit(n.child, n.min, q - n.min, c, i, j);
    var mid := lo + CopiesSize(n.child, n.min);
    if n.max == Some(n.min) {
      CopiesComplete(p, c, n.child, n.min, lo, t, lo, hi, i, m, t, j);
    } else if n.max == None {
      var pc := mid + Size(n.child);
      LoopComplete(p, c, n.child, lo, mid, hi, n.greedy, t, q - n.min, m, j);
      CopiesComplete(p, c, n.child, n.min, lo, pc, lo, hi, i, m, t, j);
    } else {
      var r := n.max.value - n.min;
      OptionalBase(p, n.child, n.min, r, n.greedy, lo, t, t);
      OptionalGrows(n.child, n.min, 0, r);
      BranchesComplete(p, c, n.child, n.min, r, n.greedy, lo, t, 0, q - n.min, m, j);
      CopiesComplete(p, c, n.child, n.min, lo, NextBranch(n.child, n.min, r, lo, t, 0), lo, hi, i, m, t, j);
    }
  }

  lemma {:induction false} CopiesComplete(p: Code, c: Context, n: Node, times: nat, at: int, u: int, lo: int, hi: int, i: int, m: int, t: int, j: int)
    requires Fits(p, at, CopiesSize(n, times)) && IsCopies(p, n, times, at, u)
    requires 0 <= lo <= at && at + CopiesSize(n, times) <= hi <= |p|
    requires Times(n, times, c, i, m) && Reaches(p, c, lo, hi, u, m, t, j)
    ensures Reaches(p, c, lo, hi, at, i, t, j)
    decreases n, 3, times
  {
    if times == 0 {
      StepJoin(p, c, lo, hi, at, i, u, t, j);
    } else {
      var mid := at + CopiesSize(n, times - 1);
      var q :| Times(n, times - 1, c, i, q) && Matches(n, c, q, m);
      SectionComplete(p, c, n, mid, u, lo, hi, q, m, t, j);
      CopiesComplete(p, c, n, times - 1, at, Entry(n, mid), lo, hi, i, q, t, j);
    }
  }

  lemma {:induction false} LoopComplete(p: Code, c: Context, n: Node, lo: int, mid: int, hi: int, greedy: bool, t: int, q: nat, i: int, j: int)
    requires 0 <= lo <= mid && hi == mid + Size(n) + 1 && hi <= |p|
    requires Fits(p, mid, Size(n)) && IsCode(p, n, mid, hi - 1) && p[hi - 1] == Branch(greedy, Entry(n, mid), t)
    requires Times(n, q, c, i, j)
    ensures Reaches(p, c, lo, hi, hi - 1, i, t, j)
    decreases n, 3, q
  {
    if q == 0 {
      ReachSelf(p, c, lo, hi, t, j);
      StepJoin(p, c, lo, hi, hi - 1, i, t, t, j);
    } else {
      var m := TimesSplit(n, 1, q - 1, c, i, j);
      LoopComplete(p, c, n, lo, mid, hi, greedy, t, q - 1, m, j);
      SectionComplete(p, c, n, mid, hi - 1, lo, hi, i, m, t, j);
      StepJoin(p, c, lo, hi, hi - 1, i, Entry(n, mid), t, j);
    }
  }

  lemma {:induction false} BranchesComplete(p: Code, c: Context, n: Node, min: nat, r: nat, greedy: bool, lo: int, t: int, at: nat, q: nat, i: int, j: int)
    requires Fits(p, lo, OptionalSize(n, min, r)) && IsOptional(p, n, min, r, greedy, lo, t, t)
    requires at + q <= r && Times(n, q, c, i, j)
    ensures Reaches(p, c, lo, lo + OptionalSize(n, min, r), NextBranch(n, min, r, lo, t, at), i, t, j)
    decreases n, 4, q
  {
    var hi := lo + OptionalSize(n, min, r);
    ReachSelf(p, c, lo, hi, t, j);
    if at < r {
      if q == 0 {
        BranchSkipped(p, c, n, min, r, greedy, lo, t, at, j);
      } else {
        var m := TimesSplit(n, 1, q - 1, c, i, j);
        BranchesComplete(p, c, n, min, r, greedy, lo, t, at + 1, q - 1, m, j);
        BranchComplete(p, c, n, min, r, greedy, lo, t, at, i, m, j);
      }
    }
  }

  /** An optional copy that matches is entered and left for what follows it. */
  lemma {:induction false} BranchComplete(p: Code, c: Context, n: Node, min: nat, r: nat, greedy: bool, lo: int, t: int, at: nat, i: int, m: int, j: int)
    requires Fits(p, lo, OptionalSize(n, min, r)) && IsOptional(p, n, min, r, greedy, lo, t, t)
    requires at < r && Matches(n, c, i, m)
    requires Reaches(p, c, lo, lo + OptionalSize(n, min, r), NextBranch(n, min, r, lo, t, at + 1), m, t, j)
    ensures Reaches(p, c, lo, lo + OptionalSize(n, min, r), NextBranch(n, min, r, lo, t, at), i, t, j)
    decreases n, 3
  {
    var hi := lo + OptionalSize(n, min, r);
    var mid := lo + OptionalSize(n, min, at);
    OptionalPart(p, n, min, r, greedy, lo, t, t, at + 1);
    OptionalGrows(n, min, at, r);
    CopyComplete(p, c, n, mid, NextBranch(n, min, r, lo, t, at + 1), lo, hi, greedy, i, m, t, j);
  }

  lemma {:induction false} CopyComplete(p: Code, c: Context, n: Node, mid: int, u: int, lo: int, hi: int, greedy: bool, i: int, m: int, t: int, j: int)
    requires 0 <= lo <= mid && mid + Size(n) < hi <= |p|
    requires IsCode(p, n, mid, u) && p[mid + Size(n)] == Branch(greedy, Entry(n, mid), t)
    requires Matches(n, c, i, m) && Reaches(p, c, lo, hi, u, m, t, j)
    ensures Reaches(p, c, lo, hi, mid + Size(n), i, t, j)
    decreases n, 2, 1
  {
    SectionComplete(p, c, n, mid, u, lo, hi, i, m, t, j);
    StepJoin(p, c, lo, hi, mid + Size(n), i, Entry(n, mid), t, j);
  }

  lemma BranchSkipped(p: Code, c: Context, n: Node, min: nat, r: nat, greedy: bool, lo: int, t: int, at: nat, j: int)
    requires Fits(p, lo, OptionalSize(n, min, r)) && IsOptional(p, n, min, r, greedy, lo, t, t) && at < r
    ensures Reaches(p, c, lo, lo + OptionalSize(n, min, r), NextBranch(n, min, r, lo, t, at), j, t, j)
  {
    var hi := lo + OptionalSize(n, min, r);
    OptionalPart(p, n, min, r, greedy, lo, t, t, at + 1);
    OptionalGrows(n, min, at, r);
    ReachSelf(p, c, lo, hi, t, j);
    StepJoin(p, c, lo, hi, lo + OptionalSize(n, min, at) + Size(n), j, t, t, j);
  }

  /** The compiled program accepts exactly the spans the tree matches. */
  lemma CompiledMeaning(p: Code, start: int, n: Node, c: Context, i: int, j: int)
    requires WellFormed(n) && Compiled(p, start, n)
    ensures AcceptsFrom(p, c, start, i, j) <==> Matches(n, c, i, j)
  {
    if AcceptsFrom(p, c, start, i, j) {
      var k: nat :| Runs(p, c, 0, Size(n), k, start, i, Size(n), j);
      CodeSound(p, c, n, 0, Size(n), k, i, j);
    }
    if Matches(n, c, i, j) {
      CodeComplete(p, c, n, 0, Size(n), i, j);
    }
  }
}
