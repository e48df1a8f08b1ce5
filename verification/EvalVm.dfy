/** The second engine: it expands a list of end positions node by node, dropping empty
    iterations and iterations beyond a cap. What it returns is described exactly, and
    with it the patterns and records for which that is the match relation. */
module EvalVm {
  import opened Basics
  import opened RegexAst
  import opened NfaCode
  import opened NfaMeaning

  const MAX_DEPTH: nat := 10000
  const MAX_STATES: nat := 50000
  const MAX_ROUNDS: nat := 10000

  /** Reading one unit here also respects the beginning of the region. */
  predicate VmConsumes(c: Context, m: Matcher, pos: int) {
    Consumes(c, m, pos) && (c.bounded ==> c.regionBegin <= pos)
  }

  predicate VmLiteralAt(c: Context, text: seq<Byte>, icase: bool, pos: int) {
    forall k {:trigger text[k]} | 0 <= k < |text| :: VmConsumes(c, Rune(text[k], icase), pos + k)
  }

  /** The ends of all ways `n` can match from `pos`, in order of preference. */
  function Eval(n: Node, c: Context, depth: nat, pos: int): Result<seq<int>>
    decreases n, 0
  {
    if depth > MAX_DEPTH then Err("recursion depth exceeded")
    else
      match n
      case Empty => Ok([pos])
      case Literal(text, icase) => Ok(if VmLiteralAt(c, text, icase, pos) then [pos + |text|] else [])
      case Dot(dotall) => Ok(if VmConsumes(c, Any(dotall), pos) then [pos + 1] else [])
      case Class(members) => Ok(if VmConsumes(c, InClass(members), pos) then [pos + 1] else [])
      case Assert(a) => Ok(if Holds(c, a, pos) then [pos] else [])
      case Group(child, _) => Eval(child, c, depth + 1, pos)
      case Concat(children) => EvalConcat(children, c, depth + 1, pos)
      case Alt(children) => EvalAlt(children, c, depth + 1, pos)
      case Repeat(child, min, max, greedy) =>
        var hard := if c.recordEnd >= pos then c.recordEnd - pos + 1 else 0;
        var limit := Min(if max.Some? then max.value else hard, MAX_ROUNDS);
        var more :- Rounds(child, c, depth + 1, [pos], 1, 1, limit);
        Checked(Select([[pos]] + more, min, greedy))
  }

  function Checked(out: seq<int>): Result<seq<int>> {
    if |out| > MAX_STATES then Err("VM state limit exceeded") else Ok(out)
  }

  function EvalConcat(ns: seq<Node>, c: Context, depth: nat, pos: int): Result<seq<int>>
    decreases ns, 0
  {
    if ns == [] then Ok([pos])
    else
      var cur :- EvalConcat(Front(ns), c, depth, pos);
      EvalFrom(Last(ns), c, depth, cur)
  }

  /** Expands every state of a list. */
  function EvalFrom(n: Node, c: Context, depth: nat, cur: seq<int>): Result<seq<int>>
    decreases n, 1, |cur|
  {
    if cur == [] then Ok([])
    else
      var next :- EvalFrom(n, c, depth, Front(cur));
      var v :- Eval(n, c, depth, Last(cur));
      Checked(next + v)
  }

  function EvalAlt(ns: seq<Node>, c: Context, depth: nat, pos: int): Result<seq<int>>
    decreases ns, 0
  {
    if ns == [] then Ok([])
    else
      var out :- EvalAlt(Front(ns), c, depth, pos);
      var v :- Eval(Last(ns), c, depth, pos);
      Checked(out + v)
  }

  /** One more iteration from every state; iterations that consume nothing are dropped. */
  function Round(n: Node, c: Context, depth: nat, cur: seq<int>): Result<seq<int>>
    decreases n, 1, |cur|
  {
    if cur == [] then Ok([])
    else
      var next :- Round(n, c, depth, Front(cur));
      var v :- Eval(n, c, depth, Last(cur));
      Ok(next + Other(v, Last(cur)))
  }

  function Other(v: seq<int>, pos: int): (r: seq<int>)
    ensures forall j :: j in r <==> j in v && j != pos
  {
    if v == [] then [] else (if v[0] == pos then [] else [v[0]]) + Other(v[1..], pos)
  }

  /** The states after k, k + 1, ... iterations, until one has none or the limit is reached. */
  function Rounds(n: Node, c: Context, depth: nat, cur: seq<int>, total: nat, k: nat, limit: int): Result<seq<seq<int>>>
    decreases n, 2, limit - k
  {
    if k > limit then Ok([])
    else
      var next :- Round(n, c, depth, cur);
      if next == [] then Ok([])
      else if total + |next| > MAX_STATES then Err("VM state limit exceeded")
      else
        var rest :- Rounds(n, c, depth, next, total + |next|, k + 1, limit);
        Ok([next] + rest)
  }

  /** The rounds from `min` on: the last first when greedy, the first first when lazy. */
  function Select(all: seq<seq<int>>, min: nat, greedy: bool): (out: seq<int>)
    ensures forall j :: j in out <==> exists k :: min <= k < |all| && j in all[k]
  {
    if |all| <= min then []
    else
      var rest := Select(Front(all), min, greedy);
      if greedy then Last(all) + rest else rest + Last(all)
  }

  // ----- what the engine returns -----

  /** Tree `n` matches [i, j) as this engine plays it: every iteration of a repeat consumes
      something, and there are at most MAX_ROUNDS of them. */
  ghost predicate Plays(n: Node, c: Context, i: int, j: int)
    decreases n, 0
  {
    match n
    case Empty => i == j
    case Literal(text, icase) => j == i + |text| && VmLiteralAt(c, text, icase, i)
    case Dot(dotall) => j == i + 1 && VmConsumes(c, Any(dotall), i)
    case Class(members) => j == i + 1 && VmConsumes(c, InClass(members), i)
    case Assert(a) => i == j && Holds(c, a, i)
    case Group(child, _) => Plays(child, c, i, j)
    case Concat(children) => PlaysAll(children, c, i, j)
    case Alt(children) => exists k | 0 <= k < |children| :: Plays(children[k], c, i, j)
    case Repeat(child, min, max, _) => exists k: nat :: Allowed(k, min, max) && k <= MAX_ROUNDS && Strides(child, k, c, i, j)
  }

  ghost predicate PlaysAll(ns: seq<Node>, c: Context, i: int, j: int)
    decreases ns, 0
  {
    if ns == [] then i == j
    else exists m :: PlaysAll(Front(ns), c, i, m) && Plays(Last(ns), c, m, j)
  }

  /** `k` iterations, each of which consumes something. */
  ghost predicate Strides(n: Node, k: nat, c: Context, i: int, j: int)
    decreases n, 1, k
  {
    if k == 0 then i == j
    else exists m :: Strides(n, k - 1, c, i, m) && m != j && Plays(n, c, m, j)
  }

  predicate Allowed(k: nat, min: nat, max: Option<nat>) {
    min <= k && (max.Some? ==> k <= max.value)
  }

  // ----- whatever it plays is a match -----

  lemma {:induction false} PlaysMatch(n: Node, c: Context, i: int, j: int)
    requires Plays(n, c, i, j)
    ensures Matches(n, c, i, j)
    decreases n, 0
  {
    match n
    case Literal(text, icase) => ReadLiteral(c, text, icase, i);
    case Group(child, _) => PlaysMatch(child, c, i, j);
    case Concat(children) => PlaysAllMatch(children, c, i, j);
    case Alt(children) =>
      var k :| 0 <= k < |children| && Plays(children[k], c, i, j);
      PlaysMatch(children[k], c, i, j);
    case Repeat(child, min, max, _) =>
      var k: nat :| Allowed(k, min, max) && k <= MAX_ROUNDS && Strides(child, k, c, i, j);
      StridesTimes(child, k, c, i, j);
    case _ =>
  }

  lemma ReadLiteral(c: Context, text: seq<Byte>, icase: bool, i: int)
    requires VmLiteralAt(c, text, icase, i)
    ensures LiteralAt(c, text, icase, i)
  {
    forall k {:trigger text[k]} | 0 <= k < |text| ensures Consumes(c, Rune(text[k], icase), i + k) {
      assert VmConsumes(c, Rune(text[k], icase), i + k);
    }
  }

  lemma {:induction false} PlaysAllMatch(ns: seq<Node>, c: Context, i: int, j: int)
    requires PlaysAll(ns, c, i, j)
    ensures MatchesAll(ns, c, i, j)
    decreases ns, 0
  {
    if ns != [] {
      var m :| PlaysAll(Front(ns), c, i, m) && Plays(Last(ns), c, m, j);
      PlaysAllMatch(Front(ns), c, i, m);
      PlaysMatch(Last(ns), c, m, j);
    }
  }

  lemma {:induction false} StridesTimes(n: Node, k: nat, c: Context, i: int, j: int)
    requires Strides(n, k, c, i, j)
    ensures Times(n, k, c, i, j)
    decreases n, 1, k
  {
    if k > 0 {
      var m :| Strides(n, k - 1, c, i, m) && m != j && Plays(n, c, m, j);
      StridesTimes(n, k - 1, c, i, m);
      PlaysMatch(n, c, m, j);
    }
  }

  /** Each iteration advances, and never past the record. */
  lemma {:induction false} StridesAdvance(n: Node, k: nat, c: Context, i: int, j: int)
    requires Strides(n, k, c, i, j)
    ensures i + k <= j && (k > 0 ==> j <= c.recordEnd)
    decreases k
  {
    if k > 0 {
      var m :| Strides(n, k - 1, c, i, m) && m != j && Plays(n, c, m, j);
      StridesAdvance(n, k - 1, c, i, m);
      PlaysMatch(n, c, m, j);
      MatchSpan(n, c, m, j);
    }
  }

  lemma LastStride(n: Node, k: nat, c: Context, i: int, j: int) returns (m: int)
    requires k > 0 && Strides(n, k, c, i, j)
    ensures Strides(n, k - 1, c, i, m) && m != j && Plays(n, c, m, j)
  {
    if k != 0 { m :| Strides(n, k - 1, c, i, m) && m != j && Plays(n, c, m, j); }
  }

  lemma {:induction false} StridesPrefix(n: Node, a: nat, k: nat, c: Context, i: int, j: int) returns (m: int)
    requires a <= k && Strides(n, k, c, i, j)
    ensures Strides(n, a, c, i, m)
    decreases k
  {
    if a == k {
      m := j;
    } else {
      var q :| Strides(n, k - 1, c, i, q) && q != j && Plays(n, c, q, j);
      m := StridesPrefix(n, a, k - 1, c, i, q);
    }
  }

  // ----- it returns exactly what it plays -----

  ghost predicate ExactRound(n: Node, k: nat, c: Context, pos: int, ends: seq<int>) {
    forall j :: j in ends <==> Strides(n, k, c, pos, j)
  }

  /** Where the engine returns at all, the ends are exactly those it plays. */
  lemma {:induction false} EvalPlays(n: Node, c: Context, depth: nat, pos: int)
    requires Eval(n, c, depth, pos).Ok?
    ensures forall j :: j in Eval(n, c, depth, pos).value <==> Plays(n, c, pos, j)
    decreases n, 0
  {
    match n
    case Group(child, _) => EvalPlays(child, c, depth + 1, pos);
    case Concat(children) => ConcatPlays(children, c, depth + 1, pos);
    case Alt(children) => AltPlays(children, c, depth + 1, pos);
    case Repeat(child, min, max, greedy) => RepeatPlays(child, min, max, greedy, c, depth, pos);
    case _ =>
  }

  lemma {:induction false} ConcatPlays(ns: seq<Node>, c: Context, depth: nat, pos: int)
    requires EvalConcat(ns, c, depth, pos).Ok?
    ensures forall j :: j in EvalConcat(ns, c, depth, pos).value <==> PlaysAll(ns, c, pos, j)
    decreases ns, 0
  {
    if ns != [] {
      var cur := EvalConcat(Front(ns), c, depth, pos).value;
      ConcatPlays(Front(ns), c, depth, pos);
      FromPlays(Last(ns), c, depth, cur);
      forall j ensures LeadsTo(Last(ns), c, cur, false, j) <==> PlaysAll(ns, c, pos, j) {
        if m :| m in cur && Plays(Last(ns), c, m, j) {}
      }
    }
  }

  /** Some state of `cur` leads to `j`; when `moving`, by consuming something. */
  ghost predicate LeadsTo(n: Node, c: Context, cur: seq<int>, moving: bool, j: int) {
    exists m :: m in cur && Plays(n, c, m, j) && (moving ==> m != j)
  }

  lemma LeadsToSnoc(n: Node, c: Context, cur: seq<int>, moving: bool, j: int)
    requires cur != []
    ensures LeadsTo(n, c, cur, moving, j)
      <==> LeadsTo(n, c, Front(cur), moving, j) || (Plays(n, c, Last(cur), j) && (moving ==> Last(cur) != j))
  {
    assert forall m :: m in cur <==> m in Front(cur) || m == Last(cur);
  }

  lemma {:induction false} FromPlays(n: Node, c: Context, depth: nat, cur: seq<int>)
    requires EvalFrom(n, c, depth, cur).Ok?
    ensures forall j :: j in EvalFrom(n, c, depth, cur).value <==> LeadsTo(n, c, cur, false, j)
    decreases n, 1, |cur|
  {
    if cur != [] {
      FromPlays(n, c, depth, Front(cur));
      EvalPlays(n, c, depth, Last(cur));
      forall j ensures j in EvalFrom(n, c, depth, cur).value <==> LeadsTo(n, c, cur, false, j) {
        LeadsToSnoc(n, c, cur, false, j);
      }
    }
  }

  lemma {:induction false} AltPlays(ns: seq<Node>, c: Context, depth: nat, pos: int)
    requires EvalAlt(ns, c, depth, pos).Ok?
    ensures forall j :: j in EvalAlt(ns, c, depth, pos).value <==> exists k :: 0 <= k < |ns| && Plays(ns[k], c, pos, j)
    decreases ns, 0
  {
    if ns != [] {
      AltPlays(Front(ns), c, depth, pos);
      EvalPlays(Last(ns), c, depth, pos);
      forall j ensures j in EvalAlt(ns, c, depth, pos).value <==> exists k :: 0 <= k < |ns| && Plays(ns[k], c, pos, j) {
        if k :| 0 <= k < |Front(ns)| && Plays(Front(ns)[k], c, pos, j) { assert Plays(ns[k], c, pos, j); }
        if k :| 0 <= k < |ns| && Plays(ns[k], c, pos, j) && k < |ns| - 1 { assert Plays(Front(ns)[k], c, pos, j); }
        if Plays(Last(ns), c, pos, j) { assert Plays(ns[|ns| - 1], c, pos, j); }
      }
    }
  }

  lemma {:induction false} RoundPlays(n: Node, c: Context, depth: nat, cur: seq<int>)
    requires Round(n, c, depth, cur).Ok?
    ensures forall j :: j in Round(n, c, depth, cur).value <==> LeadsTo(n, c, cur, true, j)
    decreases n, 1, |cur|
  {
    if cur != [] {
      RoundPlays(n, c, depth, Front(cur));
      EvalPlays(n, c, depth, Last(cur));
      forall j ensures j in Round(n, c, depth, cur).value <==> LeadsTo(n, c, cur, true, j) {
        LeadsToSnoc(n, c, cur, true, j);
      }
    }
  }

  ghost predicate NoStride(n: Node, k: nat, c: Context, pos: int) {
    forall j :: !Strides(n, k, c, pos, j)
  }

  /** The lists in `more` are the ends of k, k + 1, ... strides, up to `limit` or
      until there are none. */
  ghost predicate ExactRounds(n: Node, k: nat, c: Context, pos: int, more: seq<seq<int>>, limit: int) {
    && (forall q | 0 <= q < |more| :: ExactRound(n, k + q, c, pos, more[q]))
    && |more| <= (if k > limit then 0 else limit - k + 1)
    && (k + |more| <= limit ==> NoStride(n, k + |more|, c, pos))
  }

  lemma {:induction false} RoundsExact(n: Node, c: Context, depth: nat, pos: int, cur: seq<int>, total: nat, k: nat, limit: int)
    requires k > 0 && ExactRound(n, k - 1, c, pos, cur) && Rounds(n, c, depth, cur, total, k, limit).Ok?
    ensures ExactRounds(n, k, c, pos, Rounds(n, c, depth, cur, total, k, limit).value, limit)
    decreases n, 2, limit - k
  {
    if k <= limit {
      RoundPlays(n, c, depth, cur);
      var next := Round(n, c, depth, cur).value;
      NextRound(n, k, c, pos, cur, next);
      if next == [] {
        NoneNext(n, k, c, pos, limit);
      } else {
        RoundsExact(n, c, depth, pos, next, total + |next|, k + 1, limit);
        var rest := Rounds(n, c, depth, next, total + |next|, k + 1, limit).value;
        RoundsCons(n, k, c, pos, next, rest, limit);
      }
    }
  }

  lemma NoneNext(n: Node, k: nat, c: Context, pos: int, limit: int)
    requires ExactRound(n, k, c, pos, [])
    ensures ExactRounds(n, k, c, pos, [], limit)
  {}

  lemma NextRound(n: Node, k: nat, c: Context, pos: int, cur: seq<int>, next: seq<int>)
    requires k > 0 && ExactRound(n, k - 1, c, pos, cur) && forall j :: j in next <==> LeadsTo(n, c, cur, true, j)
    ensures ExactRound(n, k, c, pos, next)
  {
    forall j ensures j in next <==> Strides(n, k, c, pos, j) {
      if LeadsTo(n, c, cur, true, j) {
        var m :| m in cur && Plays(n, c, m, j) && m != j;
        assert Strides(n, k - 1, c, pos, m);
      }
      if Strides(n, k, c, pos, j) {
        var m := LastStride(n, k, c, pos, j);
        assert m in cur;
      }
    }
  }

  lemma RoundsCons(n: Node, k: nat, c: Context, pos: int, next: seq<int>, rest: seq<seq<int>>, limit: int)
    requires ExactRound(n, k, c, pos, next) && ExactRounds(n, k + 1, c, pos, rest, limit) && k <= limit
    ensures ExactRounds(n, k, c, pos, [next] + rest, limit)
  {
    var more := [next] + rest;
    forall q | 0 <= q < |more| ensures ExactRound(n, k + q, c, pos, more[q]) {
      if q > 0 { assert more[q] == rest[q - 1] && ExactRound(n, k + 1 + (q - 1), c, pos, rest[q - 1]); }
    }
    assert k + |more| == k + 1 + |rest|;
  }

  /** The iteration limit of one repeat. */
  function Limit(c: Context, max: Option<nat>, pos: int): (limit: int)
    ensures limit <= MAX_ROUNDS && (max.Some? ==> limit <= max.value) && limit >= 0
  {
    Min(if max.Some? then max.value else if c.recordEnd >= pos then c.recordEnd - pos + 1 else 0, MAX_ROUNDS)
  }

  /** Up to the cap, every allowed number of strides has been played out. */
  lemma CountReached(n: Node, min: nat, max: Option<nat>, c: Context, pos: int, all: seq<seq<int>>, k: nat, j: int)
    requires all != [] && ExactRounds(n, 0, c, pos, all, Limit(c, max, pos))
    requires Allowed(k, min, max) && k <= MAX_ROUNDS && Strides(n, k, c, pos, j)
    ensures k < |all| && j in all[k]
  {
    StridesAdvance(n, k, c, pos, j);
    if k >= |all| {
      var m := StridesPrefix(n, |all|, k, c, pos, j);
    }
    assert ExactRound(n, 0 + k, c, pos, all[k]);
  }

  /** A repeat returns exactly the ends of an allowed number of consuming iterations, up to
      the cap. */
  lemma {:induction false} RepeatPlays(child: Node, min: nat, max: Option<nat>, greedy: bool, c: Context, depth: nat, pos: int)
    requires Eval(Repeat(child, min, max, greedy), c, depth, pos).Ok?
    ensures forall j :: j in Eval(Repeat(child, min, max, greedy), c, depth, pos).value <==> Plays(Repeat(child, min, max, greedy), c, pos, j)
    decreases child, 4
  {
    var all := [[pos]] + Rounds(child, c, depth + 1, [pos], 1, 1, Limit(c, max, pos)).value;
    AllRounds(child, c, depth + 1, pos, Limit(c, max, pos));
    forall j ensures j in Select(all, min, greedy) <==> Plays(Repeat(child, min, max, greedy), c, pos, j) {
      SelectPlays(child, min, max, greedy, c, pos, all, j);
    }
  }

  lemma {:induction false} AllRounds(child: Node, c: Context, depth: nat, pos: int, limit: int)
    requires limit >= 0 && Rounds(child, c, depth, [pos], 1, 1, limit).Ok?
    ensures ExactRounds(child, 0, c, pos, [[pos]] + Rounds(child, c, depth, [pos], 1, 1, limit).value, limit)
    decreases child, 3
  {
    RoundsExact(child, c, depth, pos, [pos], 1, 1, limit);
    RoundsCons(child, 0, c, pos, [pos], Rounds(child, c, depth, [pos], 1, 1, limit).value, limit);
  }

  lemma SelectPlays(child: Node, min: nat, max: Option<nat>, greedy: bool, c: Context, pos: int, all: seq<seq<int>>, j: int)
    requires all != [] && ExactRounds(child, 0, c, pos, all, Limit(c, max, pos))
    ensures j in Select(all, min, greedy) <==> Plays(Repeat(child, min, max, greedy), c, pos, j)
  {
    if j in Select(all, min, greedy) {
      var k :| min <= k < |all| && j in all[k];
      assert ExactRound(child, 0 + k, c, pos, all[k]);
      assert Allowed(k, min, max) && Strides(child, k, c, pos, j);
    }
    if Plays(Repeat(child, min, max, greedy), c, pos, j) {
      var k: nat :| Allowed(k, min, max) && k <= MAX_ROUNDS && Strides(child, k, c, pos, j);
      CountReached(child, min, max, c, pos, all, k, j);
    }
  }

  // ----- when that is the match relation -----

  /** In the record of `c`, no body of a mandatory repeat matches empty. */
  ghost predicate EmptyFree(n: Node, c: Context) {
    match n
    case Group(child, _) => EmptyFree(child, c)
    case Concat(children) => forall k | 0 <= k < |children| :: EmptyFree(children[k], c)
    case Alt(children) => forall k | 0 <= k < |children| :: EmptyFree(children[k], c)
    case Repeat(child, min, _, _) => EmptyFree(child, c) && (min > 0 ==> NeverEmpty(child, c))
    case _ => true
  }

  ghost predicate NeverEmpty(n: Node, c: Context) {
    forall p | c.recordBegin <= p <= c.recordEnd :: !Matches(n, c, p, p)
  }

  /** The cap on iterations cannot bite: repeats stay below it, or the record is shorter. */
  predicate WithinCap(n: Node, c: Context) {
    match n
    case Group(child, _) => WithinCap(child, c)
    case Concat(children) => forall k | 0 <= k < |children| :: WithinCap(children[k], c)
    case Alt(children) => forall k | 0 <= k < |children| :: WithinCap(children[k], c)
    case Repeat(child, _, max, _) => WithinCap(child, c) && BelowCap(max, c)
    case _ => true
  }

  predicate BelowCap(max: Option<nat>, c: Context) {
    c.recordEnd - c.recordBegin <= MAX_ROUNDS || (max.Some? && max.value <= MAX_ROUNDS)
  }

  ghost predicate InRecord(c: Context, pos: int) {
    c.recordBegin <= pos <= c.recordEnd && (c.bounded ==> c.regionBegin <= pos)
  }

  /** `ends` are exactly the ends of matches of `n` from `pos`. */
  ghost predicate ExactEnds(n: Node, c: Context, pos: int, ends: seq<int>) {
    forall j :: j in ends <==> Matches(n, c, pos, j)
  }

  /** Every match is played, when nothing is lost to empty iterations or the cap. */
  lemma {:induction false} MatchPlays(n: Node, c: Context, i: int, j: int)
    requires InRecord(c, i) && EmptyFree(n, c) && WithinCap(n, c) && Matches(n, c, i, j)
    ensures Plays(n, c, i, j)
    decreases n, 0
  {
    match n
    case Literal(text, icase) =>
      forall k {:trigger text[k]} | 0 <= k < |text| ensures VmConsumes(c, Rune(text[k], icase), i + k) {}
    case Group(child, _) => MatchPlays(child, c, i, j);
    case Concat(children) => MatchAllPlays(children, c, i, j);
    case Alt(children) =>
      var k :| 0 <= k < |children| && Matches(children[k], c, i, j);
      MatchPlays(children[k], c, i, j);
      assert Plays(children[k], c, i, j);
    case Repeat(child, min, max, _) => RepeatPlayed(child, min, max, c, i, j);
    case _ =>
  }

  lemma {:induction false} MatchAllPlays(ns: seq<Node>, c: Context, i: int, j: int)
    requires InRecord(c, i) && (forall k | 0 <= k < |ns| :: EmptyFree(ns[k], c) && WithinCap(ns[k], c)) && MatchesAll(ns, c, i, j)
    ensures PlaysAll(ns, c, i, j)
    decreases ns, 0
  {
    if ns != [] {
      var m :| MatchesAll(Front(ns), c, i, m) && Matches(Last(ns), c, m, j);
      MatchAllPlays(Front(ns), c, i, m);
      MatchAllSpan(Front(ns), c, i, m);
      MatchPlays(Last(ns), c, m, j);
    }
  }

  /** Empty iterations can be left out. */
  lemma {:induction false} TimesStrides(n: Node, k: nat, c: Context, i: int, j: int) returns (k': nat)
    requires InRecord(c, i) && EmptyFree(n, c) && WithinCap(n, c) && Times(n, k, c, i, j)
    ensures k' <= k && Strides(n, k', c, i, j)
    ensures NeverEmpty(n, c) ==> k' == k
    decreases n, 1, k
  {
    if k == 0 {
      k' := 0;
    } else {
      var m := TimesLast(n, k, c, i, j);
      TimesSpan(n, k - 1, c, i, m);
      k' := TimesStrides(n, k - 1, c, i, m);
      if m != j {
        MatchPlays(n, c, m, j);
        k' := k' + 1;
      }
    }
  }

  lemma {:induction false} RepeatPlayed(child: Node, min: nat, max: Option<nat>, c: Context, i: int, j: int)
    requires InRecord(c, i) && EmptyFree(child, c) && WithinCap(child, c) && BelowCap(max, c) && (min > 0 ==> NeverEmpty(child, c))
    requires exists k: nat :: Allowed(k, min, max) && Times(child, k, c, i, j)
    ensures exists k: nat :: Allowed(k, min, max) && k <= MAX_ROUNDS && Strides(child, k, c, i, j)
    decreases child, 2
  {
    var k: nat :| Allowed(k, min, max) && Times(child, k, c, i, j);
    var k' := TimesStrides(child, k, c, i, j);
    StridesAdvance(child, k', c, i, j);
    assert Allowed(k', min, max) && k' <= MAX_ROUNDS;
  }

  /** Where the engine returns, it returns exactly the ends of the matches. */
  lemma EvalExact(n: Node, c: Context, depth: nat, pos: int)
    requires InRecord(c, pos) && EmptyFree(n, c) && WithinCap(n, c) && Eval(n, c, depth, pos).Ok?
    ensures ExactEnds(n, c, pos, Eval(n, c, depth, pos).value)
  {
    EvalPlays(n, c, depth, pos);
    forall j ensures Plays(n, c, pos, j) <==> Matches(n, c, pos, j) {
      if Plays(n, c, pos, j) { PlaysMatch(n, c, pos, j); }
      if Matches(n, c, pos, j) { MatchPlays(n, c, pos, j); }
    }
  }

  /** At every position of the record the engine's ends are those of the relation. */
  ghost predicate AgreesInRecord(n: Node, c: Context) {
    forall p | c.recordBegin <= p <= c.recordEnd :: Eval(n, c, 0, p).Ok? ==> ExactEnds(n, c, p, Eval(n, c, 0, p).value)
  }

  /** For one mandatory repeat the condition is exact: the engine agrees with the
      relation everywhere in the record if and only if the body matches empty nowhere. */
  lemma RepeatExactIff(child: Node, min: nat, max: Option<nat>, greedy: bool, c: Context)
    requires c.Valid() && !c.bounded && min > 0 && (max.Some? ==> min <= max.value) && EmptyFree(child, c)
    requires WithinCap(Repeat(child, min, max, greedy), c)
    requires forall p | c.recordBegin <= p <= c.recordEnd :: Eval(Repeat(child, min, max, greedy), c, 0, p).Ok?
    ensures NeverEmpty(child, c) <==> AgreesInRecord(Repeat(child, min, max, greedy), c)
  {
    var n := Repeat(child, min, max, greedy);
    if NeverEmpty(child, c) {
      forall p | c.recordBegin <= p <= c.recordEnd && Eval(n, c, 0, p).Ok? ensures ExactEnds(n, c, p, Eval(n, c, 0, p).value) {
        EvalExact(n, c, 0, p);
      }
    } else {
      var p :| c.recordBegin <= p <= c.recordEnd && Matches(child, c, p, p);
      EmptyLost(child, min, max, greedy, c, 0, p);
    }
  }

  /** A body that matches empty lets the repeat match empty, which the engine misses. */
  lemma EmptyLost(child: Node, min: nat, max: Option<nat>, greedy: bool, c: Context, depth: nat, p: int)
    requires min > 0 && (max.Some? ==> min <= max.value) && Eval(Repeat(child, min, max, greedy), c, depth, p).Ok?
    requires Matches(child, c, p, p)
    ensures Matches(Repeat(child, min, max, greedy), c, p, p)
    ensures p !in Eval(Repeat(child, min, max, greedy), c, depth, p).value
  {
    EmptyTimes(child, min, c, p);
    EvalPlays(Repeat(child, min, max, greedy), c, depth, p);
    if k: nat :| Allowed(k, min, max) && k <= MAX_ROUNDS && Strides(child, k, c, p, p) {
      StridesAdvance(child, k, c, p, p);
    }
  }

  lemma {:induction false} EmptyTimes(n: Node, k: nat, c: Context, p: int)
    requires Matches(n, c, p, p)
    ensures Times(n, k, c, p, p)
  {
    if k > 0 { EmptyTimes(n, k - 1, c, p); }
  }

  /** The cap bites silently: a run of one more byte than the cap is a match of the
      starred byte, and the engine does not return its end. */
  lemma CapLost(c: Context, b: Byte, greedy: bool, depth: nat, p: int, count: nat)
    requires LiteralAt(c, seq(count, _ => b), false, p) && Eval(Repeat(Literal([b], false), 0, None, greedy), c, depth, p).Ok?
    ensures Matches(Repeat(Literal([b], false), 0, None, greedy), c, p, p + count)
    ensures count > MAX_ROUNDS ==> p + count !in Eval(Repeat(Literal([b], false), 0, None, greedy), c, depth, p).value
  {
    var one := Literal([b], false);
    UnitsTimes(c, b, p, count, count);
    assert Allowed(count, 0, None);
    EvalPlays(Repeat(one, 0, None, greedy), c, depth, p);
    if k: nat :| Allowed(k, 0, None) && k <= MAX_ROUNDS && Strides(one, k, c, p, p + count) {
      UnitStrides(c, b, k, p, p + count);
    }
  }

  lemma {:induction false} UnitsTimes(c: Context, b: Byte, p: int, count: nat, k: nat)
    requires LiteralAt(c, seq(count, _ => b), false, p) && k <= count
    ensures Times(Literal([b], false), k, c, p, p + k)
  {
    if k > 0 {
      UnitsTimes(c, b, p, count, k - 1);
      assert seq(count, _ => b)[k - 1] == b;
      assert Matches(Literal([b], false), c, p + k - 1, p + k);
    }
  }

  lemma {:induction false} UnitStrides(c: Context, b: Byte, k: nat, i: int, j: int)
    requires Strides(Literal([b], false), k, c, i, j)
    ensures j == i + k
    decreases k
  {
    if k > 0 {
      var m :| Strides(Literal([b], false), k - 1, c, i, m) && m != j && Plays(Literal([b], false), c, m, j);
      UnitStrides(c, b, k - 1, i, m);
    }
  }

  /** So the two engines agree: the ends are those the compiled program accepts. */
  lemma EnginesAgree(n: Node, p: Code, start: int, c: Context, pos: int)
    requires WellFormed(n) && Compiled(p, start, n)
    requires c.Valid() && InRecord(c, pos) && EmptyFree(n, c) && WithinCap(n, c) && Eval(n, c, 0, pos).Ok?
    ensures forall j :: j in Eval(n, c, 0, pos).value <==> AcceptsFrom(p, c, start, pos, j)
  {
    EvalExact(n, c, 0, pos);
    forall j ensures AcceptsFrom(p, c, start, pos, j) <==> Matches(n, c, pos, j) {
      CompiledMeaning(p, start, n, c, pos, j);
    }
  }
}
