/** What the planner reads off a pattern tree: a filter, mandatory literals,
    literal prefixes, per-branch literals and pure-literal form. Each is a
    necessary condition of a match. */
module QueryIr {
  import opened Basics
  import opened RegexAst
  import opened Filter

  // ----- where a literal stands inside a match -----

  /** `q` is consumed, case-sensitively, somewhere in [i, j). */
  ghost predicate InSpan(c: Context, q: seq<Byte>, i: int, j: int) {
    exists p :: i <= p && p + |q| <= j && LiteralAt(c, q, false, p)
  }

  /** The source bytes a span covers. */
  function Slice(c: Context, i: int, j: int): seq<Byte>
    requires c.sourceBegin <= i <= j <= c.SourceEnd()
  {
    c.source[i - c.sourceBegin..j - c.sourceBegin]
  }

  /** A consumed literal stands in the source at that very position. */
  lemma LiteralOccurs(c: Context, q: seq<Byte>, p: int)
    requires c.Valid() && q != [] && LiteralAt(c, q, false, p)
    ensures c.recordBegin <= p && p + |q| <= c.recordEnd
    ensures OccursAt(c.source, q, p - c.sourceBegin)
  {
    assert Consumes(c, Rune(q[0], false), p + 0);
    assert Consumes(c, Rune(q[|q| - 1], false), p + (|q| - 1));
    var at := p - c.sourceBegin;
    forall k | 0 <= k < |q| ensures c.source[at + k] == q[k] {
      assert Consumes(c, Rune(q[k], false), p + k);
    }
  }

  lemma SpanContains(c: Context, q: seq<Byte>, i: int, j: int)
    requires c.Valid() && InSpan(c, q, i, j) && c.sourceBegin <= i <= j <= c.SourceEnd()
    ensures Contains(Slice(c, i, j), q)
  {
    var p :| i <= p && p + |q| <= j && LiteralAt(c, q, false, p);
    if q == [] {
      assert OccursAt(Slice(c, i, j), q, 0);
    } else {
      LiteralOccurs(c, q, p);
      SliceOfSlice(c.source, i - c.sourceBegin, j - c.sourceBegin, p - i, p - i + |q|);
      assert OccursAt(Slice(c, i, j), q, p - i);
    }
  }

  // ----- filter -----

  function QueryFilter(n: Node): FilterExpr
    decreases n, 0
  {
    match n
    case Literal(text, icase) => if text != [] && !icase then Atom(text) else True
    case Group(child, _) => QueryFilter(child)
    case Repeat(child, min, _, _) => if min == 0 then True else QueryFilter(child)
    case Concat(children) => And(QueryFilters(children))
    case Alt(children) => Or(QueryFilters(children))
    case _ => True
  }

  function QueryFilters(ns: seq<Node>): (r: seq<FilterExpr>)
    ensures |r| == |ns| && forall k | 0 <= k < |ns| :: r[k] == QueryFilter(ns[k])
    decreases ns, 0
  {
    if ns == [] then [] else [QueryFilter(ns[0])] + QueryFilters(ns[1..])
  }

  /** The query filter of a parsed pattern has no empty Or, so simplifying keeps it. */
  lemma {:induction false} QueryFilterSolid(n: Node)
    requires WellFormed(n)
    ensures NoEmptyOr(QueryFilter(n))
    decreases n, 0
  {
    match n
    case Group(child, _) => QueryFilterSolid(child);
    case Repeat(child, min, _, _) => if min > 0 { QueryFilterSolid(child); }
    case Concat(children) => QueryFiltersSolid(children);
    case Alt(children) => QueryFiltersSolid(children);
    case _ =>
  }

  lemma {:induction false} QueryFiltersSolid(ns: seq<Node>)
    requires forall k | 0 <= k < |ns| :: WellFormed(ns[k])
    ensures |QueryFilters(ns)| == |ns| && forall k | 0 <= k < |QueryFilters(ns)| :: NoEmptyOr(QueryFilters(ns)[k])
    decreases ns, 0
  {
    if ns != [] { QueryFilterSolid(ns[0]); QueryFiltersSolid(ns[1..]); }
  }

  lemma SliceContains(c: Context, i: int, j: int, i': int, j': int)
    requires c.sourceBegin <= i' <= i <= j <= j' <= c.SourceEnd()
    ensures Contains(Slice(c, i', j'), Slice(c, i, j))
  {
    SliceOfSlice(c.source, i' - c.sourceBegin, j' - c.sourceBegin, i - i', j - i');
    assert OccursAt(Slice(c, i', j'), Slice(c, i, j), i - i');
  }

  /** Every text that contains the span of a match passes the filter. */
  lemma {:induction false} FilterNecessary(n: Node, c: Context, i: int, j: int, text: seq<Byte>)
    requires c.Valid() && Matches(n, c, i, j) && c.recordBegin <= i && j <= c.recordEnd
    requires i <= j && Contains(text, Slice(c, i, j))
    ensures Admits(QueryFilter(n), text)
    decreases n, 0
  {
    match n
    case Literal(lit, icase) =>
      if lit != [] && !icase {
        assert InSpan(c, lit, i, j);
        SpanContains(c, lit, i, j);
        ContainsTrans(text, Slice(c, i, j), lit);
      }
    case Group(child, _) => FilterNecessary(child, c, i, j, text);
    case Repeat(child, min, max, _) =>
      if min > 0 {
        var k: nat :| min <= k && (max.Some? ==> k <= max.value) && Times(child, k, c, i, j);
        var m := TimesLast(child, k, c, i, j);
        TimesSpan(child, k - 1, c, i, m);
        MatchSpan(child, c, m, j);
        SliceContains(c, m, j, i, j);
        ContainsTrans(text, Slice(c, i, j), Slice(c, m, j));
        FilterNecessary(child, c, m, j, text);
      }
    case Concat(children) => ConcatNecessary(children, c, i, j, text);
    case Alt(children) =>
      var k :| 0 <= k < |children| && Matches(children[k], c, i, j);
      FilterNecessary(children[k], c, i, j, text);
      assert Admits(QueryFilters(children)[k], text);
    case _ =>
  }

  lemma {:induction false} ConcatNecessary(ns: seq<Node>, c: Context, i: int, j: int, text: seq<Byte>)
    requires c.Valid() && MatchesAll(ns, c, i, j) && c.recordBegin <= i && j <= c.recordEnd
    requires i <= j && Contains(text, Slice(c, i, j))
    ensures AllHold(QueryFilters(ns), text)
    decreases ns, 0
  {
    if ns != [] {
      var m :| MatchesAll(Front(ns), c, i, m) && Matches(Last(ns), c, m, j);
      MatchAllSpan(Front(ns), c, i, m);
      MatchSpan(Last(ns), c, m, j);
      SliceContains(c, i, m, i, j);
      SliceContains(c, m, j, i, j);
      ContainsTrans(text, Slice(c, i, j), Slice(c, i, m));
      ContainsTrans(text, Slice(c, i, j), Slice(c, m, j));
      ConcatNecessary(Front(ns), c, i, m, text);
      FilterNecessary(Last(ns), c, m, j, text);
      forall k | 0 <= k < |ns| ensures Admits(QueryFilters(ns)[k], text) {
        if k < |ns| - 1 { assert Admits(QueryFilters(Front(ns))[k], text); }
      }
    }
  }

  // ----- mandatory literals -----

  function Mandatory(n: Node): seq<seq<Byte>>
    decreases n, 0
  {
    match n
    case Literal(text, icase) => if text == [] || icase then [] else [text]
    case Group(child, _) => Mandatory(child)
    case Repeat(child, min, _, _) => if min == 0 then [] else Mandatory(child)
    case Concat(children) => MandatoryOfAll(children, [])
    case Alt(children) => if children == [] then [] else MandatoryOfEach(children)
    case _ => []
  }

  /** Adjacent sensitive literals are joined into one run. */
  function MandatoryOfAll(ns: seq<Node>, run: seq<Byte>): seq<seq<Byte>>
    decreases ns, 0
  {
    var flushed := if run == [] then [] else [run];
    if ns == [] then flushed
    else if ns[0].Literal? && !ns[0].icase then MandatoryOfAll(ns[1..], run + ns[0].text)
    else flushed + Mandatory(ns[0]) + MandatoryOfAll(ns[1..], [])
  }

  /** The literals every alternative demands. */
  function MandatoryOfEach(ns: seq<Node>): seq<seq<Byte>>
    requires ns != []
    decreases ns, 0
  {
    if |ns| == 1 then Mandatory(ns[0]) else KeepIn(MandatoryOfEach(Front(ns)), Mandatory(Last(ns)))
  }

  function KeepIn(acc: seq<seq<Byte>>, cur: seq<seq<Byte>>): (r: seq<seq<Byte>>)
    ensures forall q :: q in r <==> q in acc && q in cur
  {
    if acc == [] then []
    else if acc[0] in cur then [acc[0]] + KeepIn(acc[1..], cur)
    else KeepIn(acc[1..], cur)
  }

  /** Inside every match stand all mandatory literals. */
  lemma {:induction false} MandatoryNecessary(n: Node, c: Context, i: int, j: int, q: seq<Byte>)
    requires Matches(n, c, i, j) && q in Mandatory(n)
    ensures q != [] && InSpan(c, q, i, j)
    decreases n, 0
  {
    match n
    case Literal(text, icase) => assert LiteralAt(c, text, false, i);
    case Group(child, _) => MandatoryNecessary(child, c, i, j, q);
    case Repeat(child, min, max, _) =>
      var k: nat :| min <= k && (max.Some? ==> k <= max.value) && Times(child, k, c, i, j);
      var m := TimesLast(child, k, c, i, j);
      TimesSpan(child, k - 1, c, i, m);
      MandatoryNecessary(child, c, m, j, q);
    case Concat(children) => RunsNecessary(children, [], c, i, i, j, q);
    case Alt(children) =>
      var k :| 0 <= k < |children| && Matches(children[k], c, i, j);
      EachNecessary(children, k, q);
      MandatoryNecessary(children[k], c, i, j, q);
    case _ =>
  }

  lemma {:induction false} EachNecessary(ns: seq<Node>, k: nat, q: seq<Byte>)
    requires k < |ns| && q in MandatoryOfEach(ns)
    ensures q in Mandatory(ns[k])
    decreases |ns|
  {
    if |ns| > 1 && k < |ns| - 1 { EachNecessary(Front(ns), k, q); }
  }

  lemma {:induction false} RunsNecessary(ns: seq<Node>, run: seq<Byte>, c: Context, s: int, i: int, j: int, q: seq<Byte>)
    requires s + |run| == i && LiteralAt(c, run, false, s) && MatchesAll(ns, c, i, j)
    requires q in MandatoryOfAll(ns, run)
    ensures q != [] && InSpan(c, q, s, j)
    decreases ns, 0
  {
    MatchAllSpan(ns, c, i, j);
    if ns != [] {
      var m := MatchesAllCons(ns, c, i, j);
      MatchSpan(ns[0], c, i, m);
      MatchAllSpan(ns[1..], c, m, j);
      if ns[0].Literal? && !ns[0].icase {
        var run' := run + ns[0].text;
        forall k {:trigger run'[k]} | 0 <= k < |run'| ensures Consumes(c, Rune(run'[k], false), s + k) {
          if k < |run| {
            assert Consumes(c, Rune(run[k], false), s + k);
          } else {
            assert Consumes(c, Rune(ns[0].text[k - |run|], false), i + (k - |run|));
          }
        }
        RunsNecessary(ns[1..], run', c, s, m, j, q);
      } else if q in Mandatory(ns[0]) {
        MandatoryNecessary(ns[0], c, i, m, q);
      } else if q in MandatoryOfAll(ns[1..], []) {
        RunsNecessary(ns[1..], [], c, m, m, j, q);
      }
    }
  }

  // ----- per-branch literals -----

  /** The alternatives of the pattern, outer groups removed. */
  function TopBranches(n: Node): seq<Node> {
    match n
    case Group(child, _) => TopBranches(child)
    case Alt(children) => children
    case _ => [n]
  }

  function BranchMandatory(n: Node): seq<seq<seq<Byte>>> {
    match n
    case Group(child, _) => BranchMandatory(child)
    case Alt(children) => MandatoryLists(children)
    case _ => []
  }

  /** One list a branch, or nothing at all when some branch demands no literal. */
  function MandatoryLists(ns: seq<Node>): seq<seq<seq<Byte>>> {
    if ns == [] then []
    else
      var m, rest := Mandatory(ns[0]), MandatoryLists(ns[1..]);
      if m == [] || (rest == [] && |ns| > 1) then [] else [m] + rest
  }

  lemma {:induction false} ListsAligned(ns: seq<Node>)
    requires MandatoryLists(ns) != []
    ensures |MandatoryLists(ns)| == |ns|
    ensures forall k | 0 <= k < |ns| :: MandatoryLists(ns)[k] == Mandatory(ns[k]) && Mandatory(ns[k]) != []
  {
    if |ns| > 1 { ListsAligned(ns[1..]); }
  }

  /** A match of the pattern is a match of one of its branches. */
  lemma {:induction false} BranchMatches(n: Node, c: Context, i: int, j: int) returns (k: nat)
    requires Matches(n, c, i, j)
    ensures k < |TopBranches(n)| && Matches(TopBranches(n)[k], c, i, j)
  {
    match n
    case Group(child, _) => k := BranchMatches(child, c, i, j);
    case Alt(children) =>
      var q :| 0 <= q < |children| && Matches(children[q], c, i, j);
      k := q;
    case _ => k := 0;
  }

  lemma {:induction false} BranchListsOf(n: Node)
    requires BranchMandatory(n) != []
    ensures BranchMandatory(n) == MandatoryLists(TopBranches(n))
  {
    if n.Group? { BranchListsOf(n.child); }
  }

  /** Some branch has all its literals inside the match. */
  lemma BranchNecessary(n: Node, c: Context, i: int, j: int) returns (k: nat)
    requires Matches(n, c, i, j) && BranchMandatory(n) != []
    ensures k < |BranchMandatory(n)| && BranchMandatory(n)[k] != []
    ensures forall q | q in BranchMandatory(n)[k] :: q != [] && InSpan(c, q, i, j)
  {
    BranchListsOf(n);
    ListsAligned(TopBranches(n));
    k := BranchMatches(n, c, i, j);
    forall q | q in BranchMandatory(n)[k] ensures q != [] && InSpan(c, q, i, j) {
      MandatoryNecessary(TopBranches(n)[k], c, i, j, q);
    }
  }

  // ----- prefixes -----

  function Prefixes(n: Node): seq<seq<Byte>>
    decreases n, 0
  {
    match n
    case Literal(text, icase) => if text != [] && !icase then [text] else []
    case Group(child, _) => Prefixes(child)
    case Repeat(child, min, _, _) => if min > 0 then Prefixes(child) else []
    case Concat(children) => if children != [] then Prefixes(children[0]) else []
    case Alt(children) => SortedUnique(PrefixesOfEach(children))
    case _ => []
  }

  function PrefixesOfEach(ns: seq<Node>): seq<seq<Byte>>
    decreases ns, 0
  {
    if ns == [] then []
    else
      var p, rest := Prefixes(ns[0]), PrefixesOfEach(ns[1..]);
      if p == [] || (rest == [] && |ns| > 1) then [] else p + rest
  }

  /** Byte-wise lexicographic order. */
  predicate Less(a: seq<Byte>, b: seq<Byte>) {
    if b == [] then false
    else if a == [] then true
    else a[0] < b[0] || (a[0] == b[0] && Less(a[1..], b[1..]))
  }

  function Insert(q: seq<Byte>, sorted: seq<seq<Byte>>): (r: seq<seq<Byte>>)
    ensures forall x :: x in r <==> x == q || x in sorted
  {
    if sorted == [] then [q]
    else if q == sorted[0] then sorted
    else if Less(q, sorted[0]) then [q] + sorted
    else [sorted[0]] + Insert(q, sorted[1..])
  }

  function SortedUnique(qs: seq<seq<Byte>>): (r: seq<seq<Byte>>)
    ensures forall x :: x in r <==> x in qs
  {
    if qs == [] then [] else Insert(qs[0], SortedUnique(qs[1..]))
  }

  /** Every match begins with one of the prefixes, when there are any. */
  lemma {:induction false} PrefixNecessary(n: Node, c: Context, i: int, j: int) returns (q: seq<Byte>)
    requires Matches(n, c, i, j) && Prefixes(n) != []
    ensures q in Prefixes(n) && q != [] && LiteralAt(c, q, false, i) && i + |q| <= j
    decreases n, 0
  {
    match n
    case Literal(text, icase) => q := text;
    case Group(child, _) => q := PrefixNecessary(child, c, i, j);
    case Repeat(child, min, max, _) =>
      var k: nat :| min <= k && (max.Some? ==> k <= max.value) && Times(child, k, c, i, j);
      var m := TimesSplit(child, 1, k - 1, c, i, j);
      TimesSpan(child, k - 1, c, m, j);
      q := PrefixNecessary(child, c, i, m);
    case Concat(children) =>
      var m := MatchesAllCons(children, c, i, j);
      MatchAllSpan(children[1..], c, m, j);
      q := PrefixNecessary(children[0], c, i, m);
    case Alt(children) =>
      var k :| 0 <= k < |children| && Matches(children[k], c, i, j);
      EachPrefix(children, k);
      q := PrefixNecessary(children[k], c, i, j);
  }

  lemma {:induction false} EachPrefix(ns: seq<Node>, k: nat)
    requires k < |ns| && PrefixesOfEach(ns) != []
    ensures Prefixes(ns[k]) != [] && forall q | q in Prefixes(ns[k]) :: q in PrefixesOfEach(ns)
    decreases |ns|
  {
    if k > 0 { EachPrefix(ns[1..], k - 1); }
  }

  // ----- pure literals -----

  function PureLiteral(n: Node): Option<seq<Byte>>
    decreases n, 0
  {
    match n
    case Literal(text, icase) => if icase then None else Some(text)
    case Group(child, _) => PureLiteral(child)
    case Concat(children) => PureLiterals(children)
    case _ => None
  }

  function PureLiterals(ns: seq<Node>): Option<seq<Byte>>
    decreases ns, 0
  {
    if ns == [] then Some([])
    else
      var run, sub := PureLiterals(Front(ns)), PureLiteral(Last(ns));
      if run.None? || sub.None? then None else Some(run.value + sub.value)
  }

  lemma LiteralSplit(c: Context, a: seq<Byte>, b: seq<Byte>, i: int)
    ensures LiteralAt(c, a + b, false, i) <==> LiteralAt(c, a, false, i) && LiteralAt(c, b, false, i + |a|)
  {
    var ab := a + b;
    if LiteralAt(c, ab, false, i) {
      forall k {:trigger a[k]} | 0 <= k < |a| ensures Consumes(c, Rune(a[k], false), i + k) {
        assert Consumes(c, Rune(ab[k], false), i + k);
      }
      forall k {:trigger b[k]} | 0 <= k < |b| ensures Consumes(c, Rune(b[k], false), i + |a| + k) {
        assert Consumes(c, Rune(ab[|a| + k], false), i + (|a| + k));
      }
    }
    if LiteralAt(c, a, false, i) && LiteralAt(c, b, false, i + |a|) {
      forall k {:trigger ab[k]} | 0 <= k < |ab| ensures Consumes(c, Rune(ab[k], false), i + k) {
        if k < |a| {
          assert Consumes(c, Rune(a[k], false), i + k);
        } else {
          assert Consumes(c, Rune(b[k - |a|], false), i + |a| + (k - |a|));
        }
      }
    }
  }

  /** A pure literal matches exactly where its text stands. */
  lemma {:induction false} PureLiteralMeaning(n: Node, c: Context, i: int, j: int)
    requires PureLiteral(n).Some?
    ensures Matches(n, c, i, j) <==> j == i + |PureLiteral(n).value| && LiteralAt(c, PureLiteral(n).value, false, i)
    decreases n, 0
  {
    match n
    case Literal(_, _) =>
    case Group(child, _) => PureLiteralMeaning(child, c, i, j);
    case Concat(children) => PureLiteralsMeaning(children, c, i, j);
  }

  lemma {:induction false} PureLiteralsMeaning(ns: seq<Node>, c: Context, i: int, j: int)
    requires PureLiterals(ns).Some?
    ensures MatchesAll(ns, c, i, j) <==> j == i + |PureLiterals(ns).value| && LiteralAt(c, PureLiterals(ns).value, false, i)
    decreases ns, 0
  {
    if ns != [] {
      var a, b := PureLiterals(Front(ns)).value, PureLiteral(Last(ns)).value;
      LiteralSplit(c, a, b, i);
      forall m
        ensures MatchesAll(Front(ns), c, i, m) <==> m == i + |a| && LiteralAt(c, a, false, i)
        ensures Matches(Last(ns), c, m, j) <==> j == m + |b| && LiteralAt(c, b, false, m)
      {
        PureLiteralsMeaning(Front(ns), c, i, m);
        PureLiteralMeaning(Last(ns), c, m, j);
      }
      var m := i + |a|;
      assert MatchesAll(Front(ns), c, i, m) && Matches(Last(ns), c, m, j) ==> MatchesAll(ns, c, i, j);
    }
  }
}
