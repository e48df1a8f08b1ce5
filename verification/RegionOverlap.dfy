/** A pattern and a record whose regions list two spans that overlap: `a.b.` on
    "axbaxbx". */
module RegionOverlap {
  import opened Basics
  import opened RegexAst
  import opened QueryIr
  import opened Width
  import opened NfaThreads
  import opened NfaWindow
  import opened NfaFixed
  import opened RegionSearch
  import opened RegionLists
  import Regions
  import RegionPlan

  const A: Byte := 97
  const B: Byte := 98
  const X: Byte := 120

  function Tree(): Node {
    Concat([Literal([A], false), Dot(true), Literal([B], false), Dot(true)])
  }

  function Record(): Context {
    Context([A, X, B, A, X, B, X], 0, 0, 7, 0, 8, false, false, LF, false, 0, 0)
  }

  // ----- the tree in the eyes of the planner -----

  lemma TreeLiterals()
    ensures Mandatory(Tree()) == [[A], [B]]
  {
    var ns := Tree().children;
    assert ns[1..] == [Dot(true), Literal([B], false), Dot(true)];
    assert ns[1..][1..] == [Literal([B], false), Dot(true)];
    assert ns[1..][1..][1..] == [Dot(true)];
    assert MandatoryOfAll([], []) == [];
    assert MandatoryOfAll([Dot(true)], [B]) == [[B]];
    assert [] + [B] == [B];
    assert MandatoryOfAll([Literal([B], false), Dot(true)], []) == [[B]];
    assert [] + [A] == [A];
    assert MandatoryOfAll(ns[1..], [A]) == [[A], [B]];
  }

  lemma TreeOffsets()
    ensures Offsets(Tree()) == Summary(4, 10, true, [Constraint([A], 0, 0), Constraint([B], 2, 5)])
  {
    var a, d, b := Literal([A], false), Dot(true), Literal([B], false);
    assert Front([a]) == [] && Front([a, d]) == [a] && Front([a, d, b]) == [a, d] && Front([a, d, b, d]) == [a, d, b];
    assert Shifted([], 1, 1) == [] && Shifted([], 3, 6) == [];
    assert Shifted([Constraint([A], 0, 0)], 0, 0) == [Constraint([A], 0, 0)];
    assert OffsetsOfAll([a]) == Summary(1, 1, true, [Constraint([A], 0, 0)]);
    assert OffsetsOfAll([a, d]) == Summary(2, 5, true, [Constraint([A], 0, 0)]);
    assert Shifted([Constraint([B], 0, 0)], 2, 5) == [Constraint([B], 2, 5)];
    assert OffsetsOfAll([a, d, b]) == Summary(3, 6, true, [Constraint([A], 0, 0), Constraint([B], 2, 5)]);
    assert OffsetsOfAll([a, d, b, d]) == Summary(4, 10, true, [Constraint([A], 0, 0), Constraint([B], 2, 5)] + []);
  }

  lemma TreeAnalysis()
    ensures
      var a := Analyze(Tree());
      && a.byteUpper == Finite(10) && a.runeUpper.Finite? && a.ahead.Finite? && a.behind.Finite?
      && !a.repeatLimit && !a.unboundedRepeat
  {
    var a, d, b := Literal([A], false), Dot(true), Literal([B], false);
    assert Front([a]) == [] && Front([a, d]) == [a] && Front([a, d, b]) == [a, d] && Front([a, d, b, d]) == [a, d, b];
    assert AnalyzeAll([a]).byteUpper == Finite(1);
    assert AnalyzeAll([a, d]).byteUpper == Finite(5);
    assert AnalyzeAll([a, d, b]).byteUpper == Finite(6);
    assert AnalyzeAll([a, d, b, d]).byteUpper == Finite(10);
  }

  lemma TreeWidth()
    ensures WellFormed(Tree()) && FixedWidth(Tree()) == Some(4)
  {
    var a, d, b := Literal([A], false), Dot(true), Literal([B], false);
    assert Front([a]) == [] && Front([a, d]) == [a] && Front([a, d, b]) == [a, d] && Front([a, d, b, d]) == [a, d, b];
    assert FixedWidth(a) == Some(1) && FixedWidth(d) == Some(1) && FixedWidth(b) == Some(1) && FixedSum([]) == Some(0);
    assert FixedSum([a]) == Some(1);
    assert FixedSum([a, d]) == Some(2);
    assert FixedSum([a, d, b]) == Some(3);
    assert FixedSum([a, d, b, d]) == Some(4);
  }

  lemma TreeDistinct()
    ensures RegionPlan.DistinctMandatory(Tree()) == [[A], [B]]
  {
    var qs: seq<seq<Byte>> := [[A], [B]];
    TreeLiterals();
    assert qs[1..] == [[B]] && qs[1..][1..] == [];
    assert SortedUnique(qs[1..]) == [[B]];
    assert Less([A], [B]);
    assert SortedUnique(qs) == [[A]] + [[B]];
  }

  lemma TreePlannable()
    ensures RegionPlan.Plannable(Tree())
  {
    TreeDistinct();
    TreeAnalysis();
  }

  /** Both literals get their own constraint, so the plan is joined. */
  lemma TreePlan() returns (b: RegionPlan.BoundedBranch)
    ensures RegionPlan.PlanOf(Tree()) == [b]
    ensures b.joined && b.constraints == [Constraint([A], 0, 0), Constraint([B], 2, 5)]
  {
    var required: seq<seq<Byte>>, literals := [[A], [B]], [Constraint([A], 0, 0), Constraint([B], 2, 5)];
    TreeDistinct();
    TreeOffsets();
    TreeTakes(required, literals);
    assert RegionPlan.Longest(required) != [] by { assert [A] in required; }
    assert RegionPlan.Required(Tree(), 0) == required;
    b := RegionPlan.BranchPlan(Tree(), required);
    assert RegionPlan.PlanUpTo(Tree(), 1) == RegionPlan.PlanUpTo(Tree(), 0) + [b];
  }

  lemma TreeTakes(required: seq<seq<Byte>>, literals: seq<Constraint>)
    requires required == [[A], [B]] && literals == [Constraint([A], 0, 0), Constraint([B], 2, 5)]
    ensures RegionPlan.TakeFrom(required, literals, RegionPlan.Unmarked(2), 0) == Some(literals)
  {
    var none := RegionPlan.Unmarked(2);
    var one := none[0 := true];
    assert RegionPlan.FirstUnused([A], literals, none, 0) == Some(0);
    assert RegionPlan.FirstUnused([B], literals, one, 1) == Some(1);
    assert RegionPlan.FirstUnused([B], literals, one, 0) == Some(1);
    assert RegionPlan.TakeFrom(required, literals, one[1 := true], 2) == Some([]);
    assert [literals[1]] + [] == [literals[1]] && [literals[0]] + [literals[1]] == literals;
    assert RegionPlan.TakeFrom(required, literals, one, 1) == Some([literals[1]]);
  }

  // ----- the record -----

  lemma RecordMatches()
    ensures MatchesAt(Tree(), Record(), 4, 0) && MatchesAt(Tree(), Record(), 4, 3)
  {
    var c := Record();
    var source := c.source;
    assert |source| == 7 && source[0] == A && source[2] == B && source[3] == A && source[5] == B;
    StartMatches(c, 0);
    StartMatches(c, 3);
  }

  lemma StartMatches(c: Context, i: int)
    requires c.Readable(i) && c.Readable(i + 1) && c.Readable(i + 2) && c.Readable(i + 3) && c.ByteAt(i) == A && c.ByteAt(i + 2) == B
    ensures MatchesAt(Tree(), c, 4, i)
  {
    UnitMatches(c, A, i);
    UnitMatches(c, B, i + 2);
    AnyMatches(c, i + 1);
    AnyMatches(c, i + 3);
    FourMatch(Literal([A], false), Dot(true), Literal([B], false), Dot(true), c, i);
  }

  lemma AnyMatches(c: Context, i: int)
    requires c.Readable(i)
    ensures Matches(Dot(true), c, i, i + 1)
  {}

  /** Four units one after the other. */
  lemma FourMatch(n1: Node, n2: Node, n3: Node, n4: Node, c: Context, i: int)
    requires Matches(n1, c, i, i + 1) && Matches(n2, c, i + 1, i + 2) && Matches(n3, c, i + 2, i + 3) && Matches(n4, c, i + 3, i + 4)
    ensures Matches(Concat([n1, n2, n3, n4]), c, i, i + 4)
  {
    assert MatchesAll([], c, i, i);
    assert Front([n1]) == [] && Front([n1, n2]) == [n1] && Front([n1, n2, n3]) == [n1, n2] && Front([n1, n2, n3, n4]) == [n1, n2, n3];
    AllSnoc([n1], c, i, i, i + 1);
    AllSnoc([n1, n2], c, i, i + 1, i + 2);
    AllSnoc([n1, n2, n3], c, i, i + 2, i + 3);
    AllSnoc([n1, n2, n3, n4], c, i, i + 3, i + 4);
  }

  lemma UnitMatches(c: Context, u: Byte, i: int)
    requires c.Readable(i) && c.ByteAt(i) == u
    ensures Matches(Literal([u], false), c, i, i + 1)
  {
    var text: seq<Byte> := [u];
    assert text[0] == u;
  }

  lemma AllSnoc(ns: seq<Node>, c: Context, i: int, m: int, j: int)
    requires ns != [] && MatchesAll(Front(ns), c, i, m) && Matches(Last(ns), c, m, j)
    ensures MatchesAll(ns, c, i, j)
  {}

  lemma SecondRefused(b: RegionPlan.BoundedBranch, record: seq<Byte>)
    requires b.joined && b.constraints != [] && b.constraints[0] == Constraint([A], 0, 0) && |record| > 1 && record[1] == X
    ensures RegionPlan.Refuses(b, record, 0, 1)
  {
    var seen: seq<Byte>, wanted: seq<Byte> := record[1..2], [A];
    assert seen[0] == X && wanted[0] == A && seen != wanted;
    assert !Regions.Allows(record, 0, b.constraints[0], 1);
  }

  /** All that matters of the tree and of the record. */
  ghost predicate Apt(n: Node, c: Context, b: RegionPlan.BoundedBranch) {
    AptTree(n, b) && AptRecord(c) && MatchesAt(n, c, 4, 0) && MatchesAt(n, c, 4, 3)
  }

  ghost predicate AptTree(n: Node, b: RegionPlan.BoundedBranch) {
    && WellFormed(n) && FixedWidth(n) == Some(4) && RegionPlan.Plannable(n) && RegionPlan.PlanOf(n) == [b]
    && b.joined && b.constraints != [] && b.constraints[0] == Constraint([A], 0, 0)
  }

  predicate AptRecord(c: Context) {
    WholeRecord(c) && c.recordBegin == 0 && |c.source| > 1 && c.source[1] == X && Slice(c, 0, c.recordEnd) == c.source
  }

  lemma TreeApt() returns (b: RegionPlan.BoundedBranch)
    ensures AptTree(Tree(), b)
  {
    TreeWidth();
    TreePlannable();
    b := TreePlan();
  }

  lemma RecordApt()
    ensures AptRecord(Record())
  {
    var c := Record();
    assert |c.source| == 7 && c.source[1] == X;
    SourceSlice(c);
  }

  lemma SourceSlice(c: Context)
    requires c.sourceBegin == 0 && c.recordEnd == |c.source|
    ensures Slice(c, 0, c.recordEnd) == c.source
  {}

  /** The start after the first is not tried: no `a` stands there. */
  lemma SecondNotTried(n: Node, c: Context, b: RegionPlan.BoundedBranch)
    requires Apt(n, c, b)
    ensures !Regions.Tried(RegionPlan.RegionsIn(n, c), 1)
  {
    SecondRefused(b, c.source);
    RegionPlan.OneRefuses(n, c, b, 1);
  }

  /** Searched as a whole, the record lists one match; searched by regions, two that
      overlap. */
  lemma OverlapListed() returns (n: Node, c: Context)
    ensures WellFormed(n) && WholeRecord(c) && RegionPlan.Plannable(n)
    ensures forall pr | IsFixed(pr, n, 4) :: RegionSpans(pr, n, c, false) != WholeSpans(pr, c, false)
  {
    n, c := Tree(), Record();
    var b := TreeApt();
    RecordApt();
    RecordMatches();
    forall pr | IsFixed(pr, n, 4) ensures RegionSpans(pr, n, c, false) != WholeSpans(pr, c, false) {
      AptDiffers(pr, n, c, b);
    }
  }

  lemma {:induction false} AptDiffers(pr: Program, n: Node, c: Context, b: RegionPlan.BoundedBranch)
    requires Apt(n, c, b) && IsFixed(pr, n, 4)
    ensures RegionSpans(pr, n, c, false) != WholeSpans(pr, c, false)
  {
    SecondNotTried(n, c, b);
    RegionsDiffer(pr, n, 4, c, 3, 1);
  }
}
