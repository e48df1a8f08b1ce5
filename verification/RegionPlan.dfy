/** The region plan of a whole pattern: which patterns are eligible, what each of
    their branches is anchored on, and the coverage of every match by some region. */
module RegionPlan {
  import opened Basics
  import opened RegexAst
  import opened QueryIr
  import opened Width
  import opened Regions

  const MAX_REGION_WIDTH: nat := 1048576

  /** The distinct mandatory literals of the whole pattern. */
  function DistinctMandatory(n: Node): (r: seq<seq<Byte>>)
    ensures forall q :: q in r <==> q in Mandatory(n)
  {
    SortedUnique(Mandatory(n))
  }

  function BranchLists(branches: seq<Node>): (r: seq<seq<seq<Byte>>>)
    ensures |r| == |branches| && forall k | 0 <= k < |branches| :: r[k] == Mandatory(branches[k])
  {
    seq(|branches|, k requires 0 <= k < |branches| => Mandatory(branches[k]))
  }

  /** The literal lists the plan splits on: the configured ones, or derived ones. */
  function SplitLists(n: Node): seq<seq<seq<Byte>>> {
    if BranchMandatory(n) != [] then BranchMandatory(n)
    else if |TopBranches(n)| > 1 then BranchLists(TopBranches(n))
    else []
  }

  predicate AllLong(lists: seq<seq<seq<Byte>>>) {
    forall k | 0 <= k < |lists| :: |lists[k]| >= 2
  }

  predicate Eligible(n: Node, groups: nat, sensitive: bool) {
    groups <= 1 && sensitive && Plannable(n)
  }

  /** A region is planned only for patterns of proven finite width with enough literals. */
  predicate Plannable(n: Node) {
    EnoughLiterals(DistinctMandatory(n), SplitLists(n)) && Bounded(Analyze(n), DistinctMandatory(n))
  }

  predicate EnoughLiterals(mandatory: seq<seq<Byte>>, lists: seq<seq<seq<Byte>>>) {
    |mandatory| >= 2 || (lists != [] && AllLong(lists))
  }

  predicate Bounded(a: Analysis, mandatory: seq<seq<Byte>>) {
    && a.byteUpper.Finite? && 0 < a.byteUpper.value <= MAX_REGION_WIDTH
    && a.runeUpper.Finite? && a.ahead.Finite? && a.behind.Finite?
    && !a.repeatLimit && !a.unboundedRepeat
    && forall k | 0 <= k < |mandatory| :: mandatory[k] != [] && |mandatory[k]| <= a.byteUpper.value
  }

  // ----- one branch -----

  /** The literal a branch is anchored on, or the constraints that are joined. */
  datatype BoundedBranch = BoundedBranch(anchor: seq<Byte>, constraints: seq<Constraint>, joined: bool)

  /** The first of the longest literals. */
  function Longest(required: seq<seq<Byte>>): (r: seq<Byte>)
    ensures r == [] || r in required
    ensures forall q | q in required :: |q| <= |r|
  {
    if required == [] then []
    else
      var best := Longest(Front(required));
      if |Last(required)| > |best| then Last(required) else best
  }

  /** The first unused constraint of the literal, from `i` on. */
  function FirstUnused(q: seq<Byte>, literals: seq<Constraint>, used: seq<bool>, i: nat): (r: Option<nat>)
    requires |used| == |literals|
    ensures r.Some? ==> i <= r.value < |literals| && literals[r.value].literal == q
    decreases |literals| - i
  {
    if i >= |literals| then None
    else if !used[i] && literals[i].literal == q then Some(i)
    else FirstUnused(q, literals, used, i + 1)
  }

  /** One unused summary constraint for each required literal from `k` on, or nothing. */
  function TakeFrom(required: seq<seq<Byte>>, literals: seq<Constraint>, used: seq<bool>, k: nat): (r: Option<seq<Constraint>>)
    requires |used| == |literals|
    ensures r.Some? ==> |r.value| == Max(0, |required| - k)
    ensures r.Some? ==> forall m | 0 <= m < |r.value| :: r.value[m] in literals && r.value[m].literal == required[k + m]
    decreases |required| - k
  {
    if k >= |required| then Some([])
    else
      var i := FirstUnused(required[k], literals, used, 0);
      if i.None? then None
      else Prepend([literals[i.value]], TakeFrom(required, literals, used[i.value := true], k + 1))
  }

  function Unmarked(n: nat): (used: seq<bool>)
    ensures |used| == n
  {
    seq(n, _ => false)
  }

  method TakeConstraints(required: seq<seq<Byte>>, literals: seq<Constraint>) returns (taken: Option<seq<Constraint>>)
    ensures taken == TakeFrom(required, literals, Unmarked(|literals|), 0)
  {
    var used := Unmarked(|literals|);
    var some: seq<Constraint> := [];
    PrependNone(TakeFrom(required, literals, used, 0));
    for k := 0 to |required|
      invariant |used| == |literals|
      invariant TakeFrom(required, literals, Unmarked(|literals|), 0) == Prepend(some, TakeFrom(required, literals, used, k))
    {
      var i := 0;
      while i < |literals| && (used[i] || literals[i].literal != required[k])
        invariant i <= |literals| && FirstUnused(required[k], literals, used, 0) == FirstUnused(required[k], literals, used, i)
      {
        i := i + 1;
      }
      if i == |literals| {
        return None;
      }
      PrependOne(some, literals[i], TakeFrom(required, literals, used[i := true], k + 1));
      used := used[i := true];
      some := some + [literals[i]];
    }
    assert some + [] == some;
    taken := Some(some);
  }

  function Prepend(some: seq<Constraint>, rest: Option<seq<Constraint>>): Option<seq<Constraint>> {
    if rest.None? then None else Some(some + rest.value)
  }

  lemma PrependNone(rest: Option<seq<Constraint>>)
    ensures Prepend([], rest) == rest
  {
    if rest.Some? { assert [] + rest.value == rest.value; }
  }

  lemma PrependOne(some: seq<Constraint>, c: Constraint, rest: Option<seq<Constraint>>)
    ensures Prepend(some, Prepend([c], rest)) == Prepend(some + [c], rest)
  {
    if rest.Some? { assert some + ([c] + rest.value) == (some + [c]) + rest.value; }
  }

  /** What the plan knows of a branch holds of every match of `n`. */
  ghost predicate PlannedFor(b: BoundedBranch, n: Node, required: seq<seq<Byte>>) {
    && b.anchor in required
    && (b.joined ==> b.constraints != [] && forall k | 0 <= k < |b.constraints| :: b.constraints[k] in Offsets(n).literals)
  }

  /** The plan of one branch. */
  function BranchPlan(n: Node, required: seq<seq<Byte>>): BoundedBranch {
    var taken := if Offsets(n).finite && |required| >= 2 then TakeFrom(required, Offsets(n).literals, Unmarked(|Offsets(n).literals|), 0) else None;
    if taken.Some? then BoundedBranch(Longest(required), taken.value, true) else BoundedBranch(Longest(required), [], false)
  }

  lemma BranchPlanSound(n: Node, required: seq<seq<Byte>>)
    requires Longest(required) != []
    ensures PlannedFor(BranchPlan(n, required), n, required) && BranchPlan(n, required).anchor != []
  {}

  method PlanBranch(n: Node, required: seq<seq<Byte>>) returns (b: BoundedBranch)
    ensures b == BranchPlan(n, required)
  {
    var summary := Offsets(n);
    b := BoundedBranch(Longest(required), [], false);
    if summary.finite && |required| >= 2 {
      var taken := TakeConstraints(required, summary.literals);
      if taken.Some? {
        b := BoundedBranch(b.anchor, taken.value, true);
      }
    }
  }

  /** Constraint intervals are never inverted. */
  lemma {:induction false} OffsetsOrdered(n: Node)
    requires WellFormed(n)
    ensures Offsets(n).minWidth <= Offsets(n).maxWidth
    ensures forall k | 0 <= k < |Offsets(n).literals| ::
      Offsets(n).literals[k].literal != [] && Offsets(n).literals[k].minStart <= Offsets(n).literals[k].maxStart
    decreases n, 0
  {
    match n
    case Group(child, _) => OffsetsOrdered(child);
    case Concat(children) => AllOrdered(children);
    case Alt(children) => EachOrdered(children);
    case Repeat(child, min, max, _) =>
      OffsetsOrdered(child);
      RepeatOrdered(Offsets(child), min, max);
    case _ =>
  }

  lemma RepeatOrdered(part: Summary, min: nat, max: Option<nat>)
    requires part.minWidth <= part.maxWidth && (max.Some? ==> min <= max.value)
    requires forall k | 0 <= k < |part.literals| :: part.literals[k].literal != []
    ensures max.Some? ==> SatMul(part.minWidth, min) <= SatMul(part.maxWidth, max.value)
    ensures forall w: nat, k | 0 <= k < |part.literals| ::
      Anywhere(part.literals, w)[k].literal != [] && Anywhere(part.literals, w)[k].minStart <= Anywhere(part.literals, w)[k].maxStart
  {
    if max.Some? {
      assert part.minWidth * min <= part.maxWidth * min <= part.maxWidth * max.value;
    }
  }

  lemma {:induction false} AllOrdered(ns: seq<Node>)
    requires forall k | 0 <= k < |ns| :: WellFormed(ns[k])
    ensures OffsetsOfAll(ns).minWidth <= OffsetsOfAll(ns).maxWidth
    ensures forall k | 0 <= k < |OffsetsOfAll(ns).literals| ::
      OffsetsOfAll(ns).literals[k].literal != [] && OffsetsOfAll(ns).literals[k].minStart <= OffsetsOfAll(ns).literals[k].maxStart
    decreases ns, 0
  {
    if ns != [] {
      AllOrdered(Front(ns));
      OffsetsOrdered(Last(ns));
      var part, out := Offsets(Last(ns)), OffsetsOfAll(Front(ns));
      assert forall k | 0 <= k < |part.literals| :: Shifted(part.literals, out.minWidth, out.maxWidth)[k].literal == part.literals[k].literal;
    }
  }

  lemma {:induction false} EachOrdered(ns: seq<Node>)
    requires ns != [] && forall k | 0 <= k < |ns| :: WellFormed(ns[k])
    ensures OffsetsOfEach(ns).minWidth <= OffsetsOfEach(ns).maxWidth && OffsetsOfEach(ns).literals == []
    decreases ns, 0
  {
    OffsetsOrdered(Last(ns));
    if |ns| > 1 { EachOrdered(Front(ns)); }
  }

  // ----- all branches -----

  predicate SplitsByBranch(n: Node) {
    SplitLists(n) != [] && |SplitLists(n)| == |TopBranches(n)|
  }

  /** The literals branch `k` is planned with. */
  function Required(n: Node, k: nat): seq<seq<Byte>>
    requires k < |TopBranches(n)|
  {
    if SplitsByBranch(n) then SplitLists(n)[k] else DistinctMandatory(n)
  }

  lemma {:induction false} TopWellFormed(n: Node)
    requires WellFormed(n)
    ensures TopBranches(n) != [] && forall k | 0 <= k < |TopBranches(n)| :: WellFormed(TopBranches(n)[k])
  {
    if n.Group? { TopWellFormed(n.child); }
  }

  lemma SplitAligned(n: Node, k: nat)
    requires WellFormed(n) && k < |TopBranches(n)|
    ensures SplitsByBranch(n) ==> Required(n, k) == Mandatory(TopBranches(n)[k])
    ensures !SplitsByBranch(n) ==> |TopBranches(n)| == 1 && SplitLists(n) == []
  {
    TopWellFormed(n);
    if BranchMandatory(n) != [] {
      BranchListsOf(n);
      ListsAligned(TopBranches(n));
    }
  }

  /** A literal the whole pattern demands, every branch demands. */
  lemma {:induction false} TopMandatory(n: Node, k: nat, q: seq<Byte>)
    requires k < |TopBranches(n)| && q in Mandatory(n)
    ensures q in Mandatory(TopBranches(n)[k])
  {
    if n.Group? {
      TopMandatory(n.child, k, q);
    } else if n.Alt? {
      EachNecessary(n.children, k, q);
    }
  }

  /** The pattern's own literals, or those of each branch, are enough to plan with. */
  predicate Enough(n: Node) {
    DistinctMandatory(n) != [] || (SplitLists(n) != [] && AllLong(SplitLists(n)))
  }

  /** The span holds the anchor, and realises the joined constraints. */
  ghost predicate Demands(b: BoundedBranch, c: Context, i: int, j: int) {
    && InSpan(c, b.anchor, i, j)
    && (b.joined ==> forall k | 0 <= k < |b.constraints| :: Realised(c, b.constraints[k], i, j))
  }

  ghost predicate Usable(b: BoundedBranch) {
    && b.anchor != []
    && (b.joined ==> b.constraints != [] && forall k | 0 <= k < |b.constraints| ::
          b.constraints[k].literal != [] && b.constraints[k].minStart <= b.constraints[k].maxStart)
  }

  /** A match of branch `k` has the literals planned with, and meets any sound plan. */
  lemma BranchDemands(n: Node, k: nat, c: Context, i: int, j: int)
    requires WellFormed(n) && c.Valid() && Enough(n) && k < |TopBranches(n)|
    requires Matches(n, c, i, j) && Matches(TopBranches(n)[k], c, i, j)
    ensures Longest(Required(n, k)) != []
    ensures forall b | PlannedFor(b, TopBranches(n)[k], Required(n, k)) :: Demands(b, c, i, j)
  {
    var branch, required := TopBranches(n)[k], Required(n, k);
    SplitAligned(n, k);
    forall q | q in required ensures q != [] && InSpan(c, q, i, j) {
      if SplitsByBranch(n) {
        MandatoryNecessary(branch, c, i, j, q);
      } else {
        MandatoryNecessary(n, c, i, j, q);
      }
    }
    if DistinctMandatory(n) != [] {
      var q := DistinctMandatory(n)[0];
      assert q in Mandatory(n);
      TopMandatory(n, k, q);
      assert q in required;
    } else {
      assert required[0] in required;
    }
    OffsetsSound(branch, c, i, j);
    forall b | PlannedFor(b, branch, required) ensures Demands(b, c, i, j) {
      if b.joined {
        forall x | 0 <= x < |b.constraints| ensures Realised(c, b.constraints[x], i, j) {
          assert b.constraints[x] in Offsets(branch).literals;
        }
      }
    }
  }

  lemma SoundUsable(b: BoundedBranch, n: Node, required: seq<seq<Byte>>)
    requires WellFormed(n) && PlannedFor(b, n, required) && b.anchor != []
    ensures Usable(b)
  {
    OffsetsOrdered(n);
    if b.joined {
      forall k | 0 <= k < |b.constraints|
        ensures b.constraints[k].literal != [] && b.constraints[k].minStart <= b.constraints[k].maxStart
      {
        assert b.constraints[k] in Offsets(n).literals;
      }
    }
  }

  /** Some entry of the plan was made for branch `m`. */
  ghost predicate BranchPlanned(plan: seq<BoundedBranch>, n: Node, m: nat)
    requires m < |TopBranches(n)|
  {
    exists q :: 0 <= q < |plan| && PlannedFor(plan[q], TopBranches(n)[m], Required(n, m))
  }

  /** Every branch with a literal, among the first `k`, has its entry. */
  ghost predicate AllPlanned(plan: seq<BoundedBranch>, n: Node, k: nat)
    requires k <= |TopBranches(n)|
  {
    && (forall q | 0 <= q < |plan| :: Usable(plan[q]))
    && forall m | 0 <= m < k && Longest(Required(n, m)) != [] :: BranchPlanned(plan, n, m)
  }

  /** The plans of the first `k` branches that have a literal. */
  function PlanUpTo(n: Node, k: nat): seq<BoundedBranch>
    requires k <= |TopBranches(n)|
  {
    if k == 0 then []
    else
      var required := Required(n, k - 1);
      PlanUpTo(n, k - 1) + if Longest(required) != [] then [BranchPlan(TopBranches(n)[k - 1], required)] else []
  }

  function PlanOf(n: Node): seq<BoundedBranch> {
    PlanUpTo(n, |TopBranches(n)|)
  }

  lemma {:induction false} PlanIsUsable(n: Node, k: nat)
    requires WellFormed(n) && k <= |TopBranches(n)|
    ensures AllPlanned(PlanUpTo(n, k), n, k)
  {
    if k > 0 {
      var m: nat := k - 1;
      PlanIsUsable(n, m);
      PlanStep(n, m);
    }
  }

  lemma PlanStep(n: Node, k: nat)
    requires WellFormed(n) && k < |TopBranches(n)| && AllPlanned(PlanUpTo(n, k), n, k)
    ensures AllPlanned(PlanUpTo(n, k + 1), n, k + 1)
  {
    var required, plan := Required(n, k), PlanUpTo(n, k);
    if Longest(required) != [] {
      var b := BranchPlan(TopBranches(n)[k], required);
      BranchPlanSound(TopBranches(n)[k], required);
      PlannedSnoc(plan, b, n, k);
      assert PlanUpTo(n, k + 1) == plan + [b];
    } else {
      PlannedSkip(plan, n, k);
      assert PlanUpTo(n, k + 1) == plan + [] == plan;
    }
  }

  method PlanBranches(n: Node) returns (plan: seq<BoundedBranch>)
    requires WellFormed(n)
    ensures plan == PlanOf(n)
  {
    var branches := TopBranches(n);
    TopWellFormed(n);
    SplitAligned(n, 0);
    var count := if SplitsByBranch(n) then |branches| else 1;
    plan := [];
    for k := 0 to count
      invariant plan == PlanUpTo(n, k)
    {
      plan := AddBranch(n, k, plan);
    }
  }

  /** One more branch, unless it has no literal. */
  method AddBranch(n: Node, k: nat, before: seq<BoundedBranch>) returns (plan: seq<BoundedBranch>)
    requires k < |TopBranches(n)| && before == PlanUpTo(n, k)
    ensures plan == PlanUpTo(n, k + 1)
  {
    plan := before;
    var required := Required(n, k);
    if Longest(required) != [] {
      var b := PlanBranch(TopBranches(n)[k], required);
      plan := plan + [b];
    }
  }

  lemma PlannedSkip(plan: seq<BoundedBranch>, n: Node, k: nat)
    requires k < |TopBranches(n)| && AllPlanned(plan, n, k) && Longest(Required(n, k)) == []
    ensures AllPlanned(plan, n, k + 1)
  {
    forall m | 0 <= m < k + 1 && Longest(Required(n, m)) != [] ensures BranchPlanned(plan, n, m) {
      assert m < k;
    }
  }

  lemma PlannedSnoc(plan: seq<BoundedBranch>, b: BoundedBranch, n: Node, k: nat)
    requires WellFormed(n) && k < |TopBranches(n)| && AllPlanned(plan, n, k)
    requires PlannedFor(b, TopBranches(n)[k], Required(n, k)) && b.anchor != []
    ensures AllPlanned(plan + [b], n, k + 1)
  {
    TopWellFormed(n);
    SoundUsable(b, TopBranches(n)[k], Required(n, k));
    PlannedEntry(plan, b, n, k);
    PlannedMore(plan, b, n, k);
  }

  lemma PlannedEntry(plan: seq<BoundedBranch>, b: BoundedBranch, n: Node, k: nat)
    requires k < |TopBranches(n)| && PlannedFor(b, TopBranches(n)[k], Required(n, k))
    ensures BranchPlanned(plan + [b], n, k)
  {
    assert (plan + [b])[|plan|] == b;
  }

  lemma PlannedMore(plan: seq<BoundedBranch>, b: BoundedBranch, n: Node, k: nat)
    requires k < |TopBranches(n)| && AllPlanned(plan, n, k) && Usable(b) && BranchPlanned(plan + [b], n, k)
    ensures AllPlanned(plan + [b], n, k + 1)
  {
    forall m | 0 <= m < k && Longest(Required(n, m)) != [] ensures BranchPlanned(plan + [b], n, m) { PlannedStays(plan, b, n, m); }
    UsableSnoc(plan, b);
  }

  lemma UsableSnoc(plan: seq<BoundedBranch>, b: BoundedBranch)
    requires Usable(b) && forall q | 0 <= q < |plan| :: Usable(plan[q])
    ensures forall q | 0 <= q < |plan + [b]| :: Usable((plan + [b])[q])
  {
    forall q | 0 <= q < |plan + [b]| ensures Usable((plan + [b])[q]) {
      assert (plan + [b])[q] == if q < |plan| then plan[q] else b;
    }
  }

  lemma PlannedStays(plan: seq<BoundedBranch>, b: BoundedBranch, n: Node, m: nat)
    requires m < |TopBranches(n)| && BranchPlanned(plan, n, m)
    ensures BranchPlanned(plan + [b], n, m)
  {
    var q :| 0 <= q < |plan| && PlannedFor(plan[q], TopBranches(n)[m], Required(n, m));
    assert (plan + [b])[q] == plan[q];
  }

  // ----- the regions of one record -----

  predicate Before(a: Region, b: Region) {
    a.candidateBegin < b.candidateBegin || (a.candidateBegin == b.candidateBegin && a.candidateEnd <= b.candidateEnd)
  }

  function InsertRegion(r: Region, sorted: seq<Region>): (s: seq<Region>)
    ensures forall x :: x in s <==> x == r || x in sorted
    ensures (forall a, b | 0 <= a < b < |sorted| :: Before(sorted[a], sorted[b])) ==> forall a, b | 0 <= a < b < |s| :: Before(s[a], s[b])
  {
    if sorted == [] then [r]
    else if Before(r, sorted[0]) then [r] + sorted
    else
      var rest := InsertRegion(r, sorted[1..]);
      assert forall a | 0 <= a < |rest| :: rest[a] in rest;
      [sorted[0]] + rest
  }

  function SortRegions(regions: seq<Region>): (s: seq<Region>)
    ensures forall x :: x in s <==> x in regions
    ensures forall a, b | 0 <= a < b < |s| :: Before(s[a], s[b])
  {
    if regions == [] then [] else InsertRegion(regions[0], SortRegions(regions[1..]))
  }

  /** What the branch asks of a span, read off the bytes of the record. */
  ghost predicate Asked(b: BoundedBranch, record: seq<Byte>, recordBegin: nat, i: int, j: int) {
    if b.joined then forall k | 0 <= k < |b.constraints| :: Allows(record, recordBegin, b.constraints[k], i)
    else exists p :: OccursAt(record, b.anchor, p) && i <= recordBegin + p && recordBegin + p + |b.anchor| <= j
  }

  function BranchRegions(b: BoundedBranch, record: seq<Byte>, recordBegin: nat, recordEnd: nat, a: Analysis): seq<Region>
    requires recordEnd == recordBegin + |record| && a.byteUpper.Finite? && a.ahead.Finite? && a.behind.Finite?
  {
    if b.joined then RegionsJoined(record, recordBegin, recordEnd, b.constraints, a.byteUpper.value, a.ahead.value, a.behind.value)
    else RegionsAround(record, recordBegin, recordEnd, b.anchor, a.byteUpper.value, a.ahead.value)
  }

  /** The regions of all branches. */
  function PlanRegions(plan: seq<BoundedBranch>, record: seq<Byte>, recordBegin: nat, recordEnd: nat, a: Analysis): seq<Region>
    requires recordEnd == recordBegin + |record| && a.byteUpper.Finite? && a.ahead.Finite? && a.behind.Finite?
  {
    if plan == [] then []
    else PlanRegions(Front(plan), record, recordBegin, recordEnd, a) + BranchRegions(Last(plan), record, recordBegin, recordEnd, a)
  }

  method PlanRecord(plan: seq<BoundedBranch>, record: seq<Byte>, recordBegin: nat, recordEnd: nat, a: Analysis) returns (merged: seq<Region>)
    requires recordEnd == recordBegin + |record| && a.byteUpper.Finite? && a.ahead.Finite? && a.behind.Finite?
    ensures merged == MergeAll(SortRegions(PlanRegions(plan, record, recordBegin, recordEnd, a)))
  {
    var regions: seq<Region> := [];
    for k := 0 to |plan|
      invariant regions == PlanRegions(plan[..k], record, recordBegin, recordEnd, a)
    {
      var b := plan[k];
      var more;
      if b.joined {
        more := JoinedRegions(record, recordBegin, recordEnd, b.constraints, a.byteUpper.value, a.ahead.value, a.behind.value);
      } else {
        more := LiteralRegions(record, recordBegin, recordEnd, b.anchor, a.byteUpper.value, a.ahead.value);
      }
      assert Front(plan[..k + 1]) == plan[..k];
      regions := regions + more;
    }
    assert plan[..|plan|] == plan;
    merged := Merged(SortRegions(regions));
  }

  /** What a branch asks for, its regions cover. */
  lemma BranchRegionsCover(b: BoundedBranch, record: seq<Byte>, recordBegin: nat, recordEnd: nat, a: Analysis)
    requires recordEnd == recordBegin + |record| && recordEnd < U64_MAX && Usable(b)
    requires a.byteUpper.Finite? && a.ahead.Finite? && a.behind.Finite?
    ensures AllWithin(BranchRegions(b, record, recordBegin, recordEnd, a), recordBegin, recordEnd)
    ensures forall i, j | Asked(b, record, recordBegin, i, j) && recordBegin <= i < j <= recordEnd && j <= i + a.byteUpper.value ::
      Covered(BranchRegions(b, record, recordBegin, recordEnd, a), i, j)
  {
    var more := BranchRegions(b, record, recordBegin, recordEnd, a);
    if b.joined {
      RegionsJoinedCover(record, recordBegin, recordEnd, b.constraints, a.byteUpper.value, a.ahead.value, a.behind.value);
    } else {
      RegionsAroundCover(record, recordBegin, recordEnd, b.anchor, a.byteUpper.value, a.ahead.value);
      forall i, j | Asked(b, record, recordBegin, i, j) && recordBegin <= i < j <= recordEnd && j <= i + a.byteUpper.value
        ensures Covered(more, i, j)
      {
        var p :| OccursAt(record, b.anchor, p) && i <= recordBegin + p && recordBegin + p + |b.anchor| <= j;
        assert Around(recordBegin, recordEnd, b.anchor, a.byteUpper.value, p, i, j);
      }
    }
  }

  /** No span that any branch asks for is lost. */
  lemma {:induction false} PlanRegionsCover(plan: seq<BoundedBranch>, record: seq<Byte>, recordBegin: nat, recordEnd: nat, a: Analysis, k: nat)
    requires recordEnd == recordBegin + |record| && recordEnd < U64_MAX && k < |plan| && forall m | 0 <= m < |plan| :: Usable(plan[m])
    requires a.byteUpper.Finite? && a.ahead.Finite? && a.behind.Finite?
    ensures AllWithin(PlanRegions(plan, record, recordBegin, recordEnd, a), recordBegin, recordEnd)
    ensures forall i, j | Asked(plan[k], record, recordBegin, i, j) && recordBegin <= i < j <= recordEnd && j <= i + a.byteUpper.value ::
      Covered(PlanRegions(plan, record, recordBegin, recordEnd, a), i, j)
    decreases |plan|
  {
    var before, more := PlanRegions(Front(plan), record, recordBegin, recordEnd, a), BranchRegions(Last(plan), record, recordBegin, recordEnd, a);
    BranchRegionsCover(Last(plan), record, recordBegin, recordEnd, a);
    if |plan| > 1 {
      PlanRegionsCover(Front(plan), record, recordBegin, recordEnd, a, if k < |plan| - 1 then k else 0);
    }
    CoveredAppend(before, more);
  }

  lemma CoveredAppend(a: seq<Region>, b: seq<Region>)
    ensures forall i, j :: Covered(a, i, j) || Covered(b, i, j) ==> Covered(a + b, i, j)
  {
    forall i, j | Covered(a, i, j) || Covered(b, i, j) ensures Covered(a + b, i, j) {
      if k :| 0 <= k < |a| && Covers(a[k], i, j) {
        assert Covers((a + b)[k], i, j);
      } else {
        var k :| 0 <= k < |b| && Covers(b[k], i, j);
        assert Covers((a + b)[|a| + k], i, j);
      }
    }
  }

  lemma CoveredSorted(regions: seq<Region>)
    ensures forall i, j :: Covered(regions, i, j) ==> Covered(SortRegions(regions), i, j)
  {
    forall i, j | Covered(regions, i, j) ensures Covered(SortRegions(regions), i, j) {
      var k :| 0 <= k < |regions| && Covers(regions[k], i, j);
      assert regions[k] in SortRegions(regions);
    }
  }

  /** A span that meets a branch's demands asks for it on the record's bytes. */
  lemma DemandsAsked(b: BoundedBranch, c: Context, i: int, j: int)
    requires c.Valid() && Usable(b) && Demands(b, c, i, j)
    ensures Asked(b, Slice(c, c.recordBegin, c.recordEnd), c.recordBegin, i, j) && i < j
  {
    var record := Slice(c, c.recordBegin, c.recordEnd);
    var p :| i <= p && p + |b.anchor| <= j && LiteralAt(c, b.anchor, false, p);
    InRecordSlice(c, b.anchor, p);
    if b.joined {
      forall k | 0 <= k < |b.constraints| ensures Allows(record, c.recordBegin, b.constraints[k], i) {
        var q := b.constraints[k];
        var at :| i + q.minStart <= at <= i + q.maxStart && at + |q.literal| <= j && LiteralAt(c, q.literal, false, at);
        InRecordSlice(c, q.literal, at);
        assert c.recordBegin + (at - c.recordBegin) == at;
      }
    } else {
      assert i <= c.recordBegin + (p - c.recordBegin);
    }
  }

  lemma InRecordSlice(c: Context, q: seq<Byte>, p: int)
    requires c.Valid() && q != [] && LiteralAt(c, q, false, p)
    ensures OccursAt(Slice(c, c.recordBegin, c.recordEnd), q, p - c.recordBegin)
  {
    LiteralOccurs(c, q, p);
    SliceOfSlice(c.source, c.recordBegin - c.sourceBegin, c.recordEnd - c.sourceBegin, p - c.recordBegin, p - c.recordBegin + |q|);
  }

  /** The regions of one record. */
  function RegionsIn(n: Node, c: Context): seq<Region>
    requires c.Valid() && Plannable(n)
  {
    MergeAll(SortRegions(PlanRegions(PlanOf(n), Slice(c, c.recordBegin, c.recordEnd), c.recordBegin, c.recordEnd, Analyze(n))))
  }

  /** Region planning loses no match: for an eligible pattern, every match in the
      record starts in the candidate interval of a region that holds all of it. */
  lemma RegionsCover(n: Node, c: Context, i: int, j: int)
    requires WellFormed(n) && c.Valid() && Plannable(n) && Matches(n, c, i, j)
    ensures i < j && Covered(RegionsIn(n, c), i, j)
  {
    PlanIsUsable(n, |TopBranches(n)|);
    var q := AskedByPlan(n, c, i, j);
    var plan, record := PlanOf(n), Slice(c, c.recordBegin, c.recordEnd);
    WidthSound(n, c, i, j);
    MatchSpan(n, c, i, j);
    PlanRegionsCover(plan, record, c.recordBegin, c.recordEnd, Analyze(n), q);
    var regions := PlanRegions(plan, record, c.recordBegin, c.recordEnd, Analyze(n));
    CoveredSorted(regions);
    MergeAllCovers(SortRegions(regions), i, j);
  }

  /** Every match is asked for by some entry of the plan. */
  lemma AskedByPlan(n: Node, c: Context, i: int, j: int) returns (q: nat)
    requires WellFormed(n) && c.Valid() && Enough(n) && Matches(n, c, i, j) && AllPlanned(PlanOf(n), n, |TopBranches(n)|)
    ensures q < |PlanOf(n)| && Asked(PlanOf(n)[q], Slice(c, c.recordBegin, c.recordEnd), c.recordBegin, i, j) && i < j
  {
    var plan := PlanOf(n);
    var k := BranchMatches(n, c, i, j);
    BranchDemands(n, k, c, i, j);
    assert BranchPlanned(plan, n, k);
    q :| 0 <= q < |plan| && PlannedFor(plan[q], TopBranches(n)[k], Required(n, k));
    DemandsAsked(plan[q], c, i, j);
  }

  /** The regions lie in the record, and their windows are apart. */
  lemma RegionsWithin(n: Node, c: Context)
    requires WellFormed(n) && c.Valid() && Plannable(n)
    ensures AllWithin(RegionsIn(n, c), c.recordBegin, c.recordEnd) && Separated(RegionsIn(n, c))
  {
    var plan, record := PlanOf(n), Slice(c, c.recordBegin, c.recordEnd);
    var regions := PlanRegions(plan, record, c.recordBegin, c.recordEnd, Analyze(n));
    PlanIsUsable(n, |TopBranches(n)|);
    if plan != [] { PlanRegionsCover(plan, record, c.recordBegin, c.recordEnd, Analyze(n), 0); }
    SortedWithin(regions, c.recordBegin, c.recordEnd);
    MergeAllWithin(SortRegions(regions), c.recordBegin, c.recordEnd);
    MergeAllSeparated(SortRegions(regions));
  }

  lemma SortedWithin(regions: seq<Region>, recordBegin: int, recordEnd: int)
    requires AllWithin(regions, recordBegin, recordEnd)
    ensures AllWithin(SortRegions(regions), recordBegin, recordEnd)
  {
    forall k | 0 <= k < |SortRegions(regions)| ensures Within(SortRegions(regions)[k], recordBegin, recordEnd) {
      assert SortRegions(regions)[k] in regions;
    }
  }

  /** What the merged regions try, the regions of some branch try. */
  lemma RegionsTry(n: Node, c: Context, x: int) returns (k: nat)
    requires WellFormed(n) && c.Valid() && Plannable(n) && Tried(RegionsIn(n, c), x)
    ensures k < |PlanOf(n)| && Usable(PlanOf(n)[k])
    ensures Tried(BranchRegions(PlanOf(n)[k], Slice(c, c.recordBegin, c.recordEnd), c.recordBegin, c.recordEnd, Analyze(n)), x)
  {
    var record := Slice(c, c.recordBegin, c.recordEnd);
    var regions := PlanRegions(PlanOf(n), record, c.recordBegin, c.recordEnd, Analyze(n));
    PlanIsUsable(n, |TopBranches(n)|);
    MergeAllTries(SortRegions(regions), x);
    var i :| 0 <= i < |SortRegions(regions)| && SortRegions(regions)[i].candidateBegin <= x < SortRegions(regions)[i].candidateEnd;
    assert SortRegions(regions)[i] in regions;
    k := PlanTries(PlanOf(n), record, c.recordBegin, c.recordEnd, Analyze(n), x);
  }

  lemma {:induction false} PlanTries(plan: seq<BoundedBranch>, record: seq<Byte>, recordBegin: nat, recordEnd: nat, a: Analysis, x: int) returns (k: nat)
    requires recordEnd == recordBegin + |record| && a.byteUpper.Finite? && a.ahead.Finite? && a.behind.Finite?
    requires Tried(PlanRegions(plan, record, recordBegin, recordEnd, a), x)
    ensures k < |plan| && Tried(BranchRegions(plan[k], record, recordBegin, recordEnd, a), x)
    decreases |plan|
  {
    TriedMore(PlanRegions(Front(plan), record, recordBegin, recordEnd, a), BranchRegions(Last(plan), record, recordBegin, recordEnd, a), x);
    if Tried(PlanRegions(Front(plan), record, recordBegin, recordEnd, a), x) {
      k := PlanTries(Front(plan), record, recordBegin, recordEnd, a, x);
    } else {
      k := |plan| - 1;
    }
  }

  /** The branch is joined, and one of its constraints does not allow `x`. */
  ghost predicate Refuses(b: BoundedBranch, record: seq<Byte>, recordBegin: nat, x: int) {
    b.joined && exists i :: 0 <= i < |b.constraints| && !Allows(record, recordBegin, b.constraints[i], x)
  }

  /** A start that every branch refuses is not tried. */
  lemma RefusedNotTried(n: Node, c: Context, x: int)
    requires WellFormed(n) && c.Valid() && Plannable(n)
    requires forall k | 0 <= k < |PlanOf(n)| :: Refuses(PlanOf(n)[k], Slice(c, c.recordBegin, c.recordEnd), c.recordBegin, x)
    ensures !Tried(RegionsIn(n, c), x)
  {
    if Tried(RegionsIn(n, c), x) {
      var k := RegionsTry(n, c, x);
      BranchTries(PlanOf(n)[k], Slice(c, c.recordBegin, c.recordEnd), c.recordBegin, c.recordEnd, Analyze(n), x);
    }
  }

  lemma OneRefuses(n: Node, c: Context, b: BoundedBranch, x: int)
    requires WellFormed(n) && c.Valid() && Plannable(n) && PlanOf(n) == [b]
    requires Refuses(b, Slice(c, c.recordBegin, c.recordEnd), c.recordBegin, x)
    ensures !Tried(RegionsIn(n, c), x)
  {
    RefusedNotTried(n, c, x);
  }

  lemma BranchTries(b: BoundedBranch, record: seq<Byte>, recordBegin: nat, recordEnd: nat, a: Analysis, x: int)
    requires recordEnd == recordBegin + |record| && recordEnd < U64_MAX && Usable(b) && b.joined
    requires a.byteUpper.Finite? && a.ahead.Finite? && a.behind.Finite?
    requires Tried(BranchRegions(b, record, recordBegin, recordEnd, a), x)
    ensures !Refuses(b, record, recordBegin, x)
  {
    RegionsJoinedTry(record, recordBegin, recordEnd, b.constraints, a.byteUpper.value, a.ahead.value, a.behind.value, x);
  }

  method RegionsOf(n: Node, c: Context, plan: seq<BoundedBranch>) returns (regions: seq<Region>)
    requires c.Valid() && Plannable(n) && plan == PlanOf(n)
    ensures regions == RegionsIn(n, c)
  {
    regions := PlanRecord(plan, Slice(c, c.recordBegin, c.recordEnd), c.recordBegin, c.recordEnd, Analyze(n));
  }
}
