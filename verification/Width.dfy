/** Width analysis: how few and how many units a match can cover, whether it can be
    empty, and at which offsets from its start a literal must stand. */
module Width {
  import opened Basics
  import opened RegexAst
  import opened EvalVm


  // ----- bounds under 64-bit arithmetic -----

  datatype Bound = Finite(value: nat) | Unknown | Unbounded

  function AddBound(a: Bound, b: Bound): Bound {
    if a.Unbounded? || b.Unbounded? then Unbounded
    else if a.Unknown? || b.Unknown? then Unknown
    else if a.value > U64_MAX - b.value then Unbounded
    else Finite(a.value + b.value)
  }

  function MulBound(a: Bound, n: nat): Bound {
    if n == 0 then Finite(0)
    else if a.Unbounded? then Unbounded
    else if a.Unknown? then Unknown
    else if a.value > U64_MAX / n then Unbounded
    else Finite(a.value * n)
  }

  function MaxBound(a: Bound, b: Bound): Bound {
    if a.Unbounded? || b.Unbounded? then Unbounded
    else if a.Unknown? || b.Unknown? then Unknown
    else Finite(Max(a.value, b.value))
  }

  function MinBound(a: Bound, b: Bound): Bound {
    if !a.Finite? || !b.Finite? then Unknown else Finite(Min(a.value, b.value))
  }

  /** A finite bound is one; the other states claim nothing. */
  predicate AtLeast(b: Bound, w: int) {
    b.Finite? ==> b.value <= w
  }

  predicate AtMost(b: Bound, w: int) {
    b.Finite? ==> w <= b.value
  }

  lemma MulLower(b: Bound, n: nat, k: nat, w: int)
    requires n <= k && (b.Finite? ==> b.value * k <= w) && 0 <= w
    ensures AtLeast(MulBound(b, n), w)
  {
    if b.Finite? && n > 0 { assert b.value * n <= b.value * k; }
  }

  lemma MulUpper(b: Bound, n: nat, k: nat, w: int)
    requires k <= n && (k == 0 ==> w <= 0) && (b.Finite? ==> w <= b.value * k)
    ensures AtMost(MulBound(b, n), w)
  {
    if b.Finite? && n > 0 { assert b.value * k <= b.value * n; }
  }

  // ----- the analysis -----

  datatype Analysis = Analysis(
    byteLower: Bound,
    byteUpper: Bound,
    runeLower: Bound,
    runeUpper: Bound,
    ahead: Bound,
    behind: Bound,
    nullable: bool,
    nullableKnown: bool,
    unboundedRepeat: bool,
    repeatLimit: bool)

  const ZERO: Analysis :=
    Analysis(Finite(0), Finite(0), Finite(0), Finite(0), Finite(0), Finite(0), false, true, false, false)

  /** Context needs and limits accumulate; widths do not. */
  function Merge(d: Analysis, s: Analysis): Analysis {
    d.(ahead := MaxBound(d.ahead, s.ahead), behind := MaxBound(d.behind, s.behind),
       unboundedRepeat := d.unboundedRepeat || s.unboundedRepeat, repeatLimit := d.repeatLimit || s.repeatLimit)
  }

  function OfAssertion(a: Assertion): Analysis {
    var o := ZERO.(nullable := true);
    match a
    case LineBegin(_) => o.(behind := Finite(1))
    case LineEnd(_, crlf) => o.(ahead := Finite(if crlf then 2 else 1))
    case EndNewline(crlf) => o.(ahead := Finite(if crlf then 2 else 1))
    case WordBoundary(_, _) => o.(behind := Finite(4), ahead := Finite(4))
    case WordStartHalf(_) => o.(behind := Finite(4))
    case WordEndHalf(_) => o.(ahead := Finite(4))
    case _ => o
  }

  const ONE_UNIT: Analysis := ZERO.(byteLower := Finite(1), byteUpper := Finite(4), runeLower := Finite(1), runeUpper := Finite(1))

  function Analyze(n: Node): Analysis
    decreases n, 0
  {
    match n
    case Empty => ZERO.(nullable := true)
    case Literal(text, icase) =>
      ZERO.(runeLower := Finite(|text|), runeUpper := Finite(|text|),
            byteLower := if icase then Unknown else Finite(|text|),
            byteUpper := if icase then Unknown else Finite(|text|),
            nullable := text == [])
    case Dot(_) => ONE_UNIT
    case Class(_) => ONE_UNIT
    case Assert(a) => OfAssertion(a)
    case Group(child, _) => Analyze(child)
    case Concat(children) => AnalyzeAll(children)
    case Alt(children) => if children == [] then ZERO.(nullable := true) else AnalyzeEach(children)
    case Repeat(child, min, max, _) =>
      var c := Analyze(child);
      var over := max.Some? && max.value > MAX_ROUNDS;
      Merge(ZERO, c).(
        nullable := min == 0 || c.nullable, nullableKnown := c.nullableKnown,
        byteLower := MulBound(c.byteLower, min), runeLower := MulBound(c.runeLower, min),
        byteUpper := if max.None? then Unbounded else MulBound(c.byteUpper, max.value),
        runeUpper := if max.None? then Unbounded else MulBound(c.runeUpper, max.value),
        unboundedRepeat := c.unboundedRepeat || max.None?,
        repeatLimit := c.repeatLimit || max.None? || over)
  }

  function AnalyzeAll(ns: seq<Node>): Analysis
    decreases ns, 0
  {
    if ns == [] then ZERO.(nullable := true)
    else
      var o, c := AnalyzeAll(Front(ns)), Analyze(Last(ns));
      Merge(o, c).(
        byteLower := AddBound(o.byteLower, c.byteLower), byteUpper := AddBound(o.byteUpper, c.byteUpper),
        runeLower := AddBound(o.runeLower, c.runeLower), runeUpper := AddBound(o.runeUpper, c.runeUpper),
        nullable := o.nullable && c.nullable, nullableKnown := o.nullableKnown && c.nullableKnown)
  }

  function AnalyzeEach(ns: seq<Node>): Analysis
    requires ns != []
    decreases ns, 0
  {
    var c := Analyze(Last(ns));
    if |ns| == 1 then
      Merge(ZERO, c).(byteLower := c.byteLower, byteUpper := c.byteUpper, runeLower := c.runeLower, runeUpper := c.runeUpper,
                      nullable := c.nullable, nullableKnown := c.nullableKnown)
    else
      var o := AnalyzeEach(Front(ns));
      Merge(o, c).(
        byteLower := MinBound(o.byteLower, c.byteLower), byteUpper := MaxBound(o.byteUpper, c.byteUpper),
        runeLower := MinBound(o.runeLower, c.runeLower), runeUpper := MaxBound(o.runeUpper, c.runeUpper),
        nullable := o.nullable || c.nullable, nullableKnown := o.nullableKnown && c.nullableKnown)
  }

  /** A width the analysis admits. */
  predicate AdmitsWidth(a: Analysis, w: int) {
    && AtLeast(a.byteLower, w) && AtMost(a.byteUpper, w)
    && AtLeast(a.runeLower, w) && AtMost(a.runeUpper, w)
    && (a.nullableKnown && !a.nullable ==> 0 < w)
  }

  /** Every match has a width the analysis admits. */
  lemma {:induction false} WidthSound(n: Node, c: Context, i: int, j: int)
    requires Matches(n, c, i, j)
    ensures AdmitsWidth(Analyze(n), j - i)
    decreases n, 0
  {
    MatchSpan(n, c, i, j);
    match n
    case Group(child, _) => WidthSound(child, c, i, j);
    case Concat(children) => WidthSoundAll(children, c, i, j);
    case Alt(children) =>
      var k :| 0 <= k < |children| && Matches(children[k], c, i, j);
      WidthSound(children[k], c, i, j);
      EachAdmits(children, k, j - i);
    case Repeat(child, min, max, _) =>
      var k: nat :| min <= k && (max.Some? ==> k <= max.value) && Times(child, k, c, i, j);
      WidthSoundTimes(child, k, c, i, j);
      var a := Analyze(child);
      MulLower(a.byteLower, min, k, j - i);
      MulLower(a.runeLower, min, k, j - i);
      if max.Some? {
        MulUpper(a.byteUpper, max.value, k, j - i);
        MulUpper(a.runeUpper, max.value, k, j - i);
      }
    case _ =>
  }

  lemma {:induction false} WidthSoundAll(ns: seq<Node>, c: Context, i: int, j: int)
    requires MatchesAll(ns, c, i, j)
    ensures AdmitsWidth(AnalyzeAll(ns), j - i)
    decreases ns, 0
  {
    if ns != [] {
      var m :| MatchesAll(Front(ns), c, i, m) && Matches(Last(ns), c, m, j);
      MatchAllSpan(Front(ns), c, i, m);
      MatchSpan(Last(ns), c, m, j);
      WidthSoundAll(Front(ns), c, i, m);
      WidthSound(Last(ns), c, m, j);
    }
  }

  /** What one branch admits, the alternation admits. */
  lemma {:induction false} EachAdmits(ns: seq<Node>, k: nat, w: int)
    requires k < |ns| && AdmitsWidth(Analyze(ns[k]), w)
    ensures AdmitsWidth(AnalyzeEach(ns), w)
    decreases |ns|
  {
    if |ns| > 1 && k < |ns| - 1 { EachAdmits(Front(ns), k, w); }
  }

  lemma {:induction false} WidthSoundTimes(n: Node, k: nat, c: Context, i: int, j: int)
    requires Times(n, k, c, i, j)
    ensures
      var a := Analyze(n);
      && (a.byteLower.Finite? ==> a.byteLower.value * k <= j - i)
      && (a.byteUpper.Finite? ==> j - i <= a.byteUpper.value * k)
      && (a.runeLower.Finite? ==> a.runeLower.value * k <= j - i)
      && (a.runeUpper.Finite? ==> j - i <= a.runeUpper.value * k)
      && (k > 0 && a.nullableKnown && !a.nullable ==> i < j)
    decreases n, 1, k
  {
    TimesSpan(n, k, c, i, j);
    if k > 0 {
      var m := TimesLast(n, k, c, i, j);
      TimesSpan(n, k - 1, c, i, m);
      WidthSoundTimes(n, k - 1, c, i, m);
      WidthSound(n, c, m, j);
      var a := Analyze(n);
      forall v: nat ensures v * (k - 1) + v == v * k {}
    }
  }

  /** The check a caller can make on the tree: no mandatory repeat has a body that the
      analysis calls nullable. */
  predicate SolidBodies(n: Node) {
    match n
    case Group(child, _) => SolidBodies(child)
    case Concat(children) => forall k | 0 <= k < |children| :: SolidBodies(children[k])
    case Alt(children) => forall k | 0 <= k < |children| :: SolidBodies(children[k])
    case Repeat(child, min, _, _) =>
      SolidBodies(child) && (min > 0 ==> Analyze(child).nullableKnown && !Analyze(child).nullable)
    case _ => true
  }

  /** It makes the second engine exact. */
  lemma {:induction false} SolidIsEmptyFree(n: Node, c: Context)
    requires SolidBodies(n)
    ensures EmptyFree(n, c)
  {
    match n
    case Group(child, _) => SolidIsEmptyFree(child, c);
    case Concat(children) => forall k | 0 <= k < |children| { SolidIsEmptyFree(children[k], c); }
    case Alt(children) => forall k | 0 <= k < |children| { SolidIsEmptyFree(children[k], c); }
    case Repeat(child, min, _, _) =>
      SolidIsEmptyFree(child, c);
      if min > 0 {
        forall p | c.recordBegin <= p <= c.recordEnd ensures !Matches(child, c, p, p) {
          if Matches(child, c, p, p) { WidthSound(child, c, p, p); }
        }
      }
    case _ =>
  }

  // ----- literals and their offsets -----

  datatype Constraint = Constraint(literal: seq<Byte>, minStart: nat, maxStart: nat)

  datatype Summary = Summary(minWidth: nat, maxWidth: nat, finite: bool, literals: seq<Constraint>)

  const NO_WIDTH: Summary := Summary(0, 0, true, [])

  function SatAdd(a: nat, b: nat): nat {
    Min(U64_MAX, a + b)
  }

  function SatMul(a: nat, b: nat): nat {
    Min(U64_MAX, a * b)
  }

  function Offsets(n: Node): Summary
    decreases n, 0
  {
    match n
    case Literal(text, icase) =>
      Summary(|text|, |text|, true, if text != [] && !icase then [Constraint(text, 0, 0)] else [])
    case Dot(_) => Summary(1, 4, true, [])
    case Class(_) => Summary(1, 4, true, [])
    case Group(child, _) => Offsets(child)
    case Concat(children) => OffsetsOfAll(children)
    case Alt(children) => if children == [] then NO_WIDTH else OffsetsOfEach(children)
    case Repeat(child, min, max, _) =>
      var part := Offsets(child);
      var maxWidth := if max.None? then U64_MAX else SatMul(part.maxWidth, max.value);
      Summary(SatMul(part.minWidth, min), maxWidth, part.finite && max.Some?,
        if min == 0 || max.None? then [] else Anywhere(part.literals, maxWidth))
    case _ => NO_WIDTH
  }

  function OffsetsOfAll(ns: seq<Node>): Summary
    decreases ns, 0
  {
    if ns == [] then NO_WIDTH
    else
      var out, part := OffsetsOfAll(Front(ns)), Offsets(Last(ns));
      Summary(SatAdd(out.minWidth, part.minWidth), SatAdd(out.maxWidth, part.maxWidth), out.finite && part.finite,
        out.literals + Shifted(part.literals, out.minWidth, out.maxWidth))
  }

  function OffsetsOfEach(ns: seq<Node>): Summary
    requires ns != []
    decreases ns, 0
  {
    var part := Offsets(Last(ns));
    if |ns| == 1 then Summary(part.minWidth, part.maxWidth, part.finite, [])
    else
      var out := OffsetsOfEach(Front(ns));
      Summary(Min(out.minWidth, part.minWidth), Max(out.maxWidth, part.maxWidth), out.finite && part.finite, [])
  }

  function Shifted(literals: seq<Constraint>, low: nat, high: nat): (r: seq<Constraint>)
    ensures |r| == |literals|
  {
    seq(|literals|, k requires 0 <= k < |literals| =>
      Constraint(literals[k].literal, SatAdd(low, literals[k].minStart), SatAdd(high, literals[k].maxStart)))
  }

  function Anywhere(literals: seq<Constraint>, maxWidth: nat): (r: seq<Constraint>)
    ensures |r| == |literals|
  {
    seq(|literals|, k requires 0 <= k < |literals| =>
      Constraint(literals[k].literal, 0, if maxWidth > |literals[k].literal| then maxWidth - |literals[k].literal| else 0))
  }

  /** The literal stands inside [i, j) at an offset from `i` within the constraint. */
  ghost predicate Realised(c: Context, q: Constraint, i: int, j: int) {
    exists p :: i + q.minStart <= p <= i + q.maxStart && p + |q.literal| <= j && LiteralAt(c, q.literal, false, p)
  }

  ghost predicate Realises(c: Context, s: Summary, i: int, j: int) {
    s.minWidth <= j - i <= s.maxWidth && forall k | 0 <= k < |s.literals| :: Realised(c, s.literals[k], i, j)
  }

  /** Every match realises every constraint of its tree's summary. */
  lemma {:induction false} OffsetsSound(n: Node, c: Context, i: int, j: int)
    requires c.Valid() && Matches(n, c, i, j)
    ensures Realises(c, Offsets(n), i, j)
    decreases n, 0
  {
    MatchSpan(n, c, i, j);
    match n
    case Literal(text, icase) =>
      if text != [] && !icase {
        assert i + 0 <= i <= i + 0 && LiteralAt(c, text, false, i);
      }
    case Group(child, _) => OffsetsSound(child, c, i, j);
    case Concat(children) => OffsetsSoundAll(children, c, i, j);
    case Alt(children) =>
      var k :| 0 <= k < |children| && Matches(children[k], c, i, j);
      OffsetsSound(children[k], c, i, j);
      EachFits(children, k, j - i);
    case Repeat(child, min, max, greedy) => OffsetsSoundRepeat(child, min, max, greedy, c, i, j);
    case _ =>
  }

  lemma {:induction false} OffsetsSoundAll(ns: seq<Node>, c: Context, i: int, j: int)
    requires c.Valid() && MatchesAll(ns, c, i, j)
    ensures Realises(c, OffsetsOfAll(ns), i, j)
    decreases ns, 0
  {
    MatchAllSpan(ns, c, i, j);
    if ns != [] {
      var m :| MatchesAll(Front(ns), c, i, m) && Matches(Last(ns), c, m, j);
      MatchAllSpan(Front(ns), c, i, m);
      MatchSpan(Last(ns), c, m, j);
      OffsetsSoundAll(Front(ns), c, i, m);
      OffsetsSound(Last(ns), c, m, j);
      var out, part := OffsetsOfAll(Front(ns)), Offsets(Last(ns));
      var shifted := Shifted(part.literals, out.minWidth, out.maxWidth);
      forall k | 0 <= k < |out.literals| ensures Realised(c, out.literals[k], i, j) {
        var q := out.literals[k];
        var p :| i + q.minStart <= p <= i + q.maxStart && p + |q.literal| <= m && LiteralAt(c, q.literal, false, p);
      }
      forall k | 0 <= k < |shifted| ensures Realised(c, shifted[k], i, j) {
        ShiftRealised(c, part.literals[k], out.minWidth, out.maxWidth, i, m, j);
      }
    }
  }

  lemma ShiftRealised(c: Context, q: Constraint, low: nat, high: nat, i: int, m: int, j: int)
    requires c.Valid() && low <= m - i <= high && i <= m && Realised(c, q, m, j)
    requires m <= j && (i < j ==> 0 <= i && j <= c.recordEnd)
    ensures Realised(c, Constraint(q.literal, SatAdd(low, q.minStart), SatAdd(high, q.maxStart)), i, j)
  {
    var p :| m + q.minStart <= p <= m + q.maxStart && p + |q.literal| <= j && LiteralAt(c, q.literal, false, p);
    assert i + SatAdd(low, q.minStart) <= p <= i + SatAdd(high, q.maxStart);
  }

  lemma {:induction false} EachFits(ns: seq<Node>, k: nat, w: int)
    requires k < |ns| && Offsets(ns[k]).minWidth <= w <= Offsets(ns[k]).maxWidth
    ensures OffsetsOfEach(ns).minWidth <= w <= OffsetsOfEach(ns).maxWidth && OffsetsOfEach(ns).literals == []
    decreases |ns|
  {
    if |ns| > 1 {
      if k < |ns| - 1 {
        EachFits(Front(ns), k, w);
      } else {
        assert OffsetsOfEach(ns).literals == [];
      }
    }
  }

  lemma {:induction false} TimesWidth(n: Node, k: nat, c: Context, i: int, j: int)
    requires c.Valid() && Times(n, k, c, i, j)
    ensures Offsets(n).minWidth * k <= j - i <= Offsets(n).maxWidth * k
    decreases n, 1, k
  {
    if k > 0 {
      var m := TimesLast(n, k, c, i, j);
      TimesWidth(n, k - 1, c, i, m);
      OffsetsSound(n, c, m, j);
      forall v: nat ensures v * (k - 1) + v == v * k {}
    }
  }

  lemma {:induction false} OffsetsSoundRepeat(child: Node, min: nat, max: Option<nat>, greedy: bool, c: Context, i: int, j: int)
    requires c.Valid() && Matches(Repeat(child, min, max, greedy), c, i, j)
    ensures Realises(c, Offsets(Repeat(child, min, max, greedy)), i, j)
    decreases child, 2
  {
    var k: nat :| min <= k && (max.Some? ==> k <= max.value) && Times(child, k, c, i, j);
    var out := Offsets(Repeat(child, min, max, greedy));
    TimesSpan(child, k, c, i, j);
    TimesWidth(child, k, c, i, j);
    ProductsOrdered(Offsets(child), min, k, max);
    if out.literals != [] {
      var m := TimesSplit(child, 1, k - 1, c, i, j);
      TimesSpan(child, k - 1, c, m, j);
      OffsetsSound(child, c, i, m);
      AnywhereRealised(c, Offsets(child).literals, out.maxWidth, i, m, j);
    }
  }

  lemma ProductsOrdered(s: Summary, min: nat, k: nat, max: Option<nat>)
    requires min <= k && (max.Some? ==> k <= max.value)
    ensures s.minWidth * min <= s.minWidth * k
    ensures max.Some? ==> s.maxWidth * k <= s.maxWidth * max.value
  {
  }

  /** A literal of the first copy lies somewhere in the whole repeat. */
  lemma AnywhereRealised(c: Context, literals: seq<Constraint>, maxWidth: nat, i: int, m: int, j: int)
    requires m <= j && j - i <= maxWidth && forall k | 0 <= k < |literals| :: Realised(c, literals[k], i, m)
    ensures forall k | 0 <= k < |literals| :: Realised(c, Anywhere(literals, maxWidth)[k], i, j)
  {
    forall k | 0 <= k < |literals| ensures Realised(c, Anywhere(literals, maxWidth)[k], i, j) {
      var q, r := literals[k], Anywhere(literals, maxWidth)[k];
      var p :| i + q.minStart <= p <= i + q.maxStart && p + |q.literal| <= m && LiteralAt(c, q.literal, false, p);
      assert i + r.minStart <= p <= i + r.maxStart;
    }
  }
}
