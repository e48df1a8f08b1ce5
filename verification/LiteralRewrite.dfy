/** The dispatch of a regex search: a pure literal is answered by the fixed search, a
    pattern of finite width by regions, anything else by the record loop. */
module LiteralRewrite {
  import opened Basics
  import opened RegexAst
  import opened QueryIr
  import opened NfaLiteral
  import opened NfaThreads
  import opened NfaWindow
  import opened EvalVm
  import opened IndexModel
  import opened FixedScan
  import opened FixedSearch
  import opened FixedDispatch
  import opened RegexFind
  import opened LiteralScan
  import RegionPlan

  /** Over the whole corpus the record loop and the naive scan list the same hits. */
  lemma {:induction false} BruteIsNaive(pr: Program, n: Node, q: seq<Byte>, files: seq<seq<Byte>>, s: Scope, m: Mode, file: nat)
    requires IsLiteral(pr, n, q) && Addressable(files) && RewriteSafe(m, q)
    ensures Every(HitsIn(pr, n, Whole, files, m), s, file, |files|) == Naive(files, s, q, StepOf(m.overlapping, q), file)
    decreases |files| - file
  {
    if file < |files| {
      FileIsScan(pr, n, q, file, files[file], m);
      BruteIsNaive(pr, n, q, files, s, m, file + 1);
    }
  }

  /** The pattern is a literal the records cannot cut, and no group reports it. */
  predicate Rewritten(n: Node, groups: nat, insensitive: bool, m: Mode) {
    PureLiteral(n).Some? && groups == 0 && !insensitive && (m.multiline || m.separator !in PureLiteral(n).value)
  }

  /** Some repeat has no bound, or one the other engine would not reach. */
  predicate LongRepeat(n: Node) {
    match n
    case Group(child, _) => LongRepeat(child)
    case Concat(children) => exists k | 0 <= k < |children| :: LongRepeat(children[k])
    case Alt(children) => exists k | 0 <= k < |children| :: LongRepeat(children[k])
    case Repeat(child, _, max, _) => max.None? || max.value > MAX_ROUNDS || LongRepeat(child)
    case _ => false
  }

  /** A region plan is asked for: there are literals to join, or the pattern is one that
      regions cannot serve. */
  predicate Requested(n: Node, insensitive: bool) {
    || |RegionPlan.DistinctMandatory(n)| >= 2
    || insensitive || LongRepeat(n)
    || (RegionPlan.SplitsByBranch(n) && RegionPlan.AllLong(RegionPlan.SplitLists(n)))
  }

  /** How the pattern's records are verified. */
  function VerifierFor(n: Node, groups: nat, insensitive: bool, m: Mode): (v: Verifier)
    ensures Fitting(v, n)
  {
    if !Rewritten(n, groups, insensitive, m) && Requested(n, insensitive) && RegionPlan.Eligible(n, groups, !insensitive)
      && RegionPlan.PlanOf(n) != []
    then ByRegions(RegionPlan.PlanOf(n))
    else Whole
  }

  /** The hits of the fixed search a pure literal is rewritten to. */
  ghost function RewrittenHits(x: Index, s: Scope, q: seq<Byte>, overlapping: bool): seq<Hit> {
    if q == [] then EmptyHits(x, s, overlapping, false, WholeFile) else Naive(x.files, s, q, StepOf(overlapping, q), 0)
  }

  /** The rewriting is right: the literal is not empty, and no record drops its end. */
  predicate Rewritable(n: Node, m: Mode) {
    PureLiteral(n).Some? ==> PureLiteral(n).value != [] && RewriteSafe(m, PureLiteral(n).value)
  }

  /** The regex search. Whichever way the pattern is dispatched, the hits are those of
      every searched file, cut at the bound, but for literals that should not have been
      rewritten: these get the hits of the fixed search. */
  method Find(hash: Hash, x: Index, s: Scope, byteFreq: Byte -> nat, pr: Program, n: Node, groups: nat, insensitive: bool, m: Mode, limit: nat)
    returns (out: seq<Hit>)
    requires Exact(hash, x, s) && IsProgram(pr, n) && WellFormed(n) && Addressable(x.files)
    ensures !Rewritten(n, groups, insensitive, m) || Rewritable(n, m) ==>
      out == Cut(BruteForce(pr, n, VerifierFor(n, groups, insensitive, m), x.files, s, m), limit)
    ensures Rewritten(n, groups, insensitive, m) ==> out == Cut(RewrittenHits(x, s, PureLiteral(n).value, m.overlapping), limit)
  {
    if Rewritten(n, groups, insensitive, m) {
      var q := PureLiteral(n).value;
      if Rewritable(n, m) {
        LiteralProgram(pr, n, q);
        BruteIsNaive(pr, n, q, x.files, s, m, 0);
      }
      out := Search(hash, x, s, byteFreq, q, m.overlapping, limit, false, WholeFile);
    } else {
      var eligible := RegionPlan.Eligible(n, groups, !insensitive);
      var v := Whole;
      if Requested(n, insensitive) && eligible {
        var plan := RegionPlan.PlanBranches(n);
        if plan != [] {
          v := ByRegions(plan);
        }
      }
      out := SearchRecords(hash, x, s, pr, n, v, m, insensitive, Requested(n, insensitive) && !eligible, limit);
    }
  }
}
