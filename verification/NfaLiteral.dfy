/** The simulation of a pure literal: a pattern of fixed width, whose leftmost match is
    its leftmost occurrence. */
module NfaLiteral {
  import opened Basics
  import opened RegexAst
  import opened QueryIr
  import opened NfaThreads
  import opened NfaSearch
  import opened NfaWindow
  import opened NfaFixed

  ghost predicate IsLiteral(pr: Program, n: Node, q: seq<Byte>) {
    IsFixed(pr, n, |q|) && PureLiteral(n) == Some(q) && q != []
  }

  lemma {:induction false} LiteralIsFixed(n: Node)
    requires PureLiteral(n).Some?
    ensures FixedWidth(n) == Some(|PureLiteral(n).value|)
    decreases n, 0
  {
    match n
    case Literal(_, _) =>
    case Group(child, _) => LiteralIsFixed(child);
    case Concat(children) => LiteralsAreFixed(children);
  }

  lemma {:induction false} LiteralsAreFixed(ns: seq<Node>)
    requires PureLiterals(ns).Some?
    ensures FixedSum(ns) == Some(|PureLiterals(ns).value|)
    decreases ns, 0
  {
    if ns != [] {
      LiteralsAreFixed(Front(ns));
      LiteralIsFixed(Last(ns));
    }
  }

  lemma {:induction false} LiteralProgram(pr: Program, n: Node, q: seq<Byte>)
    requires IsProgram(pr, n) && WellFormed(n) && PureLiteral(n) == Some(q) && q != []
    ensures IsLiteral(pr, n, q)
  {
    LiteralIsFixed(n);
  }

  /** The literal stands at `s0`, and nowhere before it in the window. */
  ghost predicate FirstOccurs(c: Context, q: seq<Byte>, s0: int) {
    LiteralAt(c, q, false, s0) && forall s | c.candidateBegin <= s < s0 :: !LiteralAt(c, q, false, s)
  }

  lemma FirstPlace(n: Node, q: seq<Byte>, c: Context, s0: int)
    requires c.Valid() && PureLiteral(n) == Some(q) && q != [] && FirstOccurs(c, q, s0)
    ensures MatchesAt(n, c, |q|, s0) && NoneEarlier(n, c, |q|, s0)
  {
    PureLiteralMeaning(n, c, s0, s0 + |q|);
    forall s | c.candidateBegin <= s < s0 ensures !MatchesAt(n, c, |q|, s) { PureLiteralMeaning(n, c, s, s + |q|); }
  }

  /** The search of a pure literal reports its leftmost occurrence in the window. */
  lemma {:induction false} LiteralLeftmost(pr: Program, n: Node, q: seq<Byte>, c: Context, s0: int)
    requires IsLiteral(pr, n, q) && c.Valid() && Startable(c, c.candidateBegin, s0) && FirstOccurs(c, q, s0)
    ensures Pike(pr, c, InitialState(c)) == Some(Span(s0, s0 + |q|))
  {
    FirstPlace(n, q, c, s0);
    FixedLeftmost(pr, n, |q|, c, s0);
  }

  /** Without an occurrence nothing is reported. */
  lemma {:induction false} LiteralAbsent(pr: Program, n: Node, q: seq<Byte>, c: Context)
    requires IsLiteral(pr, n, q) && c.Valid() && forall s | c.candidateBegin <= s < c.candidateEnd :: !LiteralAt(c, q, false, s)
    ensures Pike(pr, c, InitialState(c)) == None
  {
    if Pike(pr, c, InitialState(c)).Some? {
      SearchSound(pr, n, c);
      var r := Pike(pr, c, InitialState(c)).value;
      PureLiteralMeaning(n, c, r.start, r.end);
    }
  }
}
