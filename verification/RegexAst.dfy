/** The regular part of the pattern tree, the context one verification runs in,
    and the relation "this tree matches these bytes" every engine is judged by. */
module RegexAst {
  import opened Basics

  // ----- verification context -----

  /** One verifier invocation. Coordinates are absolute and half-open; `source[0]`
      stands at `sourceBegin`. When `bounded`, consumption stops at `regionEnd`. */
  datatype Context = Context(
    source: seq<Byte>,
    sourceBegin: nat,
    recordBegin: nat,
    recordEnd: nat,
    candidateBegin: nat,
    candidateEnd: nat,
    leftContext: bool,
    rightContext: bool,
    separator: Byte,
    bounded: bool,
    regionBegin: nat,
    regionEnd: nat)
  {
    function SourceEnd(): nat {
      sourceBegin + |source|
    }

    predicate Valid() {
      && sourceBegin <= recordBegin <= recordEnd <= SourceEnd()
      && recordBegin <= candidateBegin <= candidateEnd <= recordEnd + 1
      && recordEnd < U64_MAX
      && (bounded ==> sourceBegin <= regionBegin <= regionEnd <= SourceEnd())
    }

    /** The byte at an absolute position, and 0 outside the source. */
    function ByteAt(pos: int): Byte {
      if sourceBegin <= pos < SourceEnd() then source[pos - sourceBegin] else 0
    }

    /** A unit can be consumed at `pos`. */
    predicate Readable(pos: int) {
      recordBegin <= pos < recordEnd && (bounded ==> pos + 1 <= regionEnd)
    }
  }

  const CR: Byte := 13
  const LF: Byte := 10

  /** Simple case folding of one unit. */
  function Fold(b: Byte): Byte {
    if 65 <= b <= 90 then b + 32 else b
  }

  // ----- one-unit matchers and zero-width assertions -----

  datatype Matcher =
    | Rune(rune: Byte, icase: bool)
    | Any(dotall: bool)
    | InClass(members: set<Byte>)

  predicate Accepts(m: Matcher, b: Byte, separator: Byte) {
    match m
    case Rune(r, icase) => if icase then Fold(b) == Fold(r) else b == r
    case Any(dotall) => dotall || b != separator
    case InClass(members) => b in members
  }

  predicate Consumes(c: Context, m: Matcher, pos: int) {
    c.Readable(pos) && Accepts(m, c.ByteAt(pos), c.separator)
  }

  datatype Assertion =
    | LineBegin(multiline: bool)
    | LineEnd(multiline: bool, crlf: bool)
    | AbsBegin
    | AbsEnd
    | EndNewline(crlf: bool)
    | WordBoundary(negative: bool, word: set<Byte>)
    | WordStartHalf(word: set<Byte>)
    | WordEndHalf(word: set<Byte>)

  predicate EndOfRecord(c: Context, crlf: bool, pos: int) {
    || pos == c.recordEnd
    || (pos + 1 == c.recordEnd && c.ByteAt(pos) == c.separator)
    || (crlf && c.separator == LF && pos + 2 == c.recordEnd && c.ByteAt(pos) == CR && c.ByteAt(pos + 1) == LF)
  }

  predicate EndOfLine(c: Context, crlf: bool, pos: int) {
    || pos == c.recordEnd
    || (pos < c.recordEnd && c.ByteAt(pos) == c.separator)
    || (crlf && c.separator == LF && pos + 1 < c.recordEnd && c.ByteAt(pos) == CR && c.ByteAt(pos + 1) == LF)
  }

  predicate WordBefore(c: Context, word: set<Byte>, pos: int) {
    c.sourceBegin < pos <= c.recordEnd && (c.recordBegin < pos || c.leftContext) && c.ByteAt(pos - 1) in word
  }

  predicate WordAfter(c: Context, word: set<Byte>, pos: int) {
    && c.recordBegin <= pos <= c.recordEnd
    && (pos < c.recordEnd || (c.rightContext && pos < c.SourceEnd()))
    && c.ByteAt(pos) in word
  }

  predicate Holds(c: Context, a: Assertion, pos: int) {
    match a
    case LineBegin(multiline) =>
      pos == c.recordBegin || (multiline && c.sourceBegin < pos && c.ByteAt(pos - 1) == c.separator)
    case LineEnd(multiline, crlf) => if multiline then EndOfLine(c, crlf, pos) else EndOfRecord(c, crlf, pos)
    case AbsBegin => pos == c.recordBegin
    case AbsEnd => pos == c.recordEnd
    case EndNewline(crlf) => EndOfRecord(c, crlf, pos)
    case WordBoundary(negative, word) => (WordBefore(c, word, pos) != WordAfter(c, word, pos)) != negative
    case WordStartHalf(word) => !WordBefore(c, word, pos)
    case WordEndHalf(word) => !WordAfter(c, word, pos)
  }

  // ----- pattern trees -----

  datatype Node =
    | Empty
    | Literal(text: seq<Byte>, icase: bool)
    | Dot(dotall: bool)
    | Class(members: set<Byte>)
    | Assert(assertion: Assertion)
    | Group(child: Node, group: nat)
    | Concat(children: seq<Node>)
    | Alt(children: seq<Node>)
    | Repeat(child: Node, min: nat, max: Option<nat>, greedy: bool)

  /** What the parser guarantees: repeats have min <= max and alternations a branch. */
  predicate WellFormed(n: Node) {
    match n
    case Group(child, _) => WellFormed(child)
    case Concat(children) => forall k | 0 <= k < |children| :: WellFormed(children[k])
    case Alt(children) => |children| > 0 && forall k | 0 <= k < |children| :: WellFormed(children[k])
    case Repeat(child, min, max, _) => WellFormed(child) && (max.Some? ==> min <= max.value)
    case _ => true
  }

  // ----- the match relation -----

  /** A reported match. */
  datatype Span = Span(start: int, end: int)

  /** The units of `text` can be consumed one after the other from `pos` on. */
  ghost predicate LiteralAt(c: Context, text: seq<Byte>, icase: bool, pos: int) {
    forall k {:trigger text[k]} | 0 <= k < |text| :: Consumes(c, Rune(text[k], icase), pos + k)
  }

  /** Tree `n` matches the units from `i` up to `j`. */
  ghost predicate Matches(n: Node, c: Context, i: int, j: int)
    decreases n, 0
  {
    match n
    case Empty => i == j
    case Literal(text, icase) => j == i + |text| && LiteralAt(c, text, icase, i)
    case Dot(dotall) => j == i + 1 && Consumes(c, Any(dotall), i)
    case Class(members) => j == i + 1 && Consumes(c, InClass(members), i)
    case Assert(a) => i == j && Holds(c, a, i)
    case Group(child, _) => Matches(child, c, i, j)
    case Concat(children) => MatchesAll(children, c, i, j)
    case Alt(children) => exists k | 0 <= k < |children| :: Matches(children[k], c, i, j)
    case Repeat(child, min, max, _) =>
      exists k: nat :: min <= k && (max.Some? ==> k <= max.value) && Times(child, k, c, i, j)
  }

  /** The trees match one after the other. */
  ghost predicate MatchesAll(ns: seq<Node>, c: Context, i: int, j: int)
    decreases ns, 0
  {
    if ns == [] then i == j
    else exists m :: MatchesAll(Front(ns), c, i, m) && Matches(Last(ns), c, m, j)
  }

  /** `n` matches `k` times in a row. */
  ghost predicate Times(n: Node, k: nat, c: Context, i: int, j: int)
    decreases n, 1, k
  {
    if k == 0 then i == j
    else exists m :: Times(n, k - 1, c, i, m) && Matches(n, c, m, j)
  }

  lemma {:induction false} TimesAdd(n: Node, a: nat, b: nat, c: Context, i: int, m: int, j: int)
    requires Times(n, a, c, i, m) && Times(n, b, c, m, j)
    ensures Times(n, a + b, c, i, j)
    decreases b
  {
    if b > 0 {
      var q :| Times(n, b - 1, c, m, q) && Matches(n, c, q, j);
      TimesAdd(n, a, b - 1, c, i, m, q);
    }
  }

  lemma {:induction false} TimesSplit(n: Node, a: nat, b: nat, c: Context, i: int, j: int) returns (m: int)
    requires Times(n, a + b, c, i, j)
    ensures Times(n, a, c, i, m) && Times(n, b, c, m, j)
    decreases b
  {
    if b == 0 {
      m := j;
    } else {
      var q :| Times(n, a + b - 1, c, i, q) && Matches(n, c, q, j);
      m := TimesSplit(n, a, b - 1, c, i, q);
    }
  }

  lemma TimesLast(n: Node, k: nat, c: Context, i: int, j: int) returns (m: int)
    requires k > 0 && Times(n, k, c, i, j)
    ensures Times(n, k - 1, c, i, m) && Matches(n, c, m, j)
  {
    m :| Times(n, k - 1, c, i, m) && Matches(n, c, m, j);
  }

  lemma {:induction false} MatchesAllCons(ns: seq<Node>, c: Context, i: int, j: int) returns (m: int)
    requires ns != [] && MatchesAll(ns, c, i, j)
    ensures Matches(ns[0], c, i, m) && MatchesAll(ns[1..], c, m, j)
    decreases |ns|
  {
    var q :| MatchesAll(Front(ns), c, i, q) && Matches(Last(ns), c, q, j);
    if |ns| == 1 {
      m := j;
    } else {
      m := MatchesAllCons(Front(ns), c, i, q);
      assert Front(ns)[1..] == Front(ns[1..]);
    }
  }

  /** A match never runs backwards and stays inside the record and the region. */
  lemma {:induction false} MatchSpan(n: Node, c: Context, i: int, j: int)
    requires Matches(n, c, i, j)
    ensures i <= j
    ensures i < j ==> c.recordBegin <= i && j <= c.recordEnd && (c.bounded ==> j <= c.regionEnd)
    decreases n, 0
  {
    match n
    case Literal(text, icase) =>
      if |text| > 0 {
        assert Consumes(c, Rune(text[0], icase), i + 0);
        assert Consumes(c, Rune(text[|text| - 1], icase), i + (|text| - 1));
      }
    case Group(child, _) => MatchSpan(child, c, i, j);
    case Concat(children) => MatchAllSpan(children, c, i, j);
    case Alt(children) =>
      var k :| 0 <= k < |children| && Matches(children[k], c, i, j);
      MatchSpan(children[k], c, i, j);
    case Repeat(child, min, max, _) =>
      var k: nat :| min <= k && (max.Some? ==> k <= max.value) && Times(child, k, c, i, j);
      TimesSpan(child, k, c, i, j);
    case _ =>
  }

  lemma {:induction false} MatchAllSpan(ns: seq<Node>, c: Context, i: int, j: int)
    requires MatchesAll(ns, c, i, j)
    ensures i <= j
    ensures i < j ==> c.recordBegin <= i && j <= c.recordEnd && (c.bounded ==> j <= c.regionEnd)
    decreases ns, 0
  {
    if ns != [] {
      var m :| MatchesAll(Front(ns), c, i, m) && Matches(Last(ns), c, m, j);
      MatchAllSpan(Front(ns), c, i, m);
      MatchSpan(Last(ns), c, m, j);
    }
  }

  lemma {:induction false} TimesSpan(n: Node, k: nat, c: Context, i: int, j: int)
    requires Times(n, k, c, i, j)
    ensures i <= j
    ensures i < j ==> c.recordBegin <= i && j <= c.recordEnd && (c.bounded ==> j <= c.regionEnd)
    decreases n, 1, k
  {
    if k > 0 {
      var m :| Times(n, k - 1, c, i, m) && Matches(n, c, m, j);
      TimesSpan(n, k - 1, c, i, m);
      MatchSpan(n, c, m, j);
    }
  }

  // ----- invocations that see the same -----

  /** Two invocations over the same record that can read the same units of [i, j).
      Candidate windows and regions may differ otherwise. */
  ghost predicate SameView(c': Context, c: Context, i: int, j: int) {
    && c' == c.(bounded := c'.bounded, regionBegin := c'.regionBegin, regionEnd := c'.regionEnd,
                candidateBegin := c'.candidateBegin, candidateEnd := c'.candidateEnd)
    && forall p | i <= p < j :: c'.Readable(p) <==> c.Readable(p)
  }

  /** They match the same spans there; assertions see the record in both. */
  lemma ViewMatch(n: Node, c': Context, c: Context, i: int, j: int)
    requires SameView(c', c, i, j)
    ensures Matches(n, c', i, j) <==> Matches(n, c, i, j)
  {
    if Matches(n, c', i, j) { ViewKeeps(n, c', c, i, j); }
    if Matches(n, c, i, j) { ViewKeeps(n, c, c', i, j); }
  }

  lemma {:induction false} ViewKeeps(n: Node, c': Context, c: Context, i: int, j: int)
    requires SameView(c', c, i, j) && Matches(n, c', i, j)
    ensures Matches(n, c, i, j)
    decreases n, 0
  {
    match n
    case Literal(text, icase) =>
      forall k {:trigger text[k]} | 0 <= k < |text| ensures Consumes(c, Rune(text[k], icase), i + k) {
        assert Consumes(c', Rune(text[k], icase), i + k);
      }
    case Assert(a) => assert Holds(c', a, i) <==> Holds(c, a, i);
    case Group(child, _) => ViewKeeps(child, c', c, i, j);
    case Concat(children) => ViewKeepsAll(children, c', c, i, j);
    case Alt(children) =>
      var k :| 0 <= k < |children| && Matches(children[k], c', i, j);
      ViewKeeps(children[k], c', c, i, j);
    case Repeat(child, min, max, _) =>
      var k: nat :| min <= k && (max.Some? ==> k <= max.value) && Times(child, k, c', i, j);
      ViewKeepsTimes(child, k, c', c, i, j);
    case _ =>
  }

  lemma {:induction false} ViewKeepsAll(ns: seq<Node>, c': Context, c: Context, i: int, j: int)
    requires SameView(c', c, i, j) && MatchesAll(ns, c', i, j)
    ensures MatchesAll(ns, c, i, j)
    decreases ns, 0
  {
    if ns != [] {
      var m :| MatchesAll(Front(ns), c', i, m) && Matches(Last(ns), c', m, j);
      MatchAllSpan(Front(ns), c', i, m);
      MatchSpan(Last(ns), c', m, j);
      ViewKeepsAll(Front(ns), c', c, i, m);
      ViewKeeps(Last(ns), c', c, m, j);
    }
  }

  lemma {:induction false} ViewKeepsTimes(n: Node, k: nat, c': Context, c: Context, i: int, j: int)
    requires SameView(c', c, i, j) && Times(n, k, c', i, j)
    ensures Times(n, k, c, i, j)
    decreases n, 1, k
  {
    if k > 0 {
      var m :| Times(n, k - 1, c', i, m) && Matches(n, c', m, j);
      TimesSpan(n, k - 1, c', i, m);
      MatchSpan(n, c', m, j);
      ViewKeepsTimes(n, k - 1, c', c, i, m);
      ViewKeeps(n, c', c, m, j);
    }
  }

  /** The same invocation, reading only up to the end of a region. */
  ghost predicate Clips(c': Context, c: Context) {
    && !c.bounded
    && c' == c.(bounded := true, regionBegin := c'.regionBegin, regionEnd := c'.regionEnd,
                candidateBegin := c'.candidateBegin, candidateEnd := c'.candidateEnd)
  }

  /** Inside the region, clipping changes no match; assertions still see the record. */
  lemma ClipMatch(n: Node, c': Context, c: Context, i: int, j: int)
    requires Clips(c', c) && j <= c'.regionEnd
    ensures Matches(n, c', i, j) <==> Matches(n, c, i, j)
  {
    ViewMatch(n, c', c, i, j);
  }
}
