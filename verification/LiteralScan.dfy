/** Rewriting a pure-literal regex to a fixed search: scanning a file record by record
    with the regex verifier lists exactly what the whole-file scan lists. */
module LiteralScan {
  import opened Basics
  import opened RegexAst
  import opened QueryIr
  import opened MatchList
  import opened NfaSearch
  import opened NfaThreads
  import opened NfaWindow
  import opened NfaLiteral
  import opened RegexSearch
  import opened FixedScan
  import opened RegexFind

  /** No occurrence that begins in the record runs over its end. */
  ghost predicate Contained(text: seq<Byte>, q: seq<Byte>, b: nat, e: nat) {
    b <= e <= |text| && forall s | b <= s <= e && OccursAt(text, q, s) :: s + |q| <= e
  }

  lemma CoveredByte(text: seq<Byte>, q: seq<Byte>, s: int, e: int)
    requires OccursAt(text, q, s) && s <= e < s + |q|
    ensures text[e] in q
  {
    assert text[s..s + |q|][e - s] == text[e];
  }

  /** A record ends at a separator, which the literal does not contain, or with the file. */
  lemma SeparatorContains(text: seq<Byte>, q: seq<Byte>, b: nat, e: nat, separator: Byte)
    requires b <= e <= |text| && q != [] && separator !in q && (e < |text| ==> text[e] == separator)
    ensures Contained(text, q, b, e)
  {
    forall s | b <= s <= e && OccursAt(text, q, s) ensures s + |q| <= e {
      if e < s + |q| { CoveredByte(text, q, s, e); }
    }
  }

  /** In the record, the literal is consumed exactly where it occurs. */
  lemma RecordLiteral(text: seq<Byte>, q: seq<Byte>, b: nat, e: nat, separator: Byte, s: int)
    requires RecordContext(text, b, e, separator).Valid() && q != []
    ensures LiteralAt(RecordContext(text, b, e, separator), q, false, s) <==> b <= s && s + |q| <= e && OccursAt(text, q, s)
  {
    var c := RecordContext(text, b, e, separator);
    if LiteralAt(c, q, false, s) {
      LiteralOccurs(c, q, s);
    }
    if b <= s && s + |q| <= e && OccursAt(text, q, s) {
      forall k {:trigger q[k]} | 0 <= k < |q| ensures Consumes(c, Rune(q[k], false), s + k) {
        assert text[s..s + |q|][k] == text[s + k];
      }
    }
  }

  /** The first occurrence from `p` on that lies in the record. */
  ghost predicate FirstInRecord(text: seq<Byte>, q: seq<Byte>, p: nat, e: nat, found: Option<Span>) {
    match found
    case Some(sp) => p <= sp.start && sp.end == sp.start + |q| <= e && OccursAt(text, q, sp.start) && NoneIn(text, q, p, sp.start)
    case None => NoneIn(text, q, p, e + 1)
  }

  lemma {:induction false} SearchFindsFirst(pr: Program, n: Node, q: seq<Byte>, text: seq<Byte>, b: nat, e: nat, separator: Byte, p: nat)
    requires IsLiteral(pr, n, q) && RecordContext(text, b, e, separator).Valid() && Contained(text, q, b, e) && b <= p <= e
    ensures FirstInRecord(text, q, p, e, Searches(pr, RecordContext(text, b, e, separator))(p))
  {
    var c := RecordContext(text, b, e, separator);
    var c' := c.(candidateBegin := p);
    forall s ensures LiteralAt(c', q, false, s) <==> b <= s && s + |q| <= e && OccursAt(text, q, s) {
      RecordLiteral(text, q, b, e, separator, s);
      assert forall k {:trigger q[k]} | 0 <= k < |q| :: Consumes(c', Rune(q[k], false), s + k) <==> Consumes(c, Rune(q[k], false), s + k);
    }
    if NoneIn(text, q, p, e + 1) {
      LiteralAbsent(pr, n, q, c');
    } else {
      var at := FirstOccurrence(text, q, p, e);
      assert Startable(c', p, at);
      LiteralLeftmost(pr, n, q, c', at);
    }
  }

  lemma {:induction false} FirstOccurrence(text: seq<Byte>, q: seq<Byte>, p: nat, e: nat) returns (at: nat)
    requires p <= e && !NoneIn(text, q, p, e + 1)
    ensures p <= at <= e && OccursAt(text, q, at) && NoneIn(text, q, p, at)
    decreases e - p
  {
    if OccursAt(text, q, p) {
      at := p;
    } else {
      at := FirstOccurrence(text, q, p + 1, e);
    }
  }

  /** What the record's searches list, followed by the scan behind the record, is the
      scan from `pos` on. */
  lemma {:induction false} RecordIsScan(find: Finder, text: seq<Byte>, q: seq<Byte>, file: nat, b: nat, e: nat, overlapping: bool, pos: nat)
    requires q != [] && Contained(text, q, b, e) && b <= pos <= e + 1
    requires forall p: nat | b <= p <= e :: FirstInRecord(text, q, p, e, find(p))
    ensures
      var spans := ListFrom(find, e + 1, overlapping, pos);
      var step := StepOf(overlapping, q);
      HitsFrom(file, text, q, step, pos) == HitsOf(file, spans) + HitsFrom(file, text, q, step, e + 1)
    decreases e + 1 - pos
  {
    var step := StepOf(overlapping, q);
    if pos <= e {
      assert FirstInRecord(text, q, pos, e, find(pos));
      if find(pos).None? {
        ScanSkip(text, q, step, pos, e + 1);
      } else {
        var sp := find(pos).value;
        var next := Next(sp, overlapping);
        RecordIsScan(find, text, q, file, b, e, overlapping, next);
        FirstIsScan(text, q, file, step, pos, sp, ListFrom(find, e + 1, overlapping, next), HitsFrom(file, text, q, step, e + 1));
      }
    }
  }

  lemma FirstIsScan(text: seq<Byte>, q: seq<Byte>, file: nat, step: nat, pos: nat, sp: Span, rest: seq<Span>, tail: seq<Hit>)
    requires q != [] && step > 0 && pos <= sp.start && sp.end == sp.start + |q| && OccursAt(text, q, sp.start) && NoneIn(text, q, pos, sp.start)
    requires HitsFrom(file, text, q, step, sp.start + step) == HitsOf(file, rest) + tail
    ensures HitsFrom(file, text, q, step, pos) == HitsOf(file, [sp] + rest) + tail
  {
    ScanStep(text, q, step, pos, sp.start);
    var h := Hit(file, sp.start, sp.end);
    assert HitsFrom(file, text, q, step, pos) == [h] + HitsFrom(file, text, q, step, sp.start + step);
    HitsOfFirst(file, sp, rest, tail);
  }

  lemma HitsOfFirst(file: nat, sp: Span, rest: seq<Span>, tail: seq<Hit>)
    ensures HitsOf(file, [sp] + rest) + tail == [Hit(file, sp.start, sp.end)] + (HitsOf(file, rest) + tail)
  {
    assert HitsOf(file, [sp] + rest) == [Hit(file, sp.start, sp.end)] + HitsOf(file, rest);
  }

  // ----- from records to the file -----

  /** The fixed search a pure literal is rewritten to lists the same hits: no record is
      cut inside an occurrence, neither at its separator nor before its carriage return. */
  predicate RewriteSafe(m: Mode, q: seq<Byte>) {
    m.multiline || (m.separator !in q && !(m.crlf && m.separator == LF && q != [] && Last(q) == CR))
  }

  /** What the record [b, e) lists and the scan from behind it are the scan from `b` on. */
  ghost predicate SplitsAt(list: Lister, file: nat, text: seq<Byte>, q: seq<Byte>, step: nat, b: nat, e: nat)
    requires q != [] && step > 0
  {
    b <= e <= |text| && Contained(text, q, b, e) ==> HitsFrom(file, text, q, step, b) == list(b, e) + HitsFrom(file, text, q, step, e + 1)
  }

  ghost predicate Splits(list: Lister, file: nat, text: seq<Byte>, q: seq<Byte>, step: nat)
    requires q != [] && step > 0
  {
    forall b: nat, e: nat :: SplitsAt(list, file, text, q, step, b, e)
  }

  lemma {:induction false} ListingSplits(pr: Program, n: Node, q: seq<Byte>, file: nat, text: seq<Byte>, m: Mode)
    requires IsLiteral(pr, n, q) && |text| < U64_MAX
    ensures Splits(ListerOf(pr, n, Whole, file, text, m), file, text, q, StepOf(m.overlapping, q))
  {
    var list := ListerOf(pr, n, Whole, file, text, m);
    forall b: nat, e: nat ensures SplitsAt(list, file, text, q, StepOf(m.overlapping, q), b, e) {
      if b <= e <= |text| && Contained(text, q, b, e) {
        RecordSplits(pr, n, q, file, text, m, b, e);
      }
    }
  }

  lemma {:induction false} RecordSplits(pr: Program, n: Node, q: seq<Byte>, file: nat, text: seq<Byte>, m: Mode, b: nat, e: nat)
    requires IsLiteral(pr, n, q) && |text| < U64_MAX && Contained(text, q, b, e)
    ensures
      var step := StepOf(m.overlapping, q);
      HitsFrom(file, text, q, step, b) == RecordHits(pr, n, Whole, file, text, m, b, e) + HitsFrom(file, text, q, step, e + 1)
  {
    var c := RecordContext(text, b, e, m.separator);
    var find := Searches(pr, c);
    forall p: nat | b <= p <= e ensures FirstInRecord(text, q, p, e, find(p)) {
      SearchFindsFirst(pr, n, q, text, b, e, m.separator, p);
    }
    RecordIsScan(find, text, q, file, b, e, m.overlapping, b);
  }

  /** A record holds every occurrence that begins in it, and nothing begins between its
      end and its separator. */
  lemma RecordHolds(text: seq<Byte>, m: Mode, q: seq<Byte>, b: nat)
    requires b <= |text| && q != [] && !m.multiline && RewriteSafe(m, q)
    ensures
      var e := SeparatorAt(text, m.separator, b);
      var r := RecordEnd(text, m, b, e);
      Contained(text, q, b, r) && NoneIn(text, q, r + 1, e + 1)
  {
    var e := SeparatorAt(text, m.separator, b);
    var r := RecordEnd(text, m, b, e);
    SeparatorContains(text, q, b, e, m.separator);
    forall s | b <= s <= r && OccursAt(text, q, s) ensures s + |q| <= r {
      assert s + |q| <= e;
      if s + |q| == e { assert text[s..s + |q|][|q| - 1] == text[e - 1]; }
    }
    forall s | r + 1 <= s < e + 1 ensures !OccursAt(text, q, s) {
      if OccursAt(text, q, s) { CoveredByte(text, q, s, s); }
    }
  }

  lemma {:induction false} LinesAreScan(list: Lister, file: nat, text: seq<Byte>, m: Mode, q: seq<Byte>, step: nat, b: nat)
    requires q != [] && step > 0 && !m.multiline && RewriteSafe(m, q) && Splits(list, file, text, q, step) && b <= |text|
    ensures LinesFrom(list, text, m, b) == HitsFrom(file, text, q, step, b)
    decreases |text| - b
  {
    if InText(text, b) {
      var e := SeparatorAt(text, m.separator, b);
      LineSplits(list, file, text, m, q, step, b);
      if e < |text| {
        LinesAreScan(list, file, text, m, q, step, e + 1);
      } else {
        ScanEnd(text, q, step, |text| + 1);
      }
    } else {
      ScanEnd(text, q, step, b);
    }
  }

  lemma LineSplits(list: Lister, file: nat, text: seq<Byte>, m: Mode, q: seq<Byte>, step: nat, b: nat)
    requires q != [] && step > 0 && !m.multiline && RewriteSafe(m, q) && Splits(list, file, text, q, step) && b <= |text|
    ensures
      var e := SeparatorAt(text, m.separator, b);
      HitsFrom(file, text, q, step, b) == list(b, RecordEnd(text, m, b, e)) + HitsFrom(file, text, q, step, e + 1)
  {
    var e := SeparatorAt(text, m.separator, b);
    var r := RecordEnd(text, m, b, e);
    RecordHolds(text, m, q, b);
    assert SplitsAt(list, file, text, q, step, b, r);
    ScanSkip(text, q, step, r + 1, e + 1);
  }

  /** Searching the records of a file lists what scanning the file lists. */
  ghost predicate SameHits(pr: Program, n: Node, q: seq<Byte>, file: nat, text: seq<Byte>, m: Mode)
    requires q != [] && |text| < U64_MAX
  {
    FileHits(pr, n, Whole, file, text, m) == HitsFrom(file, text, q, StepOf(m.overlapping, q), 0)
  }

  /** Record by record or in one go: the same list. */
  lemma {:induction false} FileIsScan(pr: Program, n: Node, q: seq<Byte>, file: nat, text: seq<Byte>, m: Mode)
    requires IsLiteral(pr, n, q) && |text| < U64_MAX && RewriteSafe(m, q)
    ensures SameHits(pr, n, q, file, text, m)
  {
    var list, step := ListerOf(pr, n, Whole, file, text, m), StepOf(m.overlapping, q);
    ListingSplits(pr, n, q, file, text, m);
    if m.multiline {
      assert SplitsAt(list, file, text, q, step, 0, |text|);
      ScanEnd(text, q, step, |text| + 1);
    } else {
      LinesAreScan(list, file, text, m, q, step, 0);
    }
  }

  /** A literal that ends in the carriage return its record drops: `q` and a line feed
      hold an occurrence, and no record does. */
  lemma {:induction false} ReturnLost(pr: Program, n: Node, q: seq<Byte>, file: nat, m: Mode)
    requires IsLiteral(pr, n, q) && |q| + 1 < U64_MAX && m.separator !in q && !RewriteSafe(m, q)
    ensures FileHits(pr, n, Whole, file, q + [LF], m) == []
    ensures HitsFrom(file, q + [LF], q, StepOf(m.overlapping, q), 0) != []
  {
    var text := q + [LF];
    ReturnScanned(q, file, m);
    ShortRecord(pr, n, q, file, text, m, |q| - 1);
    ReturnDropped(ListerOf(pr, n, Whole, file, text, m), q, m);
  }

  lemma ReturnDropped(list: Lister, q: seq<Byte>, m: Mode)
    requires m.separator !in q && !RewriteSafe(m, q) && list(0, |q| - 1) == []
    ensures Records(list, q + [LF], m) == []
  {
    ReturnScanned(q, 0, m);
    LinesBehind(list, q + [LF], m, |q|);
  }

  lemma ReturnScanned(q: seq<Byte>, file: nat, m: Mode)
    requires m.separator !in q && !RewriteSafe(m, q)
    ensures HitsFrom(file, q + [LF], q, StepOf(m.overlapping, q), 0) != [] && SeparatorAt(q + [LF], m.separator, 0) == |q|
  {
    var text := q + [LF];
    assert OccursAt(text, q, 0);
    ScanStep(text, q, StepOf(m.overlapping, q), 0, 0);
    assert forall k | 0 <= k < |q| :: text[k] == q[k] && q[k] in q;
    assert text[|q|] == LF;
  }

  /** A record shorter than the literal lists nothing. */
  lemma {:induction false} ShortRecord(pr: Program, n: Node, q: seq<Byte>, file: nat, text: seq<Byte>, m: Mode, e: nat)
    requires IsLiteral(pr, n, q) && e < |q| && e <= |text| < U64_MAX
    ensures RecordHits(pr, n, Whole, file, text, m, 0, e) == []
  {
    var c := RecordContext(text, 0, e, m.separator);
    forall s ensures !LiteralAt(c, q, false, s) { RecordLiteral(text, q, 0, e, m.separator, s); }
    LiteralAbsent(pr, n, q, c);
    assert c.(candidateBegin := 0) == c;
  }

  /** Every text lists the same hits. */
  ghost predicate SameLists(pr: Program, n: Node, q: seq<Byte>, file: nat, m: Mode)
    requires q != []
  {
    forall text: seq<Byte> | |text| < U64_MAX :: SameHits(pr, n, q, file, text, m)
  }

  lemma {:induction false} SafeKeeps(pr: Program, n: Node, q: seq<Byte>, file: nat, m: Mode)
    requires IsLiteral(pr, n, q) && RewriteSafe(m, q)
    ensures SameLists(pr, n, q, file, m)
  {
    forall text: seq<Byte> | |text| < U64_MAX ensures SameHits(pr, n, q, file, text, m) {
      FileIsScan(pr, n, q, file, text, m);
    }
  }

  lemma {:induction false} ReturnDiffers(pr: Program, n: Node, q: seq<Byte>, file: nat, m: Mode)
    requires IsLiteral(pr, n, q) && |q| + 1 < U64_MAX && m.separator !in q && !RewriteSafe(m, q)
    ensures !SameLists(pr, n, q, file, m)
  {
    ReturnLost(pr, n, q, file, m);
    HitsDiffer(pr, n, q, file, q + [LF], m);
  }

  lemma HitsDiffer(pr: Program, n: Node, q: seq<Byte>, file: nat, text: seq<Byte>, m: Mode)
    requires q != [] && |text| < U64_MAX
    requires FileHits(pr, n, Whole, file, text, m) == [] && HitsFrom(file, text, q, StepOf(m.overlapping, q), 0) != []
    ensures !SameLists(pr, n, q, file, m)
  {
    assert !SameHits(pr, n, q, file, text, m);
  }

  /** When the guard of the rewriting holds, it keeps the hits of every text exactly when
      the literal does not end in a carriage return that records drop. */
  lemma {:induction false} RewriteExact(pr: Program, n: Node, q: seq<Byte>, file: nat, m: Mode)
    requires IsLiteral(pr, n, q) && |q| + 1 < U64_MAX && (m.multiline || m.separator !in q)
    ensures RewriteSafe(m, q) <==> SameLists(pr, n, q, file, m)
  {
    if RewriteSafe(m, q) {
      SafeKeeps(pr, n, q, file, m);
    } else {
      ReturnDiffers(pr, n, q, file, m);
    }
  }
}
