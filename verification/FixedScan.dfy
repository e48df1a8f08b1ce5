/** Fixed-string matching inside one window of a file, and the naive left-to-right scan
    every physical operator is judged by. */
module FixedScan {
  import opened Basics

  datatype Hit = Hit(file: nat, begin: int, end: int)

  // ----- anchored find -----

  /** memchr: the first place of the byte in [lo, hi). */
  method FindByte(s: seq<Byte>, needle: Byte, lo: nat, hi: nat) returns (r: Option<nat>)
    requires lo <= hi <= |s|
    ensures r.Some? ==> lo <= r.value < hi && s[r.value] == needle && forall k | lo <= k < r.value :: s[k] != needle
    ensures r.None? ==> forall k | lo <= k < hi :: s[k] != needle
  {
    for k := lo to hi
      invariant forall i | lo <= i < k :: s[i] != needle
    {
      if s[k] == needle {
        return Some(k);
      }
    }
    r := None;
  }

  /** The offset in `q` of its rarest byte, the first one of a tie. */
  method ChooseRareByte(byteFreq: Byte -> nat, q: seq<Byte>) returns (a: nat)
    ensures if q == [] then a == 0 else a < |q|
    ensures forall i | 0 <= i < |q| :: byteFreq(q[a]) <= byteFreq(q[i]) || byteFreq(q[i]) >= U64_MAX
  {
    a := 0;
    var best := U64_MAX;
    for i := 0 to |q|
      invariant if q == [] then a == 0 else a < |q|
      invariant best < U64_MAX ==> q != [] && best == byteFreq(q[a])
      invariant forall k | 0 <= k < i :: best <= byteFreq(q[k]) || (best == U64_MAX && byteFreq(q[k]) >= U64_MAX)
    {
      if byteFreq(q[i]) < best {
        best := byteFreq(q[i]);
        a := i;
      }
    }
  }

  /** The first occurrence that begins in [start, bound), looked for by the anchor byte. */
  ghost predicate FirstIn(s: seq<Byte>, q: seq<Byte>, start: nat, bound: nat, r: Option<nat>) {
    match r
    case Some(p) => start <= p < bound && OccursAt(s, q, p) && forall k | start <= k < p :: !OccursAt(s, q, k)
    case None => forall k | start <= k < bound :: !OccursAt(s, q, k)
  }

  method AnchorFind(s: seq<Byte>, q: seq<Byte>, anchor: nat, start: nat, bound: nat) returns (r: Option<nat>)
    requires q != [] ==> anchor < |q|
    ensures FirstIn(s, q, start, bound, r)
  {
    if q == [] {
      if start <= |s| && start < bound {
        return Some(start);
      }
      return None;
    }
    if |s| < |q| {
      return None;
    }
    var maxStart := Min(bound, |s| - |q| + 1);
    if start >= maxStart {
      return None;
    }
    var lo, hi := start + anchor, maxStart + anchor;
    while lo < hi
      invariant start + anchor <= lo <= hi
      invariant forall k | start <= k < lo - anchor :: !OccursAt(s, q, k)
    {
      var at := FindByte(s, q[anchor], lo, hi);
      if at.None? {
        forall k | lo - anchor <= k < maxStart ensures !OccursAt(s, q, k) {
          AnchorByte(s, q, anchor, k);
        }
        return None;
      }
      forall k | lo - anchor <= k < at.value - anchor ensures !OccursAt(s, q, k) {
        AnchorByte(s, q, anchor, k);
      }
      var st := at.value - anchor;
      if s[st..st + |q|] == q {
        return Some(st);
      }
      lo := at.value + 1;
    }
    r := None;
  }

  /** An occurrence shows the anchor byte at the anchor's place. */
  lemma AnchorByte(s: seq<Byte>, q: seq<Byte>, anchor: nat, k: int)
    requires anchor < |q|
    ensures OccursAt(s, q, k) ==> k + anchor < |s| && s[k + anchor] == q[anchor]
  {
    if OccursAt(s, q, k) { assert s[k..k + |q|][anchor] == q[anchor]; }
  }

  // ----- the naive scan -----

  /** Occurrence starts from `from` on, left to right, moving on by `step` after each. */
  function Scan(text: seq<Byte>, q: seq<Byte>, step: nat, from: nat): seq<nat>
    requires q != [] && step > 0
    decreases |text| - from
  {
    if from + |q| > |text| then []
    else if OccursAt(text, q, from) then [from] + Scan(text, q, step, from + step)
    else Scan(text, q, step, from + 1)
  }

  /** No occurrence begins in [a, b). */
  ghost predicate NoneIn(text: seq<Byte>, q: seq<Byte>, a: int, b: int) {
    forall k | a <= k < b :: !OccursAt(text, q, k)
  }

  lemma {:induction false} ScanSkip(text: seq<Byte>, q: seq<Byte>, step: nat, a: nat, b: nat)
    requires q != [] && step > 0 && a <= b && NoneIn(text, q, a, b)
    ensures Scan(text, q, step, a) == Scan(text, q, step, b)
    decreases b - a
  {
    if a < b {
      assert !OccursAt(text, q, a);
      ScanSkip(text, q, step, a + 1, b);
    }
  }

  lemma ScanStep(text: seq<Byte>, q: seq<Byte>, step: nat, from: nat, p: nat)
    requires q != [] && step > 0 && from <= p && OccursAt(text, q, p) && NoneIn(text, q, from, p)
    ensures Scan(text, q, step, from) == [p] + Scan(text, q, step, p + step)
  {
    ScanSkip(text, q, step, from, p);
  }

  lemma ScanEnd(text: seq<Byte>, q: seq<Byte>, step: nat, from: nat)
    requires q != [] && step > 0 && NoneIn(text, q, from, |text|)
    ensures Scan(text, q, step, from) == []
  {
    ScanSkip(text, q, step, from, Max(from, |text|));
  }

  /** Some listed start `s` has `s <= p < s + step`. */
  ghost predicate Shadowed(starts: seq<nat>, step: nat, p: nat) {
    exists k :: 0 <= k < |starts| && starts[k] <= p < starts[k] + step
  }

  /** The listed starts are occurrences from `from` on, at least a step apart. */
  ghost predicate Spaced(text: seq<Byte>, q: seq<Byte>, step: nat, from: nat, starts: seq<nat>) {
    && (forall k | 0 <= k < |starts| :: from <= starts[k] && OccursAt(text, q, starts[k]))
    && forall a, b | 0 <= a < b < |starts| :: starts[a] + step <= starts[b]
  }

  lemma SpacedCons(text: seq<Byte>, q: seq<Byte>, step: nat, at: nat, rest: seq<nat>)
    requires OccursAt(text, q, at) && Spaced(text, q, step, at + step, rest)
    ensures Spaced(text, q, step, at, [at] + rest)
  {
    var all := [at] + rest;
    forall k | 0 <= k < |all| ensures at <= all[k] && OccursAt(text, q, all[k]) && (k > 0 ==> at + step <= all[k]) {
      if k > 0 { assert all[k] == rest[k - 1]; }
    }
    forall a, b | 0 <= a < b < |all| ensures all[a] + step <= all[b] {
      if a > 0 { assert rest[a - 1] + step <= rest[b - 1]; }
    }
  }

  /** Every occurrence from `from` on is listed or begins inside a listed one. */
  ghost predicate AllShadowed(text: seq<Byte>, q: seq<Byte>, step: nat, from: nat, starts: seq<nat>) {
    forall p: nat | from <= p && OccursAt(text, q, p) :: Shadowed(starts, step, p)
  }

  lemma ShadowCons(starts: seq<nat>, step: nat, at: nat, p: nat)
    requires at <= p < at + step || Shadowed(starts, step, p)
    ensures Shadowed([at] + starts, step, p)
  {
    var all := [at] + starts;
    if at <= p < at + step {
      assert all[0] == at;
    } else {
      var k :| 0 <= k < |starts| && starts[k] <= p < starts[k] + step;
      assert all[k + 1] == starts[k];
    }
  }

  lemma {:induction false} ScanSpaced(text: seq<Byte>, q: seq<Byte>, step: nat, from: nat)
    requires q != [] && step > 0
    ensures Spaced(text, q, step, from, Scan(text, q, step, from))
    decreases |text| - from
  {
    if from + |q| <= |text| {
      if OccursAt(text, q, from) {
        ScanSpaced(text, q, step, from + step);
        SpacedCons(text, q, step, from, Scan(text, q, step, from + step));
      } else {
        ScanSpaced(text, q, step, from + 1);
      }
    }
  }

  lemma {:induction false} ScanShadows(text: seq<Byte>, q: seq<Byte>, step: nat, from: nat, p: nat)
    requires q != [] && step > 0 && from <= p && OccursAt(text, q, p)
    ensures Shadowed(Scan(text, q, step, from), step, p)
    decreases |text| - from
  {
    if OccursAt(text, q, from) {
      if from + step <= p { ScanShadows(text, q, step, from + step, p); }
      ShadowCons(Scan(text, q, step, from + step), step, from, p);
    } else {
      ScanShadows(text, q, step, from + 1, p);
    }
  }

  /** Stepping over each match, the scan lists occurrences that do not overlap, and
      every occurrence is listed or begins inside a listed one: the greedy choice. */
  lemma ScanGreedy(text: seq<Byte>, q: seq<Byte>, step: nat, from: nat)
    requires q != [] && step > 0
    ensures Spaced(text, q, step, from, Scan(text, q, step, from))
    ensures AllShadowed(text, q, step, from, Scan(text, q, step, from))
  {
    ScanSpaced(text, q, step, from);
    forall p: nat | from <= p && OccursAt(text, q, p) ensures Shadowed(Scan(text, q, step, from), step, p) {
      ScanShadows(text, q, step, from, p);
    }
  }

  /** With a step of one, the scan lists exactly the occurrences, in order. */
  lemma ScanAll(text: seq<Byte>, q: seq<Byte>, from: nat, p: nat)
    requires q != []
    ensures p in Scan(text, q, 1, from) <==> from <= p && OccursAt(text, q, p)
  {
    ScanGreedy(text, q, 1, from);
    if from <= p && OccursAt(text, q, p) {
      assert Shadowed(Scan(text, q, 1, from), 1, p);
    }
  }

  function HitsAt(file: nat, q: seq<Byte>, starts: seq<nat>): (r: seq<Hit>)
    ensures |r| == |starts| && forall k | 0 <= k < |r| :: r[k] == Hit(file, starts[k], starts[k] + |q|)
  {
    seq(|starts|, k requires 0 <= k < |starts| => Hit(file, starts[k], starts[k] + |q|))
  }

  /** The hits of a file whose next start may be `from`. */
  function HitsFrom(file: nat, text: seq<Byte>, q: seq<Byte>, step: nat, from: nat): seq<Hit>
    requires q != [] && step > 0
  {
    HitsAt(file, q, Scan(text, q, step, from))
  }

  // ----- one window -----

  /** `window` bytes of candidate starts from `base` on, with enough text behind them. */
  ghost predicate WindowReadable(text: seq<Byte>, q: seq<Byte>, base: nat, window: nat, end: nat) {
    && base <= end <= |text|
    && forall p | base <= p < base + window && OccursAt(text, q, p) :: p + |q| <= end
  }

  lemma InView(text: seq<Byte>, q: seq<Byte>, base: nat, end: nat, k: nat)
    requires base <= end <= |text| && q != []
    ensures OccursAt(text[base..end], q, k) <==> OccursAt(text, q, base + k) && base + k + |q| <= end
  {
    if k + |q| <= end - base { SliceOfSlice(text, base, end, k, k + |q|); }
  }

  lemma FirstInView(text: seq<Byte>, q: seq<Byte>, base: nat, window: nat, end: nat, pos: nat, r: Option<nat>)
    requires q != [] && WindowReadable(text, q, base, window, end) && pos < window
    requires FirstIn(text[base..end], q, pos, window, r)
    ensures FirstIn(text, q, base + pos, base + window, if r.Some? then Some(base + r.value) else None)
  {
    forall k | base + pos <= k < base + window
      ensures OccursAt(text, q, k) <==> OccursAt(text[base..end], q, k - base)
    {
      InView(text, q, base, end, k - base);
    }
  }

  ghost predicate Below(limit: nat, out: seq<Hit>) {
    limit == 0 || |out| < limit
  }

  /** `out` was cut off at the limit, inside `all`. */
  ghost predicate CutAt(limit: nat, out: seq<Hit>, all: seq<Hit>) {
    limit > 0 && |out| == limit && |out| <= |all| && out == all[..|out|]
  }

  /** What is out, and what remains of the file from `from` on, is `all`. */
  ghost predicate Split(all: seq<Hit>, out: seq<Hit>, file: nat, text: seq<Byte>, q: seq<Byte>, step: nat, from: nat)
    requires q != [] && step > 0
  {
    all == out + HitsFrom(file, text, q, step, from)
  }

  lemma SplitPush(all: seq<Hit>, out: seq<Hit>, file: nat, text: seq<Byte>, q: seq<Byte>, step: nat, from: nat, p: nat)
    requires q != [] && step > 0 && from <= p && OccursAt(text, q, p) && NoneIn(text, q, from, p)
    requires Split(all, out, file, text, q, step, from)
    ensures Split(all, out + [Hit(file, p, p + |q|)], file, text, q, step, p + step)
    ensures |out| < |all| && all[..|out| + 1] == out + [Hit(file, p, p + |q|)]
  {
    ScanStep(text, q, step, from, p);
    assert HitsFrom(file, text, q, step, from) == [Hit(file, p, p + |q|)] + HitsFrom(file, text, q, step, p + step);
    assert all == (out + [Hit(file, p, p + |q|)]) + HitsFrom(file, text, q, step, p + step);
  }

  lemma SplitSkip(all: seq<Hit>, out: seq<Hit>, file: nat, text: seq<Byte>, q: seq<Byte>, step: nat, a: nat, b: nat)
    requires q != [] && step > 0 && a <= b && NoneIn(text, q, a, b) && Split(all, out, file, text, q, step, a)
    ensures Split(all, out, file, text, q, step, b)
  {
    ScanSkip(text, q, step, a, b);
  }

  function StepOf(overlapping: bool, q: seq<Byte>): nat {
    if overlapping then 1 else |q|
  }

  /** The first hit of the window from `pos` on, as an absolute position. */
  method FindInWindow(text: seq<Byte>, q: seq<Byte>, anchor: nat, base: nat, window: nat, end: nat, pos: nat) returns (at: Option<nat>)
    requires q != [] && anchor < |q| && WindowReadable(text, q, base, window, end) && pos < window
    ensures match at
      case Some(p) => base + pos <= p < base + window && OccursAt(text, q, p) && NoneIn(text, q, base + pos, p)
      case None => NoneIn(text, q, base + pos, base + window)
  {
    var r := AnchorFind(text[base..end], q, anchor, pos, window);
    FirstInView(text, q, base, window, end, pos, r);
    at := if r.Some? then Some(base + r.value) else None;
  }

  /** One window's verification loop. `track` says whether a hit that begins before `n`,
      the end of the last hit in the file, is passed over; `resume` is where the file's
      remaining hits begin. */
  method ScanWindow(file: nat, text: seq<Byte>, q: seq<Byte>, anchor: nat, base: nat, window: nat, end: nat,
    overlapping: bool, track: bool, n: nat, limit: nat, before: seq<Hit>)
    returns (out: seq<Hit>, next: nat, full: bool, ghost resume: nat)
    requires q != [] && anchor < |q| && WindowReadable(text, q, base, window, end) && Below(limit, before)
    requires overlapping ==> !track
    requires !track ==> n == 0
    ensures
      var all := before + HitsFrom(file, text, q, StepOf(overlapping, q), Max(n, base));
      if full then CutAt(limit, out, all) else Below(limit, out) && Split(all, out, file, text, q, StepOf(overlapping, q), resume)
    ensures !full ==> base + window <= resume && (overlapping || track ==> resume == Max(next, base + window))
    ensures !track ==> next == 0
  {
    ghost var step := StepOf(overlapping, q);
    ghost var all := before + HitsFrom(file, text, q, step, Max(n, base));
    var pos := 0;
    out, next, full, resume := before, n, false, Max(n, base);
    while pos < window
      invariant Below(limit, out) && Split(all, out, file, text, q, step, resume)
      invariant resume == Max(next, base + pos)
      invariant !track ==> next == 0
      invariant overlapping ==> pos <= window
      invariant track && pos > window ==> base + pos <= next
      decreases window - pos
    {
      var at := FindInWindow(text, q, anchor, base, window, end, pos);
      if at.None? {
        SplitSkip(all, out, file, text, q, step, resume, Max(next, base + window));
        pos, resume := window, Max(next, base + window);
      } else if track && at.value < next {
        pos := at.value - base + 1;
      } else {
        SplitPush(all, out, file, text, q, step, resume, at.value);
        out := out + [Hit(file, at.value, at.value + |q|)];
        if limit != 0 && |out| >= limit {
          full := true;
          return;
        }
        if track {
          next := at.value + |q|;
        }
        pos := at.value - base + (if overlapping then 1 else |q|);
        resume := at.value + step;
      }
    }
  }
}
