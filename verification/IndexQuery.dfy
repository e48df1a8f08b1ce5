/** Querying the two filter layers: which rows are probed, and which chunks and blocks
    survive the intersection of the probed rows. */
module IndexQuery {
  import opened Basics
  import opened IndexModel

  // ----- machine words -----

  function Full(bits: nat): (w: Word)
    ensures forall b :: b in w <==> 0 <= b < bits
  {
    if bits == 0 then {} else Full(bits - 1) + {bits - 1}
  }

  /** The lowest one bit at or above `k`. */
  function LowestFrom(w: Word, k: nat, bits: nat): (b: nat)
    requires k <= bits && exists b :: b in w && k <= b < bits
    ensures b in w && k <= b < bits && forall c | c in w && k <= c :: b <= c
    decreases bits - k
  {
    if k in w then k else LowestFrom(w, k + 1, bits)
  }

  /** Reads a word's one bits from the lowest up, as ids from `base` on, below `limit`. */
  method Drain(word: Word, bits: nat, base: nat, limit: nat) returns (ids: seq<nat>)
    requires word <= Full(bits)
    ensures forall a, b | 0 <= a < b < |ids| :: ids[a] < ids[b]
    ensures forall i: nat :: i in ids <==> base <= i < limit && i - base in word
  {
    var z := word;
    ids := [];
    ghost var below := 0;
    while z != {}
      invariant z <= word && (forall b | b in z :: below <= b) && forall b | b in word && below <= b :: b in z
      invariant forall a, b | 0 <= a < b < |ids| :: ids[a] < ids[b]
      invariant forall a | 0 <= a < |ids| :: ids[a] < base + below
      invariant forall i: nat :: i in ids <==> base <= i < limit && i - base in word && i - base < below
      decreases |z|
    {
      var any :| any in z;
      var b := LowestFrom(z, 0, bits);
      if base + b < limit {
        ids := ids + [base + b];
      }
      z := z - {b};
      below := b + 1;
    }
  }

  // ----- the rows a query probes -----

  predicate Increasing(s: seq<nat>) {
    forall a, b | 0 <= a < b < |s| :: s[a] < s[b]
  }

  function InsertDistinct(n: nat, s: seq<nat>): (r: seq<nat>)
    requires Increasing(s)
    ensures Increasing(r) && forall y: nat :: y in r <==> y == n || y in s
  {
    if s == [] then [n]
    else if n < s[0] then [n] + s
    else if n == s[0] then s
    else
      var rest := InsertDistinct(n, s[1..]);
      assert forall a | 0 <= a < |rest| :: rest[a] in rest;
      assert forall y: nat :: y in s <==> y == s[0] || y in s[1..];
      [s[0]] + rest
  }

  /** std::sort followed by std::unique. */
  function Distinct(s: seq<nat>): (r: seq<nat>)
    ensures Increasing(r) && forall y: nat :: y in r <==> y in s
  {
    if s == [] then [] else InsertDistinct(Last(s), Distinct(Front(s)))
  }

  /** A class of the compiled query: words of the row mask with their one bits. */
  type ClassQuery = seq<(nat, Word)>

  ghost predicate Probes(v: ClassQuery, row: nat) {
    exists k :: 0 <= k < |v| && v[k].0 == row / 64 && row % 64 in v[k].1
  }

  ghost predicate HashRow(hashes: seq<U32>, m: nat, row: nat)
    requires m > 0
  {
    exists h :: h in hashes && h % m == row
  }

  method RowsToProbe(hashes: seq<U32>, m: nat) returns (b: seq<nat>)
    requires m > 0
    ensures b == [] <==> hashes == []
    ensures forall row: nat :: row in b <==> HashRow(hashes, m, row)
  {
    var rows: seq<nat> := [];
    for k := 0 to |hashes|
      invariant |rows| == k && forall i | 0 <= i < k :: rows[i] == hashes[i] % m
    {
      rows := rows + [hashes[k] % m];
    }
    forall row: nat ensures row in rows <==> HashRow(hashes, m, row) {
      if row in rows {
        var i :| 0 <= i < |rows| && rows[i] == row;
        assert hashes[i] in hashes;
      }
      if HashRow(hashes, m, row) {
        var h :| h in hashes && h % m == row;
        var i :| 0 <= i < |hashes| && hashes[i] == h;
        assert rows[i] == row;
      }
    }
    b := Distinct(rows);
    if hashes != [] { assert rows[0] in b; }
    if b != [] { assert b[0] in rows; }
  }

  /** Rows are in order, so the bits of one word arrive together. */
  method CompileClass(hashes: seq<U32>, lg: nat) returns (v: ClassQuery)
    ensures forall row: nat :: Probes(v, row) <==> HashRow(hashes, RowsOf(lg), row)
    ensures v == [] <==> hashes == []
    ensures WholeWords(v)
  {
    var b := RowsToProbe(hashes, RowsOf(lg));
    v := [];
    for k := 0 to |b|
      invariant v == [] <==> k == 0
      invariant WholeWords(v) && forall row: nat :: Probes(v, row) <==> row in b[..k]
    {
      ghost var before := v;
      var w, bit := b[k] / 64, b[k] % 64;
      if v != [] && Last(v).0 == w {
        v := Front(v) + [(w, Last(v).1 + {bit})];
      } else {
        v := v + [(w, {bit})];
      }
      ProbesMore(before, v, w, bit);
      assert b[..k + 1] == b[..k] + [b[k]];
    }
    assert b[..|b|] == b;
  }

  predicate WholeWords(v: ClassQuery) {
    forall k | 0 <= k < |v| :: v[k].1 != {} && v[k].1 <= Full(64)
  }

  lemma ProbesMore(before: ClassQuery, v: ClassQuery, w: nat, bit: nat)
    requires bit < 64 && WholeWords(before)
    requires v == if before != [] && Last(before).0 == w then Front(before) + [(w, Last(before).1 + {bit})] else before + [(w, {bit})]
    ensures WholeWords(v)
    ensures forall row: nat :: Probes(v, row) <==> (Probes(before, row) || row == w * 64 + bit)
  {
    forall row: nat ensures Probes(v, row) <==> (Probes(before, row) || row == w * 64 + bit) {
      ProbesOneMore(before, v, w, bit, row);
    }
  }

  lemma ProbesOneMore(before: ClassQuery, v: ClassQuery, w: nat, bit: nat, row: nat)
    requires bit < 64
    requires v == if before != [] && Last(before).0 == w then Front(before) + [(w, Last(before).1 + {bit})] else before + [(w, {bit})]
    ensures Probes(v, row) <==> Probes(before, row) || row == w * 64 + bit
  {
    if k :| 0 <= k < |before| && before[k].0 == row / 64 && row % 64 in before[k].1 {
      assert v[k].0 == row / 64 && row % 64 in v[k].1;
    }
    if k :| 0 <= k < |v| && v[k].0 == row / 64 && row % 64 in v[k].1 {
      if k < |before| && row % 64 in before[k].1 { assert before[k].0 == v[k].0; }
    }
    assert v[|v| - 1].0 == w && bit in v[|v| - 1].1;
  }

  // ----- one group -----

  /** The search's scope: no listed file means every file. */
  predicate AllowsFile(eligible: seq<nat>, file: nat) {
    eligible == [] || file in eligible
  }

  /** Every probed row is set for column `li`. */
  ghost predicate Survives(g: Group, v: ClassQuery, li: nat)
    requires |g.bits| == Table(g.words, g.m) && li / 64 < g.words
  {
    forall row: nat | row < g.m && Probes(v, row) :: GroupLit(g, row, li)
  }

  /** Column `li` is still set in the running intersection. */
  predicate Alive(c: seq<Word>, li: nat)
    requires li / 64 < |c|
  {
    li % 64 in c[li / 64]
  }

  method AndRow(c: seq<Word>, g: Group, row: nat) returns (d: seq<Word>)
    requires |c| == g.words && row < g.m && |g.bits| == Table(g.words, g.m)
    ensures |d| == |c| && forall j | 0 <= j < |c| :: d[j] <= c[j]
    ensures forall li: nat | li / 64 < g.words :: Alive(d, li) <==> Alive(c, li) && GroupLit(g, row, li)
  {
    TableIs(g.words, row);
    RowFits(row, g.m, g.words);
    var p := row * g.words;
    d := c;
    for j := 0 to g.words
      invariant |d| == |c|
      invariant forall i | 0 <= i < |c| :: d[i] == if i < j then c[i] * g.bits[p + i] else c[i]
    {
      d := d[j := d[j] * g.bits[p + j]];
    }
  }

  /** The intersection so far: all rows of the first `k` words of the query, and of word
      `k` those whose bits are no longer in `left`. */
  ghost predicate Intersected(c: seq<Word>, g: Group, v: ClassQuery, k: nat, left: Word)
    requires |c| == g.words && |g.bits| == Table(g.words, g.m) && k <= |v|
  {
    && (forall j | 0 <= j < |c| :: c[j] <= Full(64))
    && forall li: nat | li / 64 < g.words :: Alive(c, li) <==> li < |g.gids| && LitUpTo(g, v, k, left, li)
  }

  ghost predicate LitUpTo(g: Group, v: ClassQuery, k: nat, left: Word, li: nat)
    requires |g.bits| == Table(g.words, g.m) && k <= |v| && li / 64 < g.words
  {
    && (forall i, b | 0 <= i < k && b in v[i].1 :: RowLit(g, v[i].0 * 64 + b, li))
    && (k < |v| ==> forall b | b in v[k].1 && b !in left :: RowLit(g, v[k].0 * 64 + b, li))
  }

  ghost predicate RowLit(g: Group, row: nat, li: nat)
    requires |g.bits| == Table(g.words, g.m) && li / 64 < g.words
  {
    row < g.m && GroupLit(g, row, li)
  }

  /** The query only probes rows the group has. */
  predicate InGroup(v: ClassQuery, m: nat) {
    forall k, b | 0 <= k < |v| && b in v[k].1 :: b < 64 && v[k].0 * 64 + b < m
  }

  lemma AllRowsLit(g: Group, v: ClassQuery, li: nat)
    requires |g.bits| == Table(g.words, g.m) && li / 64 < g.words && InGroup(v, g.m)
    ensures LitUpTo(g, v, |v|, {}, li) <==> Survives(g, v, li)
  {
    if LitUpTo(g, v, |v|, {}, li) {
      forall row: nat | row < g.m && Probes(v, row) ensures GroupLit(g, row, li) {
        var k :| 0 <= k < |v| && v[k].0 == row / 64 && row % 64 in v[k].1;
        assert RowLit(g, v[k].0 * 64 + row % 64, li);
      }
    }
    if Survives(g, v, li) {
      forall i, b | 0 <= i < |v| && b in v[i].1 ensures RowLit(g, v[i].0 * 64 + b, li) {
        assert Probes(v, v[i].0 * 64 + b);
      }
    }
  }

  lemma RowTaken(c: seq<Word>, d: seq<Word>, g: Group, v: ClassQuery, k: nat, left: Word, b: nat)
    requires |c| == g.words && |g.bits| == Table(g.words, g.m) && k < |v| && InGroup(v, g.m)
    requires Intersected(c, g, v, k, left) && left <= v[k].1 && b in left
    requires |d| == |c| && forall j | 0 <= j < |c| :: d[j] <= c[j]
    requires forall li: nat | li / 64 < g.words :: Alive(d, li) <==> Alive(c, li) && GroupLit(g, v[k].0 * 64 + b, li)
    ensures Intersected(d, g, v, k, left - {b})
  {
    var row := v[k].0 * 64 + b;
    forall li: nat | li / 64 < g.words ensures LitUpTo(g, v, k, left - {b}, li) <==> LitUpTo(g, v, k, left, li) && GroupLit(g, row, li) {
      assert RowLit(g, row, li) <==> GroupLit(g, row, li);
      if LitUpTo(g, v, k, left - {b}, li) { assert RowLit(g, v[k].0 * 64 + b, li); }
    }
  }

  lemma WordTaken(c: seq<Word>, g: Group, v: ClassQuery, k: nat)
    requires |c| == g.words && |g.bits| == Table(g.words, g.m) && k < |v| && Intersected(c, g, v, k, {})
    ensures Intersected(c, g, v, k + 1, if k + 1 < |v| then v[k + 1].1 else {})
  {
    forall li: nat | li / 64 < g.words
      ensures LitUpTo(g, v, k, {}, li) <==> LitUpTo(g, v, k + 1, if k + 1 < |v| then v[k + 1].1 else {}, li) {}
  }

  /** Nothing survives once every word of the intersection is zero. */
  lemma NoneLeft(c: seq<Word>, g: Group, v: ClassQuery, k: nat)
    requires |c| == g.words && |g.bits| == Table(g.words, g.m) && k < |v| && InGroup(v, g.m) && Intersected(c, g, v, k, {})
    requires WordsFor(|g.gids|) <= g.words && forall j | 0 <= j < |c| :: c[j] == {}
    ensures forall li: nat | li < |g.gids| :: !Survives(g, v, li)
  {
    forall li: nat | li < |g.gids| ensures !Survives(g, v, li) {
      assert li / 64 < g.words && !Alive(c, li);
      AllRowsLit(g, v, li);
    }
  }

  /** A column is there when its word is full, or its bit is below the cut of the last word. */
  lemma ColumnsCut(count: nat, li: nat)
    requires li / 64 < WordsFor(count)
    ensures li < count <==> li / 64 < WordsFor(count) - 1 || count % 64 == 0 || li % 64 < count % 64
  {}

  /** The all-ones words, the last one cut at the number of columns. */
  method AllOnes(g: Group, v: ClassQuery) returns (c: seq<Word>)
    requires |g.bits| == Table(g.words, g.m) && g.words == WordsFor(|g.gids|) && g.gids != [] && v != []
    ensures |c| == g.words && Intersected(c, g, v, 0, v[0].1)
  {
    c := seq(g.words, _ => Full(64));
    if |g.gids| % 64 != 0 {
      c := c[|c| - 1 := Full(|g.gids| % 64)];
    }
    forall li: nat | li / 64 < g.words ensures Alive(c, li) <==> li < |g.gids| && LitUpTo(g, v, 0, v[0].1, li) {
      ColumnsCut(|g.gids|, li);
      assert LitUpTo(g, v, 0, v[0].1, li);
    }
    assert forall j | 0 <= j < |c| :: c[j] <= Full(64);
  }

  /** The running intersection over all probed rows; `none` when it died out early. */
  method Intersect(g: Group, v: ClassQuery) returns (none: bool, c: seq<Word>)
    requires |g.bits| == Table(g.words, g.m) && g.words == WordsFor(|g.gids|) && g.gids != [] && v != [] && InGroup(v, g.m)
    ensures none ==> forall li: nat | li < |g.gids| :: !Survives(g, v, li)
    ensures !none ==> |c| == g.words && Intersected(c, g, v, |v|, {})
  {
    c := AllOnes(g, v);
    for k := 0 to |v|
      invariant |c| == g.words && Intersected(c, g, v, k, if k < |v| then v[k].1 else {})
    {
      var mask := v[k].1;
      while mask != {}
        invariant mask <= v[k].1 && |c| == g.words && Intersected(c, g, v, k, mask)
        decreases |mask|
      {
        var any :| any in mask;
        assert any < 64;
        var bit := LowestFrom(mask, 0, 64);
        var d := AndRow(c, g, v[k].0 * 64 + bit);
        RowTaken(c, d, g, v, k, mask, bit);
        c := d;
        mask := mask - {bit};
      }
      if forall j | 0 <= j < |c| :: c[j] == {} {
        NoneLeft(c, g, v, k);
        return true, c;
      }
      WordTaken(c, g, v, k);
    }
    none := false;
  }

  /** The chunk in column `li`, when it is in scope and survives. */
  ghost predicate KeptColumn(x: Index, g: Group, v: ClassQuery, eligible: seq<nat>, li: nat)
    requires Shaped(g, x.chunks) && li < |g.gids|
  {
    AllowsFile(eligible, x.chunks[g.gids[li]].file) && Survives(g, v, li)
  }

  ghost predicate KeptIds(x: Index, g: Group, v: ClassQuery, eligible: seq<nat>, n: nat, out: seq<nat>)
    requires Shaped(g, x.chunks) && n <= |g.gids|
  {
    forall ci: nat :: ci in out <==> exists li: nat :: li < n && g.gids[li] == ci && KeptColumn(x, g, v, eligible, li)
  }

  /** The columns of a group that survive every probed row, as chunk ids. */
  method GroupCandidates(x: Index, g: Group, v: ClassQuery, eligible: seq<nat>) returns (out: seq<nat>)
    requires Shaped(g, x.chunks) && InGroup(v, g.m)
    ensures KeptIds(x, g, v, eligible, |g.gids|, out)
  {
    out := [];
    if g.gids == [] {
      return;
    }
    if v == [] {
      for li := 0 to |g.gids|
        invariant KeptIds(x, g, v, eligible, li, out)
      {
        if AllowsFile(eligible, x.chunks[g.gids[li]].file) {
          out := out + [g.gids[li]];
        }
        assert KeptColumn(x, g, v, eligible, li) <==> AllowsFile(eligible, x.chunks[g.gids[li]].file);
      }
      return;
    }
    var none, c := Intersect(g, v);
    if none {
      return;
    }
    for w := 0 to g.words
      invariant KeptIds(x, g, v, eligible, Min(w * 64, |g.gids|), out)
    {
      var ids := Drain(c[w], 64, w * 64, |g.gids|);
      out := KeepColumns(x, g, v, eligible, c, w, ids, out);
    }
  }

  /** A column that survived is kept when its file is in scope. */
  method KeepColumn(x: Index, g: Group, v: ClassQuery, eligible: seq<nat>, ghost c: seq<Word>, li: nat, before: seq<nat>) returns (out: seq<nat>)
    requires Shaped(g, x.chunks) && InGroup(v, g.m) && g.words == |c| && Intersected(c, g, v, |v|, {})
    requires li < |g.gids| && Alive(c, li) && KeptIds(x, g, v, eligible, li, before)
    ensures KeptIds(x, g, v, eligible, li + 1, out)
  {
    out := before;
    AllRowsLit(g, v, li);
    var ci := g.gids[li];
    if AllowsFile(eligible, x.chunks[ci].file) {
      out := out + [ci];
    }
    KeptMore(x, g, v, eligible, li, before, out);
  }

  lemma IdsBounded(g: Group, v: ClassQuery, c: seq<Word>, w: nat, ids: seq<nat>)
    requires InGroup(v, g.m) && |g.bits| == Table(g.words, g.m) && w < g.words == |c| && Intersected(c, g, v, |v|, {})
    requires forall i: nat :: i in ids <==> w * 64 <= i < |g.gids| && i - w * 64 in c[w]
    ensures forall k | 0 <= k < |ids| :: w * 64 <= ids[k] < Min(w * 64 + 64, |g.gids|)
  {
    forall k | 0 <= k < |ids| ensures w * 64 <= ids[k] < Min(w * 64 + 64, |g.gids|) {
      assert ids[k] in ids;
      assert c[w] <= Full(64);
    }
  }

  method KeepColumns(x: Index, g: Group, v: ClassQuery, eligible: seq<nat>, c: seq<Word>, w: nat, ids: seq<nat>, before: seq<nat>)
    returns (out: seq<nat>)
    requires Shaped(g, x.chunks) && InGroup(v, g.m) && w < g.words == |c| && Intersected(c, g, v, |v|, {})
    requires Increasing(ids) && forall i: nat :: i in ids <==> w * 64 <= i < |g.gids| && i - w * 64 in c[w]
    requires KeptIds(x, g, v, eligible, Min(w * 64, |g.gids|), before)
    ensures KeptIds(x, g, v, eligible, Min(w * 64 + 64, |g.gids|), out)
  {
    out := before;
    ghost var end := Min(w * 64 + 64, |g.gids|);
    IdsBounded(g, v, c, w, ids);
    SkipDead(x, g, v, eligible, c, w, Min(w * 64, |g.gids|), StopAt(ids, 0, end), ids, out);
    for k := 0 to |ids|
      invariant KeptIds(x, g, v, eligible, StopAt(ids, k, end), out)
    {
      assert ids[k] in ids && Alive(c, ids[k]);
      out := KeepColumn(x, g, v, eligible, c, ids[k], out);
      SkipDead(x, g, v, eligible, c, w, ids[k] + 1, StopAt(ids, k + 1, end), ids, out);
    }
  }

  /** The next column to be read, or the end of the word. */
  ghost function StopAt(ids: seq<nat>, k: nat, end: nat): nat {
    if k < |ids| then ids[k] else end
  }

  lemma KeptMore(x: Index, g: Group, v: ClassQuery, eligible: seq<nat>, li: nat, was: seq<nat>, out: seq<nat>)
    requires Shaped(g, x.chunks) && li < |g.gids| && KeptIds(x, g, v, eligible, li, was)
    requires out == if KeptColumn(x, g, v, eligible, li) then was + [g.gids[li]] else was
    ensures KeptIds(x, g, v, eligible, li + 1, out)
  {}

  /** Columns between two that are read have died, so they are not kept. */
  lemma SkipDead(x: Index, g: Group, v: ClassQuery, eligible: seq<nat>, c: seq<Word>, w: nat, from: nat, to: nat, ids: seq<nat>, out: seq<nat>)
    requires Shaped(g, x.chunks) && InGroup(v, g.m) && w < g.words == |c| && Intersected(c, g, v, |v|, {})
    requires forall i: nat :: i in ids <==> w * 64 <= i < |g.gids| && i - w * 64 in c[w]
    requires from <= to <= |g.gids| && KeptIds(x, g, v, eligible, from, out)
    requires forall li: nat | from <= li < to :: w * 64 <= li < w * 64 + 64 && li !in ids
    ensures KeptIds(x, g, v, eligible, to, out)
  {
    forall li: nat | from <= li < to ensures !KeptColumn(x, g, v, eligible, li) {
      AllRowsLit(g, v, li);
      assert li !in ids;
      assert li / 64 == w && li % 64 == li - w * 64;
      assert li - w * 64 !in c[w];
      assert !Alive(c, li);
    }
  }
}
