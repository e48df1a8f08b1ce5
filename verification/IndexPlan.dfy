/** Which q-gram rows a query probes, and the chunks and blocks that survive them. */
module IndexPlan {
  import opened Basics
  import opened IndexModel
  import opened IndexQuery

  // ----- ranking the rows of a literal -----

  type Ranked = (U32, nat)

  predicate StatsShaped(x: Index) {
    |x.stats.bucketFrequency| == BUCKETS && |x.stats.bucketChunks| == BUCKETS
  }

  /** The chunk count expected of a gram: its exact count, widened by its bucket's. */
  function RankOf(hash: Hash, x: Index, g: Gram): Ranked
    requires StatsShaped(x)
  {
    var h := hash(g);
    var exact := if x.stats.ready && g in x.stats.grams then x.stats.grams[g].chunks else |x.chunks|;
    var bucket := if x.stats.ready then x.stats.bucketFrequency[h % BUCKETS] else |x.chunks|;
    (h, Max(exact, bucket))
  }

  /** The ranked rows of the grams of `q` that begin before `n`. */
  function RankedRows(hash: Hash, x: Index, q: seq<Byte>, n: nat): (r: seq<Ranked>)
    requires StatsShaped(x) && n + 3 <= |q|
    ensures |r| == n && forall j: nat | j < n :: r[j] == RankOf(hash, x, GramAt(q, j))
  {
    if n == 0 then [] else RankedRows(hash, x, q, n - 1) + [RankOf(hash, x, GramAt(q, n - 1))]
  }

  predicate Cheaper(a: Ranked, b: Ranked) {
    a.1 < b.1 || (a.1 == b.1 && a.0 <= b.0)
  }

  predicate RankSorted(s: seq<Ranked>) {
    forall a, b | 0 <= a < b < |s| :: Cheaper(s[a], s[b])
  }

  function InsertRanked(e: Ranked, s: seq<Ranked>): (r: seq<Ranked>)
    requires RankSorted(s)
    ensures RankSorted(r) && forall y: Ranked :: y in r <==> y == e || y in s
  {
    if s == [] then [e]
    else if Cheaper(e, s[0]) then [e] + s
    else
      var rest := InsertRanked(e, s[1..]);
      assert forall a | 0 <= a < |rest| :: rest[a] in rest;
      assert forall y :: y in s <==> y == s[0] || y in s[1..];
      [s[0]] + rest
  }

  function SortRanked(s: seq<Ranked>): (r: seq<Ranked>)
    ensures RankSorted(r) && forall y: Ranked :: y in r <==> y in s
  {
    if s == [] then []
    else
      assert forall y :: y in s <==> y == Last(s) || y in Front(s);
      InsertRanked(Last(s), SortRanked(Front(s)))
  }

  /** The hashes in order, each where it comes first. */
  function KeepFirst(s: seq<Ranked>): (r: seq<U32>)
    ensures forall a, b | 0 <= a < b < |r| :: r[a] != r[b]
    ensures forall h: U32 :: h in r <==> exists i :: 0 <= i < |s| && s[i].0 == h
  {
    if s == [] then []
    else
      var prior := KeepFirst(Front(s));
      assert forall i | 0 <= i < |Front(s)| :: Front(s)[i] == s[i];
      assert Last(s) == s[|s| - 1];
      if Last(s).0 in prior then prior else prior + [Last(s).0]
  }

  /** All distinct hashes of the grams of `q`. */
  ghost function HashSet(hash: Hash, q: seq<Byte>): (r: set<U32>)
    ensures forall h: U32 :: h in r <==> HashOf(hash, q, h)
  {
    set j: nat | j < |q| && GramIn(q, 0, |q|, j) :: hash(GramAt(q, j))
  }

  /** Every configured row up to the budget; a budget of 0 means all of them. */
  function Budget(planned: nat, available: nat): (k: nat)
    ensures k <= available
  {
    if planned == 0 then available else Min(planned, available)
  }

  function Take<T>(s: seq<T>, n: nat): seq<T> {
    if n <= |s| then s[..n] else s
  }

  /** The rows a query probes, cheapest first. */
  function Planned(hash: Hash, x: Index, q: seq<Byte>): seq<U32>
    requires StatsShaped(x)
  {
    if |q| < 4 then []
    else
      var rows := KeepFirst(SortRanked(RankedRows(hash, x, q, |q| - 3)));
      Take(rows, Budget(x.options.plannedQgrams, |rows|))
  }

  lemma DistinctCount<T>(s: seq<T>, all: set<T>)
    requires forall a, b | 0 <= a < b < |s| :: s[a] != s[b]
    requires forall y :: y in all <==> y in s
    ensures |all| == |s|
  {
    if s != [] {
      assert forall i | 0 <= i < |Front(s)| :: Front(s)[i] == s[i];
      assert Last(s) == s[|s| - 1];
      DistinctCount(Front(s), all - {Last(s)});
    }
  }

  lemma RankedHashes(hash: Hash, x: Index, q: seq<Byte>)
    requires StatsShaped(x) && |q| >= 4
    ensures forall h: U32 :: h in KeepFirst(SortRanked(RankedRows(hash, x, q, |q| - 3))) <==> HashOf(hash, q, h)
  {
    var ranked := RankedRows(hash, x, q, |q| - 3);
    var sorted := SortRanked(ranked);
    forall h: U32 ensures h in KeepFirst(sorted) <==> HashOf(hash, q, h) {
      if i :| 0 <= i < |sorted| && sorted[i].0 == h {
        assert sorted[i] in ranked;
        var j: nat :| j < |ranked| && ranked[j] == sorted[i];
        assert GramIn(q, 0, |q|, j);
      }
      if HashOf(hash, q, h) {
        var j: nat :| GramIn(q, 0, |q|, j) && hash(GramAt(q, j)) == h;
        assert ranked[j] in sorted;
        var i :| 0 <= i < |sorted| && sorted[i] == ranked[j];
        assert sorted[i].0 == h;
      }
    }
  }

  /** The plan is a set of distinct rows of the literal, as many as the budget allows,
      and never none of them. */
  lemma PlannedRows(hash: Hash, x: Index, q: seq<Byte>)
    requires StatsShaped(x)
    ensures forall h | h in Planned(hash, x, q) :: HashOf(hash, q, h)
    ensures forall a, b | 0 <= a < b < |Planned(hash, x, q)| :: Planned(hash, x, q)[a] != Planned(hash, x, q)[b]
    ensures |q| >= 4 ==> |Planned(hash, x, q)| == Budget(x.options.plannedQgrams, |HashSet(hash, q)|)
    ensures |q| >= 4 ==> Planned(hash, x, q) != []
  {
    if |q| >= 4 {
      RankedHashes(hash, x, q);
      var rows := KeepFirst(SortRanked(RankedRows(hash, x, q, |q| - 3)));
      DistinctCount(rows, HashSet(hash, q));
      assert GramIn(q, 0, |q|, 0);
      assert HashOf(hash, q, hash(GramAt(q, 0)));
    }
  }

  ghost predicate BeatsFrom(s: seq<Ranked>, i: nat, h: U32, other: U32) {
    i < |s| && s[i].0 == h && forall j | 0 <= j < |s| && s[j].0 == other :: Cheaper(s[i], s[j])
  }

  /** Some entry of `h` is cheaper than every entry of `other`. */
  ghost predicate Beats(s: seq<Ranked>, h: U32, other: U32) {
    exists i: nat :: BeatsFrom(s, i, h, other)
  }

  lemma {:induction false} FirstBeats(s: seq<Ranked>, a: nat, b: nat)
    requires RankSorted(s) && a < b < |KeepFirst(s)|
    ensures Beats(s, KeepFirst(s)[a], KeepFirst(s)[b])
  {
    var prior, front := KeepFirst(Front(s)), Front(s);
    if b < |prior| {
      FirstBeats(front, a, b);
      var i: nat :| BeatsFrom(front, i, prior[a], prior[b]);
      BeatsStays(s, i, prior[a], prior[b]);
    } else {
      BeatsLatest(s, prior[a]);
    }
  }

  lemma BeatsStays(s: seq<Ranked>, i: nat, h: U32, other: U32)
    requires RankSorted(s) && s != [] && BeatsFrom(Front(s), i, h, other)
    ensures BeatsFrom(s, i, h, other)
  {
    assert Front(s)[i] == s[i];
    forall j | 0 <= j < |s| && s[j].0 == other ensures Cheaper(s[i], s[j]) {
      if j < |Front(s)| { assert Front(s)[j] == s[j]; }
    }
  }

  /** A hash that first comes last is beaten by every earlier one. */
  lemma BeatsLatest(s: seq<Ranked>, h: U32)
    requires RankSorted(s) && s != [] && h in KeepFirst(Front(s)) && Last(s).0 !in KeepFirst(Front(s))
    ensures Beats(s, h, Last(s).0)
  {
    var front := Front(s);
    var i :| 0 <= i < |front| && front[i].0 == h;
    assert forall j | 0 <= j < |front| :: front[j].0 in KeepFirst(front);
    assert forall j | 0 <= j < |front| :: front[j] == s[j];
    assert s[i] == front[i];
    assert BeatsFrom(s, i, h, Last(s).0);
  }

  /** Every row left out is at least as dear as every row kept. */
  lemma PlannedCheapest(hash: Hash, x: Index, q: seq<Byte>, kept: U32, dropped: U32)
    requires StatsShaped(x) && |q| >= 4
    requires kept in Planned(hash, x, q) && HashOf(hash, q, dropped) && dropped !in Planned(hash, x, q)
    ensures Beats(SortRanked(RankedRows(hash, x, q, |q| - 3)), kept, dropped)
  {
    var sorted := SortRanked(RankedRows(hash, x, q, |q| - 3));
    var rows := KeepFirst(sorted);
    RankedHashes(hash, x, q);
    var k := Budget(x.options.plannedQgrams, |rows|);
    var a :| 0 <= a < k && rows[..k][a] == kept;
    var b :| 0 <= b < |rows| && rows[b] == dropped;
    assert forall m | 0 <= m < k :: rows[..k][m] == rows[m];
    assert forall m | 0 <= m < k :: rows[m] in rows[..k];
    FirstBeats(sorted, a, b);
  }

  /** The number of distinct rows the literal has, cut to the budget. */
  method AdaptiveK(hash: Hash, x: Index, q: seq<Byte>) returns (k: nat)
    ensures k == if |q| < 4 then 0 else Budget(x.options.plannedQgrams, |HashSet(hash, q)|)
  {
    if |q| < 4 {
      return 0;
    }
    var distinct: set<U32> := {};
    for i := 0 to |q| - 3
      invariant forall h: U32 :: h in distinct <==> exists j: nat :: GramBelow(q, i, j) && hash(GramAt(q, j)) == h
    {
      distinct := distinct + {hash(GramAt(q, i))};
      assert GramBelow(q, i + 1, i);
      assert forall j: nat :: GramBelow(q, i + 1, j) <==> (GramBelow(q, i, j) || j == i);
    }
    assert forall j: nat :: GramBelow(q, |q| - 3, j) <==> GramIn(q, 0, |q|, j);
    assert distinct == HashSet(hash, q);
    k := if x.options.plannedQgrams == 0 then |distinct| else Min(x.options.plannedQgrams, |distinct|);
  }

  predicate GramBelow(q: seq<Byte>, n: nat, j: nat) {
    j < n && j + 4 <= |q|
  }

  method PlannedHashes(hash: Hash, x: Index, q: seq<Byte>) returns (r: seq<U32>)
    requires StatsShaped(x)
    ensures r == Planned(hash, x, q)
  {
    if |q| < 4 {
      return [];
    }
    var ranked: seq<Ranked> := [];
    for i := 0 to |q| - 3
      invariant ranked == RankedRows(hash, x, q, i)
    {
      ranked := ranked + [RankOf(hash, x, GramAt(q, i))];
    }
    ranked := SortRanked(ranked);
    var rows: seq<U32> := [];
    for i := 0 to |ranked|
      invariant rows == KeepFirst(ranked[..i])
    {
      assert Front(ranked[..i + 1]) == ranked[..i];
      if ranked[i].0 !in rows {
        rows := rows + [ranked[i].0];
      }
    }
    assert ranked[..|ranked|] == ranked;
    var k := AdaptiveK(hash, x, q);
    RankedHashes(hash, x, q);
    DistinctCount(rows, HashSet(hash, q));
    r := if |rows| > k then rows[..k] else rows;
  }
}
