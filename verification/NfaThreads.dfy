/** Thread lists: the closure table of plain programs, and adding one seed thread
    to a list, by the table or by the explicit stack, under generation stamps. */
module NfaThreads {
  import opened Basics
  import opened RegexAst
  import opened NfaCode
  import opened NfaExpand

  const MAX_TABLE_PCS: nat := 256
  const MAX_TABLE_ENTRIES: nat := 16384

  // ----- the closure table -----

  /** No assertion and no group marker: expansion looks at no text. */
  predicate Plain(p: Code) {
    forall k | 0 <= k < |p| :: !p[k].op.Test? && !p[k].op.SaveStart? && !p[k].op.SaveEnd?
  }

  const NO_TEXT: Context := Context([], 0, 0, 0, 0, 0, false, false, 0, false, 0, 0)

  /** The leaves one instruction leads to, in order of preference. */
  ghost function Row(p: Code, source: int): seq<int> {
    Expand(p, NO_TEXT, 0, [source], {}).0
  }

  ghost function RowTotal(p: Code, upTo: nat): nat {
    if upTo == 0 then 0 else RowTotal(p, upTo - 1) + |Row(p, upTo - 1)|
  }

  lemma {:induction false} PlainExpand(p: Code, c: Context, pos: int, c': Context, pos': int, stack: seq<int>, seen: set<int>)
    requires Plain(p) && seen <= Pcs(p)
    ensures Expand(p, c, pos, stack, seen) == Expand(p, c', pos', stack, seen)
    decreases Pcs(p) - seen, |stack|
  {
    if stack != [] {
      var pc, rest := Last(stack), Front(stack);
      if !InRange(p, pc) || pc in seen {
        PlainExpand(p, c, pos, c', pos', rest, seen);
      } else {
        PlainExpand(p, c, pos, c', pos', rest + Pushed(p, c, pos, pc), seen + {pc});
        assert IsLeaf(p, pc) ==> rest + Pushed(p, c, pos, pc) == rest;
      }
    }
  }

  /** `offsets` and `pcs` are no table at all, or hold every row. */
  ghost predicate TableOk(p: Code, offsets: seq<nat>, pcs: seq<int>) {
    offsets != [] ==>
      && Plain(p) && |offsets| == |p| + 1
      && forall s {:trigger offsets[s]} | 0 <= s < |p| ::
           offsets[s] <= offsets[s + 1] <= |pcs| && pcs[offsets[s]..offsets[s + 1]] == Row(p, s)
  }

  method BuildClosures(p: Code, groups: nat) returns (offsets: seq<nat>, pcs: seq<int>)
    ensures TableOk(p, offsets, pcs)
    ensures offsets != [] <==> groups == 0 && 0 < |p| <= MAX_TABLE_PCS && Plain(p) && RowTotal(p, |p|) <= MAX_TABLE_ENTRIES
  {
    offsets, pcs := [], [];
    if groups != 0 || p == [] || |p| > MAX_TABLE_PCS {
      return;
    }
    for k := 0 to |p|
      invariant forall i | 0 <= i < k :: !p[i].op.Test? && !p[i].op.SaveStart? && !p[i].op.SaveEnd?
    {
      if p[k].op.Test? || p[k].op.SaveStart? || p[k].op.SaveEnd? {
        return;
      }
    }
    offsets := [0];
    for source := 0 to |p|
      invariant |offsets| == source + 1 && offsets[source] == |pcs| == RowTotal(p, source) <= MAX_TABLE_ENTRIES
      invariant forall s {:trigger offsets[s]} | 0 <= s < source ::
        offsets[s] <= offsets[s + 1] <= |pcs| && pcs[offsets[s]..offsets[s + 1]] == Row(p, s)
    {
      ghost var before := pcs;
      RowTotalGrows(p, source + 1, |p|);
      var fits;
      fits, pcs := ListRow(p, source, pcs);
      if !fits {
        offsets, pcs := [], [];
        return;
      }
      RowsKept(p, before, pcs, offsets, source);
      offsets := offsets + [|pcs|];
    }
  }

  lemma RowsKept(p: Code, before: seq<int>, pcs: seq<int>, offsets: seq<nat>, source: nat)
    requires source < |p| && |offsets| == source + 1 && offsets[source] == |before| && pcs == before + Row(p, source)
    requires forall s {:trigger offsets[s]} | 0 <= s < source ::
      offsets[s] <= offsets[s + 1] <= |before| && before[offsets[s]..offsets[s + 1]] == Row(p, s)
    ensures
      var offsets' := offsets + [|pcs|];
      forall s {:trigger offsets'[s]} | 0 <= s <= source ::
        offsets'[s] <= offsets'[s + 1] <= |pcs| && pcs[offsets'[s]..offsets'[s + 1]] == Row(p, s)
  {
    var offsets' := offsets + [|pcs|];
    forall s {:trigger offsets'[s]} | 0 <= s <= source
      ensures offsets'[s] <= offsets'[s + 1] <= |pcs| && pcs[offsets'[s]..offsets'[s + 1]] == Row(p, s)
    {
      if s < source {
        assert offsets[s] <= offsets[s + 1] <= |before|;
        assert pcs[offsets[s]..offsets[s + 1]] == before[offsets[s]..offsets[s + 1]];
      } else {
        assert pcs[|before|..|pcs|] == Row(p, source);
      }
    }
  }

  /** Appends one row of the table, unless the entry limit is reached. */
  method ListRow(p: Code, source: int, upTo: seq<int>) returns (fits: bool, pcs: seq<int>)
    requires Plain(p) && |upTo| <= MAX_TABLE_ENTRIES
    ensures fits <==> |upTo| + |Row(p, source)| <= MAX_TABLE_ENTRIES
    ensures fits ==> pcs == upTo + Row(p, source)
  {
    fits, pcs := true, upTo;
    var visited := new bool[|p|](_ => false);
    ghost var seen: set<int> := {};
    var stack := [source];
    assert Row(p, source) == [] + Expand(p, NO_TEXT, 0, stack, seen).0;
    while stack != []
      invariant seen <= Pcs(p) && forall pc | 0 <= pc < |p| :: visited[pc] <==> pc in seen
      invariant upTo <= pcs && |pcs| <= MAX_TABLE_ENTRIES
      invariant Row(p, source) == pcs[|upTo|..] + Expand(p, NO_TEXT, 0, stack, seen).0
      decreases Pcs(p) - seen, |stack|
    {
      var pc := Last(stack);
      stack := Front(stack);
      if pc < 0 || pc >= |p| || visited[pc] {
        continue;
      }
      visited[pc] := true;
      ghost var rest := stack;
      ghost var seen' := seen + {pc};
      if p[pc].op == Split {
        stack := stack + [p[pc].y, p[pc].x];
      } else if p[pc].op == Jmp {
        stack := stack + [p[pc].x];
      } else {
        ghost var l := Expand(p, NO_TEXT, 0, rest, seen').0;
        assert pcs[|upTo|..] + ([pc] + l) == (pcs + [pc])[|upTo|..] + l;
        if |pcs| == MAX_TABLE_ENTRIES {
          return false, pcs;
        }
        pcs := pcs + [pc];
      }
      seen := seen';
    }
  }

  lemma {:induction false} RowTotalGrows(p: Code, a: nat, b: nat)
    requires a <= b
    ensures RowTotal(p, a) <= RowTotal(p, b)
    decreases b
  {
    if a < b { RowTotalGrows(p, a, b - 1); }
  }

  // ----- threads -----

  datatype Thread = Thread(pc: int, start: int)

  /** A compiled pattern: its code, its entry, its group count, its optional
      closure table, and the literals every match begins with one of. */
  datatype Program = Program(nfa: Code, start: int, groups: nat, offsets: seq<nat>, pcs: seq<int>, prefixes: seq<seq<Byte>>)
  {
    predicate Tabled() {
      groups == 0 && |offsets| == |nfa| + 1
    }

    ghost predicate Sound() {
      TableOk(nfa, offsets, pcs)
    }
  }

  ghost function Threads(pcs: seq<int>, start: int): (r: seq<Thread>)
    ensures |r| == |pcs| && forall k | 0 <= k < |pcs| :: r[k] == Thread(pcs[k], start)
  {
    seq(|pcs|, k requires 0 <= k < |pcs| => Thread(pcs[k], start))
  }

  /** The instructions stamped with `generation`. */
  ghost function Marked(seen: seq<int>, generation: int): set<int> {
    set pc | 0 <= pc < |seen| && seen[pc] == generation
  }

  /** What the stamps record of a visited set: under a table, only its leaves. */
  ghost function Stamped(pr: Program, visited: set<int>): set<int> {
    if pr.Tabled() then set pc | pc in visited && InRange(pr.nfa, pc) && IsLeaf(pr.nfa, pc) else visited
  }

  /** The table lists, for a seed, what the stack would list after a closed set. */
  lemma TableRow(pr: Program, c: Context, pos: int, seed: int, visited: set<int>)
    requires pr.Sound() && pr.Tabled() && InRange(pr.nfa, seed)
    requires visited <= Pcs(pr.nfa) && ClosedSet(pr.nfa, c, pos, visited)
    ensures
      var (list, visited') := Expand(pr.nfa, c, pos, [seed], visited);
      var row := Row(pr.nfa, seed);
      && list == Without(row, visited)
      && (forall i, j | 0 <= i < j < |row| :: row[i] != row[j])
      && (forall k | 0 <= k < |row| :: InRange(pr.nfa, row[k]) && IsLeaf(pr.nfa, row[k]))
      && Stamped(pr, visited') == Stamped(pr, visited) + Firsts(row, |row|)
  {
    var p := pr.nfa;
    PlainExpand(p, c, pos, NO_TEXT, 0, [seed], {});
    ExpandRelative(p, c, pos, [seed], {}, visited);
    assert {} + visited == visited;
    ExpandLeaves(p, c, pos, [seed], {});
    var (row, all) := Expand(p, c, pos, [seed], {});
    forall k | 0 <= k < |row| ensures InRange(p, row[k]) && IsLeaf(p, row[k]) {
      assert row[k] in row;
    }
    assert forall pc :: pc in Firsts(row, |row|) <==> pc in row;
  }

  /** Stamps one instruction; tells whether it had no such stamp yet. */
  method Stamp(seen: array<int>, pc: int, generation: int) returns (added: bool)
    requires 0 <= pc < seen.Length
    modifies seen
    ensures added <==> pc !in Marked(old(seen[..]), generation)
    ensures Marked(seen[..], generation) == Marked(old(seen[..]), generation) + {pc}
    ensures forall q | 0 <= q < seen.Length :: seen[q] == old(seen[q]) || seen[q] == generation
  {
    added := seen[pc] != generation;
    seen[pc] := generation;
  }

  /** Adds the leaves `seed` leads to, except those already stamped. */
  method AddThread(pr: Program, c: Context, pos: int, seed: Thread, list: seq<Thread>, seen: array<int>, generation: int, ghost visited: set<int>)
    returns (r: seq<Thread>)
    requires pr.Sound() && seen.Length == |pr.nfa| && visited <= Pcs(pr.nfa)
    requires Marked(seen[..], generation) == Stamped(pr, visited)
    requires pr.Tabled() ==> ClosedSet(pr.nfa, c, pos, visited)
    modifies seen
    ensures r == list + Threads(Expand(pr.nfa, c, pos, [seed.pc], visited).0, seed.start)
    ensures Marked(seen[..], generation) == Stamped(pr, Expand(pr.nfa, c, pos, [seed.pc], visited).1)
    ensures forall pc | 0 <= pc < seen.Length :: seen[pc] == old(seen[pc]) || seen[pc] == generation
  {
    if 0 <= seed.pc < |pr.nfa| && pr.Tabled() {
      r := AddRow(pr, c, pos, seed, list, seen, generation, visited);
    } else {
      r := AddByStack(pr, c, pos, seed, list, seen, generation, visited);
    }
  }

  method AddRow(pr: Program, c: Context, pos: int, seed: Thread, list: seq<Thread>, seen: array<int>, generation: int, ghost visited: set<int>)
    returns (r: seq<Thread>)
    requires pr.Sound() && pr.Tabled() && InRange(pr.nfa, seed.pc) && seen.Length == |pr.nfa| && visited <= Pcs(pr.nfa)
    requires Marked(seen[..], generation) == Stamped(pr, visited)
    requires ClosedSet(pr.nfa, c, pos, visited)
    modifies seen
    ensures r == list + Threads(Expand(pr.nfa, c, pos, [seed.pc], visited).0, seed.start)
    ensures Marked(seen[..], generation) == Stamped(pr, Expand(pr.nfa, c, pos, [seed.pc], visited).1)
    ensures forall pc | 0 <= pc < seen.Length :: seen[pc] == old(seen[pc]) || seen[pc] == generation
  {
    TableRow(pr, c, pos, seed.pc, visited);
    ghost var row := Row(pr.nfa, seed.pc);
    var begin, end := pr.offsets[seed.pc], pr.offsets[seed.pc + 1];
    r := AddUnstamped(pr.pcs, begin, end, seed.start, list, seen, generation, row, visited);
  }

  /** The first `n` elements. */
  ghost function Firsts(row: seq<int>, n: nat): set<int>
    requires n <= |row|
  {
    set k | 0 <= k < n :: row[k]
  }

  lemma RowStep(row: seq<int>, n: nat, visited: set<int>, start: int)
    requires n < |row|
    ensures Threads(Without(row[..n + 1], visited), start)
         == Threads(Without(row[..n], visited), start) + if row[n] in visited then [] else [Thread(row[n], start)]
    ensures Firsts(row, n + 1) == Firsts(row, n) + {row[n]}
  {
    assert row[..n + 1] == row[..n] + [row[n]];
    WithoutAppend(row[..n], [row[n]], visited);
  }

  /** Walks a table row: what is not stamped yet is stamped and listed. */
  method AddUnstamped(pcs: seq<int>, begin: nat, end: nat, start: int, list: seq<Thread>, seen: array<int>, generation: int,
      ghost row: seq<int>, ghost visited: set<int>) returns (r: seq<Thread>)
    requires begin <= end <= |pcs| && pcs[begin..end] == row
    requires forall k | 0 <= k < |row| :: 0 <= row[k] < seen.Length
    requires forall k | 0 <= k < |row| :: row[k] in Marked(seen[..], generation) <==> row[k] in visited
    requires forall i, j | 0 <= i < j < |row| :: row[i] != row[j]
    modifies seen
    ensures r == list + Threads(Without(row, visited), start)
    ensures Marked(seen[..], generation) == Marked(old(seen[..]), generation) + Firsts(row, |row|)
    ensures forall pc | 0 <= pc < seen.Length :: seen[pc] == old(seen[pc]) || seen[pc] == generation
  {
    ghost var marked := Marked(seen[..], generation);
    ghost var listed := Threads(Without(row[..0], visited), start);
    r := list;
    for k := begin to end
      invariant listed == Threads(Without(row[..k - begin], visited), start) && r == list + listed
      invariant forall pc | 0 <= pc < seen.Length :: seen[pc] == old(seen[pc]) || seen[pc] == generation
      invariant Marked(seen[..], generation) == marked + Firsts(row, k - begin)
    {
      var pc := pcs[k];
      assert pc == row[k - begin];
      RowStep(row, k - begin, visited, start);
      listed := listed + if pc in visited then [] else [Thread(pc, start)];
      var added := Stamp(seen, pc, generation);
      assert added <==> pc !in visited;
      if added {
        r := r + [Thread(pc, start)];
      }
    }
    assert row[..end - begin] == row;
  }

  method AddByStack(pr: Program, c: Context, pos: int, seed: Thread, list: seq<Thread>, seen: array<int>, generation: int, ghost visited: set<int>)
    returns (r: seq<Thread>)
    requires (!pr.Tabled() || !InRange(pr.nfa, seed.pc)) && seen.Length == |pr.nfa| && visited <= Pcs(pr.nfa)
    requires Marked(seen[..], generation) == Stamped(pr, visited)
    modifies seen
    ensures r == list + Threads(Expand(pr.nfa, c, pos, [seed.pc], visited).0, seed.start)
    ensures Marked(seen[..], generation) == Stamped(pr, Expand(pr.nfa, c, pos, [seed.pc], visited).1)
    ensures forall pc | 0 <= pc < seen.Length :: seen[pc] == old(seen[pc]) || seen[pc] == generation
  {
    r := list;
    var stack := [seed.pc];
    ghost var now, done := visited, [];
    assert [] + Expand(pr.nfa, c, pos, stack, now).0 == Expand(pr.nfa, c, pos, stack, now).0;
    while stack != []
      invariant now <= Pcs(pr.nfa) && Marked(seen[..], generation) == Stamped(pr, now)
      invariant forall pc | 0 <= pc < seen.Length :: seen[pc] == old(seen[pc]) || seen[pc] == generation
      invariant pr.Tabled() ==> now == visited && forall q | q in stack :: !InRange(pr.nfa, q)
      invariant r == list + Threads(done, seed.start)
      invariant
        var (l, s) := Expand(pr.nfa, c, pos, stack, now);
        Expand(pr.nfa, c, pos, [seed.pc], visited) == (done + l, s)
      decreases Pcs(pr.nfa) - now, |stack|
    {
      var pc := Last(stack);
      stack := Front(stack);
      if pc < 0 || pc >= |pr.nfa| {
        continue;
      }
      if seen[pc] == generation {
        assert pc in Marked(seen[..], generation);
        continue;
      }
      assert pc !in Marked(seen[..], generation);
      seen[pc] := generation;
      now := now + {pc};
      if IsLeaf(pr.nfa, pc) {
        ghost var l := Expand(pr.nfa, c, pos, stack, now).0;
        assert done + ([pc] + l) == done + [pc] + l;
        r := r + [Thread(pc, seed.start)];
        done := done + [pc];
      } else {
        stack := stack + Pushed(pr.nfa, c, pos, pc);
      }
    }
  }
}
