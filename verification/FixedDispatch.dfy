/** Fixed-string search: which operator answers, and that it does not matter. */
module FixedDispatch {
  import opened Basics
  import opened IndexModel
  import opened FixedScan
  import opened FixedSearch
  import opened EmptyLiteral

  datatype Operator = WholeFile | ByChunk | Positional

  /** What the selected operator lists for the empty literal. */
  function EmptyHits(x: Index, s: Scope, overlapping: bool, guarded: bool, operator: Operator): seq<Hit> {
    if guarded && operator == WholeFile then EmptyNaive(x.files, s, 0)
    else Visited(x.chunks, s, if guarded && operator == ByChunk then None else Some(x.options.blockBytes), overlapping, 0, map[])
  }

  /** A fixed search. Whatever operator the guard selects, and whatever the literal's
      length, the result is the naive one up to the bound; only for the empty literal does
      it depend on the operator. */
  method Search(hash: Hash, x: Index, s: Scope, byteFreq: Byte -> nat, q: seq<Byte>, overlapping: bool, limit: nat, guarded: bool, operator: Operator)
    returns (out: seq<Hit>)
    requires Exact(hash, x, s)
    ensures q != [] ==> out == Cut(Naive(x.files, s, q, StepOf(overlapping, q), 0), limit)
    ensures q == [] ==> out == Cut(EmptyHits(x, s, overlapping, guarded, operator), limit)
  {
    var anchor := ChooseRareByte(byteFreq, q);
    if |q| > x.options.chunkOverlap || (guarded && operator == WholeFile) {
      if q == [] {
        out := EmptyFiles(hash, x, s, limit);
      } else {
        out := SearchFiles(hash, x, s, q, anchor, overlapping, limit);
      }
    } else if guarded && operator == ByChunk {
      if q == [] {
        out := EmptyChunks(hash, x, s, overlapping, limit);
      } else {
        out := SearchChunks(hash, x, s, q, anchor, overlapping, limit);
      }
    } else if |q| <= 64 {
      if q == [] {
        out := EmptyBlocks(hash, x, s, overlapping, limit);
      } else {
        out := SearchBlocks(hash, x, s, q, anchor, overlapping, limit);
      }
    } else {
      out := SearchChunks(hash, x, s, q, anchor, overlapping, limit);
    }
  }
}
