/** Value types and text vocabulary shared by every component. */
module Basics {
  type Byte = x: int | 0 <= x < 256

  const U32_SIZE: int := 0x1_0000_0000
  const U64_MAX: int := 0xFFFF_FFFF_FFFF_FFFF

  datatype Option<+T> = None | Some(value: T)

  /** The source's exceptions, as an error value. */
  datatype Result<+T> = Ok(value: T) | Err(error: string) {
    predicate IsFailure() {
      Err?
    }

    function PropagateFailure<U>(): Result<U>
      requires Err?
    {
      Err(error)
    }

    function Extract(): T
      requires Ok?
    {
      value
    }
  }

  function Min(a: int, b: int): int {
    if a <= b then a else b
  }

  function Max(a: int, b: int): int {
    if a >= b then a else b
  }

  function Front<T>(s: seq<T>): seq<T>
    requires s != []
  {
    s[..|s| - 1]
  }

  function Last<T>(s: seq<T>): T
    requires s != []
  {
    s[|s| - 1]
  }

  /** The first `limit` results, or all of them when the limit is 0. */
  function Cut<T>(all: seq<T>, limit: nat): seq<T> {
    if limit == 0 || |all| <= limit then all else all[..limit]
  }

  /** `q` stands in `text` at offset `p`. */
  predicate OccursAt(text: seq<Byte>, q: seq<Byte>, p: int) {
    0 <= p && p + |q| <= |text| && text[p..p + |q|] == q
  }

  /** `q` is a substring of `text`. */
  ghost predicate Contains(text: seq<Byte>, q: seq<Byte>) {
    exists p :: OccursAt(text, q, p)
  }

  /** The first offset from `from` on at which `q` stands, as std::string::find. */
  function Find(text: seq<Byte>, q: seq<Byte>, from: nat): (r: Option<nat>)
    ensures r.Some? ==> from <= r.value && OccursAt(text, q, r.value)
    ensures r.Some? ==> forall p | from <= p < r.value :: !OccursAt(text, q, p)
    ensures r.None? ==> forall p | from <= p :: !OccursAt(text, q, p)
    decreases |text| - from
  {
    if from + |q| > |text| then None
    else if OccursAt(text, q, from) then Some(from)
    else Find(text, q, from + 1)
  }

  lemma SliceOfSlice<T>(s: seq<T>, i: nat, j: nat, k: nat, l: nat)
    requires i <= j <= |s| && k <= l <= j - i
    ensures s[i..j][k..l] == s[i + k..i + l]
  {
    var a, b := s[i..j][k..l], s[i + k..i + l];
    assert forall m | 0 <= m < |a| :: a[m] == b[m];
  }

  lemma SubsetSize<T>(a: set<T>, b: set<T>)
    requires a <= b
    ensures |a| <= |b|
  {
    if a != {} {
      var x :| x in a;
      SubsetSize(a - {x}, b - {x});
    }
  }

  // ----- lists collected up to a bound -----

  /** `rest` is still to come; the bound is not reached. */
  ghost predicate Going<T>(all: seq<T>, out: seq<T>, rest: seq<T>, limit: nat) {
    all == out + rest && (limit == 0 || |out| < limit)
  }

  /** Either the bound is reached, or `rest` is still to come. */
  ghost predicate Collecting<T>(all: seq<T>, out: seq<T>, rest: seq<T>, limit: nat, full: bool) {
    if full then out == Cut(all, limit) else Going(all, out, rest, limit)
  }

  /** What the bound leaves; 0 is no bound. */
  function Remaining(limit: nat, taken: nat): nat
    requires limit == 0 || taken < limit
  {
    if limit == 0 then 0 else limit - taken
  }

  /** Cutting the rest at what the bound leaves cuts the whole at the bound. */
  lemma CutFurther<T>(all: seq<T>, before: seq<T>, more: seq<T>, rest: seq<T>, limit: nat)
    requires Going(all, before, more + rest, limit)
    ensures
      var out := before + Cut(more, Remaining(limit, |before|));
      Collecting(all, out, rest, limit, limit != 0 && |out| >= limit)
  {
    var out := before + Cut(more, Remaining(limit, |before|));
    if limit != 0 && |out| >= limit {
      assert out == all[..limit];
    } else {
      assert all == (before + more) + rest;
    }
  }

  lemma GoingRegrouped<T>(all: seq<T>, out: seq<T>, a: seq<T>, b: seq<T>, c: seq<T>, limit: nat)
    ensures Going(all, out, (a + b) + c, limit) <==> Going(all, out, a + (b + c), limit)
  {
    assert (a + b) + c == a + (b + c);
  }
}
