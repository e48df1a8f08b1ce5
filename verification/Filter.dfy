/** The filter algebra: Boolean combinations of "contains this literal", their
    equality up to the order of terms, and their simplification. */
module Filter {
  import opened Basics

  datatype FilterExpr =
    | True
    | Atom(literal: seq<Byte>)
    | And(terms: seq<FilterExpr>)
    | Or(terms: seq<FilterExpr>)

  /** What a candidate text must satisfy. */
  ghost predicate Admits(f: FilterExpr, text: seq<Byte>) {
    match f
    case True => true
    case Atom(literal) => Contains(text, literal)
    case And(terms) => forall k | 0 <= k < |terms| :: Admits(terms[k], text)
    case Or(terms) => exists k | 0 <= k < |terms| :: Admits(terms[k], text)
  }

  ghost predicate AllHold(terms: seq<FilterExpr>, text: seq<Byte>) {
    forall k | 0 <= k < |terms| :: Admits(terms[k], text)
  }

  ghost predicate SomeHolds(terms: seq<FilterExpr>, text: seq<Byte>) {
    exists k | 0 <= k < |terms| :: Admits(terms[k], text)
  }

  // ----- equality up to the order of terms -----

  /** A filter with the order of terms forgotten. */
  datatype Canon =
    | CTrue
    | CAtom(literal: seq<Byte>)
    | CAnd(terms: multiset<Canon>)
    | COr(terms: multiset<Canon>)

  ghost function CanonOf(f: FilterExpr): Canon
    decreases f, 0
  {
    match f
    case True => CTrue
    case Atom(literal) => CAtom(literal)
    case And(terms) => CAnd(CanonsOf(terms))
    case Or(terms) => COr(CanonsOf(terms))
  }

  ghost function CanonsOf(terms: seq<FilterExpr>): (m: multiset<Canon>)
    ensures |m| == |terms|
    decreases terms, 0
  {
    if terms == [] then multiset{} else CanonsOf(Front(terms)) + multiset{CanonOf(Last(terms))}
  }

  ghost predicate CanonHolds(f: Canon, text: seq<Byte>)
    decreases f
  {
    match f
    case CTrue => true
    case CAtom(literal) => Contains(text, literal)
    case CAnd(terms) => forall x | x in terms :: CanonHolds(x, text)
    case COr(terms) => exists x | x in terms :: CanonHolds(x, text)
  }

  lemma {:induction false} CanonsContain(terms: seq<FilterExpr>, x: Canon)
    ensures x in CanonsOf(terms) <==> exists k :: 0 <= k < |terms| && CanonOf(terms[k]) == x
    decreases |terms|
  {
    if terms != [] {
      CanonsContain(Front(terms), x);
      if x in CanonsOf(Front(terms)) {
        var k :| 0 <= k < |Front(terms)| && CanonOf(Front(terms)[k]) == x;
        assert terms[k] == Front(terms)[k];
      }
      if k :| 0 <= k < |terms| && CanonOf(terms[k]) == x {
        if k < |terms| - 1 { assert Front(terms)[k] == terms[k]; }
      }
    }
  }

  ghost predicate SameMeaning(f: FilterExpr, text: seq<Byte>) {
    Admits(f, text) <==> CanonHolds(CanonOf(f), text)
  }

  ghost predicate IsTerm(terms: seq<FilterExpr>, x: Canon) {
    exists k :: 0 <= k < |terms| && CanonOf(terms[k]) == x
  }

  /** `m` holds the terms, in no order. */
  ghost predicate AreTerms(terms: seq<FilterExpr>, m: multiset<Canon>) {
    forall x :: x in m <==> IsTerm(terms, x)
  }

  lemma AllTermsHold(terms: seq<FilterExpr>, m: multiset<Canon>, text: seq<Byte>)
    requires AreTerms(terms, m) && forall k | 0 <= k < |terms| :: SameMeaning(terms[k], text)
    ensures AllHold(terms, text) <==> CanonHolds(CAnd(m), text)
  {
    if AllHold(terms, text) {
      forall x | x in m ensures CanonHolds(x, text) {
        assert IsTerm(terms, x);
        var k :| 0 <= k < |terms| && CanonOf(terms[k]) == x;
        assert SameMeaning(terms[k], text);
      }
    }
    if CanonHolds(CAnd(m), text) {
      forall k | 0 <= k < |terms| ensures Admits(terms[k], text) {
        assert IsTerm(terms, CanonOf(terms[k])) && SameMeaning(terms[k], text);
      }
    }
  }

  lemma SomeTermHolds(terms: seq<FilterExpr>, m: multiset<Canon>, text: seq<Byte>)
    requires AreTerms(terms, m) && forall k | 0 <= k < |terms| :: SameMeaning(terms[k], text)
    ensures SomeHolds(terms, text) <==> CanonHolds(COr(m), text)
  {
    if k :| 0 <= k < |terms| && Admits(terms[k], text) {
      assert IsTerm(terms, CanonOf(terms[k])) && SameMeaning(terms[k], text);
    }
    if x :| x in m && CanonHolds(x, text) {
      assert IsTerm(terms, x);
      var k :| 0 <= k < |terms| && CanonOf(terms[k]) == x;
      assert SameMeaning(terms[k], text);
    }
  }

  /** Forgetting the order does not change the meaning. */
  lemma {:induction false} CanonMeaning(f: FilterExpr, text: seq<Byte>)
    ensures SameMeaning(f, text)
    decreases f
  {
    match f
    case True =>
    case Atom(_) =>
    case And(terms) =>
      TermsMeaning(terms, text);
      AllTermsHold(terms, CanonsOf(terms), text);
    case Or(terms) =>
      TermsMeaning(terms, text);
      SomeTermHolds(terms, CanonsOf(terms), text);
  }

  lemma {:induction false} TermsMeaning(terms: seq<FilterExpr>, text: seq<Byte>)
    ensures forall k | 0 <= k < |terms| :: SameMeaning(terms[k], text)
    ensures AreTerms(terms, CanonsOf(terms))
    decreases terms
  {
    forall k | 0 <= k < |terms| ensures SameMeaning(terms[k], text) { CanonMeaning(terms[k], text); }
    forall x ensures x in CanonsOf(terms) <==> IsTerm(terms, x) { CanonsContain(terms, x); }
  }

  ghost predicate SameFilter(a: FilterExpr, b: FilterExpr) {
    CanonOf(a) == CanonOf(b)
  }

  /** The terms of `bs` not yet marked as used. */
  ghost function Unused(bs: seq<FilterExpr>, used: seq<bool>): multiset<Canon>
    requires |used| == |bs|
  {
    if bs == [] then multiset{}
    else Unused(Front(bs), Front(used)) + if Last(used) then multiset{} else multiset{CanonOf(Last(bs))}
  }

  lemma UnusedLast(bs: seq<FilterExpr>, used: seq<bool>)
    requires |used| == |bs| && bs != []
    ensures Unused(bs, used) == Unused(Front(bs), Front(used)) + if Last(used) then multiset{} else multiset{CanonOf(Last(bs))}
  {}

  lemma {:induction false} UnusedUpdate(bs: seq<FilterExpr>, used: seq<bool>, i: nat)
    requires |used| == |bs| && i < |bs| && !used[i]
    ensures CanonOf(bs[i]) in Unused(bs, used)
    ensures Unused(bs, used[i := true]) == Unused(bs, used) - multiset{CanonOf(bs[i])}
    decreases |bs|
  {
    var x, more := CanonOf(bs[i]), used[i := true];
    UnusedLast(bs, used);
    UnusedLast(bs, more);
    FrontUpdate(used, i, true);
    if i < |bs| - 1 {
      UnusedUpdate(Front(bs), Front(used), i);
      TakenBefore(Unused(Front(bs), Front(used)), if Last(used) then multiset{} else multiset{CanonOf(Last(bs))}, x);
    } else {
      TakenLast(Unused(Front(bs), Front(used)), x);
    }
  }

  lemma FrontUpdate<T>(s: seq<T>, i: nat, x: T)
    requires i < |s|
    ensures i < |s| - 1 ==> Front(s[i := x]) == Front(s)[i := x] && Last(s[i := x]) == Last(s)
    ensures i == |s| - 1 ==> Front(s[i := x]) == Front(s) && Last(s[i := x]) == x
  {}

  lemma TakenBefore<T>(a: multiset<T>, b: multiset<T>, x: T)
    requires x in a
    ensures x in a + b && (a + b) - multiset{x} == (a - multiset{x}) + b
  {}

  lemma TakenLast<T>(a: multiset<T>, x: T)
    ensures x in a + multiset{x} && (a + multiset{x}) - multiset{x} == a + multiset{}
  {}

  lemma {:induction false} UnusedContains(bs: seq<FilterExpr>, used: seq<bool>, x: Canon) returns (i: nat)
    requires |used| == |bs| && x in Unused(bs, used)
    ensures i < |bs| && !used[i] && CanonOf(bs[i]) == x
    decreases |bs|
  {
    if !Last(used) && CanonOf(Last(bs)) == x {
      i := |bs| - 1;
    } else {
      i := UnusedContains(Front(bs), Front(used), x);
    }
  }

  lemma {:induction false} UnusedNone(bs: seq<FilterExpr>, used: seq<bool>)
    requires |used| == |bs| && forall i | 0 <= i < |used| :: !used[i]
    ensures Unused(bs, used) == CanonsOf(bs)
    decreases |bs|
  {
    if bs != [] { UnusedNone(Front(bs), Front(used)); }
  }

  lemma FrontCut<T>(s: seq<T>, k: nat)
    requires k < |s|
    ensures Front(s)[..k] == s[..k] && Front(s)[k..] == Front(s[k..]) && Last(s[k..]) == Last(s)
  {
  }

  lemma MultisetRegroup<T>(a: multiset<T>, b: multiset<T>, c: multiset<T>)
    ensures (a + b) + c == a + (b + c)
    ensures (a + b) + c == (a + c) + b
  {
  }

  lemma {:induction false} CanonsSplit(terms: seq<FilterExpr>, k: nat)
    requires k <= |terms|
    ensures CanonsOf(terms) == CanonsOf(terms[..k]) + CanonsOf(terms[k..])
    decreases |terms|
  {
    if k == |terms| {
      assert terms[..k] == terms && terms[k..] == [];
    } else {
      CanonsSplit(Front(terms), k);
      FrontCut(terms, k);
      MultisetRegroup(CanonsOf(terms[..k]), CanonsOf(Front(terms[k..])), multiset{CanonOf(Last(terms))});
    }
  }

  lemma Cancel<T>(a: multiset<T>, b: multiset<T>, c: multiset<T>)
    requires a + b == a + c
    ensures b == c
  {
    forall x ensures b[x] == c[x] {
      assert (a + b)[x] == (a + c)[x];
    }
  }

  /** A term no unused one equals has no partner under any pairing. */
  lemma MissingTerm(ax: seq<FilterExpr>, bx: seq<FilterExpr>, used: seq<bool>, k: nat)
    requires k < |ax| && |used| == |bx|
    requires CanonsOf(bx) == CanonsOf(ax[..k]) + Unused(bx, used)
    requires CanonOf(ax[k]) !in Unused(bx, used)
    ensures CanonsOf(ax) != CanonsOf(bx)
  {
    CanonsSplit(ax, k);
    assert ax[k..][0] == ax[k];
    CanonsContain(ax[k..], CanonOf(ax[k]));
    if CanonsOf(ax) == CanonsOf(bx) {
      Cancel(CanonsOf(ax[..k]), CanonsOf(ax[k..]), Unused(bx, used));
    }
  }

  lemma NoneUnused(x: FilterExpr, bx: seq<FilterExpr>, used: seq<bool>)
    requires |used| == |bx| && forall m | 0 <= m < |bx| :: used[m] || !SameFilter(x, bx[m])
    ensures CanonOf(x) !in Unused(bx, used)
  {
    if CanonOf(x) in Unused(bx, used) {
      var i := UnusedContains(bx, used, CanonOf(x));
    }
  }

  lemma TakeStep(ax: seq<FilterExpr>, bx: seq<FilterExpr>, used: seq<bool>, used': seq<bool>, k: nat)
    requires k < |ax| && |used| == |bx| == |used'|
    requires CanonsOf(bx) == CanonsOf(ax[..k]) + Unused(bx, used)
    requires Unused(bx, used) == Unused(bx, used') + multiset{CanonOf(ax[k])}
    ensures CanonsOf(bx) == CanonsOf(ax[..k + 1]) + Unused(bx, used')
  {
    assert Front(ax[..k + 1]) == ax[..k] && Last(ax[..k + 1]) == ax[k];
    MultisetRegroup(CanonsOf(ax[..k]), Unused(bx, used'), multiset{CanonOf(ax[k])});
  }

  /** Equality of two filters. It decides equality up to the order of terms at
      every depth. */
  method FilterEqual(a: FilterExpr, b: FilterExpr) returns (r: bool)
    ensures r <==> SameFilter(a, b)
    decreases a, 2
  {
    match (a, b) {
      case (True, True) => return true;
      case (Atom(x), Atom(y)) => return x == y;
      case (And(ax), And(bx)) => r := TermsEqual(ax, bx);
      case (Or(ax), Or(bx)) => r := TermsEqual(ax, bx);
      case _ => return false;
    }
  }

  /** Each term takes the first unused one equal to it. */
  method TermsEqual(ax: seq<FilterExpr>, bx: seq<FilterExpr>) returns (r: bool)
    ensures r <==> CanonsOf(ax) == CanonsOf(bx)
    decreases ax, 1
  {
    if |ax| != |bx| {
      assert |CanonsOf(ax)| != |CanonsOf(bx)|;
      return false;
    }
    var used := seq(|bx|, _ => false);
    UnusedNone(bx, used);
    for k := 0 to |ax|
      invariant |used| == |bx|
      invariant CanonsOf(bx) == CanonsOf(ax[..k]) + Unused(bx, used)
    {
      var found, used' := TakeEqual(ax[k], bx, used);
      if !found {
        MissingTerm(ax, bx, used, k);
        return false;
      }
      TakeStep(ax, bx, used, used', k);
      used := used';
    }
    assert ax[..|ax|] == ax;
    assert |CanonsOf(bx)| == |CanonsOf(ax)| + |Unused(bx, used)|;
    assert Unused(bx, used) == multiset{};
    return true;
  }

  method TakeEqual(x: FilterExpr, bx: seq<FilterExpr>, used: seq<bool>) returns (found: bool, used': seq<bool>)
    requires |used| == |bx|
    ensures |used'| == |bx|
    ensures found <==> CanonOf(x) in Unused(bx, used)
    ensures found ==> Unused(bx, used) == Unused(bx, used') + multiset{CanonOf(x)}
    decreases x, 3
  {
    for i := 0 to |bx|
      invariant forall m | 0 <= m < i :: used[m] || !SameFilter(x, bx[m])
    {
      if !used[i] {
        var same := FilterEqual(x, bx[i]);
        if same {
          UnusedUpdate(bx, used, i);
          return true, used[i := true];
        }
      }
    }
    NoneUnused(x, bx, used);
    return false, used;
  }

  // ----- one filter implied by another -----

  /** `b` cannot hold where `a` does not. */
  ghost predicate Subsumes(a: FilterExpr, b: FilterExpr) {
    || SameFilter(a, b)
    || (a.Atom? && b.Atom? && Contains(b.literal, a.literal))
    || (b.And? && exists k :: 0 <= k < |b.terms| && SameFilter(b.terms[k], a))
  }

  lemma ContainsTrans(text: seq<Byte>, b: seq<Byte>, a: seq<Byte>)
    requires Contains(text, b) && Contains(b, a)
    ensures Contains(text, a)
  {
    var p :| OccursAt(text, b, p);
    var q :| OccursAt(b, a, q);
    SliceOfSlice(text, p, p + |b|, q, q + |a|);
    assert OccursAt(text, a, p + q);
  }

  lemma SubsumesMeaning(a: FilterExpr, b: FilterExpr, text: seq<Byte>)
    requires Subsumes(a, b) && Admits(b, text)
    ensures Admits(a, text)
  {
    CanonMeaning(a, text);
    CanonMeaning(b, text);
    if SameFilter(a, b) {
    } else if a.Atom? && b.Atom? {
      ContainsTrans(text, b.literal, a.literal);
    } else {
      var k :| 0 <= k < |b.terms| && SameFilter(b.terms[k], a);
      CanonMeaning(b.terms[k], text);
    }
  }

  method FilterSubsumes(lhs: FilterExpr, rhs: FilterExpr) returns (r: bool)
    ensures r <==> Subsumes(lhs, rhs)
  {
    var same := FilterEqual(lhs, rhs);
    if same {
      return true;
    }
    if lhs.Atom? && rhs.Atom? {
      return Find(rhs.literal, lhs.literal, 0).Some?;
    }
    if !rhs.And? {
      return false;
    }
    for k := 0 to |rhs.terms|
      invariant forall m | 0 <= m < k :: !SameFilter(rhs.terms[m], lhs)
    {
      var equal := FilterEqual(rhs.terms[k], lhs);
      if equal {
        return true;
      }
    }
    return false;
  }

  // ----- simplification -----

  /** Flat, without trivial, duplicate or absorbed terms. */
  ghost predicate Normal(f: FilterExpr) {
    match f
    case True => true
    case Atom(literal) => literal != []
    case And(terms) => |terms| >= 2 && (forall k | 0 <= k < |terms| :: Normal(terms[k]) && !terms[k].True? && !terms[k].And?) && DistinctTerms(terms)
    case Or(terms) => |terms| >= 2 && (forall k | 0 <= k < |terms| :: Normal(terms[k]) && !terms[k].True? && !terms[k].Or?) && Antichain(terms)
  }

  ghost predicate DistinctTerms(terms: seq<FilterExpr>) {
    forall i, j | 0 <= i < j < |terms| :: !SameFilter(terms[i], terms[j])
  }

  ghost predicate Antichain(terms: seq<FilterExpr>) {
    forall i, j | 0 <= i < |terms| && 0 <= j < |terms| && i != j :: !Subsumes(terms[i], terms[j])
  }

  /** The one shape simplification widens: an alternative with no branch. */
  ghost predicate NoEmptyOr(f: FilterExpr) {
    match f
    case And(terms) => forall k | 0 <= k < |terms| :: NoEmptyOr(terms[k])
    case Or(terms) => terms != [] && forall k | 0 <= k < |terms| :: NoEmptyOr(terms[k])
    case _ => true
  }

  ghost function CanonSet(terms: seq<FilterExpr>): set<Canon> {
    set k | 0 <= k < |terms| :: CanonOf(terms[k])
  }

  lemma CanonSetMeaning(terms: seq<FilterExpr>, text: seq<Byte>)
    ensures AllHold(terms, text) <==> forall x | x in CanonSet(terms) :: CanonHolds(x, text)
    ensures SomeHolds(terms, text) <==> exists x :: x in CanonSet(terms) && CanonHolds(x, text)
  {
    forall k | 0 <= k < |terms|
      ensures CanonOf(terms[k]) in CanonSet(terms)
      ensures Admits(terms[k], text) <==> CanonHolds(CanonOf(terms[k]), text)
    {
      CanonMeaning(terms[k], text);
    }
  }

  lemma SameSetMeaning(kept: seq<FilterExpr>, terms: seq<FilterExpr>)
    requires CanonSet(kept) == CanonSet(terms)
    ensures forall text :: AllHold(kept, text) <==> AllHold(terms, text)
    ensures forall text :: SomeHolds(kept, text) <==> SomeHolds(terms, text)
  {
    forall text
      ensures AllHold(kept, text) <==> AllHold(terms, text)
      ensures SomeHolds(kept, text) <==> SomeHolds(terms, text)
    {
      CanonSetMeaning(kept, text);
      CanonSetMeaning(terms, text);
    }
  }

  lemma CanonSetSnoc(terms: seq<FilterExpr>, t: FilterExpr)
    ensures CanonSet(terms + [t]) == CanonSet(terms) + {CanonOf(t)}
  {
    var all := terms + [t];
    assert all[|terms|] == t;
    assert forall k | 0 <= k < |terms| :: all[k] == terms[k];
    assert CanonSet(all) >= CanonSet(terms) by {
      forall x | x in CanonSet(terms) ensures x in CanonSet(all) {
        var k :| 0 <= k < |terms| && CanonOf(terms[k]) == x;
        assert CanonOf(all[k]) == x;
      }
    }
  }

  /** Drops every term equal to an earlier one. */
  method Unique(terms: seq<FilterExpr>) returns (unique: seq<FilterExpr>)
    ensures DistinctTerms(unique) && CanonSet(unique) == CanonSet(terms)
    ensures forall k | 0 <= k < |unique| :: unique[k] in terms
  {
    unique := [];
    for k := 0 to |terms|
      invariant DistinctTerms(unique) && CanonSet(unique) == CanonSet(terms[..k])
      invariant forall m | 0 <= m < |unique| :: unique[m] in terms
    {
      var duplicate := IsIn(unique, terms[k]);
      assert terms[..k + 1] == terms[..k] + [terms[k]];
      CanonSetSnoc(terms[..k], terms[k]);
      if !duplicate {
        CanonSetSnoc(unique, terms[k]);
        DistinctSnoc(unique, terms[k]);
        unique := unique + [terms[k]];
      }
    }
    assert terms[..|terms|] == terms;
  }

  lemma DistinctSnoc(unique: seq<FilterExpr>, t: FilterExpr)
    requires DistinctTerms(unique) && CanonOf(t) !in CanonSet(unique)
    ensures DistinctTerms(unique + [t])
  {
    var all := unique + [t];
    forall i, j | 0 <= i < j < |all| ensures !SameFilter(all[i], all[j]) {
      if j == |unique| { assert CanonOf(unique[i]) in CanonSet(unique); }
    }
  }

  method IsIn(unique: seq<FilterExpr>, t: FilterExpr) returns (r: bool)
    ensures r <==> CanonOf(t) in CanonSet(unique)
  {
    for i := 0 to |unique|
      invariant forall m | 0 <= m < i :: CanonOf(unique[m]) != CanonOf(t)
    {
      var same := FilterEqual(unique[i], t);
      if same {
        return true;
      }
    }
    return false;
  }

  /** Removes, in place, every term another one absorbs. The outer index steps
      back when a term before it goes, so each turn still makes progress. */
  method Absorb(terms: seq<FilterExpr>) returns (unique: seq<FilterExpr>)
    ensures Antichain(unique)
    ensures forall k | 0 <= k < |unique| :: unique[k] in terms
    ensures terms != [] ==> unique != []
    ensures forall text :: SomeHolds(unique, text) <==> SomeHolds(terms, text)
  {
    unique := terms;
    var i := 0;
    while i < |unique|
      invariant i <= |unique| && AbsorbedUpTo(unique, i, 0) && Absorbing(terms, unique)
      decreases |unique| - i
    {
      ghost var left := |unique| - i;
      var j := 0;
      while j < |unique|
        invariant i < |unique| && j <= |unique| && |unique| - i <= left
        invariant AbsorbedUpTo(unique, i, j) && Absorbing(terms, unique)
        decreases |unique| - j
      {
        var absorbed := false;
        if i != j {
          absorbed := FilterSubsumes(unique[i], unique[j]);
        }
        if absorbed {
          AbsorbStep(terms, unique, i, j);
          unique := Erase(unique, j);
          if j < i {
            i := i - 1;
          }
        } else {
          j := j + 1;
        }
      }
      i := i + 1;
    }
  }

  function Erase(terms: seq<FilterExpr>, j: nat): (r: seq<FilterExpr>)
    requires j < |terms|
    ensures |r| == |terms| - 1 && forall k | 0 <= k < |r| :: r[k] == if k < j then terms[k] else terms[k + 1]
  {
    terms[..j] + terms[j + 1..]
  }

  ghost predicate AbsorbedUpTo(unique: seq<FilterExpr>, i: nat, j: nat) {
    && (forall a, b | 0 <= a < i && 0 <= b < |unique| && a < |unique| && a != b :: !Subsumes(unique[a], unique[b]))
    && (forall b | 0 <= b < j && b < |unique| && i < |unique| && b != i :: !Subsumes(unique[i], unique[b]))
  }

  ghost predicate Absorbing(terms: seq<FilterExpr>, unique: seq<FilterExpr>) {
    && (forall k | 0 <= k < |unique| :: unique[k] in terms)
    && (terms != [] ==> unique != [])
    && forall text :: SomeHolds(unique, text) <==> SomeHolds(terms, text)
  }

  lemma AbsorbStep(terms: seq<FilterExpr>, unique: seq<FilterExpr>, i: nat, j: nat)
    requires i < |unique| && j < |unique| && i != j && Subsumes(unique[i], unique[j])
    requires AbsorbedUpTo(unique, i, j) && Absorbing(terms, unique)
    ensures Absorbing(terms, Erase(unique, j))
    ensures AbsorbedUpTo(Erase(unique, j), if j < i then i - 1 else i, j)
  {
    var kept := Erase(unique, j);
    forall text ensures SomeHolds(kept, text) <==> SomeHolds(unique, text) {
      if k :| 0 <= k < |unique| && Admits(unique[k], text) {
        if k == j { SubsumesMeaning(unique[i], unique[j], text); }
        var m := if k == j then i else k;
        assert Admits(kept[if m < j then m else m - 1], text);
      }
    }
  }

  /** What a simplified child contributes to an And, or to an Or. */
  function Flattened(f: FilterExpr, ofAnd: bool): seq<FilterExpr> {
    if ofAnd then (match f case True => [] case And(terms) => terms case _ => [f])
    else (match f case Or(terms) => terms case _ => [f])
  }

  /** What simplification makes of a filter: an Or without branches is read as True. */
  ghost predicate Relaxed(f: FilterExpr, text: seq<Byte>) {
    match f
    case True => true
    case Atom(literal) => Contains(text, literal)
    case And(terms) => forall k | 0 <= k < |terms| :: Relaxed(terms[k], text)
    case Or(terms) => terms == [] || exists k | 0 <= k < |terms| :: Relaxed(terms[k], text)
  }

  /** Reading it so only widens, and changes nothing where no Or is empty. */
  lemma {:induction false} RelaxedMeaning(f: FilterExpr, text: seq<Byte>)
    ensures Admits(f, text) ==> Relaxed(f, text)
    ensures NoEmptyOr(f) ==> (Admits(f, text) <==> Relaxed(f, text))
    decreases f
  {
    match f
    case True =>
    case Atom(_) =>
    case And(terms) => forall k | 0 <= k < |terms| { RelaxedMeaning(terms[k], text); }
    case Or(terms) => forall k | 0 <= k < |terms| { RelaxedMeaning(terms[k], text); }
  }

  ghost predicate AllRelaxed(children: seq<FilterExpr>, text: seq<Byte>) {
    forall k | 0 <= k < |children| :: Relaxed(children[k], text)
  }

  ghost predicate SomeRelaxed(children: seq<FilterExpr>, text: seq<Byte>) {
    exists k | 0 <= k < |children| :: Relaxed(children[k], text)
  }

  /** `terms` is what the first children have contributed. */
  ghost predicate AndTerms(children: seq<FilterExpr>, terms: seq<FilterExpr>) {
    && (forall k | 0 <= k < |terms| :: Normal(terms[k]) && !terms[k].True? && !terms[k].And?)
    && (forall text :: AllHold(terms, text) <==> AllRelaxed(children, text))
  }

  ghost predicate OrTerms(children: seq<FilterExpr>, terms: seq<FilterExpr>) {
    && (forall k | 0 <= k < |terms| :: Normal(terms[k]) && !terms[k].True? && !terms[k].Or?)
    && (children == [] <==> terms == [])
    && (forall text :: SomeHolds(terms, text) <==> SomeRelaxed(children, text))
  }

  /** `r` is the simplification of `f`: in normal form, and of exactly that meaning. */
  ghost predicate Simplifies(f: FilterExpr, r: FilterExpr) {
    Normal(r) && forall text :: Admits(r, text) <==> Relaxed(f, text)
  }

  lemma AllHoldAppend(a: seq<FilterExpr>, b: seq<FilterExpr>, text: seq<Byte>)
    ensures AllHold(a + b, text) <==> AllHold(a, text) && AllHold(b, text)
    ensures SomeHolds(a + b, text) <==> SomeHolds(a, text) || SomeHolds(b, text)
  {
    assert forall k | 0 <= k < |a| :: (a + b)[k] == a[k];
    assert forall k | 0 <= k < |b| :: (a + b)[|a| + k] == b[k];
    if k :| 0 <= k < |a + b| && Admits((a + b)[k], text) && k >= |a| {
      assert Admits(b[k - |a|], text);
    }
  }

  lemma FlattenedMeaning(r: FilterExpr, text: seq<Byte>)
    ensures AllHold(Flattened(r, true), text) <==> Admits(r, text)
    ensures SomeHolds(Flattened(r, false), text) <==> Admits(r, text)
  {
    if r.Or? {
      assert Admits(Or(r.terms), text) <==> SomeHolds(r.terms, text);
    } else {
      assert Flattened(r, false)[0] == r;
      assert Admits(Flattened(r, false)[0], text) <==> Admits(r, text);
    }
    if r.And? {
      assert Admits(And(r.terms), text) <==> AllHold(r.terms, text);
    } else if !r.True? {
      assert Flattened(r, true)[0] == r;
    }
  }

  lemma RelaxedSnoc(children: seq<FilterExpr>, child: FilterExpr, text: seq<Byte>)
    ensures AllRelaxed(children + [child], text) <==> AllRelaxed(children, text) && Relaxed(child, text)
    ensures SomeRelaxed(children + [child], text) <==> SomeRelaxed(children, text) || Relaxed(child, text)
  {
    var all := children + [child];
    assert all[|children|] == child;
    assert forall k | 0 <= k < |children| :: all[k] == children[k];
  }

  lemma AndStep(children: seq<FilterExpr>, child: FilterExpr, terms: seq<FilterExpr>, r: FilterExpr)
    requires AndTerms(children, terms) && Simplifies(child, r)
    ensures AndTerms(children + [child], terms + Flattened(r, true))
  {
    forall text ensures AllHold(terms + Flattened(r, true), text) <==> AllRelaxed(children + [child], text) {
      AllHoldAppend(terms, Flattened(r, true), text);
      FlattenedMeaning(r, text);
      RelaxedSnoc(children, child, text);
    }
  }

  lemma OrStep(children: seq<FilterExpr>, child: FilterExpr, terms: seq<FilterExpr>, r: FilterExpr)
    requires OrTerms(children, terms) && Simplifies(child, r) && !r.True?
    ensures OrTerms(children + [child], terms + Flattened(r, false))
  {
    forall text ensures SomeHolds(terms + Flattened(r, false), text) <==> SomeRelaxed(children + [child], text) {
      AllHoldAppend(terms, Flattened(r, false), text);
      FlattenedMeaning(r, text);
      RelaxedSnoc(children, child, text);
    }
  }

  lemma AndNext(children: seq<FilterExpr>, k: nat, terms: seq<FilterExpr>, r: FilterExpr)
    requires k < |children| && AndTerms(children[..k], terms) && Simplifies(children[k], r)
    ensures AndTerms(children[..k + 1], terms + Flattened(r, true))
  {
    AndStep(children[..k], children[k], terms, r);
    assert children[..k + 1] == children[..k] + [children[k]];
  }

  lemma OrNext(children: seq<FilterExpr>, k: nat, terms: seq<FilterExpr>, r: FilterExpr)
    requires k < |children| && OrTerms(children[..k], terms) && Simplifies(children[k], r) && !r.True?
    ensures OrTerms(children[..k + 1], terms + Flattened(r, false))
  {
    OrStep(children[..k], children[k], terms, r);
    assert children[..k + 1] == children[..k] + [children[k]];
  }

  method Simplified(f: FilterExpr) returns (r: FilterExpr)
    ensures Simplifies(f, r)
    decreases f, 1
  {
    match f {
      case True => r := True;
      case Atom(literal) =>
        r := if literal == [] then True else f;
        if literal == [] {
          forall text ensures Contains(text, literal) { assert OccursAt(text, literal, 0); }
        }
      case And(children) => r := SimplifiedAnd(children);
      case Or(children) => r := SimplifiedOr(children);
    }
  }

  method SimplifiedAnd(children: seq<FilterExpr>) returns (r: FilterExpr)
    ensures Simplifies(And(children), r)
    decreases children, 2
  {
    var terms: seq<FilterExpr> := [];
    for k := 0 to |children|
      invariant AndTerms(children[..k], terms)
    {
      var child := Simplified(children[k]);
      AndNext(children, k, terms, child);
      terms := terms + Flattened(child, true);
    }
    assert children[..|children|] == children;
    r := RebuiltAnd(children, terms);
  }

  /** Duplicates go; what is left is the new And. */
  method RebuiltAnd(ghost children: seq<FilterExpr>, terms: seq<FilterExpr>) returns (r: FilterExpr)
    requires AndTerms(children, terms)
    ensures Simplifies(And(children), r)
  {
    var unique := Unique(terms);
    SameSetMeaning(unique, terms);
    r := if |unique| == 0 then True else if |unique| == 1 then unique[0] else And(unique);
    assert forall text :: Relaxed(And(children), text) <==> AllRelaxed(children, text);
    assert forall text :: Admits(r, text) <==> AllHold(unique, text);
  }

  method SimplifiedOr(children: seq<FilterExpr>) returns (r: FilterExpr)
    ensures Simplifies(Or(children), r)
    decreases children, 2
  {
    var terms: seq<FilterExpr> := [];
    for k := 0 to |children|
      invariant OrTerms(children[..k], terms)
    {
      var child := Simplified(children[k]);
      if child.True? {
        TrueChild(children, k);
        return True;
      }
      OrNext(children, k, terms, child);
      terms := terms + Flattened(child, false);
    }
    assert children[..|children|] == children;
    r := RebuiltOr(children, terms);
  }

  /** Duplicates and absorbed terms go; what is left is the new Or. */
  method RebuiltOr(ghost children: seq<FilterExpr>, terms: seq<FilterExpr>) returns (r: FilterExpr)
    requires OrTerms(children, terms)
    ensures Simplifies(Or(children), r)
  {
    var distinct := Unique(terms);
    SameSetMeaning(distinct, terms);
    SameSetNone(distinct, terms);
    var unique := Absorb(distinct);
    r := if |unique| == 0 then True else if |unique| == 1 then unique[0] else Or(unique);
    AllPicked(unique, distinct, terms);
    assert unique == [] <==> terms == [];
    forall text ensures SomeHolds(unique, text) <==> SomeHolds(terms, text) {
      assert SomeHolds(unique, text) <==> SomeHolds(distinct, text);
    }
    OrResult(children, terms, unique, r);
  }

  lemma AllPicked<T>(a: seq<T>, b: seq<T>, c: seq<T>)
    requires (forall k | 0 <= k < |a| :: a[k] in b) && forall k | 0 <= k < |b| :: b[k] in c
    ensures (forall k | 0 <= k < |a| :: a[k] in c) && (b == [] ==> a == [])
  {
    assert a != [] ==> a[0] in b;
  }

  lemma SameSetNone(a: seq<FilterExpr>, b: seq<FilterExpr>)
    requires CanonSet(a) == CanonSet(b)
    ensures a == [] <==> b == []
  {
    if a != [] { assert CanonOf(a[0]) in CanonSet(a); }
    if b != [] { assert CanonOf(b[0]) in CanonSet(b); }
  }

  /** A child that holds of every text makes the Or hold of every text. */
  lemma TrueChild(children: seq<FilterExpr>, k: nat)
    requires k < |children| && Simplifies(children[k], True)
    ensures Simplifies(Or(children), True)
  {
    forall text ensures Relaxed(Or(children), text) { assert Relaxed(children[k], text); }
  }

  /** What an Or is rebuilt to once no term absorbs another. */
  lemma OrResult(children: seq<FilterExpr>, terms: seq<FilterExpr>, unique: seq<FilterExpr>, r: FilterExpr)
    requires OrTerms(children, terms) && Antichain(unique) && (terms == [] <==> unique == [])
    requires forall k | 0 <= k < |unique| :: unique[k] in terms
    requires forall text :: SomeHolds(unique, text) <==> SomeHolds(terms, text)
    requires r == if |unique| == 0 then True else if |unique| == 1 then unique[0] else Or(unique)
    ensures Simplifies(Or(children), r)
  {
    forall text
      ensures Relaxed(Or(children), text) <==> children == [] || SomeRelaxed(children, text)
      ensures |unique| > 0 ==> (Admits(r, text) <==> SomeHolds(unique, text))
    {
      if |unique| == 1 {
        assert Admits(unique[0], text) <==> Admits(r, text);
      } else if |unique| > 1 {
        assert Admits(Or(unique), text) <==> SomeHolds(unique, text);
      }
    }
  }

  /** Simplifying never narrows a filter, and keeps one without an empty Or. It agrees on
      a text exactly when reading empty Ors as True does not make the filter hold. */
  lemma SimplifiedMeaning(f: FilterExpr, r: FilterExpr, text: seq<Byte>)
    requires Simplifies(f, r)
    ensures Admits(f, text) ==> Admits(r, text)
    ensures NoEmptyOr(f) ==> (Admits(r, text) <==> Admits(f, text))
    ensures (Admits(r, text) <==> Admits(f, text)) <==> (Relaxed(f, text) ==> Admits(f, text))
  {
    RelaxedMeaning(f, text);
  }

  /** The case it widens: an Or without branches admits nothing, and becomes True. */
  lemma EmptyOrWidened(r: FilterExpr, text: seq<Byte>)
    requires Simplifies(Or([]), r)
    ensures !Admits(Or([]), text) && Admits(r, text)
  {
    assert Relaxed(Or([]), text);
  }
}
