/** Ordered expansion of the instructions reached without consuming, by an
    explicit stack, and the table that precomputes it for plain programs. */
module NfaExpand {
  import opened Basics
  import opened RegexAst
  import opened NfaCode

  predicate InRange(p: Code, pc: int) {
    0 <= pc < |p|
  }

  ghost function Pcs(p: Code): set<int> {
    set pc | 0 <= pc < |p| && InRange(p, pc)
  }

  /** Instructions a thread waits at. */
  predicate IsLeaf(p: Code, pc: int)
    requires InRange(p, pc)
  {
    p[pc].op.Consume? || p[pc].op.Accept?
  }

  /** What visiting `pc` pushes, in push order: the preferred successor last. */
  function Pushed(p: Code, c: Context, pos: int, pc: int): seq<int>
    requires InRange(p, pc)
  {
    match p[pc].op
    case Consume(_) => []
    case Accept => []
    case Split => [p[pc].y, p[pc].x]
    case Test(a) => if Holds(c, a, pos) then [p[pc].x] else []
    case _ => [p[pc].x]
  }

  /** Leaves reached from the stack in visiting order, and everything visited. */
  ghost function Expand(p: Code, c: Context, pos: int, stack: seq<int>, seen: set<int>): (r: (seq<int>, set<int>))
    requires seen <= Pcs(p)
    ensures seen <= r.1 <= Pcs(p)
    decreases Pcs(p) - seen, |stack|
  {
    if stack == [] then ([], seen)
    else
      var pc, rest := Last(stack), Front(stack);
      if !InRange(p, pc) || pc in seen then Expand(p, c, pos, rest, seen)
      else if IsLeaf(p, pc) then
        var (list, seen') := Expand(p, c, pos, rest, seen + {pc});
        ([pc] + list, seen')
      else Expand(p, c, pos, rest + Pushed(p, c, pos, pc), seen + {pc})
  }

  /** The upper part of the stack is expanded first, the lower part after it. */
  lemma {:induction false} ExpandAppend(p: Code, c: Context, pos: int, a: seq<int>, b: seq<int>, seen: set<int>)
    requires seen <= Pcs(p)
    ensures
      var (l1, s1) := Expand(p, c, pos, b, seen);
      var (l2, s2) := Expand(p, c, pos, a, s1);
      Expand(p, c, pos, a + b, seen) == (l1 + l2, s2)
    decreases Pcs(p) - seen, |b|
  {
    if b == [] {
      assert a + b == a;
      var (l2, s2) := Expand(p, c, pos, a, seen);
      assert [] + l2 == l2;
    } else {
      var pc, rest := Last(b), Front(b);
      assert Last(a + b) == pc && Front(a + b) == a + rest;
      if !InRange(p, pc) || pc in seen {
        ExpandAppend(p, c, pos, a, rest, seen);
      } else if IsLeaf(p, pc) {
        ExpandAppend(p, c, pos, a, rest, seen + {pc});
        var (l1, s1) := Expand(p, c, pos, rest, seen + {pc});
        var (l2, s2) := Expand(p, c, pos, a, s1);
        assert [pc] + (l1 + l2) == [pc] + l1 + l2;
      } else {
        ExpandAppend(p, c, pos, a, rest + Pushed(p, c, pos, pc), seen + {pc});
        assert a + rest + Pushed(p, c, pos, pc) == a + (rest + Pushed(p, c, pos, pc));
      }
    }
  }

  /** Everything pushed from `s`, outside `base`, is in `s` or still waits on the stack. */
  ghost predicate ClosedBut(p: Code, c: Context, pos: int, s: set<int>, base: set<int>, stack: seq<int>) {
    forall pc, q | pc in s - base && InRange(p, pc) && q in Pushed(p, c, pos, pc) && InRange(p, q) :: q in s || q in stack
  }

  ghost predicate ClosedSet(p: Code, c: Context, pos: int, s: set<int>) {
    ClosedBut(p, c, pos, s, {}, [])
  }

  /** Expansion closes everything it visits, whatever was visited before it. */
  lemma {:induction false} ExpandCloses(p: Code, c: Context, pos: int, stack: seq<int>, seen: set<int>, base: set<int>)
    requires seen <= Pcs(p) && ClosedBut(p, c, pos, seen, base, stack)
    ensures ClosedBut(p, c, pos, Expand(p, c, pos, stack, seen).1, base, [])
    ensures forall q | q in stack && InRange(p, q) :: q in Expand(p, c, pos, stack, seen).1
    decreases Pcs(p) - seen, |stack|
  {
    if stack != [] {
      var pc, rest := Last(stack), Front(stack);
      assert forall q | q in stack :: q in rest || q == pc;
      if !InRange(p, pc) || pc in seen {
        ExpandCloses(p, c, pos, rest, seen, base);
      } else {
        var stack' := rest + Pushed(p, c, pos, pc);
        assert forall q | q in rest :: q in stack';
        assert forall q | q in Pushed(p, c, pos, pc) :: q in stack';
        ExpandCloses(p, c, pos, stack', seen + {pc}, base);
        assert IsLeaf(p, pc) ==> stack' == rest;
      }
    }
  }

  /** The listed leaves are exactly the newly visited ones, each listed once. */
  lemma {:induction false} ExpandLeaves(p: Code, c: Context, pos: int, stack: seq<int>, seen: set<int>)
    requires seen <= Pcs(p)
    ensures
      var (list, seen') := Expand(p, c, pos, stack, seen);
      && (forall pc :: pc in list <==> pc in seen' && pc !in seen && IsLeaf(p, pc))
      && (forall i, j | 0 <= i < j < |list| :: list[i] != list[j])
    decreases Pcs(p) - seen, |stack|
  {
    if stack != [] {
      var pc, rest := Last(stack), Front(stack);
      if !InRange(p, pc) || pc in seen {
        ExpandLeaves(p, c, pos, rest, seen);
      } else if IsLeaf(p, pc) {
        ExpandLeaves(p, c, pos, rest, seen + {pc});
        var (list, seen') := Expand(p, c, pos, rest, seen + {pc});
        assert forall q :: q in [pc] + list <==> q == pc || q in list;
      } else {
        ExpandLeaves(p, c, pos, rest + Pushed(p, c, pos, pc), seen + {pc});
      }
    }
  }

  /** Expansion that starts inside a closed set stays inside it. */
  lemma {:induction false} ExpandInside(p: Code, c: Context, pos: int, stack: seq<int>, seen: set<int>, closed: set<int>)
    requires seen <= Pcs(p) && ClosedSet(p, c, pos, closed)
    requires forall q | q in stack && InRange(p, q) :: q in closed
    ensures
      var (list, seen') := Expand(p, c, pos, stack, seen);
      seen' <= seen + closed && forall q | q in list :: q in closed
    decreases Pcs(p) - seen, |stack|
  {
    if stack != [] {
      var pc, rest := Last(stack), Front(stack);
      assert pc in stack && forall q | q in rest :: q in stack;
      if !InRange(p, pc) || pc in seen {
        ExpandInside(p, c, pos, rest, seen, closed);
      } else if IsLeaf(p, pc) {
        ExpandInside(p, c, pos, rest, seen + {pc}, closed);
      } else {
        ExpandInside(p, c, pos, rest + Pushed(p, c, pos, pc), seen + {pc}, closed);
      }
    }
  }

  /** The elements of `list` outside `s`, in order. */
  function Without(list: seq<int>, s: set<int>): (r: seq<int>) {
    if list == [] then []
    else if list[0] in s then Without(list[1..], s)
    else [list[0]] + Without(list[1..], s)
  }

  lemma {:induction false} WithoutAppend(a: seq<int>, b: seq<int>, s: set<int>)
    ensures Without(a + b, s) == Without(a, s) + Without(b, s)
  {
    if a == [] {
      assert a + b == b;
    } else {
      assert (a + b)[1..] == a[1..] + b;
      WithoutAppend(a[1..], b, s);
      assert [a[0]] + (Without(a[1..], s) + Without(b, s)) == [a[0]] + Without(a[1..], s) + Without(b, s);
    }
  }

  lemma {:induction false} WithoutAll(a: seq<int>, s: set<int>)
    requires forall k | 0 <= k < |a| :: a[k] in s
    ensures Without(a, s) == []
  {
    if a != [] { WithoutAll(a[1..], s); }
  }

  lemma InsideOnly(list: seq<int>, seen: set<int>, seen': set<int>, closed: set<int>)
    requires seen <= seen' <= seen + closed && forall q | q in list :: q in closed
    ensures seen' + closed == seen + closed && Without(list, closed) == []
  {
    forall k | 0 <= k < |list| ensures list[k] in closed {
      var q := list[k];
      assert q in list;
    }
    WithoutAll(list, closed);
  }

  /** A seed inside a closed set lists nothing outside it. */
  lemma SkipSeed(p: Code, c: Context, pos: int, pc: int, seen: set<int>, closed: set<int>)
    requires seen <= Pcs(p) && closed <= Pcs(p) && ClosedSet(p, c, pos, closed)
    requires InRange(p, pc) && pc in closed
    ensures
      var (l1, s1) := Expand(p, c, pos, [pc], seen);
      pc in s1 && s1 + closed == seen + closed && Without(l1, closed) == []
  {
    SeedVisited(p, c, pos, pc, seen);
    ExpandInside(p, c, pos, [pc], seen, closed);
    var (l1, s1) := Expand(p, c, pos, [pc], seen);
    InsideOnly(l1, seen, s1, closed);
  }

  /** Having a closed set visited beforehand only removes its leaves from the list. */
  lemma {:induction false} ExpandRelative(p: Code, c: Context, pos: int, stack: seq<int>, seen: set<int>, closed: set<int>)
    requires seen <= Pcs(p) && closed <= Pcs(p) && ClosedSet(p, c, pos, closed)
    ensures
      var (list, seen') := Expand(p, c, pos, stack, seen);
      Expand(p, c, pos, stack, seen + closed) == (Without(list, closed), seen' + closed)
    decreases Pcs(p) - seen, |stack|
  {
    if stack != [] {
      var pc, rest := Last(stack), Front(stack);
      if !InRange(p, pc) || pc in seen {
        ExpandRelative(p, c, pos, rest, seen, closed);
      } else if pc in closed {
        assert stack == rest + [pc];
        SkipSeed(p, c, pos, pc, seen, closed);
        ExpandAppend(p, c, pos, rest, [pc], seen);
        var (l1, s1) := Expand(p, c, pos, [pc], seen);
        var (l2, s2) := Expand(p, c, pos, rest, s1);
        ExpandRelative(p, c, pos, rest, s1, closed);
        WithoutAppend(l1, l2, closed);
        assert [] + Without(l2, closed) == Without(l2, closed);
        assert Expand(p, c, pos, rest, seen + closed) == (Without(l1 + l2, closed), s2 + closed);
      } else {
        assert seen + closed + {pc} == (seen + {pc}) + closed;
        if IsLeaf(p, pc) {
          ExpandRelative(p, c, pos, rest, seen + {pc}, closed);
        } else {
          ExpandRelative(p, c, pos, rest + Pushed(p, c, pos, pc), seen + {pc}, closed);
        }
      }
    }
  }

  lemma SeedVisited(p: Code, c: Context, pos: int, pc: int, seen: set<int>)
    requires seen <= Pcs(p) && InRange(p, pc)
    ensures pc in Expand(p, c, pos, [pc], seen).1
  {
    if pc !in seen {
      assert Front([pc]) == [];
    }
  }
}
