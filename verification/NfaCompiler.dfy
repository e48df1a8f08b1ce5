/** The Thompson compiler: it emits instructions, keeps lists of unpatched
    successors, and patches them in place. Proved to leave the finished code. */
module NfaCompiler {
  import opened Basics
  import opened RegexAst
  import opened NfaCode

  const MAX_PROGRAM: nat := 1000000

  /** An unpatched successor slot. */
  datatype PatchRef = PatchRef(pc: int, y: bool)

  datatype Frag = Frag(start: int, out: seq<PatchRef>)

  // ----- code with its open slots filled -----

  /** `p` with every slot of `out` set to `t`. */
  ghost function Filled(p: Code, out: seq<PatchRef>, t: int): (r: Code)
    ensures |r| == |p|
  {
    seq(|p|, k requires 0 <= k < |p| =>
      Inst(p[k].op,
        if PatchRef(k, false) in out then t else p[k].x,
        if PatchRef(k, true) in out then t else p[k].y))
  }

  ghost predicate SlotsIn(out: seq<PatchRef>, lo: int, hi: int) {
    forall r | r in out :: lo <= r.pc < hi
  }

  /** The two programs hold the same instructions on [lo, hi). */
  ghost predicate SameOn(p: Code, q: Code, lo: int, hi: int) {
    0 <= lo && hi <= |p| && hi <= |q| && forall k | lo <= k < hi :: p[k] == q[k]
  }

  /** `f` is the code of `n`, appended to `before`, up to its open slots. */
  ghost predicate IsFrag(before: Code, after: Code, f: Frag, n: Node) {
    && |after| == |before| + Size(n)
    && before <= after
    && f.start == Entry(n, |before|)
    && SlotsIn(f.out, |before|, |after|)
    && forall t :: IsCode(Filled(after, f.out, t), n, |before|, t)
  }

  // ----- the code predicates look only at their own section -----

  lemma {:induction false} CodeFrame(p: Code, q: Code, n: Node, lo: int, t: int)
    requires Fits(p, lo, Size(n)) && IsCode(p, n, lo, t) && SameOn(p, q, lo, lo + Size(n))
    ensures IsCode(q, n, lo, t)
    decreases n, 0
  {
    match n
    case Group(child, _) => CodeFrame(p, q, child, lo, lo + Size(child) + 1);
    case Concat(children) => ConcatFrame(p, q, children, lo, t);
    case Alt(children) => if children != [] { AltFrame(p, q, children, lo, t); }
    case Repeat(child, min, max, greedy) => RepeatFrame(p, q, child, min, max, greedy, lo, t);
    case _ =>
  }

  lemma {:induction false} RepeatFrame(p: Code, q: Code, child: Node, min: nat, max: Option<nat>, greedy: bool, lo: int, t: int)
    requires var n := Repeat(child, min, max, greedy); Fits(p, lo, Size(n)) && IsCode(p, n, lo, t) && SameOn(p, q, lo, lo + Size(n))
    ensures IsCode(q, Repeat(child, min, max, greedy), lo, t)
    decreases child, 3
  {
    if max == Some(min) {
      CopiesFrame(p, q, child, min, lo, t);
    } else if max == None {
      var mid := lo + CopiesSize(child, min);
      CopiesFrame(p, q, child, min, lo, mid + Size(child));
      CodeFrame(p, q, child, mid, mid + Size(child));
    } else {
      OptionalFrame(p, q, child, min, if max.value < min then 0 else max.value - min, greedy, lo, t, t);
    }
  }

  lemma {:induction false} ConcatFrame(p: Code, q: Code, ns: seq<Node>, lo: int, t: int)
    requires Fits(p, lo, ConcatSize(ns)) && IsConcat(p, ns, lo, t) && SameOn(p, q, lo, lo + ConcatSize(ns))
    ensures IsConcat(q, ns, lo, t)
    decreases ns, 0
  {
    if ns != [] {
      var mid := lo + ConcatSize(Front(ns));
      ConcatFrame(p, q, Front(ns), lo, Entry(Last(ns), mid));
      CodeFrame(p, q, Last(ns), mid, t);
    }
  }

  lemma {:induction false} AltFrame(p: Code, q: Code, ns: seq<Node>, lo: int, t: int)
    requires ns != [] && Fits(p, lo, AltSize(ns)) && IsAlt(p, ns, lo, t) && SameOn(p, q, lo, lo + AltSize(ns))
    ensures IsAlt(q, ns, lo, t)
    decreases ns, 0
  {
    if |ns| == 1 {
      CodeFrame(p, q, ns[0], lo, t);
    } else {
      AltFrame(p, q, Front(ns), lo, t);
      CodeFrame(p, q, Last(ns), lo + AltSize(Front(ns)), t);
    }
  }

  lemma {:induction false} CopiesFrame(p: Code, q: Code, n: Node, k: nat, lo: int, t: int)
    requires Fits(p, lo, CopiesSize(n, k)) && IsCopies(p, n, k, lo, t) && SameOn(p, q, lo, lo + CopiesSize(n, k))
    ensures IsCopies(q, n, k, lo, t)
    decreases n, 1, k
  {
    if k > 0 {
      var mid := lo + CopiesSize(n, k - 1);
      CopiesFrame(p, q, n, k - 1, lo, Entry(n, mid));
      CodeFrame(p, q, n, mid, t);
    }
  }

  lemma {:induction false} OptionalFrame(p: Code, q: Code, n: Node, min: nat, r: nat, greedy: bool, lo: int, exit: int, t: int)
    requires Fits(p, lo, OptionalSize(n, min, r)) && IsOptional(p, n, min, r, greedy, lo, exit, t)
    requires SameOn(p, q, lo, lo + OptionalSize(n, min, r))
    ensures IsOptional(q, n, min, r, greedy, lo, exit, t)
    decreases n, 2, r
  {
    if r == 0 {
      CopiesFrame(p, q, n, min, lo, t);
    } else {
      var mid := lo + OptionalSize(n, min, r - 1);
      OptionalFrame(p, q, n, min, r - 1, greedy, lo, exit, mid + Size(n));
      CodeFrame(p, q, n, mid, t);
    }
  }

  // ----- code under construction, for every way its open slots may be filled -----

  ghost predicate OpenConcat(p: Code, out: seq<PatchRef>, ns: seq<Node>, lo: int) {
    && |p| == lo + ConcatSize(ns) && 0 <= lo && SlotsIn(out, lo, |p|)
    && forall t :: IsConcat(Filled(p, out, t), ns, lo, t)
  }

  ghost predicate OpenAlt(p: Code, f: Frag, ns: seq<Node>, lo: int)
    requires ns != []
  {
    && |p| == lo + AltSize(ns) && 0 <= lo && SlotsIn(f.out, lo, |p|) && f.start == AltEntry(ns, lo)
    && forall t :: IsAlt(Filled(p, f.out, t), ns, lo, t)
  }

  ghost predicate OpenCopies(p: Code, out: seq<PatchRef>, n: Node, k: nat, lo: int) {
    && |p| == lo + CopiesSize(n, k) && 0 <= lo && SlotsIn(out, lo, |p|)
    && forall t :: IsCopies(Filled(p, out, t), n, k, lo, t)
  }

  ghost predicate OpenOptional(p: Code, exits: seq<PatchRef>, out: seq<PatchRef>, n: Node, min: nat, k: nat, greedy: bool, lo: int) {
    && |p| == lo + OptionalSize(n, min, k) && 0 <= lo && SlotsIn(exits, lo, |p|) && SlotsIn(out, lo, |p|)
    && (forall r | r in exits :: r !in out)
    && forall e, t :: IsOptional(Filled(Filled(p, exits, e), out, t), n, min, k, greedy, lo, e, t)
  }

  // ----- patching one fragment to the next -----

  /** Filling the slots below `mid` and those from `mid` on are independent. */
  lemma FillParts(before: Code, after: Code, a: seq<PatchRef>, b: seq<PatchRef>, e: int, t: int)
    requires before <= after && SlotsIn(a, 0, |before|) && SlotsIn(b, |before|, |after|)
    ensures SameOn(Filled(before, a, e), Filled(Filled(after, a, e), b, t), 0, |before|)
    ensures SameOn(Filled(after, b, t), Filled(Filled(after, a, e), b, t), |before|, |after|)
  {
  }

  lemma {:induction false} ConcatGrows(ns: seq<Node>, k: nat)
    requires k <= |ns|
    ensures ConcatSize(ns[..k]) <= ConcatSize(ns)
    ensures k < |ns| ==> ConcatSize(ns[..k]) + Size(ns[k]) <= ConcatSize(ns)
    decreases |ns|
  {
    if k == |ns| {
      assert ns[..k] == ns;
    } else if k == |ns| - 1 {
      assert ns[..k] == Front(ns);
    } else {
      ConcatGrows(Front(ns), k);
      assert Front(ns)[..k] == ns[..k];
    }
  }

  lemma {:induction false} AltGrows(ns: seq<Node>, k: nat)
    requires 0 < k <= |ns|
    ensures AltSize(ns[..k]) <= AltSize(ns)
    ensures k < |ns| ==> AltSize(ns[..k]) + Size(ns[k]) + 1 <= AltSize(ns)
    decreases |ns|
  {
    if k == |ns| {
      assert ns[..k] == ns;
    } else if k == |ns| - 1 {
      assert ns[..k] == Front(ns);
    } else {
      AltGrows(Front(ns), k);
      assert Front(ns)[..k] == ns[..k];
    }
  }

  lemma {:induction false} CopiesGrow(n: Node, k: nat, times: nat)
    requires k <= times
    ensures CopiesSize(n, k) <= CopiesSize(n, times)
    ensures k < times ==> CopiesSize(n, k) + Size(n) <= CopiesSize(n, times)
    decreases times
  {
    if k < times { CopiesGrow(n, k, times - 1); }
  }

  lemma RepeatSize(child: Node, min: nat, max: Option<nat>, greedy: bool)
    ensures CopiesSize(child, min) <= Size(Repeat(child, min, max, greedy))
  {
    if max.Some? && min < max.value { OptionalGrows(child, min, 0, max.value - min); }
  }

  /** The first `p` units of `text` are chained from `lo` on, the last one open. */
  ghost predicate Spelled(code: Code, text: seq<Byte>, icase: bool, lo: int, p: nat)
    requires 0 <= lo && lo + p <= |code| && p <= |text|
  {
    forall k {:trigger text[k]} | 0 <= k < p ::
      code[lo + k] == Inst(Consume(Rune(text[k], icase)), if k + 1 < p then lo + k + 1 else -1, -1)
  }

  lemma SpellStep(upTo: Code, code: Code, text: seq<Byte>, icase: bool, lo: int, p: nat)
    requires 0 < lo && |upTo| == lo + p && p < |text| && Spelled(upTo, text, icase, lo, p)
    requires
      var grown := upTo + [Inst(Consume(Rune(text[p], icase)), -1, -1)];
      code == if p > 0 then Filled(grown, [PatchRef(lo + p - 1, false)], lo + p) else grown
    ensures Spelled(code, text, icase, lo, p + 1)
    ensures upTo[..lo] == code[..lo]
  {
  }

  lemma SpellFrag(before: Code, code: Code, text: seq<Byte>, icase: bool)
    requires text != [] && |code| == |before| + 1 + |text| && before <= code && code[|before|] == Inst(Jmp, -1, -1)
    requires Spelled(code, text, icase, |before| + 1, |text|)
    ensures IsFrag(before, code, Frag(|before| + 1, [PatchRef(|code| - 1, false)]), Literal(text, icase))
  {
    var out := [PatchRef(|code| - 1, false)];
    forall t ensures IsCode(Filled(code, out, t), Literal(text, icase), |before|, t) {
      var final := Filled(code, out, t);
      assert forall k {:trigger text[k]} | 0 <= k < |text| ::
        code[|before| + 1 + k].op == Consume(Rune(text[k], icase));
      assert IsSpelled(final, text, icase, |before| + 1, t);
    }
  }

  /** `b` was built right after `upTo`, whose open slots now lead to it. */
  lemma ConcatStep(upTo: Code, built: Code, ns: seq<Node>, lo: int, out: seq<PatchRef>, b: Frag)
    requires ns != [] && OpenConcat(upTo, out, Front(ns), lo) && IsFrag(upTo, built, b, Last(ns))
    ensures OpenConcat(Filled(built, out, b.start), b.out, ns, lo)
  {
    var code := Filled(built, out, b.start);
    forall t ensures IsConcat(Filled(code, b.out, t), ns, lo, t) {
      var final := Filled(code, b.out, t);
      FillParts(upTo, built, out, b.out, b.start, t);
      ConcatFrame(Filled(upTo, out, b.start), final, Front(ns), lo, b.start);
      CodeFrame(Filled(built, b.out, t), final, Last(ns), |upTo|, t);
    }
  }

  lemma CopiesStep(upTo: Code, built: Code, n: Node, k: nat, lo: int, out: seq<PatchRef>, b: Frag)
    requires OpenCopies(upTo, out, n, k, lo) && IsFrag(upTo, built, b, n)
    ensures OpenCopies(Filled(built, out, b.start), b.out, n, k + 1, lo)
  {
    var code := Filled(built, out, b.start);
    forall t ensures IsCopies(Filled(code, b.out, t), n, k + 1, lo, t) {
      var final := Filled(code, b.out, t);
      FillParts(upTo, built, out, b.out, b.start, t);
      CopiesFrame(Filled(upTo, out, b.start), final, n, k, lo, b.start);
      CodeFrame(Filled(built, b.out, t), final, n, |upTo|, t);
    }
  }

  /** Appending instructions and filling slots that are not theirs keeps a section. */
  lemma FillAppended(p: Code, more: Code, out: seq<PatchRef>, others: seq<PatchRef>, t: int, hi: int)
    requires hi <= |p| && forall r | r in others :: hi <= r.pc
    ensures SameOn(Filled(p, out, t), Filled(p + more, out + others, t), 0, hi)
  {
  }

  lemma FillAfter(p: Code, more: Code, out: seq<PatchRef>, others: seq<PatchRef>, t: int, lo: int)
    requires 0 <= lo <= |p| && forall r | r in others :: r.pc < lo
    ensures SameOn(Filled(p, out, t), Filled(p + more, others + out, t), lo, |p|)
  {
  }

  lemma AltStep(upTo: Code, built: Code, ns: seq<Node>, lo: int, f: Frag, b: Frag)
    requires |ns| > 1 && OpenAlt(upTo, f, Front(ns), lo) && IsFrag(upTo, built, b, Last(ns))
    ensures OpenAlt(built + [Inst(Split, f.start, b.start)], Frag(|built|, f.out + b.out), ns, lo)
  {
    var split := [Inst(Split, f.start, b.start)];
    var code, out := built + split, f.out + b.out;
    forall t ensures IsAlt(Filled(code, out, t), ns, lo, t) { AltFilled(upTo, built, ns, lo, f, b, t); }
  }

  lemma AltFilled(upTo: Code, built: Code, ns: seq<Node>, lo: int, f: Frag, b: Frag, t: int)
    requires |ns| > 1 && OpenAlt(upTo, f, Front(ns), lo) && IsFrag(upTo, built, b, Last(ns))
    ensures IsAlt(Filled(built + [Inst(Split, f.start, b.start)], f.out + b.out, t), ns, lo, t)
  {
    var split := [Inst(Split, f.start, b.start)];
    var final := Filled(built + split, f.out + b.out, t);
    assert built == upTo + built[|upTo|..];
    FillAppended(upTo, built[|upTo|..] + split, f.out, b.out, t, |upTo|);
    assert upTo + (built[|upTo|..] + split) == built + split;
    FillAfter(built, split, b.out, f.out, t, |upTo|);
    AltFrame(Filled(upTo, f.out, t), final, Front(ns), lo, t);
    CodeFrame(Filled(built, b.out, t), final, Last(ns), |upTo|, t);
  }

  lemma FillStar(upTo: Code, built: Code, split: Inst, out: seq<PatchRef>, cOut: seq<PatchRef>, exit: seq<PatchRef>, t: int)
    requires upTo <= built && SlotsIn(out, 0, |upTo|) && SlotsIn(cOut, |upTo|, |built|)
    requires |exit| == 1 && exit[0].pc == |built|
    ensures
      var pc := |built|;
      var final := Filled(Filled(Filled(built + [split], cOut, pc), out, pc), exit, t);
      && SameOn(Filled(upTo, out, pc), final, 0, |upTo|)
      && SameOn(Filled(built, cOut, pc), final, |upTo|, pc)
      && final[pc] == if exit[0].y then split.(y := t) else split.(x := t)
  {
    var pc := |built|;
    var p1 := Filled(built + [split], cOut, pc);
    var p2 := Filled(p1, out, pc);
    assert forall k | 0 <= k < |upTo| :: p1[k] == upTo[k];
    assert forall k | |upTo| <= k <= pc :: p2[k] == p1[k];
    assert forall k | 0 <= k < pc :: Filled(p2, exit, t)[k] == p2[k];
  }

  lemma FillOptional(upTo: Code, built: Code, split: Inst, exits: seq<PatchRef>, exit: PatchRef, out: seq<PatchRef>, cOut: seq<PatchRef>, e: int, t: int)
    requires upTo <= built && SlotsIn(out, 0, |upTo|) && SlotsIn(exits, 0, |upTo|) && SlotsIn(cOut, |upTo|, |built|)
    requires exit.pc == |built| && forall r | r in exits :: r !in out
    ensures
      var pc := |built|;
      var final := Filled(Filled(Filled(built + [split], out, pc), exits + [exit], e), cOut, t);
      && SameOn(Filled(Filled(upTo, exits, e), out, pc), final, 0, |upTo|)
      && SameOn(Filled(built, cOut, t), final, |upTo|, pc)
      && final[pc] == if exit.y then split.(y := e) else split.(x := e)
  {
    var pc := |built|;
    var p1 := Filled(built + [split], out, pc);
    var p2 := Filled(p1, exits + [exit], e);
    var final := Filled(p2, cOut, t);
    assert forall k | 0 <= k < |upTo| :: p1[k] == Filled(upTo, out, pc)[k];
    assert forall k | |upTo| <= k < pc :: p1[k] == built[k] == p2[k];
    assert p1[pc] == split && p2[pc] == final[pc];
    assert forall k | 0 <= k < |upTo| :: final[k] == p2[k];
  }

  /** The body of an unbounded repeat and the slots before it all lead to its branch. */
  lemma StarStep(upTo: Code, built: Code, n: Node, min: nat, greedy: bool, lo: int, out: seq<PatchRef>, c: Frag, split: Inst, exit: seq<PatchRef>)
    requires OpenCopies(upTo, out, n, min, lo) && IsFrag(upTo, built, c, n)
    requires split == (if greedy then Inst(Split, c.start, -1) else Inst(Split, -1, c.start)) && exit == [PatchRef(|built|, greedy)]
    ensures
      var code := Filled(Filled(built + [split], c.out, |built|), out, |built|);
      forall t :: IsCode(Filled(code, exit, t), Repeat(n, min, None, greedy), lo, t)
  {
    var code := Filled(Filled(built + [split], c.out, |built|), out, |built|);
    forall t ensures IsCode(Filled(code, exit, t), Repeat(n, min, None, greedy), lo, t) {
      StarFilled(upTo, built, n, min, greedy, lo, out, c, split, exit, t);
    }
  }

  lemma StarFilled(upTo: Code, built: Code, n: Node, min: nat, greedy: bool, lo: int, out: seq<PatchRef>, c: Frag, split: Inst, exit: seq<PatchRef>, t: int)
    requires OpenCopies(upTo, out, n, min, lo) && IsFrag(upTo, built, c, n)
    requires split == (if greedy then Inst(Split, c.start, -1) else Inst(Split, -1, c.start)) && exit == [PatchRef(|built|, greedy)]
    ensures IsCode(Filled(Filled(Filled(built + [split], c.out, |built|), out, |built|), exit, t), Repeat(n, min, None, greedy), lo, t)
  {
    var pc := |built|;
    var final := Filled(Filled(Filled(built + [split], c.out, pc), out, pc), exit, t);
    FillStar(upTo, built, split, out, c.out, exit, t);
    CopiesFrame(Filled(upTo, out, pc), final, n, min, lo, pc);
    CodeFrame(Filled(built, c.out, pc), final, n, |upTo|, pc);
  }

  lemma GroupStep(before: Code, built: Code, child: Node, group: nat, c: Frag, t: int)
    requires IsFrag(before, built, c, child)
    ensures
      var b := |built| + 1;
      var code := built + [Inst(SaveStart(group), c.start, -1)] + [Inst(SaveEnd(group), -1, -1)];
      IsCode(Filled(Filled(code, c.out, b), [PatchRef(b, false)], t), Group(child, group), |before|, t)
  {
    var b := |built| + 1;
    var code := built + [Inst(SaveStart(group), c.start, -1)] + [Inst(SaveEnd(group), -1, -1)];
    var final := Filled(Filled(code, c.out, b), [PatchRef(b, false)], t);
    assert SameOn(Filled(built, c.out, b), final, |before|, |built|);
    CodeFrame(Filled(built, c.out, b), final, child, |before|, b);
  }

  lemma GroupFrag(before: Code, built: Code, child: Node, group: nat, c: Frag)
    requires IsFrag(before, built, c, child)
    ensures
      var b := |built| + 1;
      var code := built + [Inst(SaveStart(group), c.start, -1)] + [Inst(SaveEnd(group), -1, -1)];
      IsFrag(before, Filled(code, c.out, b), Frag(|built|, [PatchRef(b, false)]), Group(child, group))
  {
    var b := |built| + 1;
    var code := Filled(built + [Inst(SaveStart(group), c.start, -1)] + [Inst(SaveEnd(group), -1, -1)], c.out, b);
    forall t ensures IsCode(Filled(code, [PatchRef(b, false)], t), Group(child, group), |before|, t) {
      GroupStep(before, built, child, group, c, t);
    }
  }

  lemma OptionalSnoc(p: Code, n: Node, min: nat, k: nat, greedy: bool, lo: int, exit: int, t: int)
    requires
      var mid := lo + OptionalSize(n, min, k);
      && Fits(p, lo, OptionalSize(n, min, k) + Size(n) + 1)
      && IsOptional(p, n, min, k, greedy, lo, exit, mid + Size(n))
      && IsCode(p, n, mid, t)
      && p[mid + Size(n)] == Branch(greedy, Entry(n, mid), exit)
    ensures Fits(p, lo, OptionalSize(n, min, k + 1)) && IsOptional(p, n, min, k + 1, greedy, lo, exit, t)
  {
  }

  lemma OptionalStepAt(start: Code, built: Code, final: Code, n: Node, min: nat, k: nat, greedy: bool, lo: int, e: int, t: int)
    requires 0 <= lo && |built| == lo + OptionalSize(n, min, k) + Size(n)
    requires
      var mid, pc := |built| - Size(n), |built|;
      && |start| == mid && IsOptional(start, n, min, k, greedy, lo, e, pc)
      && IsCode(built, n, mid, t)
      && SameOn(start, final, 0, mid) && SameOn(built, final, mid, pc)
      && pc < |final| && final[pc] == Branch(greedy, Entry(n, mid), e)
    ensures Fits(final, lo, OptionalSize(n, min, k + 1)) && IsOptional(final, n, min, k + 1, greedy, lo, e, t)
  {
    OptionalFrame(start, final, n, min, k, greedy, lo, e, |built|);
    CodeFrame(built, final, n, |built| - Size(n), t);
    OptionalSnoc(final, n, min, k, greedy, lo, e, t);
  }

  lemma OptionalStepFilled(upTo: Code, built: Code, n: Node, min: nat, k: nat, greedy: bool, lo: int,
      exits: seq<PatchRef>, out: seq<PatchRef>, c: Frag, split: Inst, e: int, t: int)
    requires 0 <= lo && |upTo| == lo + OptionalSize(n, min, k) && upTo <= built && |built| == |upTo| + Size(n)
    requires SlotsIn(exits, 0, |upTo|) && SlotsIn(out, 0, |upTo|) && SlotsIn(c.out, |upTo|, |built|)
    requires c.start == Entry(n, |upTo|) && forall r | r in exits :: r !in out
    requires split == if greedy then Inst(Split, c.start, -1) else Inst(Split, -1, c.start)
    requires IsOptional(Filled(Filled(upTo, exits, e), out, |built|), n, min, k, greedy, lo, e, |built|)
    requires IsCode(Filled(built, c.out, t), n, |upTo|, t)
    ensures
      var code := Filled(built + [split], out, |built|);
      && |built| + 1 == lo + OptionalSize(n, min, k + 1)
      && IsOptional(Filled(Filled(code, exits + [PatchRef(|built|, greedy)], e), c.out, t), n, min, k + 1, greedy, lo, e, t)
  {
    var pc, exit := |built|, PatchRef(|built|, greedy);
    var code := Filled(built + [split], out, pc);
    FillOptional(upTo, built, split, exits, exit, out, c.out, e, t);
    OptionalStepAt(Filled(Filled(upTo, exits, e), out, pc), Filled(built, c.out, t),
      Filled(Filled(code, exits + [exit], e), c.out, t), n, min, k, greedy, lo, e, t);
  }

  /** One more optional copy: its branch is emitted after it, and the slots that
      were open before now lead to that branch. */
  lemma OptionalStep(upTo: Code, built: Code, n: Node, min: nat, k: nat, greedy: bool, lo: int,
      exits: seq<PatchRef>, out: seq<PatchRef>, c: Frag, split: Inst)
    requires OpenOptional(upTo, exits, out, n, min, k, greedy, lo) && IsFrag(upTo, built, c, n)
    requires split == if greedy then Inst(Split, c.start, -1) else Inst(Split, -1, c.start)
    ensures OpenOptional(Filled(built + [split], out, |built|), exits + [PatchRef(|built|, greedy)], c.out, n, min, k + 1, greedy, lo)
  {
    var code, exits' := Filled(built + [split], out, |built|), exits + [PatchRef(|built|, greedy)];
    forall e, t
      ensures |code| == lo + OptionalSize(n, min, k + 1)
      ensures IsOptional(Filled(Filled(code, exits', e), c.out, t), n, min, k + 1, greedy, lo, e, t)
    {
      OptionalStepFilled(upTo, built, n, min, k, greedy, lo, exits, out, c, split, e, t);
    }
    OptionalStepFilled(upTo, built, n, min, k, greedy, lo, exits, out, c, split, 0, 0);
  }

  /** Closing a chain of optional copies: both kinds of open slot leave together. */
  lemma OptionalClose(p: Code, exits: seq<PatchRef>, out: seq<PatchRef>, n: Node, min: nat, k: nat, greedy: bool, lo: int)
    requires OpenOptional(p, exits, out, n, min, k, greedy, lo)
    ensures forall t :: IsOptional(Filled(p, exits + out, t), n, min, k, greedy, lo, t, t)
  {
    var all := exits + out;
    forall t ensures IsOptional(Filled(p, all, t), n, min, k, greedy, lo, t, t) {
      assert Filled(p, all, t) == Filled(Filled(p, exits, t), out, t);
    }
  }

  lemma OptionalOpen(p: Code, out: seq<PatchRef>, n: Node, min: nat, greedy: bool, lo: int)
    requires OpenCopies(p, out, n, min, lo)
    ensures OpenOptional(p, [], out, n, min, 0, greedy, lo)
  {
    forall e, t ensures IsOptional(Filled(Filled(p, [], e), out, t), n, min, 0, greedy, lo, e, t) {
      assert Filled(p, [], e) == p;
    }
  }

  class Compiler {
    var nfa: Code

    constructor ()
      ensures nfa == []
    {
      nfa := [];
    }

    method Emit(i: Inst) returns (r: Result<int>)
      modifies this
      ensures r.Ok? <==> |old(nfa)| < MAX_PROGRAM
      ensures r.Ok? ==> r.value == |old(nfa)| && nfa == old(nfa) + [i]
    {
      if |nfa| >= MAX_PROGRAM {
        return Err("compiled program too large");
      }
      nfa := nfa + [i];
      return Ok(|nfa| - 1);
    }

    method Set(r: PatchRef, target: int)
      requires 0 <= r.pc < |nfa|
      modifies this
      ensures nfa == Filled(old(nfa), [r], target)
    {
      nfa := if r.y then nfa[r.pc := nfa[r.pc].(y := target)] else nfa[r.pc := nfa[r.pc].(x := target)];
    }

    method Patch(out: seq<PatchRef>, target: int)
      requires SlotsIn(out, 0, |nfa|)
      modifies this
      ensures nfa == Filled(old(nfa), out, target)
    {
      for k := 0 to |out|
        invariant nfa == Filled(old(nfa), out[..k], target)
      {
        Set(out[k], target);
      }
      assert out[..|out|] == out;
    }

    method Epsilon() returns (r: Result<Frag>)
      modifies this
      ensures r.Ok? <==> |old(nfa)| < MAX_PROGRAM
      ensures r.Ok? ==> nfa == old(nfa) + [Inst(Jmp, -1, -1)] && r.value == Frag(|old(nfa)|, [PatchRef(|old(nfa)|, false)])
    {
      var pc :- Emit(Inst(Jmp, -1, -1));
      return Ok(Frag(pc, [PatchRef(pc, false)]));
    }

    method One(op: Op) returns (r: Result<Frag>)
      modifies this
      ensures r.Ok? <==> |old(nfa)| < MAX_PROGRAM
      ensures r.Ok? ==> nfa == old(nfa) + [Inst(op, -1, -1)] && r.value == Frag(|old(nfa)|, [PatchRef(|old(nfa)|, false)])
    {
      var pc :- Emit(Inst(op, -1, -1));
      return Ok(Frag(pc, [PatchRef(pc, false)]));
    }

    method BuildLiteral(text: seq<Byte>, icase: bool) returns (r: Result<Frag>)
      modifies this
      ensures r.Ok? <==> |old(nfa)| + Size(Literal(text, icase)) <= MAX_PROGRAM
      ensures r.Ok? ==> IsFrag(old(nfa), nfa, r.value, Literal(text, icase))
    {
      ghost var before := nfa;
      var all :- Epsilon();
      if text == [] {
        r := Epsilon();
      } else {
        r := SpellUnits(all, text, icase, before);
      }
    }

    /** One consuming instruction a unit, each patched to the next. */
    method SpellUnits(first: Frag, text: seq<Byte>, icase: bool, ghost before: Code) returns (r: Result<Frag>)
      requires text != [] && nfa == before + [Inst(Jmp, -1, -1)] && |nfa| <= MAX_PROGRAM
      modifies this
      ensures r.Ok? <==> |before| + Size(Literal(text, icase)) <= MAX_PROGRAM
      ensures r.Ok? ==> IsFrag(before, nfa, r.value, Literal(text, icase))
    {
      ghost var lo := |nfa|;
      var all := first;
      for p := 0 to |text|
        invariant |nfa| == lo + p <= MAX_PROGRAM && before <= nfa && nfa[lo - 1] == Inst(Jmp, -1, -1)
        invariant p > 0 ==> all == Frag(lo, [PatchRef(lo + p - 1, false)])
        invariant Spelled(nfa, text, icase, lo, p)
      {
        all :- SpellUnit(all, text, icase, p, lo);
      }
      SpellFrag(before, nfa, text, icase);
      return Ok(all);
    }

    /** One more unit behind those already spelled. */
    method SpellUnit(all: Frag, text: seq<Byte>, icase: bool, p: nat, ghost lo: nat) returns (r: Result<Frag>)
      requires 0 < lo && p < |text| && |nfa| == lo + p <= MAX_PROGRAM && Spelled(nfa, text, icase, lo, p)
      requires p > 0 ==> all == Frag(lo, [PatchRef(lo + p - 1, false)])
      modifies this
      ensures r.Ok? <==> lo + p < MAX_PROGRAM
      ensures r.Ok? ==> r.value == Frag(lo, [PatchRef(lo + p, false)])
      ensures r.Ok? ==> |nfa| == lo + p + 1 && nfa[..lo] == old(nfa)[..lo] && Spelled(nfa, text, icase, lo, p + 1)
    {
      ghost var upTo := nfa;
      var f :- One(Consume(Rune(text[p], icase)));
      if p > 0 {
        Patch(all.out, f.start);
      }
      SpellStep(upTo, nfa, text, icase, lo, p);
      return Ok(Frag(if p > 0 then all.start else f.start, f.out));
    }

    method Build(n: Node) returns (r: Result<Frag>)
      modifies this
      ensures r.Ok? <==> |old(nfa)| + Size(n) <= MAX_PROGRAM
      ensures r.Ok? ==> IsFrag(old(nfa), nfa, r.value, n)
      decreases n, 1
    {
      match n
      case Empty => r := Epsilon();
      case Literal(text, icase) => r := BuildLiteral(text, icase);
      case Dot(dotall) => r := One(Consume(Any(dotall)));
      case Class(members) => r := One(Consume(InClass(members)));
      case Assert(a) => r := One(Test(a));
      case Group(child, group) => r := BuildGroup(child, group);
      case Concat(children) => r := BuildConcat(children);
      case Alt(children) => if children == [] { r := Epsilon(); } else { r := BuildAlt(children); }
      case Repeat(child, min, max, greedy) => r := BuildRepeat(child, min, max, greedy);
    }

    method BuildGroup(child: Node, group: nat) returns (r: Result<Frag>)
      modifies this
      ensures r.Ok? <==> |old(nfa)| + Size(Group(child, group)) <= MAX_PROGRAM
      ensures r.Ok? ==> IsFrag(old(nfa), nfa, r.value, Group(child, group))
      decreases child, 2
    {
      ghost var before := nfa;
      var c :- Build(child);
      ghost var built := nfa;
      var a :- Emit(Inst(SaveStart(group), -1, -1));
      Set(PatchRef(a, false), c.start);
      var b :- Emit(Inst(SaveEnd(group), -1, -1));
      Patch(c.out, b);
      assert nfa == Filled(built + [Inst(SaveStart(group), c.start, -1)] + [Inst(SaveEnd(group), -1, -1)], c.out, b);
      GroupFrag(before, built, child, group, c);
      return Ok(Frag(a, [PatchRef(b, false)]));
    }

    method BuildConcat(children: seq<Node>) returns (r: Result<Frag>)
      modifies this
      ensures r.Ok? <==> |old(nfa)| + Size(Concat(children)) <= MAX_PROGRAM
      ensures r.Ok? ==> IsFrag(old(nfa), nfa, r.value, Concat(children))
      decreases children, 2
    {
      ghost var before := nfa;
      ConcatGrows(children, 0);
      var f :- Epsilon();
      for k := 0 to |children|
        invariant |nfa| <= MAX_PROGRAM && before <= nfa && f.start == |before|
        invariant OpenConcat(nfa, f.out, children[..k], |before|)
      {
        ghost var upTo := nfa;
        ConcatGrows(children, k);
        var b :- Build(children[k]);
        assert Front(children[..k + 1]) == children[..k];
        ConcatStep(upTo, nfa, children[..k + 1], |before|, f.out, b);
        Patch(f.out, b.start);
        f := Frag(f.start, b.out);
      }
      assert children[..|children|] == children;
      return Ok(f);
    }

    method BuildAlt(children: seq<Node>) returns (r: Result<Frag>)
      requires children != []
      modifies this
      ensures r.Ok? <==> |old(nfa)| + Size(Alt(children)) <= MAX_PROGRAM
      ensures r.Ok? ==> IsFrag(old(nfa), nfa, r.value, Alt(children))
      decreases children, 2
    {
      ghost var before := nfa;
      AltGrows(children, 1);
      var f :- Build(children[0]);
      for k := 1 to |children|
        invariant |nfa| <= MAX_PROGRAM && before <= nfa
        invariant OpenAlt(nfa, f, children[..k], |before|)
      {
        ghost var upTo := nfa;
        AltGrows(children, k);
        var b :- Build(children[k]);
        assert Front(children[..k + 1]) == children[..k];
        AltStep(upTo, nfa, children[..k + 1], |before|, f, b);
        var pc :- Emit(Inst(Split, f.start, b.start));
        f := Frag(pc, f.out + b.out);
      }
      assert children[..|children|] == children;
      return Ok(f);
    }

    method BuildRepeat(child: Node, min: nat, max: Option<nat>, greedy: bool) returns (r: Result<Frag>)
      modifies this
      ensures r.Ok? <==> |old(nfa)| + Size(Repeat(child, min, max, greedy)) <= MAX_PROGRAM
      ensures r.Ok? ==> IsFrag(old(nfa), nfa, r.value, Repeat(child, min, max, greedy))
      decreases child, 4
    {
      ghost var before := nfa;
      RepeatSize(child, min, max, greedy);
      var res :- BuildCopies(child, min);
      if max == Some(min) {
        return Ok(res);
      }
      if max == None {
        r := BuildStar(before, res, child, min, greedy);
      } else {
        r := BuildOptional(before, res, child, min, max.value, greedy);
      }
    }

    /** The mandatory copies of a repeat. */
    method BuildCopies(child: Node, min: nat) returns (r: Result<Frag>)
      modifies this
      ensures r.Ok? <==> |old(nfa)| + CopiesSize(child, min) <= MAX_PROGRAM
      ensures r.Ok? ==> old(nfa) <= nfa && r.value.start == |old(nfa)|
      ensures r.Ok? ==> OpenCopies(nfa, r.value.out, child, min, |old(nfa)|)
      decreases child, 2
    {
      ghost var before := nfa;
      CopiesGrow(child, 0, min);
      var res :- Epsilon();
      for k := 0 to min
        invariant |nfa| <= MAX_PROGRAM && before <= nfa && res.start == |before|
        invariant OpenCopies(nfa, res.out, child, k, |before|)
      {
        ghost var upTo := nfa;
        CopiesGrow(child, k, min);
        var b :- Build(child);
        CopiesStep(upTo, nfa, child, k, |before|, res.out, b);
        Patch(res.out, b.start);
        res := Frag(res.start, b.out);
      }
      return Ok(res);
    }

    /** The unbounded tail of a repeat, after its `min` copies. */
    method BuildStar(ghost before: Code, res: Frag, child: Node, min: nat, greedy: bool) returns (r: Result<Frag>)
      requires before <= nfa && res.start == |before| && OpenCopies(nfa, res.out, child, min, |before|)
      modifies this
      ensures r.Ok? <==> |old(nfa)| + Size(child) + 1 <= MAX_PROGRAM
      ensures r.Ok? ==> IsFrag(before, nfa, r.value, Repeat(child, min, None, greedy))
      decreases child, 2
    {
      ghost var upTo := nfa;
      var c :- Build(child);
      var split := if greedy then Inst(Split, c.start, -1) else Inst(Split, -1, c.start);
      StarStep(upTo, nfa, child, min, greedy, |before|, res.out, c, split, [PatchRef(|nfa|, greedy)]);
      var pc :- Emit(split);
      Patch(c.out, pc);
      Patch(res.out, pc);
      return Ok(Frag(res.start, [PatchRef(pc, greedy)]));
    }

    /** The optional copies of a bounded repeat, after its `min` copies. */
    method BuildOptional(ghost before: Code, start: Frag, child: Node, min: nat, max: nat, greedy: bool) returns (r: Result<Frag>)
      requires |nfa| <= MAX_PROGRAM && before <= nfa && max != min
      requires start.start == |before| && OpenCopies(nfa, start.out, child, min, |before|)
      modifies this
      ensures r.Ok? <==> |before| + Size(Repeat(child, min, Some(max), greedy)) <= MAX_PROGRAM
      ensures r.Ok? ==> IsFrag(before, nfa, r.value, Repeat(child, min, Some(max), greedy))
      decreases child, 3
    {
      ghost var total := if max < min then 0 else max - min;
      var res := start;
      var exits: seq<PatchRef> := [];
      var k := min;
      OptionalOpen(nfa, res.out, child, min, greedy, |before|);
      while k < max
        invariant min <= k <= min + total && |nfa| <= MAX_PROGRAM && before <= nfa && res.start == |before|
        invariant OpenOptional(nfa, exits, res.out, child, min, k - min, greedy, |before|)
        decreases max - k
      {
        OptionalGrows(child, min, k - min, total);
        var c :- AddOptional(exits, res.out, child, min, k - min, greedy, |before|);
        exits := exits + [PatchRef(|nfa| - 1, greedy)];
        res := Frag(res.start, c.out);
        k := k + 1;
      }
      OptionalClose(nfa, exits, res.out, child, min, total, greedy, |before|);
      return Ok(Frag(res.start, exits + res.out));
    }

    /** One more optional copy and its branch. */
    method AddOptional(ghost exits: seq<PatchRef>, out: seq<PatchRef>, child: Node, ghost min: nat, ghost k: nat, greedy: bool, ghost lo: int)
      returns (r: Result<Frag>)
      requires |nfa| <= MAX_PROGRAM && OpenOptional(nfa, exits, out, child, min, k, greedy, lo)
      modifies this
      ensures r.Ok? <==> |old(nfa)| + Size(child) + 1 <= MAX_PROGRAM
      ensures r.Ok? ==> |nfa| == |old(nfa)| + Size(child) + 1 && old(nfa)[..lo] <= nfa
      ensures r.Ok? ==> OpenOptional(nfa, exits + [PatchRef(|nfa| - 1, greedy)], r.value.out, child, min, k + 1, greedy, lo)
      decreases child, 2
    {
      ghost var upTo := nfa;
      var c :- Build(child);
      var split := if greedy then Inst(Split, c.start, -1) else Inst(Split, -1, c.start);
      OptionalStep(upTo, nfa, child, min, k, greedy, lo, exits, out, c, split);
      var pc :- Emit(split);
      Patch(out, pc);
      return Ok(c);
    }

    /** Compiles a whole tree, starting from an empty program. */
    method Compile(root: Node) returns (r: Result<int>)
      requires nfa == []
      modifies this
      ensures r.Ok? <==> Size(root) + 1 <= MAX_PROGRAM
      ensures r.Ok? ==> Compiled(nfa, r.value, root)
    {
      var f :- Build(root);
      ghost var built := nfa;
      var m :- Emit(Inst(Accept, -1, -1));
      Patch(f.out, m);
      CodeFrame(Filled(built, f.out, m), nfa, root, 0, m);
      return Ok(f.start);
    }
  }
}
