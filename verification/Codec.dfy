/** The portable byte format: fixed-width little-endian scalars, and the streams that
    write and read them. */
module Codec {
  import opened Basics

  /** A scalar of `width` bytes. */
  datatype Field = Field(value: nat, width: nat)

  function Pow256(w: nat): (p: nat)
    ensures p >= 1
  {
    if w == 0 then 1 else 256 * Pow256(w - 1)
  }

  predicate Fitted(f: Field) {
    f.value < Pow256(f.width)
  }

  /** Byte `k` of a value, the lowest first. */
  function ByteOf(v: nat, k: nat): Byte {
    if k == 0 then v % 256 else ByteOf(v / 256, k - 1)
  }

  /** The value moved down by `k` bytes. */
  function ShiftedDown(v: nat, k: nat): nat {
    if k == 0 then v else ShiftedDown(v, k - 1) / 256
  }

  lemma {:induction false} ShiftedByte(v: nat, k: nat)
    ensures ShiftedDown(v, k) % 256 == ByteOf(v, k)
  {
    if k > 0 {
      ShiftedByte(v / 256, k - 1);
      ShiftedFirst(v, k);
    }
  }

  lemma {:induction false} ShiftedFirst(v: nat, k: nat)
    requires k > 0
    ensures ShiftedDown(v, k) == ShiftedDown(v / 256, k - 1)
  {
    if k > 1 { ShiftedFirst(v, k - 1); }
  }

  /** The field's bytes stand at `at`. */
  ghost predicate FieldAt(b: seq<Byte>, at: nat, f: Field) {
    at + f.width <= |b| && forall k: nat | k < f.width :: b[at + k] == ByteOf(f.value, k)
  }

  /** The value `w` bytes stand for. */
  function ValueAt(b: seq<Byte>, at: nat, w: nat): nat
    requires at + w <= |b|
    decreases w
  {
    if w == 0 then 0 else b[at] + 256 * ValueAt(b, at + 1, w - 1)
  }

  /** Reading gives back what was written. */
  lemma {:induction false} ValueIs(b: seq<Byte>, at: nat, f: Field)
    requires FieldAt(b, at, f) && Fitted(f)
    ensures ValueAt(b, at, f.width) == f.value
    decreases f.width
  {
    if f.width > 0 {
      var rest := Field(f.value / 256, f.width - 1);
      assert b[at + 0] == ByteOf(f.value, 0);
      forall k: nat | k < rest.width ensures b[at + 1 + k] == ByteOf(rest.value, k) {
        assert b[at + (k + 1)] == ByteOf(f.value, k + 1);
      }
      ValueIs(b, at + 1, rest);
    }
  }

  lemma {:induction false} ValueBound(b: seq<Byte>, at: nat, w: nat)
    requires at + w <= |b|
    ensures ValueAt(b, at, w) < Pow256(w)
    decreases w
  {
    if w > 0 { ValueBound(b, at + 1, w - 1); }
  }

  lemma {:induction false} ValueSnoc(b: seq<Byte>, at: nat, w: nat)
    requires at + w < |b|
    ensures ValueAt(b, at, w + 1) == ValueAt(b, at, w) + b[at + w] * Pow256(w)
    decreases w
  {
    if w > 0 {
      ValueSnoc(b, at + 1, w - 1);
      Scaled(ValueAt(b, at + 1, w), ValueAt(b, at + 1, w - 1), b[at + w], Pow256(w - 1));
    }
  }

  lemma Scaled(whole: nat, low: nat, digit: nat, place: nat)
    requires whole == low + digit * place
    ensures 256 * whole == 256 * low + digit * (256 * place)
  {}

  // ----- runs of fields -----

  /** The bytes the first `n` fields take. */
  function FieldsWidth(fs: seq<Field>, n: nat): nat
    requires n <= |fs|
  {
    if n == 0 then 0 else FieldsWidth(fs, n - 1) + fs[n - 1].width
  }

  ghost predicate NthAt(b: seq<Byte>, at: nat, fs: seq<Field>, k: nat)
    requires k < |fs|
  {
    FieldAt(b, at + FieldsWidth(fs, k), fs[k])
  }

  ghost predicate FieldsAt(b: seq<Byte>, at: nat, fs: seq<Field>) {
    at + FieldsWidth(fs, |fs|) <= |b| && forall k | 0 <= k < |fs| :: NthAt(b, at, fs, k)
  }

  lemma {:induction false} WidthAppend(a: seq<Field>, c: seq<Field>, n: nat)
    requires n <= |a| + |c|
    ensures FieldsWidth(a + c, n) == if n <= |a| then FieldsWidth(a, n) else FieldsWidth(a, |a|) + FieldsWidth(c, n - |a|)
  {
    if n > 0 { WidthAppend(a, c, n - 1); }
  }

  lemma NthLeft(b: seq<Byte>, at: nat, a: seq<Field>, c: seq<Field>, k: nat)
    requires k < |a|
    ensures NthAt(b, at, a + c, k) <==> NthAt(b, at, a, k)
  {
    WidthAppend(a, c, k);
  }

  lemma NthRight(b: seq<Byte>, at: nat, a: seq<Field>, c: seq<Field>, k: nat)
    requires k < |c|
    ensures NthAt(b, at, a + c, |a| + k) <==> NthAt(b, at + FieldsWidth(a, |a|), c, k)
  {
    WidthAppend(a, c, |a| + k);
    WidthAppend(a, c, |a|);
    assert (a + c)[|a| + k] == c[k];
  }

  lemma FieldsSplit(b: seq<Byte>, at: nat, a: seq<Field>, c: seq<Field>)
    requires FieldsAt(b, at, a + c)
    ensures FieldsAt(b, at, a) && FieldsAt(b, at + FieldsWidth(a, |a|), c)
    ensures FieldsWidth(a + c, |a + c|) == FieldsWidth(a, |a|) + FieldsWidth(c, |c|)
  {
    WidthAppend(a, c, |a| + |c|);
    WidthGrows(a + c, |a|, |a| + |c|);
    WidthAppend(a, c, |a|);
    forall k | 0 <= k < |a| ensures NthAt(b, at, a, k) {
      assert NthAt(b, at, a + c, k);
      NthLeft(b, at, a, c, k);
    }
    var middle := at + FieldsWidth(a, |a|);
    forall k | 0 <= k < |c| ensures NthAt(b, middle, c, k) {
      assert NthAt(b, at, a + c, |a| + k);
      NthRight(b, at, a, c, k);
    }
  }

  lemma {:induction false} WidthGrows(fs: seq<Field>, m: nat, n: nat)
    requires m <= n <= |fs|
    ensures FieldsWidth(fs, m) <= FieldsWidth(fs, n)
    decreases n
  {
    if m < n { WidthGrows(fs, m, n - 1); }
  }

  lemma FieldKeep(b: seq<Byte>, b': seq<Byte>, at: nat, f: Field)
    requires b <= b' && FieldAt(b, at, f)
    ensures FieldAt(b', at, f)
  {
    forall i: nat | i < f.width ensures b'[at + i] == ByteOf(f.value, i) { assert b[at + i] == ByteOf(f.value, i); }
  }

  /** Bytes written stay where they are. */
  lemma FieldsKeep(b: seq<Byte>, b': seq<Byte>, at: nat, fs: seq<Field>)
    requires b <= b' && FieldsAt(b, at, fs)
    ensures FieldsAt(b', at, fs)
  {
    forall k | 0 <= k < |fs| ensures NthAt(b', at, fs, k) {
      assert NthAt(b, at, fs, k);
      FieldKeep(b, b', at + FieldsWidth(fs, k), fs[k]);
    }
  }

  // ----- composite fields, followed by the rest -----

  function ScalarFields(v: seq<nat>, width: nat): (fs: seq<Field>)
    ensures |fs| == |v| && forall k | 0 <= k < |fs| :: fs[k] == Field(v[k], width)
  {
    seq(|v|, k requires 0 <= k < |v| => Field(v[k], width))
  }

  /** A length-prefixed run of scalars. */
  function VectorFields(v: seq<nat>, width: nat, rest: seq<Field>): seq<Field> {
    [Field(|v|, 8)] + (ScalarFields(v, width) + rest)
  }

  function StringFields(s: seq<Byte>, rest: seq<Field>): seq<Field> {
    VectorFields(s, 1, rest)
  }

  lemma {:induction false} EvenWidth(fs: seq<Field>, width: nat, n: nat)
    requires n <= |fs| && forall k | 0 <= k < |fs| :: fs[k].width == width
    ensures FieldsWidth(fs, n) == n * width
  {
    if n > 0 { EvenWidth(fs, width, n - 1); }
  }

  lemma ShortWidth(fs: seq<Field>)
    ensures |fs| >= 1 ==> FieldsWidth(fs, 1) == fs[0].width
    ensures |fs| >= 2 ==> FieldsWidth(fs, 2) == fs[0].width + fs[1].width
    ensures |fs| >= 3 ==> FieldsWidth(fs, 3) == fs[0].width + fs[1].width + fs[2].width
    ensures |fs| >= 4 ==> FieldsWidth(fs, 4) == fs[0].width + fs[1].width + fs[2].width + fs[3].width
  {
    assert FieldsWidth(fs, 0) == 0;
  }

  // ----- what lies ahead of a reader -----

  /** The writer put `fs` at `at`, every value in its width, and it ends at `end`. */
  ghost predicate Ahead(b: seq<Byte>, at: nat, fs: seq<Field>, end: nat) {
    FieldsAt(b, at, fs) && at + FieldsWidth(fs, |fs|) == end && forall k | 0 <= k < |fs| :: Fitted(fs[k])
  }

  lemma AheadSplit(b: seq<Byte>, at: nat, fs: seq<Field>, rest: seq<Field>, end: nat)
    requires Ahead(b, at, fs + rest, end)
    ensures Ahead(b, at, fs, at + FieldsWidth(fs, |fs|)) && Ahead(b, at + FieldsWidth(fs, |fs|), rest, end)
  {
    FieldsSplit(b, at, fs, rest);
    forall k | 0 <= k < |fs| ensures Fitted(fs[k]) { assert (fs + rest)[k] == fs[k]; }
    forall k | 0 <= k < |rest| ensures Fitted(rest[k]) { assert (fs + rest)[|fs| + k] == rest[k]; }
  }

  // ----- streams -----

  class Writer {
    var out: seq<Byte>

    constructor ()
      ensures out == []
    {
      out := [];
    }

    method Raw(bytes: seq<Byte>)
      modifies this
      ensures out == old(out) + bytes
    {
      out := out + bytes;
    }

    method Scalar(f: Field)
      modifies this
      ensures old(out) <= out && |out| == |old(out)| + f.width && FieldAt(out, |old(out)|, f)
    {
      var x := f.value;
      for k := 0 to f.width
        invariant old(out) <= out && |out| == |old(out)| + k
        invariant forall i: nat | i < k :: out[|old(out)| + i] == ByteOf(f.value, i)
        invariant x == ShiftedDown(f.value, k)
      {
        ShiftedByte(f.value, k);
        out := out + [x % 256];
        x := x / 256;
      }
    }

    method Fields(fs: seq<Field>)
      modifies this
      ensures old(out) <= out && |out| == |old(out)| + FieldsWidth(fs, |fs|) && FieldsAt(out, |old(out)|, fs)
    {
      ghost var at: nat := |out|;
      for n := 0 to |fs|
        invariant old(out) <= out && |out| == at + FieldsWidth(fs, n)
        invariant FirstAt(out, at, fs, n)
      {
        ghost var before := out;
        Scalar(fs[n]);
        FirstKeep(before, out, at, fs, n);
      }
    }
  }

  ghost predicate FirstAt(b: seq<Byte>, at: nat, fs: seq<Field>, n: nat)
    requires n <= |fs|
  {
    forall k | 0 <= k < n :: NthAt(b, at, fs, k)
  }

  lemma FirstKeep(b: seq<Byte>, b': seq<Byte>, at: nat, fs: seq<Field>, n: nat)
    requires n < |fs| && b <= b' && FirstAt(b, at, fs, n) && NthAt(b', at, fs, n)
    ensures FirstAt(b', at, fs, n + 1)
  {
    forall k | 0 <= k < n ensures NthAt(b', at, fs, k) {
      assert NthAt(b, at, fs, k);
      FieldKeep(b, b', at + FieldsWidth(fs, k), fs[k]);
    }
  }

  /** The bytes are shifted into place one by one. */
  method LittleEndian(b: seq<Byte>, at: nat, width: nat) returns (x: nat)
    requires at + width <= |b|
    ensures x == ValueAt(b, at, width)
  {
    x := 0;
    var place: nat := 1;
    for k := 0 to width
      invariant x == ValueAt(b, at, k) && place == Pow256(k)
    {
      ValueSnoc(b, at, k);
      x := x + b[at + k] * place;
      place := place * 256;
    }
  }

  class Reader {
    const bytes: seq<Byte>
    var at: nat

    constructor (bytes: seq<Byte>, at: nat)
      ensures this.bytes == bytes && this.at == at
    {
      this.bytes := bytes;
      this.at := at;
    }

    method Scalar(width: nat) returns (r: Result<nat>)
      requires at <= |bytes|
      modifies this
      ensures at <= |bytes|
      ensures r.Ok? <==> old(at) + width <= |bytes|
      ensures r.Ok? ==> at == old(at) + width && r.value == ValueAt(bytes, old(at), width) && r.value < Pow256(width)
      ensures forall v: nat | FieldAt(bytes, old(at), Field(v, width)) && v < Pow256(width) :: r == Ok(v)
    {
      if at + width > |bytes| {
        return Err("truncated");
      }
      var x := LittleEndian(bytes, at, width);
      r := Ok(x);
      forall v: nat | FieldAt(bytes, at, Field(v, width)) && v < Pow256(width) ensures r == Ok(v) {
        ValueIs(bytes, at, Field(v, width));
      }
      ValueBound(bytes, at, width);
      at := at + width;
    }

    function Remaining(): int
      reads this
    {
      |bytes| - at
    }

    /** One scalar, and what then lies ahead. */
    method One(width: nat, ghost v: nat, ghost rest: seq<Field>, ghost end: nat) returns (r: Result<nat>)
      requires at <= |bytes|
      modifies this
      ensures at <= |bytes|
      ensures r.Ok? ==> r.value < Pow256(width)
      ensures Ahead(bytes, old(at), [Field(v, width)] + rest, end) ==> r == Ok(v) && Ahead(bytes, at, rest, end)
    {
      ghost var start: nat := at;
      if Ahead(bytes, at, [Field(v, width)] + rest, end) {
        AheadSplit(bytes, start, [Field(v, width)], rest, end);
        assert NthAt(bytes, start, [Field(v, width)], 0) && Fitted([Field(v, width)][0]);
      }
      r := Scalar(width);
    }

    /** A run of scalars of the given widths. */
    method Scalars(widths: seq<nat>, ghost fs: seq<Field>, ghost rest: seq<Field>, ghost end: nat) returns (r: Result<seq<nat>>)
      requires at <= |bytes|
      modifies this
      ensures at <= |bytes|
      ensures r.Ok? ==> |r.value| == |widths| && forall k | 0 <= k < |widths| :: r.value[k] < Pow256(widths[k])
      ensures Ahead(bytes, old(at), fs + rest, end) && HasWidths(fs, widths) ==> r == Ok(Values(fs)) && Ahead(bytes, at, rest, end)
    {
      ghost var start: nat := at;
      ghost var good := Ahead(bytes, at, fs + rest, end) && HasWidths(fs, widths);
      if good { AheadSplit(bytes, start, fs, rest, end); }
      var values: seq<nat> := [];
      for k := 0 to |widths|
        invariant at <= |bytes| && |values| == k
        invariant forall i | 0 <= i < k :: values[i] < Pow256(widths[i])
        invariant good ==> at == start + FieldsWidth(fs, k) && Agree(values, fs, k)
      {
        if good { assert NthAt(bytes, start, fs, k) && Fitted(fs[k]) && fs[k] == Field(fs[k].value, widths[k]); }
        var v := Scalar(widths[k]);
        if v.Err? {
          return Err(v.error);
        }
        values := values + [v.value];
      }
      if good { assert values == Values(fs); }
      r := Ok(values);
    }

    /** `n` bytes as they stand. */
    method Bytes(n: nat, ghost s: seq<Byte>, ghost rest: seq<Field>, ghost end: nat) returns (r: Result<seq<Byte>>)
      requires at <= |bytes|
      modifies this
      ensures at <= |bytes|
      ensures r.Ok? ==> |r.value| == n
      ensures Ahead(bytes, old(at), ScalarFields(s, 1) + rest, end) && n == |s| ==> r == Ok(s) && Ahead(bytes, at, rest, end)
    {
      if Ahead(bytes, at, ScalarFields(s, 1) + rest, end) && n == |s| {
        AheadSplit(bytes, at, ScalarFields(s, 1), rest, end);
        EvenWidth(ScalarFields(s, 1), 1, |s|);
        BytesStand(bytes, at, s);
      }
      if at + n > |bytes| {
        return Err("truncated");
      }
      r := Ok(bytes[at..at + n]);
      at := at + n;
    }
  }

  lemma ByteHere(b: seq<Byte>, at: nat, s: seq<Byte>, k: nat)
    requires FieldsAt(b, at, ScalarFields(s, 1)) && k < |s|
    ensures at + k < |b| && b[at + k] == s[k]
  {
    EvenWidth(ScalarFields(s, 1), 1, k);
    assert NthAt(b, at, ScalarFields(s, 1), k);
    ByteStands(b, at + k, s[k]);
  }

  /** A run of single bytes is the bytes themselves. */
  lemma BytesStand(b: seq<Byte>, at: nat, s: seq<Byte>)
    requires FieldsAt(b, at, ScalarFields(s, 1)) && at + |s| <= |b|
    ensures b[at..at + |s|] == s
  {
    forall k: nat {:trigger s[k]} | k < |s| ensures b[at + k] == s[k] { ByteHere(b, at, s, k); }
    SameBytes(b, at, s);
  }

  lemma SameBytes(b: seq<Byte>, at: nat, s: seq<Byte>)
    requires at + |s| <= |b| && forall k: nat {:trigger s[k]} | k < |s| :: b[at + k] == s[k]
    ensures b[at..at + |s|] == s
  {}

  lemma ByteStands(b: seq<Byte>, at: nat, v: Byte)
    requires FieldAt(b, at, Field(v, 1))
    ensures b[at] == v
  {
    assert b[at + 0] == ByteOf(v, 0);
  }

  predicate Agree(values: seq<nat>, fs: seq<Field>, n: nat) {
    |values| == n <= |fs| && forall k | 0 <= k < n :: values[k] == fs[k].value
  }

  predicate HasWidths(fs: seq<Field>, widths: seq<nat>) {
    |fs| == |widths| && forall k | 0 <= k < |fs| :: fs[k].width == widths[k]
  }

  function Values(fs: seq<Field>): (v: seq<nat>)
    ensures |v| == |fs| && forall k | 0 <= k < |fs| :: v[k] == fs[k].value
  {
    seq(|fs|, k requires 0 <= k < |fs| => fs[k].value)
  }
}
