/**
 Writing into a caller's buffer: the primitive writes, the sequence of fields a struct writer has emitted so far, and the
 list header that is patched in after the elements.
 */
module ThriftBuffer {
  import opened Prelude
  import opened ThriftWire

  /** s with x in place of the bytes from `at` on; everything else is untouched. */
  ghost function Splice(s: seq<byte>, at: nat, x: seq<byte>): (r: seq<byte>)
    requires at + |x| <= |s|
    ensures |r| == |s|
  {
    s[..at] + x + s[at + |x|..]
  }

  lemma SpliceThen(s: seq<byte>, at: nat, x: seq<byte>, y: seq<byte>)
    requires at + |x| + |y| <= |s|
    ensures Splice(Splice(s, at, x), at + |x|, y) == Splice(s, at, x + y)
  {
  }

  /** Filling a gap that was left in front. */
  lemma SpliceBefore(s: seq<byte>, at: nat, x: seq<byte>, y: seq<byte>)
    requires at + |x| + |y| <= |s|
    ensures Splice(Splice(s, at + |x|, y), at, x) == Splice(s, at, x + y)
  {
  }

  lemma SpliceAll(s: seq<byte>, x: seq<byte>)
    requires |x| == |s|
    ensures Splice(s, 0, x) == x
  {
  }

  // Primitive writes.

  method Put(buf: array<byte>, at: nat, x: seq<byte>) returns (end: nat)
    requires at + |x| <= buf.Length
    modifies buf
    ensures end == at + |x| && buf[..] == Splice(old(buf[..]), at, x)
  {
    var i := 0;
    while i < |x|
      invariant 0 <= i <= |x|
      invariant forall k :: 0 <= k < buf.Length ==> buf[k] == if at <= k < at + i then x[k - at] else old(buf[k])
    {
      buf[at + i] := x[i];
      i := i + 1;
    }
    end := at + |x|;
    assert buf[..] == Splice(old(buf[..]), at, x);
  }

  method WriteFieldBegin(buf: array<byte>, at: nat, t: byte, id: i16) returns (end: nat)
    requires at + 3 <= buf.Length
    modifies buf
    ensures end == at + 3 && buf[..] == Splice(old(buf[..]), at, [t] + Word(id, 2))
  {
    end := Put(buf, at, [t] + Word(id, 2));
  }

  method WriteListBegin(buf: array<byte>, at: nat, et: byte, size: nat) returns (end: nat)
    requires at + 5 <= buf.Length
    modifies buf
    ensures end == at + 5 && buf[..] == Splice(old(buf[..]), at, [et] + Word(size, 4))
  {
    end := Put(buf, at, [et] + Word(size, 4));
  }

  method WriteI32(buf: array<byte>, at: nat, v: i32) returns (end: nat)
    requires at + 4 <= buf.Length
    modifies buf
    ensures end == at + 4 && buf[..] == Splice(old(buf[..]), at, Enc(VI32(v)))
  {
    end := Put(buf, at, Word(v, 4));
  }

  method WriteI64(buf: array<byte>, at: nat, v: i64) returns (end: nat)
    requires at + 8 <= buf.Length
    modifies buf
    ensures end == at + 8 && buf[..] == Splice(old(buf[..]), at, Enc(VI64(v)))
  {
    end := Put(buf, at, Word(v, 8));
  }

  method WriteString(buf: array<byte>, at: nat, s: Str) returns (end: nat)
    requires at + 4 + |s| <= buf.Length
    modifies buf
    ensures end == at + 4 + |s| && buf[..] == Splice(old(buf[..]), at, Enc(VString(s)))
  {
    ghost var was := buf[..];
    end := Put(buf, at, Word(|s|, 4));
    end := Put(buf, end, s);
    SpliceThen(was, at, Word(|s|, 4), s);
  }

  // Sizes.

  lemma ListFieldSize(id: i16, et: byte, es: seq<Value>)
    ensures |EncField(Field(id, VList(et, es)))| == 8 + |EncElems(es)|
  {
  }

  lemma {:induction false} EncFieldsSnoc(fs: seq<Field>, f: Field)
    ensures EncFields(fs + [f]) == EncFields(fs) + EncField(f)
    decreases |fs|
  {
    if fs == [] {
      assert [f][1..] == [];
      assert fs + [f] == [f];
    } else {
      assert (fs + [f])[1..] == fs[1..] + [f];
      EncFieldsSnoc(fs[1..], f);
      AppendAssociates(EncField(fs[0]), EncFields(fs[1..]), EncField(f));
    }
  }

  lemma {:induction false} EncElemsSnoc(es: seq<Value>, v: Value)
    ensures EncElems(es + [v]) == EncElems(es) + Enc(v)
    decreases |es|
  {
    if es == [] {
      assert [v][1..] == [];
      assert es + [v] == [v];
    } else {
      assert (es + [v])[1..] == es[1..] + [v];
      EncElemsSnoc(es[1..], v);
      AppendAssociates(Enc(es[0]), EncElems(es[1..]), Enc(v));
    }
  }

  lemma SizeOfThree(fs: seq<Field>, x: Field, y: Field, z: Field)
    ensures |EncFields(fs + [x, y, z])| == |EncFields(fs)| + |EncField(x)| + |EncField(y)| + |EncField(z)|
  {
    assert fs + [x, y, z] == fs + [x] + [y] + [z];
    EncFieldsSnoc(fs, x);
    EncFieldsSnoc(fs + [x], y);
    EncFieldsSnoc(fs + [x] + [y], z);
  }

  lemma SizeOfNine(fs: seq<Field>)
    requires |fs| >= 9
    ensures |EncFields(fs[..9])| == |EncField(fs[0])| + |EncField(fs[1])| + |EncField(fs[2])| + |EncField(fs[3])|
         + |EncField(fs[4])| + |EncField(fs[5])| + |EncField(fs[6])| + |EncField(fs[7])| + |EncField(fs[8])|
  {
    SizeOfThree([], fs[0], fs[1], fs[2]);
    SizeOfThree(fs[..3], fs[3], fs[4], fs[5]);
    SizeOfThree(fs[..6], fs[6], fs[7], fs[8]);
    assert fs[..3] == [] + [fs[0], fs[1], fs[2]];
    assert fs[..6] == fs[..3] + [fs[3], fs[4], fs[5]];
    assert fs[..9] == fs[..6] + [fs[6], fs[7], fs[8]];
  }

  lemma SizeOfTwelve(fs: seq<Field>)
    requires |fs| == 12
    ensures |EncFields(fs)|
         == |EncFields(fs[..9])| + |EncField(fs[9])| + |EncField(fs[10])| + |EncField(fs[11])|
  {
    SizeOfThree(fs[..9], fs[9], fs[10], fs[11]);
    assert fs == fs[..9] + [fs[9], fs[10], fs[11]];
  }

  lemma ElemsNext(es: seq<Value>, k: nat)
    requires k < |es|
    ensures EncElems(es[..k + 1]) == EncElems(es[..k]) + Enc(es[k])
  {
    EncElemsSnoc(es[..k], es[k]);
    assert es[..k + 1] == es[..k] + [es[k]];
  }

  lemma {:induction false} PrefixSize(fs: seq<Field>, k: nat)
    requires k <= |fs|
    ensures |EncFields(fs[..k])| <= |EncFields(fs)|
    decreases |fs| - k
  {
    if k == |fs| {
      assert fs[..k] == fs;
    } else {
      EncFieldsSnoc(fs[..k], fs[k]);
      assert fs[..k + 1] == fs[..k] + [fs[k]];
      PrefixSize(fs, k + 1);
    }
  }

  lemma {:induction false} ElemsPrefixSize(es: seq<Value>, k: nat)
    requires k <= |es|
    ensures |EncElems(es[..k])| <= |EncElems(es)|
    decreases |es| - k
  {
    if k == |es| {
      assert es[..k] == es;
    } else {
      ElemsNext(es, k);
      ElemsPrefixSize(es, k + 1);
    }
  }

  // A struct writer on its way: the first k of its fields are in the buffer.

  ghost predicate Wrote(was: seq<byte>, now: seq<byte>, start: nat, at: nat, fs: seq<Field>, k: nat) {
    k <= |fs| && start + |EncFields(fs)| + 1 <= |was| &&
    at == start + |EncFields(fs[..k])| <= |was| && now == Splice(was, start, EncFields(fs[..k]))
  }

  lemma WroteNothing(was: seq<byte>, start: nat, fs: seq<Field>)
    requires start + |EncFields(fs)| + 1 <= |was|
    ensures Wrote(was, was, start, start, fs, 0)
  {
  }

  lemma WroteRoom(was: seq<byte>, now: seq<byte>, start: nat, at: nat, fs: seq<Field>, k: nat)
    requires Wrote(was, now, start, at, fs, k) && k < |fs|
    ensures at + |EncField(fs[k])| < |now| == |was|
  {
    EncFieldsSnoc(fs[..k], fs[k]);
    assert fs[..k + 1] == fs[..k] + [fs[k]];
    PrefixSize(fs, k + 1);
  }

  lemma WroteNext(was: seq<byte>, now: seq<byte>, start: nat, at: nat, fs: seq<Field>, k: nat)
    requires Wrote(was, now, start, at, fs, k) && k < |fs|
    requires at + |EncField(fs[k])| < |now|
    ensures Wrote(was, Splice(now, at, EncField(fs[k])), start, at + |EncField(fs[k])|, fs, k + 1)
  {
    EncFieldsSnoc(fs[..k], fs[k]);
    assert fs[..k + 1] == fs[..k] + [fs[k]];
    SpliceThen(was, start, EncFields(fs[..k]), EncField(fs[k]));
  }

  predicate Scalar(v: Value) {
    v.VI32? || v.VI64? || v.VString?
  }

  method WriteScalar(buf: array<byte>, at: nat, v: Value) returns (end: nat)
    requires Scalar(v) && at + |Enc(v)| <= buf.Length
    modifies buf
    ensures end == at + |Enc(v)| && buf[..] == Splice(old(buf[..]), at, Enc(v))
  {
    match v {
      case VI32(i) => end := WriteI32(buf, at, i);
      case VI64(i) => end := WriteI64(buf, at, i);
      case VString(s) => end := WriteString(buf, at, s);
    }
  }

  method WriteScalarField(buf: array<byte>, at: nat, f: Field) returns (end: nat)
    requires Scalar(f.value) && at + |EncField(f)| <= buf.Length
    modifies buf
    ensures end == at + |EncField(f)| && buf[..] == Splice(old(buf[..]), at, EncField(f))
  {
    end := WriteFieldBegin(buf, at, TypeOf(f.value), f.id);
    end := WriteScalar(buf, end, f.value);
    SpliceThen(old(buf[..]), at, FieldHeader(f), Enc(f.value));
  }

  /** The next field, when it is an integer or a string. */
  method WriteField(buf: array<byte>, at: nat, f: Field, ghost was: seq<byte>, ghost start: nat,
        ghost fs: seq<Field>, ghost k: nat)
    returns (end: nat)
    requires Scalar(f.value)
    requires Wrote(was, buf[..], start, at, fs, k) && k < |fs| && fs[k] == f
    modifies buf
    ensures Wrote(was, buf[..], start, end, fs, k + 1)
  {
    ghost var now := buf[..];
    WroteRoom(was, now, start, at, fs, k);
    end := WriteScalarField(buf, at, f);
    WroteNext(was, now, start, at, fs, k);
  }

  /** The stop byte ends the struct. */
  method WriteFieldStop(buf: array<byte>, at: nat, ghost was: seq<byte>, ghost start: nat, ghost fs: seq<Field>)
    returns (end: nat)
    requires Wrote(was, buf[..], start, at, fs, |fs|)
    modifies buf
    ensures start + |Enc(VStruct(fs))| <= |was|
    ensures end == start + |Enc(VStruct(fs))| && buf[..] == Splice(was, start, Enc(VStruct(fs)))
  {
    assert fs[..|fs|] == fs;
    end := Put(buf, at, [STOP]);
    SpliceThen(was, start, EncFields(fs), [STOP]);
  }

  // A list field on its way: header of the field written, five bytes left free, the first k elements behind them.

  ghost predicate WroteElems(was: seq<byte>, now: seq<byte>, gap: nat, at: nat, es: seq<Value>, k: nat) {
    k <= |es| && gap + 5 + |EncElems(es)| <= |was| &&
    at == gap + 5 + |EncElems(es[..k])| <= |was| && now == Splice(was, gap + 5, EncElems(es[..k]))
  }

  lemma WroteNoElems(was: seq<byte>, gap: nat, es: seq<Value>)
    requires gap + 5 + |EncElems(es)| <= |was|
    ensures WroteElems(was, was, gap, gap + 5, es, 0)
  {
  }

  lemma WroteElemsRoom(was: seq<byte>, now: seq<byte>, gap: nat, at: nat, es: seq<Value>, k: nat)
    requires WroteElems(was, now, gap, at, es, k) && k < |es|
    ensures at + |Enc(es[k])| <= |now| == |was|
  {
    ElemsNext(es, k);
    ElemsPrefixSize(es, k + 1);
  }

  lemma WroteElemsNext(was: seq<byte>, now: seq<byte>, gap: nat, at: nat, es: seq<Value>, k: nat)
    requires WroteElems(was, now, gap, at, es, k) && k < |es|
    requires at + |Enc(es[k])| <= |now|
    ensures WroteElems(was, Splice(now, at, Enc(es[k])), gap, at + |Enc(es[k])|, es, k + 1)
  {
    ElemsNext(es, k);
    SpliceThen(was, gap + 5, EncElems(es[..k]), Enc(es[k]));
  }

  /** Patching the list header in completes the field. */
  method PatchListBegin(buf: array<byte>, gap: nat, at: nat, et: byte, size: nat,
      ghost was: seq<byte>, ghost mid: seq<byte>, ghost start: nat, ghost id: i16, ghost es: seq<Value>)
    requires size == |es| && gap == start + 3
    requires start + 3 <= |was| && mid == Splice(was, start, FieldHeader(Field(id, VList(et, es))))
    requires WroteElems(mid, buf[..], gap, at, es, |es|)
    modifies buf
    ensures var f := Field(id, VList(et, es));
      start + |EncField(f)| <= |was| && at == start + |EncField(f)| && buf[..] == Splice(was, start, EncField(f))
  {
    var f := Field(id, VList(et, es));
    assert es[..|es|] == es;
    var _ := WriteListBegin(buf, gap, et, size);
    SpliceBefore(mid, gap, [et] + Word(size, 4), EncElems(es));
    SpliceThen(was, start, FieldHeader(f), Enc(f.value));
  }
}
