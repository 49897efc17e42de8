/**
 What `Skip` accepts: exactly the bytes of well-formed values. Unknown type codes, negative sizes and values cut short are
 refused wherever they stand, and nothing else is (generated readers pass over unknown fields with it,
 kitex_gen/meshcart/base/k-base.go:67-72).
 */
module ThriftSkip {
  import opened Prelude
  import opened ThriftWire
  import opened ThriftBytes

  /** The bytes in front of b are those of v. */
  ghost predicate Spells(b: seq<byte>, n: nat, v: Value, t: byte) {
    n <= |b| && TypeOf(v) == t && WellFormed(v) && Enc(v) == b[..n]
  }

  ghost predicate SpellsFields(b: seq<byte>, n: nat, fs: seq<Field>) {
    0 < n <= |b| && WellFormed(VStruct(fs)) && EncFields(fs) + [0] == b[..n]
  }

  ghost predicate SpellsElems(b: seq<byte>, n: nat, t: byte, es: seq<Value>) {
    n <= |b| && (forall k :: 0 <= k < |es| ==> ElemOk(t, es[k])) && EncElems(es) == b[..n]
  }

  ghost predicate SpellsEntries(b: seq<byte>, n: nat, kt: byte, vt: byte, es: seq<Entry>) {
    n <= |b| && (forall k :: 0 <= k < |es| ==> EntryOk(kt, vt, es[k])) && EncEntries(es) == b[..n]
  }

  lemma {:induction false} SplitAt(b: seq<byte>, l: nat, n: nat)
    requires l + n <= |b|
    ensures b[..l + n] == b[..l] + b[l..][..n]
  {
  }

  lemma {:induction false} WordSpells(b: seq<byte>, from: nat, n: nat)
    requires 0 < n && from + n <= |b|
    ensures Word(DecInt(b[from..from + n]), n) == b[from..from + n]
  {
    EveryWordIsRead(b[from..from + n]);
  }

  /** A value of a fixed size. */
  lemma {:induction false} SkippedFixed(b: seq<byte>, t: byte) returns (v: Value)
    requires FixedSize(t) > 0 && FixedSize(t) <= |b|
    ensures Spells(b, FixedSize(t), v, t)
  {
    HalfValues();
    var n := FixedSize(t);
    EveryWordIsRead(b[..n]);
    DecIntInRange(b[..n]);
    if t == 2 { v := VBool(b[0]); }
    else if t == 3 { v := VByte(DecInt(b[..1])); }
    else if t == 6 { v := VI16(DecInt(b[..2])); }
    else if t == 8 { v := VI32(DecInt(b[..4])); }
    else if t == 10 { v := VI64(DecInt(b[..8])); }
    else { v := VDouble(b[..8]); }
  }

  lemma {:induction false} SkippedString(b: seq<byte>) returns (v: Value)
    requires ReadString(b).Good?
    ensures Spells(b, ReadString(b).n, v, STRING)
  {
    HalfValues();
    DecIntInRange(b[..4]);
    EveryWordIsRead(b[..4]);
    var s := ReadString(b).val;
    v := VString(s);
    SplitAt(b, 4, |s|);
  }

  /** A list or set, given its elements. */
  lemma {:induction false} SkippedList(b: seq<byte>, t: byte, n: nat, et: byte, es: seq<Value>) returns (v: Value)
    requires ReadListBegin(b) == Good((et, |es|), 5) && SpellsElems(b[5..], n, et, es) && (t == LIST || t == SET)
    ensures Spells(b, 5 + n, v, t)
  {
    v := if t == LIST then VList(et, es) else VSet(et, es);
    HalfValues();
    DecIntInRange(b[1..5]);
    WordSpells(b, 1, 4);
    SplitAt(b, 5, n);
    assert b[..5] == [b[0]] + b[1..5];
  }

  lemma {:induction false} SkippedMap(b: seq<byte>, n: nat, kt: byte, vt: byte, es: seq<Entry>) returns (v: Value)
    requires ReadMapBegin(b) == Good((kt, vt, |es|), 6) && SpellsEntries(b[6..], n, kt, vt, es)
    ensures Spells(b, 6 + n, v, MAP)
  {
    v := VMap(kt, vt, es);
    HalfValues();
    DecIntInRange(b[2..6]);
    WordSpells(b, 2, 4);
    SplitAt(b, 6, n);
    assert b[..6] == [b[0], b[1]] + b[2..6];
  }

  /** One field in front of others. */
  lemma {:induction false} SkippedField(b: seq<byte>, n: nat, v: Value, m: nat, fs: seq<Field>) returns (all: seq<Field>)
    requires |b| >= 3 && b[0] != 0 && Spells(b[3..], n, v, b[0]) && SpellsFields(b[3 + n..], m, fs)
    ensures SpellsFields(b, 3 + n + m, all)
  {
    HalfValues();
    DecIntInRange(b[1..3]);
    WordSpells(b, 1, 2);
    var f := Field(DecInt(b[1..3]), v);
    all := [f] + fs;
    SequencesAreJoined(f, fs, v, [], Entry(v, v), []);
    assert b[..3] == [b[0]] + b[1..3];
    SplitAt(b, 3, n);
    SplitAt(b, 3 + n, m);
    assert EncFields(all) + [0] == EncField(f) + (EncFields(fs) + [0]);
    forall k | 0 <= k < |all| ensures FieldOk(all[k]) { assert k > 0 ==> all[k] == fs[k - 1] && FieldOk(fs[k - 1]); }
  }

  lemma {:induction false} SkippedElem(b: seq<byte>, t: byte, n: nat, v: Value, m: nat, es: seq<Value>)
    requires Spells(b, n, v, t) && SpellsElems(b[n..], m, t, es)
    ensures SpellsElems(b, n + m, t, [v] + es)
  {
    SequencesAreJoined(Field(0, v), [], v, es, Entry(v, v), []);
    SplitAt(b, n, m);
    forall k | 0 <= k < |es| + 1 ensures ElemOk(t, ([v] + es)[k]) { assert k > 0 ==> ([v] + es)[k] == es[k - 1]; }
  }

  lemma {:induction false} SkippedEntry(b: seq<byte>, kt: byte, vt: byte, n: nat, key: Value, m: nat, v: Value, l: nat,
      es: seq<Entry>)
    requires Spells(b, n, key, kt) && Spells(b[n..], m, v, vt) && SpellsEntries(b[n + m..], l, kt, vt, es)
    ensures SpellsEntries(b, n + m + l, kt, vt, [Entry(key, v)] + es)
  {
    var e := Entry(key, v);
    SequencesAreJoined(Field(0, v), [], v, [], e, es);
    SplitAt(b, n, m);
    SplitAt(b, n + m, l);
    forall k | 0 <= k < |es| + 1 ensures EntryOk(kt, vt, ([e] + es)[k]) { assert k > 0 ==> ([e] + es)[k] == es[k - 1]; }
  }

  /** What is skipped is a value. */
  lemma {:induction false} Skipped(b: seq<byte>, t: byte, n: nat) returns (v: Value)
    requires Skip(b, t) == Some(n)
    ensures Spells(b, n, v, t)
    decreases |b|, 1, 0
  {
    if FixedSize(t) > 0 {
      v := SkippedFixed(b, t);
    } else if t == STRING {
      v := SkippedString(b);
    } else if t == STRUCT {
      var fs := SkippedFields(b, n);
      v := VStruct(fs);
    } else if t == MAP {
      var (kt, vt, size) := ReadMapBegin(b).val;
      var es := SkippedEntries(b[6..], kt, vt, size, n - 6);
      v := SkippedMap(b, n - 6, kt, vt, es);
    } else {
      var (et, size) := ReadListBegin(b).val;
      var es := SkippedElems(b[5..], et, size, n - 5);
      v := SkippedList(b, t, n - 5, et, es);
    }
  }

  lemma {:induction false} SkippedFields(b: seq<byte>, n: nat) returns (fs: seq<Field>)
    requires SkipFields(b) == Some(n)
    ensures SpellsFields(b, n, fs)
    decreases |b|, 0, 0
  {
    if b[0] == 0 {
      fs := [];
    } else {
      var l := Skip(b[3..], b[0]).value;
      var v := Skipped(b[3..], b[0], l);
      fs := SkippedFields(b[3 + l..], n - 3 - l);
      fs := SkippedField(b, l, v, n - 3 - l, fs);
    }
  }

  lemma {:induction false} SkippedElems(b: seq<byte>, t: byte, size: nat, n: nat) returns (es: seq<Value>)
    requires SkipElems(b, t, size) == Some(n)
    ensures |es| == size && SpellsElems(b, n, t, es)
    decreases |b|, 2, size
  {
    es := [];
    if size > 0 {
      var l := Skip(b, t).value;
      var v := Skipped(b, t, l);
      es := SkippedElems(b[l..], t, size - 1, n - l);
      SkippedElem(b, t, l, v, n - l, es);
      es := [v] + es;
    }
  }

  lemma {:induction false} SkippedEntries(b: seq<byte>, kt: byte, vt: byte, size: nat, n: nat) returns (es: seq<Entry>)
    requires SkipEntries(b, kt, vt, size) == Some(n)
    ensures |es| == size && SpellsEntries(b, n, kt, vt, es)
    decreases |b|, 2, size
  {
    es := [];
    if size > 0 {
      var l := Skip(b, kt).value;
      var key := Skipped(b, kt, l);
      var m := Skip(b[l..], vt).value;
      var v := Skipped(b[l..], vt, m);
      var k := SkipEntries(b[l + m..], kt, vt, size - 1).value;
      assert n == l + m + k;
      es := SkippedEntries(b[l + m..], kt, vt, size - 1, k);
      SkippedEntry(b, kt, vt, l, key, m, v, k, es);
      es := [Entry(key, v)] + es;
    }
  }

  /** `Skip` takes n bytes exactly where the first n bytes are the encoding of a well-formed value of that type. */
  lemma SkipsExactly(b: seq<byte>, t: byte, n: nat)
    ensures Skip(b, t) == Some(n) <==>
      n <= |b| && exists v :: TypeOf(v) == t && WellFormed(v) && Enc(v) == b[..n]
  {
    if Skip(b, t) == Some(n) {
      var v := Skipped(b, t, n);
    }
    if n <= |b| {
      forall v | TypeOf(v) == t && WellFormed(v) && Enc(v) == b[..n] ensures Skip(b, t) == Some(n) {
        SkipExact(v, b[n..]);
        assert b == Enc(v) + b[n..];
      }
    }
  }
}
