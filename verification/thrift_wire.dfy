/**
 The Thrift binary protocol as far as the generated code uses it (thrift-binary-protocol, sections "Integer encoding",
 "String encoding", "Struct" and "List and Set"): values on the wire, their encoding, the primitive reads on a suffix
 of the buffer, and skipping.
 */
module ThriftWire {
  import opened Prelude

  type i8 = x: int | -0x80 <= x < 0x80
  type i16 = x: int | -0x8000 <= x < 0x8000
  type i32 = x: int | -0x8000_0000 <= x < 0x8000_0000
  type i64 = x: int | -0x8000_0000_0000_0000 <= x < 0x8000_0000_0000_0000

  const STOP: byte := 0
  const BOOL: byte := 2
  const BYTE: byte := 3
  const DOUBLE: byte := 4
  const I16: byte := 6
  const I32: byte := 8
  const I64: byte := 10
  const STRING: byte := 11
  const STRUCT: byte := 12
  const MAP: byte := 13
  const SET: byte := 14
  const LIST: byte := 15

  const LIMIT := 0x8000_0000

  // Integer encoding: big endian, two's complement.

  /** An integer as n bytes, cut down if it does not fit. */
  function Word(v: int, n: nat): (b: seq<byte>)
    ensures |b| == n
    decreases n, v
  {
    if n == 0 then [] else Word(v / 256, n - 1) + [v % 256]
  }

  /** The sign is in the first byte. */
  function DecInt(b: seq<byte>): int
    requires b != []
  {
    if |b| == 1 then (if b[0] >= 128 then b[0] - 256 else b[0])
    else DecInt(b[..|b| - 1]) * 256 + b[|b| - 1]
  }

  /** Half the values of n bytes. */
  function Half(n: nat): (h: nat)
    ensures h > 0
  {
    if n <= 1 then 128 else 256 * Half(n - 1)
  }

  predicate InRange(v: int, n: nat) {
    0 <= v + Half(n) && v < Half(n)
  }

  lemma {:induction false} DecIntInRange(b: seq<byte>)
    requires b != []
    ensures InRange(DecInt(b), |b|)
  {
    if |b| > 1 { DecIntInRange(b[..|b| - 1]); }
  }

  lemma HalfValues()
    ensures Half(2) == 0x8000 && Half(4) == 0x8000_0000 && Half(8) == 0x8000_0000_0000_0000
  {
    assert Half(3) == 0x80_0000;
    assert Half(5) == 0x80_0000_0000;
    assert Half(6) == 0x8000_0000_0000;
    assert Half(7) == 0x80_0000_0000_0000;
  }

  lemma {:induction false} WordRoundTrip(v: int, n: nat)
    requires n > 0 && InRange(v, n)
    ensures DecInt(Word(v, n)) == v
    decreases n
  {
    var b := Word(v, n);
    if n > 1 {
      WordRoundTrip(v / 256, n - 1);
      assert b[..n - 1] == Word(v / 256, n - 1);
    }
  }

  // Values on the wire.

  datatype Value =
    | VBool(raw: byte)
    | VByte(i8: i8)
    | VDouble(bits: seq<byte>)
    | VI16(i16: i16)
    | VI32(i32: i32)
    | VI64(i64: i64)
    | VString(s: Str)
    | VStruct(fields: seq<Field>)
    | VMap(keyType: byte, valueType: byte, entries: seq<Entry>)
    | VSet(elemType: byte, elems: seq<Value>)
    | VList(elemType: byte, elems: seq<Value>)

  datatype Field = Field(id: i16, value: Value)
  datatype Entry = Entry(key: Value, value: Value)

  function TypeOf(v: Value): (t: byte)
    ensures t != STOP
  {
    match v
    case VBool(_) => BOOL
    case VByte(_) => BYTE
    case VDouble(_) => DOUBLE
    case VI16(_) => I16
    case VI32(_) => I32
    case VI64(_) => I64
    case VString(_) => STRING
    case VStruct(_) => STRUCT
    case VMap(_, _, _) => MAP
    case VSet(_, _) => SET
    case VList(_, _) => LIST
  }

  /** Values that have an encoding: sizes below 2^31, collections of one element type. */
  ghost predicate WellFormed(v: Value)
    decreases v, 0
  {
    match v
    case VDouble(bits) => |bits| == 8
    case VString(s) => |s| < LIMIT
    case VStruct(fs) => forall k :: 0 <= k < |fs| ==> FieldOk(fs[k])
    case VMap(kt, vt, es) => |es| < LIMIT && forall k :: 0 <= k < |es| ==> EntryOk(kt, vt, es[k])
    case VSet(et, es) => |es| < LIMIT && forall k :: 0 <= k < |es| ==> ElemOk(et, es[k])
    case VList(et, es) => |es| < LIMIT && forall k :: 0 <= k < |es| ==> ElemOk(et, es[k])
    case _ => true
  }

  ghost predicate FieldOk(f: Field)
    decreases f
  {
    WellFormed(f.value)
  }

  ghost predicate ElemOk(t: byte, v: Value)
    decreases v, 1
  {
    TypeOf(v) == t && WellFormed(v)
  }

  ghost predicate EntryOk(kt: byte, vt: byte, e: Entry)
    decreases e
  {
    ElemOk(kt, e.key) && ElemOk(vt, e.value)
  }

  function Enc(v: Value): seq<byte>
    decreases v
  {
    match v
    case VBool(raw) => [raw]
    case VByte(i) => Word(i, 1)
    case VDouble(bits) => bits
    case VI16(i) => Word(i, 2)
    case VI32(i) => Word(i, 4)
    case VI64(i) => Word(i, 8)
    case VString(s) => Word(|s|, 4) + s
    case VStruct(fs) => EncFields(fs) + [STOP]
    case VMap(kt, vt, es) => [kt, vt] + Word(|es|, 4) + EncEntries(es)
    case VSet(et, es) => [et] + Word(|es|, 4) + EncElems(es)
    case VList(et, es) => [et] + Word(|es|, 4) + EncElems(es)
  }

  function FieldHeader(f: Field): (b: seq<byte>)
    ensures |b| == 3
  {
    [TypeOf(f.value)] + Word(f.id, 2)
  }

  function EncField(f: Field): seq<byte>
    decreases f
  {
    FieldHeader(f) + Enc(f.value)
  }

  function EncFields(fs: seq<Field>): seq<byte>
    decreases fs
  {
    if fs == [] then [] else EncField(fs[0]) + EncFields(fs[1..])
  }

  function EncElems(es: seq<Value>): seq<byte>
    decreases es
  {
    if es == [] then [] else Enc(es[0]) + EncElems(es[1..])
  }

  function EncEntry(e: Entry): seq<byte>
    decreases e
  {
    Enc(e.key) + Enc(e.value)
  }

  function EncEntries(es: seq<Entry>): seq<byte>
    decreases es
  {
    if es == [] then [] else EncEntry(es[0]) + EncEntries(es[1..])
  }

  // Reading from the front of a buffer suffix.

  /** A value and the number of bytes it took, or a failure. */
  datatype Read<+T> = Good(val: T, n: nat) | Bad

  function ReadI32(b: seq<byte>): (r: Read<i32>)
    ensures r.Good? ==> r.n <= |b|
  {
    if |b| < 4 then Bad else
      HalfValues();
      DecIntInRange(b[..4]);
      Good(DecInt(b[..4]), 4)
  }

  function ReadI64(b: seq<byte>): (r: Read<i64>)
    ensures r.Good? ==> r.n <= |b|
  {
    if |b| < 8 then Bad else
      HalfValues();
      DecIntInRange(b[..8]);
      Good(DecInt(b[..8]), 8)
  }

  function ReadString(b: seq<byte>): (r: Read<Str>)
    ensures r.Good? ==> 4 <= r.n <= |b|
  {
    match ReadI32(b)
    case Bad => Bad
    case Good(size, _) => if size < 0 || |b| < 4 + size then Bad else Good(b[4..4 + size], 4 + size)
  }

  /** Type and id; a stop byte stands alone. */
  function ReadFieldBegin(b: seq<byte>): (r: Read<(byte, i16)>)
    ensures r.Good? ==> 1 <= r.n <= |b|
  {
    if |b| < 1 then Bad
    else if b[0] == STOP then Good((STOP, 0), 1)
    else if |b| < 3 then Bad
    else
      HalfValues();
      DecIntInRange(b[1..3]);
      Good((b[0], DecInt(b[1..3])), 3)
  }

  /** Element type and size. */
  function ReadListBegin(b: seq<byte>): (r: Read<(byte, nat)>)
    ensures r.Good? ==> 5 == r.n <= |b|
  {
    if |b| < 5 || DecInt(b[1..5]) < 0 then Bad else Good((b[0], DecInt(b[1..5])), 5)
  }

  function ReadMapBegin(b: seq<byte>): (r: Read<(byte, byte, nat)>)
    ensures r.Good? ==> 6 == r.n <= |b|
  {
    if |b| < 6 || DecInt(b[2..6]) < 0 then Bad else Good((b[0], b[1], DecInt(b[2..6])), 6)
  }

  function FixedSize(t: byte): nat {
    if t == BOOL || t == BYTE then 1
    else if t == I16 then 2
    else if t == I32 then 4
    else if t == I64 || t == DOUBLE then 8
    else 0
  }

  /** How many bytes a value of type t takes. */
  function Skip(b: seq<byte>, t: byte): (r: Option<nat>)
    ensures r.Some? ==> 0 < r.value <= |b|
    decreases |b|, 1, 0
  {
    if FixedSize(t) > 0 then (if |b| < FixedSize(t) then None else Some(FixedSize(t)))
    else if t == STRING then (match ReadString(b) case Bad => None case Good(_, n) => Some(n))
    else if t == STRUCT then SkipFields(b)
    else if t == LIST || t == SET then
      match ReadListBegin(b)
      case Bad => None
      case Good((et, size), l) =>
        (match SkipElems(b[l..], et, size) case None => None case Some(n) => Some(l + n))
    else if t == MAP then
      match ReadMapBegin(b)
      case Bad => None
      case Good((kt, vt, size), l) =>
        (match SkipEntries(b[l..], kt, vt, size) case None => None case Some(n) => Some(l + n))
    else None
  }

  function SkipFields(b: seq<byte>): (r: Option<nat>)
    ensures r.Some? ==> 0 < r.value <= |b|
    decreases |b|, 0, 0
  {
    match ReadFieldBegin(b)
    case Bad => None
    case Good((t, _), l) =>
      if t == STOP then Some(l) else
        match Skip(b[l..], t)
        case None => None
        case Some(n) => (match SkipFields(b[l + n..]) case None => None case Some(m) => Some(l + n + m))
  }

  function SkipElems(b: seq<byte>, t: byte, size: nat): (r: Option<nat>)
    ensures r.Some? ==> r.value <= |b|
    decreases |b|, 2, size
  {
    if size == 0 then Some(0) else
      match Skip(b, t)
      case None => None
      case Some(n) => (match SkipElems(b[n..], t, size - 1) case None => None case Some(m) => Some(n + m))
  }

  function SkipEntries(b: seq<byte>, kt: byte, vt: byte, size: nat): (r: Option<nat>)
    ensures r.Some? ==> r.value <= |b|
    decreases |b|, 2, size
  {
    if size == 0 then Some(0) else
      match Skip(b, kt)
      case None => None
      case Some(n) =>
        match Skip(b[n..], vt)
        case None => None
        case Some(m) => (match SkipEntries(b[n + m..], kt, vt, size - 1) case None => None case Some(k) => Some(n + m + k))
  }

  lemma Cut(a: seq<byte>, b: seq<byte>)
    ensures (a + b)[..|a|] == a && (a + b)[|a|..] == b
  {
  }

  lemma AppendAssociates(a: seq<byte>, b: seq<byte>, c: seq<byte>)
    ensures a + b + c == a + (b + c)
  {
  }

  // What was encoded reads back, whatever follows.

  lemma I32Exact(v: i32, rest: seq<byte>)
    ensures ReadI32(Enc(VI32(v)) + rest) == Good(v, 4)
  {
    HalfValues();
    WordRoundTrip(v, 4);
    Cut(Word(v, 4), rest);
  }

  lemma I64Exact(v: i64, rest: seq<byte>)
    ensures ReadI64(Enc(VI64(v)) + rest) == Good(v, 8)
  {
    HalfValues();
    WordRoundTrip(v, 8);
    Cut(Word(v, 8), rest);
  }

  lemma SizeInRange(n: nat)
    requires n < LIMIT
    ensures InRange(n, 4)
  {
    HalfValues();
  }

  lemma StringExact(s: Str, rest: seq<byte>)
    requires |s| < LIMIT
    ensures ReadString(Enc(VString(s)) + rest) == Good(s, 4 + |s|)
  {
    AppendAssociates(Word(|s|, 4), s, rest);
    I32Exact(|s|, s + rest);
    assert (Word(|s|, 4) + (s + rest))[4..4 + |s|] == s;
  }

  lemma FieldBeginExact(f: Field, rest: seq<byte>)
    ensures ReadFieldBegin(EncField(f) + rest) == Good((TypeOf(f.value), f.id), 3)
    ensures (EncField(f) + rest)[3..] == Enc(f.value) + rest
  {
    HalfValues();
    WordRoundTrip(f.id, 2);
    var b := EncField(f) + rest;
    assert b[1..3] == Word(f.id, 2);
  }

  lemma ListBeginExact(et: byte, size: nat, rest: seq<byte>)
    requires size < LIMIT
    ensures ReadListBegin([et] + Word(size, 4) + rest) == Good((et, size), 5)
    ensures ([et] + Word(size, 4) + rest)[5..] == rest
  {
    SizeInRange(size);
    WordRoundTrip(size, 4);
    assert ([et] + Word(size, 4) + rest)[1..5] == Word(size, 4);
  }

  lemma MapBeginExact(kt: byte, vt: byte, size: nat, rest: seq<byte>)
    requires size < LIMIT
    ensures ReadMapBegin([kt, vt] + Word(size, 4) + rest) == Good((kt, vt, size), 6)
    ensures ([kt, vt] + Word(size, 4) + rest)[6..] == rest
  {
    SizeInRange(size);
    WordRoundTrip(size, 4);
    assert ([kt, vt] + Word(size, 4) + rest)[2..6] == Word(size, 4);
  }

  lemma {:induction false} ListSkips(v: Value, et: byte, es: seq<Value>, rest: seq<byte>)
    requires v == VList(et, es) || v == VSet(et, es)
    requires |es| < LIMIT && SkipElems(EncElems(es) + rest, et, |es|) == Some(|EncElems(es)|)
    ensures Skip(Enc(v) + rest, TypeOf(v)) == Some(|Enc(v)|)
  {
    AppendAssociates([et] + Word(|es|, 4), EncElems(es), rest);
    ListBeginExact(et, |es|, EncElems(es) + rest);
  }

  function Plus(n: nat, r: Option<nat>): Option<nat> {
    match r case None => None case Some(m) => Some(n + m)
  }

  lemma {:induction false} MapSkips(kt: byte, vt: byte, es: seq<Entry>, rest: seq<byte>)
    requires |es| < LIMIT && SkipEntries(EncEntries(es) + rest, kt, vt, |es|) == Some(|EncEntries(es)|)
    ensures Skip(Enc(VMap(kt, vt, es)) + rest, MAP) == Some(|Enc(VMap(kt, vt, es))|)
  {
    var b, body := Enc(VMap(kt, vt, es)) + rest, EncEntries(es) + rest;
    AppendAssociates([kt, vt] + Word(|es|, 4), EncEntries(es), rest);
    MapBeginExact(kt, vt, |es|, body);
    SkipMapUnfolds(b, kt, vt, |es|, body);
  }

  lemma {:induction false} SkipMapUnfolds(b: seq<byte>, kt: byte, vt: byte, size: nat, body: seq<byte>)
    requires ReadMapBegin(b) == Good((kt, vt, size), 6) && b[6..] == body
    ensures Skip(b, MAP) == Plus(6, SkipEntries(body, kt, vt, size))
  {
  }

  /** Skipping a well-formed value of any type takes exactly its encoding. */
  lemma {:induction false} SkipExact(v: Value, rest: seq<byte>)
    requires WellFormed(v)
    ensures Skip(Enc(v) + rest, TypeOf(v)) == Some(|Enc(v)|)
    decreases v, 0
  {
    match v {
      case VString(s) => StringExact(s, rest);
      case VStruct(fs) =>
        SkipFieldsExact(fs, rest, EncFields(fs) + ([STOP] + rest));
        AppendAssociates(EncFields(fs), [STOP], rest);
      case VMap(kt, vt, es) =>
        SkipEntriesExact(kt, vt, es, rest, EncEntries(es) + rest);
        MapSkips(kt, vt, es, rest);
      case VSet(et, es) =>
        SkipElemsExact(et, es, rest, EncElems(es) + rest);
        ListSkips(v, et, es, rest);
      case VList(et, es) =>
        SkipElemsExact(et, es, rest, EncElems(es) + rest);
        ListSkips(v, et, es, rest);
      case _ =>
    }
  }

  lemma EncFieldsCons(fs: seq<Field>, rest: seq<byte>)
    requires fs != []
    ensures EncFields(fs) + rest == EncField(fs[0]) + (EncFields(fs[1..]) + rest)
    ensures |EncFields(fs)| == |EncField(fs[0])| + |EncFields(fs[1..])|
  {
    AppendAssociates(EncField(fs[0]), EncFields(fs[1..]), rest);
  }

  lemma EncElemsCons(es: seq<Value>, rest: seq<byte>)
    requires es != []
    ensures EncElems(es) + rest == Enc(es[0]) + (EncElems(es[1..]) + rest)
    ensures |EncElems(es)| == |Enc(es[0])| + |EncElems(es[1..])|
  {
    AppendAssociates(Enc(es[0]), EncElems(es[1..]), rest);
  }

  lemma EncEntriesCons(es: seq<Entry>, rest: seq<byte>)
    requires es != []
    ensures EncEntries(es) + rest == EncEntry(es[0]) + (EncEntries(es[1..]) + rest)
    ensures |EncEntries(es)| == |EncEntry(es[0])| + |EncEntries(es[1..])|
  {
    AppendAssociates(EncEntry(es[0]), EncEntries(es[1..]), rest);
  }

  lemma FieldSkips(f: Field, tail: seq<byte>, n: nat)
    requires Skip(Enc(f.value) + tail, TypeOf(f.value)) == Some(|Enc(f.value)|)
    requires SkipFields(tail) == Some(n)
    ensures SkipFields(EncField(f) + tail) == Some(|EncField(f)| + n)
  {
    FieldBeginExact(f, tail);
    Cut(EncField(f), tail);
  }

  lemma {:induction false} FieldStep(f: Field, tail: seq<byte>, n: nat, b: seq<byte>)
    requires FieldOk(f) && SkipFields(tail) == Some(n) && b == EncField(f) + tail
    ensures SkipFields(b) == Some(|EncField(f)| + n)
    decreases f, 1
  {
    SkipFieldValue(f, tail);
    FieldSkips(f, tail, n);
  }

  lemma {:induction false} NoFields(rest: seq<byte>)
    ensures SkipFields([STOP] + rest) == Some(1)
  {
  }

  lemma {:induction false} SkipFieldsExact(fs: seq<Field>, rest: seq<byte>, b: seq<byte>)
    requires forall k :: 0 <= k < |fs| ==> FieldOk(fs[k])
    requires b == EncFields(fs) + ([STOP] + rest)
    ensures SkipFields(b) == Some(|EncFields(fs)| + 1)
    decreases fs, 1
  {
    if fs == [] {
      NoFields(rest);
      assert b == [STOP] + rest;
    } else {
      var tail := EncFields(fs[1..]) + ([STOP] + rest);
      EncFieldsCons(fs, [STOP] + rest);
      SkipFieldsExact(fs[1..], rest, tail);
      FieldStep(fs[0], tail, |EncFields(fs[1..])| + 1, b);
    }
  }

  lemma {:induction false} SkipFieldValue(f: Field, rest: seq<byte>)
    requires WellFormed(f.value)
    ensures Skip(Enc(f.value) + rest, TypeOf(f.value)) == Some(|Enc(f.value)|)
    decreases f, 0
  {
    SkipExact(f.value, rest);
  }

  lemma ElemSkips(v: Value, size: nat, tail: seq<byte>)
    requires Skip(Enc(v) + tail, TypeOf(v)) == Some(|Enc(v)|)
    ensures SkipElems(Enc(v) + tail, TypeOf(v), size + 1) ==
      match SkipElems(tail, TypeOf(v), size) case None => None case Some(m) => Some(|Enc(v)| + m)
  {
    Cut(Enc(v), tail);
  }

  lemma {:induction false} ElemStep(et: byte, v: Value, size: nat, tail: seq<byte>, n: nat, b: seq<byte>)
    requires ElemOk(et, v) && SkipElems(tail, et, size) == Some(n)
    requires b == Enc(v) + tail
    ensures SkipElems(b, et, size + 1) == Some(|Enc(v)| + n)
    decreases v, 1
  {
    SkipExact(v, tail);
    ElemSkips(v, size, tail);
  }

  lemma {:induction false} SkipElemsExact(et: byte, es: seq<Value>, rest: seq<byte>, b: seq<byte>)
    requires forall v :: v in es ==> ElemOk(et, v)
    requires b == EncElems(es) + rest
    ensures SkipElems(b, et, |es|) == Some(|EncElems(es)|)
    decreases es, 2
  {
    if es != [] {
      var tail := EncElems(es[1..]) + rest;
      SkipElemsExact(et, es[1..], rest, tail);
      EncElemsCons(es, rest);
      ElemStep(et, es[0], |es| - 1, tail, |EncElems(es[1..])|, b);
    }
  }

  lemma {:induction false} SkipEntry(kt: byte, vt: byte, e: Entry, rest: seq<byte>)
    requires EntryOk(kt, vt, e)
    ensures Skip(Enc(e.key) + (Enc(e.value) + rest), TypeOf(e.key)) == Some(|Enc(e.key)|)
    ensures Skip(Enc(e.value) + rest, TypeOf(e.value)) == Some(|Enc(e.value)|)
    decreases e, 0
  {
    SkipExact(e.key, Enc(e.value) + rest);
    SkipExact(e.value, rest);
  }

  lemma EntrySkips(e: Entry, size: nat, tail: seq<byte>, n: nat)
    requires Skip(Enc(e.key) + (Enc(e.value) + tail), TypeOf(e.key)) == Some(|Enc(e.key)|)
    requires Skip(Enc(e.value) + tail, TypeOf(e.value)) == Some(|Enc(e.value)|)
    requires SkipEntries(tail, TypeOf(e.key), TypeOf(e.value), size) == Some(n)
    ensures SkipEntries(EncEntry(e) + tail, TypeOf(e.key), TypeOf(e.value), size + 1) == Some(|EncEntry(e)| + n)
  {
    AppendAssociates(Enc(e.key), Enc(e.value), tail);
    Cut(Enc(e.key), Enc(e.value) + tail);
    Cut(EncEntry(e), tail);
  }

  lemma {:induction false} EntryStep(kt: byte, vt: byte, e: Entry, size: nat, tail: seq<byte>, n: nat, b: seq<byte>)
    requires EntryOk(kt, vt, e) && SkipEntries(tail, kt, vt, size) == Some(n)
    requires b == EncEntry(e) + tail
    ensures SkipEntries(b, kt, vt, size + 1) == Some(|EncEntry(e)| + n)
    decreases e, 1
  {
    SkipEntry(kt, vt, e, tail);
    EntrySkips(e, size, tail, n);
  }

  lemma {:induction false} SkipEntriesExact(kt: byte, vt: byte, es: seq<Entry>, rest: seq<byte>, b: seq<byte>)
    requires forall e :: e in es ==> EntryOk(kt, vt, e)
    requires b == EncEntries(es) + rest
    ensures SkipEntries(b, kt, vt, |es|) == Some(|EncEntries(es)|)
    decreases es, 2
  {
    if es != [] {
      var tail := EncEntries(es[1..]) + rest;
      SkipEntriesExact(kt, vt, es[1..], rest, tail);
      EncEntriesCons(es, rest);
      EntryStep(kt, vt, es[0], |es| - 1, tail, |EncEntries(es[1..])|, b);
    }
  }
}
