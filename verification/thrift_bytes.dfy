/**
 The bytes of the Thrift binary protocol (its specification's sections "Integer encoding", "String encoding", "Struct",
 "List and Set" and "Map"), spelled out: big endian two's complement by place value, and the type codes as numbers.
 */
module ThriftBytes {
  import opened Prelude
  import opened ThriftWire

  function Pow256(k: nat): (p: nat)
    ensures p > 0
  {
    if k == 0 then 1 else 256 * Pow256(k - 1)
  }

  lemma DivideTwice(v: int, m: nat)
    requires m > 0
    ensures v / 256 / m == v / (256 * m)
  {
    var q, r := v / 256, v % 256;
    var a, b := q / m, q % m;
    assert v == (256 * m) * a + (256 * b + r);
    assert 0 <= 256 * b + r < 256 * m;
    DivisionIsUnique(v, 256 * m, a, 256 * b + r);
  }

  lemma DivisionIsUnique(v: int, d: nat, q: int, r: int)
    requires d > 0 && v == d * q + r && 0 <= r < d
    ensures v / d == q
  {
    var k := v / d - q;
    assert d * k == r - v % d;
    Multiples(d, k);
  }

  lemma Multiples(d: nat, k: int)
    requires d > 0
    ensures (k >= 1 ==> d * k >= d) && (k <= -1 ==> d * k <= 0 - d)
  {
    if k >= 1 { assert d * (k - 1) >= 0; }
    if k <= -1 { assert d * (-1 - k) >= 0; }
  }

  /** Byte k of an integer of n bytes is its digit of weight 256 to the n - 1 - k. */
  lemma {:induction false} BigEndian(v: int, n: nat, k: nat)
    requires k < n
    ensures Word(v, n)[k] == (v / Pow256(n - 1 - k)) % 256
    decreases n
  {
    if k < n - 1 {
      BigEndian(v / 256, n - 1, k);
      DivideTwice(v, Pow256(n - 2 - k));
      assert Pow256(n - 1 - k) == 256 * Pow256(n - 2 - k);
    } else {
      assert v / 1 == v;
    }
  }

  /** Any bytes are the encoding of the integer they are read as. */
  lemma {:induction false} EveryWordIsRead(b: seq<byte>)
    requires b != []
    ensures Word(DecInt(b), |b|) == b
  {
    var front, last := b[..|b| - 1], b[|b| - 1];
    if |b| == 1 {
      assert Word(DecInt(b) / 256, 0) == [];
      assert b == [last];
    } else {
      EveryWordIsRead(front);
      assert DecInt(b) / 256 == DecInt(front) && DecInt(b) % 256 == last;
      assert b == front + [last];
    }
  }

  /** The type code, the id and the value of a field of each type. */
  lemma {:induction false} FieldBytes(id: i16, v: Value)
    ensures EncField(Field(id, v)) ==
      match v
      case VBool(x) => [2] + Word(id, 2) + [x]
      case VByte(x) => [3] + Word(id, 2) + Word(x, 1)
      case VDouble(bits) => [4] + Word(id, 2) + bits
      case VI16(x) => [6] + Word(id, 2) + Word(x, 2)
      case VI32(x) => [8] + Word(id, 2) + Word(x, 4)
      case VI64(x) => [10] + Word(id, 2) + Word(x, 8)
      case VString(s) => [11] + Word(id, 2) + (Word(|s|, 4) + s)
      case VStruct(fs) => [12] + Word(id, 2) + (EncFields(fs) + [0])
      case VMap(kt, vt, es) => [13] + Word(id, 2) + ([kt, vt] + Word(|es|, 4) + EncEntries(es))
      case VSet(et, es) => [14] + Word(id, 2) + ([et] + Word(|es|, 4) + EncElems(es))
      case VList(et, es) => [15] + Word(id, 2) + ([et] + Word(|es|, 4) + EncElems(es))
  {
    assert EncField(Field(id, v)) == FieldHeader(Field(id, v)) + Enc(v);
  }

  /** Fields, elements and entries follow each other without anything in between. */
  lemma {:induction false} SequencesAreJoined(f: Field, fs: seq<Field>, v: Value, es: seq<Value>, e: Entry, ms: seq<Entry>)
    ensures EncFields([]) == [] && EncFields([f] + fs) == EncField(f) + EncFields(fs)
    ensures EncElems([]) == [] && EncElems([v] + es) == Enc(v) + EncElems(es)
    ensures EncEntries([]) == [] && EncEntries([e] + ms) == Enc(e.key) + Enc(e.value) + EncEntries(ms)
  {
    assert ([f] + fs)[1..] == fs && ([v] + es)[1..] == es && ([e] + ms)[1..] == ms;
  }

  /** What is read as a string, as a list header, a map header or a field header: the same bytes. */
  lemma {:induction false} HeadersRead(b: seq<byte>)
    ensures ReadI32(b) == if |b| < 4 then Bad else Good(DecInt(b[..4]), 4)
    ensures ReadI64(b) == if |b| < 8 then Bad else Good(DecInt(b[..8]), 8)
    ensures ReadString(b).Good? ==> ReadString(b).n == 4 + DecInt(b[..4]) && ReadString(b).val == b[4..ReadString(b).n]
    ensures ReadString(b).Good? <==> |b| >= 4 && DecInt(b[..4]) >= 0 && |b| >= 4 + DecInt(b[..4])
    ensures ReadFieldBegin(b).Good? <==> |b| >= 3 || (|b| >= 1 && b[0] == 0)
    ensures |b| >= 1 && b[0] == 0 ==> ReadFieldBegin(b) == Good((0, 0), 1)
    ensures |b| >= 3 && b[0] != 0 ==> ReadFieldBegin(b).val == (b[0], DecInt(b[1..3])) && ReadFieldBegin(b).n == 3
    ensures ReadListBegin(b).Good? <==> |b| >= 5 && DecInt(b[1..5]) >= 0
    ensures ReadListBegin(b).Good? ==> ReadListBegin(b) == Good((b[0], DecInt(b[1..5])), 5)
  {
  }
}
