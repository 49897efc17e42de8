/**
 What every generated struct reader has in common (kitex_gen/meshcart/order/k-order.go): a loop over field headers, a
 switch that reads or skips one field, a stop byte. The switch is a parameter; the meaning of a decoded field sequence
 is a fold.
 */
module ThriftStruct {
  import opened Prelude
  import opened ThriftWire

  /** The switch: the struct so far, wire type, field id, the bytes after the header. */
  type Switch<!T> = (T, byte, i16, seq<byte>) -> Read<T>

  /** What one field does to a struct. */
  type Update<!T> = (T, Field) -> T

  /** Two switches that never differ. The readers below are verified for any switch that agrees with theirs. */
  ghost predicate Agrees<T(!new)>(f: Switch<T>, g: Switch<T>) {
    forall p: T, t, id, b {:trigger g(p, t, id, b)} :: f(p, t, id, b) == g(p, t, id, b)
  }

  /** A switch that claims more bytes than there are has failed. */
  function Within<T>(r: Read<T>, b: seq<byte>): Read<T> {
    if r.Good? && r.n > |b| then Bad else r
  }

  /** The read loop. */
  function ReadStruct<T(!new)>(f: Switch<T>, b: seq<byte>, p: T): (r: Read<T>)
    ensures r.Good? ==> 1 <= r.n <= |b|
    decreases |b|
  {
    match ReadFieldBegin(b)
    case Bad => Bad
    case Good((t, id), l) =>
      if t == STOP then Good(p, l) else
        match Within(f(p, t, id, b[l..]), b[l..])
        case Bad => Bad
        case Good(q, n) => Ahead(ReadStruct(f, b[l + n..], q), l + n)
  }

  function Ahead<T>(r: Read<T>, n: nat): Read<T> {
    match r case Bad => Bad case Good(v, m) => Good(v, n + m)
  }

  /** The struct as the loop leaves it, at the stop byte or in front of the field that fails. */
  ghost function StructLeft<T(!new)>(f: Switch<T>, b: seq<byte>, p: T): (q: T)
    ensures var r := ReadStruct(f, b, p); r.Good? ==> q == r.val
    decreases |b|
  {
    match ReadFieldBegin(b)
    case Bad => p
    case Good((t, id), l) =>
      if t == STOP then p else
        match Within(f(p, t, id, b[l..]), b[l..])
        case Bad => p
        case Good(q, n) => StructLeft(f, b[l + n..], q)
  }

  /** A read loop that has reached `offset` with struct p will end as the whole read does. */
  ghost predicate ReadingOn<T(!new)>(f: Switch<T>, buf: seq<byte>, first: T, offset: nat, p: T)
  {
    && offset <= |buf|
    && ReadStruct(f, buf, first) == Ahead(ReadStruct(f, buf[offset..], p), offset)
    && StructLeft(f, buf, first) == StructLeft(f, buf[offset..], p)
  }

  lemma StartReading<T(!new)>(f: Switch<T>, buf: seq<byte>, first: T)
    ensures ReadingOn(f, buf, first, 0, first)
  {
    assert buf[0..] == buf;
  }

  lemma ReadBreaks<T(!new)>(f: Switch<T>, buf: seq<byte>, first: T, offset: nat, p: T)
    requires ReadingOn(f, buf, first, offset, p) && ReadFieldBegin(buf[offset..]).Bad?
    ensures ReadStruct(f, buf, first) == Bad && StructLeft(f, buf, first) == p
  {
  }

  lemma ReadStops<T(!new)>(f: Switch<T>, buf: seq<byte>, first: T, offset: nat, p: T, id: i16, l: nat)
    requires ReadingOn(f, buf, first, offset, p) && ReadFieldBegin(buf[offset..]) == Good((STOP, id), l)
    ensures ReadStruct(f, buf, first) == Good(p, offset + l) && StructLeft(f, buf, first) == p
  {
  }

  lemma ReadsField<T(!new)>(f: Switch<T>, buf: seq<byte>, first: T, offset: nat, p: T, t: byte, id: i16, l: nat,
        r: Read<T>)
    requires ReadingOn(f, buf, first, offset, p)
    requires t != STOP && ReadFieldBegin(buf[offset..]) == Good((t, id), l) && r == f(p, t, id, buf[offset + l..])
    requires r.Good? ==> offset + l + r.n <= |buf|
    ensures r.Bad? ==> ReadStruct(f, buf, first) == Bad && StructLeft(f, buf, first) == p
    ensures r.Good? ==> ReadingOn(f, buf, first, offset + l + r.n, r.val)
  {
    assert buf[offset..][l..] == buf[offset + l..];
    ReadUnfolds(f, buf[offset..], p, t, id, l, r);
    if r.Good? {
      assert buf[offset..][l + r.n..] == buf[offset + l + r.n..];
    }
  }

  lemma ReadUnfolds<T(!new)>(f: Switch<T>, b: seq<byte>, p: T, t: byte, id: i16, l: nat, r: Read<T>)
    requires t != STOP && ReadFieldBegin(b) == Good((t, id), l) && r == f(p, t, id, b[l..])
    requires r.Good? ==> l + r.n <= |b|
    ensures ReadStruct(f, b, p) == if r.Bad? then Bad else Ahead(ReadStruct(f, b[l + r.n..], r.val), l + r.n)
    ensures StructLeft(f, b, p) == if r.Bad? then p else StructLeft(f, b[l + r.n..], r.val)
  {
  }

  function After<T>(done: seq<T>, n: nat, r: Read<seq<T>>): Read<seq<T>> {
    match r case Bad => Bad case Good(vs, m) => Good(done + vs, n + m)
  }

  lemma AfterAfter<T>(done: seq<T>, n: nat, v: T, m: nat, r: Read<seq<T>>)
    ensures After(done, n, After([v], m, r)) == After(done + [v], n + m, r)
  {
    if r.Good? { assert done + ([v] + r.val) == done + [v] + r.val; }
  }

  lemma AfterNothing<T>(r: Read<seq<T>>)
    ensures After([], 0, r) == r
  {
    if r.Good? { assert [] + r.val == r.val; }
  }

  /** `size` structs, each read into a fresh one. */
  function ReadStructs<T(!new)>(f: Switch<T>, zero: T, b: seq<byte>, size: nat): (r: Read<seq<T>>)
    ensures r.Good? ==> r.n <= |b| && |r.val| == size
    decreases size
  {
    if size == 0 then Good([], 0) else
      match ReadStruct(f, b, zero)
      case Bad => Bad
      case Good(v, n) => After([v], n, ReadStructs(f, zero, b[n..], size - 1))
  }

  /** What reads a given number of elements. */
  type ElemReader<!T> = (seq<byte>, nat) -> Read<seq<T>>

  /** An element loop that has read `done` and reached `offset` will end as the whole read does. */
  ghost predicate Reading<T>(rs: ElemReader<T>, b: seq<byte>, size: nat, offset: nat, done: seq<T>) {
    && offset <= |b| && |done| <= size
    && rs(b, size) == After(done, offset, rs(b[offset..], size - |done|))
  }

  lemma StartReadingElems<T>(rs: ElemReader<T>, b: seq<byte>, size: nat)
    ensures Reading(rs, b, size, 0, [])
  {
    assert b[0..] == b;
    AfterNothing(rs(b, size));
  }

  lemma ReadOn<T>(rs: ElemReader<T>, b: seq<byte>, size: nat, offset: nat, done: seq<T>, v: T, n: nat)
    requires Reading(rs, b, size, offset, done) && |done| < size && offset + n <= |b|
    requires rs(b[offset..], size - |done|) == After([v], n, rs(b[offset + n..], size - |done| - 1))
    ensures Reading(rs, b, size, offset + n, done + [v])
  {
    AfterAfter(done, offset, v, n, rs(b[offset + n..], size - |done| - 1));
  }

  ghost function StructReader<T(!new)>(f: Switch<T>, zero: T): ElemReader<T> {
    (b: seq<byte>, size: nat) => ReadStructs(f, zero, b, size)
  }

  ghost predicate ReadingElems<T(!new)>(f: Switch<T>, zero: T, b: seq<byte>, size: nat, offset: nat, done: seq<T>) {
    Reading(StructReader(f, zero), b, size, offset, done)
  }

  lemma StartElems<T(!new)>(f: Switch<T>, zero: T, b: seq<byte>, size: nat)
    ensures ReadingElems(f, zero, b, size, 0, [])
  {
    StartReadingElems(StructReader(f, zero), b, size);
  }

  lemma ReadStructsUnfolds<T(!new)>(f: Switch<T>, zero: T, b: seq<byte>, size: nat, v: T, n: nat, tail: seq<byte>)
    requires size > 0 && ReadStruct(f, b, zero) == Good(v, n) && b[n..] == tail
    ensures ReadStructs(f, zero, b, size) == After([v], n, ReadStructs(f, zero, tail, size - 1))
  {
  }

  lemma ReaderReads<T(!new)>(f: Switch<T>, zero: T, b: seq<byte>, size: nat)
    ensures StructReader(f, zero)(b, size) == ReadStructs(f, zero, b, size)
  {
  }

  lemma ReaderUnfolds<T(!new)>(f: Switch<T>, zero: T, b: seq<byte>, size: nat, v: T, n: nat, tail: seq<byte>)
    requires size > 0 && ReadStruct(f, b, zero) == Good(v, n) && b[n..] == tail
    ensures StructReader(f, zero)(b, size) == After([v], n, StructReader(f, zero)(tail, size - 1))
  {
    ReadStructsUnfolds(f, zero, b, size, v, n, tail);
    ReaderReads(f, zero, b, size);
    ReaderReads(f, zero, tail, size - 1);
  }

  lemma ElemRead<T(!new)>(f: Switch<T>, zero: T, b: seq<byte>, size: nat, offset: nat, done: seq<T>, v: T, n: nat)
    requires ReadingElems(f, zero, b, size, offset, done) && |done| < size
    requires ReadStruct(f, b[offset..], zero) == Good(v, n)
    ensures ReadingElems(f, zero, b, size, offset + n, done + [v])
  {
    ReaderUnfolds(f, zero, b[offset..], size - |done|, v, n, b[offset + n..]);
    ReadOn(StructReader(f, zero), b, size, offset, done, v, n);
  }

  lemma ReadStructsFails<T(!new)>(f: Switch<T>, zero: T, b: seq<byte>, size: nat)
    requires size > 0 && ReadStruct(f, b, zero) == Bad
    ensures ReadStructs(f, zero, b, size) == Bad
  {
  }

  lemma ElemFails<T(!new)>(f: Switch<T>, zero: T, b: seq<byte>, size: nat, offset: nat, done: seq<T>)
    requires ReadingElems(f, zero, b, size, offset, done) && |done| < size
    requires ReadStruct(f, b[offset..], zero) == Bad
    ensures ReadStructs(f, zero, b, size) == Bad
  {
    ReadStructsFails(f, zero, b[offset..], size - |done|);
  }

  lemma ElemNext<T(!new)>(f: Switch<T>, zero: T, b: seq<byte>, size: nat, offset: nat, done: seq<T>, ok: bool, v: T, n: nat)
    requires ReadingElems(f, zero, b, size, offset, done) && |done| < size
    requires ReadStruct(f, b[offset..], zero) == if ok then Good(v, n) else Bad
    ensures !ok ==> ReadStructs(f, zero, b, size) == Bad
    ensures ok ==> ReadingElems(f, zero, b, size, offset + n, done + [v])
  {
    if ok { ElemRead(f, zero, b, size, offset, done, v, n); } else { ElemFails(f, zero, b, size, offset, done); }
  }

  lemma ElemsDone<T(!new)>(f: Switch<T>, zero: T, b: seq<byte>, size: nat, offset: nat, done: seq<T>)
    requires ReadingElems(f, zero, b, size, offset, done) && |done| == size
    ensures ReadStructs(f, zero, b, size) == Good(done, offset)
  {
    assert done + [] == done;
  }

  /** Applying fields in wire order. */
  ghost function Fold<T>(g: Update<T>, p: T, fs: seq<Field>): T {
    if fs == [] then p else g(Fold(g, p, fs[..|fs| - 1]), fs[|fs| - 1])
  }

  lemma {:induction false} FoldCons<T>(g: Update<T>, p: T, fs: seq<Field>)
    requires fs != []
    ensures Fold(g, p, fs) == Fold(g, g(p, fs[0]), fs[1..])
    decreases |fs|
  {
    var front, last := fs[..|fs| - 1], fs[|fs| - 1];
    if front == [] {
      assert fs[1..] == [];
      assert Fold(g, p, front) == p;
    } else {
      FoldCons(g, p, front);
      assert front[1..] == fs[1..][..|fs| - 2];
    }
  }

  /** Three more fields at the end of a sequence. */
  lemma FoldThree<T>(g: Update<T>, p: T, fs: seq<Field>, x: Field, y: Field, z: Field)
    ensures Fold(g, p, fs + [x, y, z]) == g(g(g(Fold(g, p, fs), x), y), z)
  {
    assert fs + [x, y, z] == fs + [x] + [y] + [z];
    FoldSnoc(g, p, fs, x);
    FoldSnoc(g, p, fs + [x], y);
    FoldSnoc(g, p, fs + [x] + [y], z);
  }

  lemma FoldSnoc<T>(g: Update<T>, p: T, fs: seq<Field>, x: Field)
    ensures Fold(g, p, fs + [x]) == g(Fold(g, p, fs), x)
  {
    assert (fs + [x])[..|fs|] == fs;
  }

  /** The switch reads this field, wherever it stands, as the update says, and consumes exactly its value. */
  ghost predicate Accepts<T(!new)>(f: Switch<T>, g: Update<T>, x: Field) {
    forall p: T, rest :: f(p, TypeOf(x.value), x.id, Enc(x.value) + rest) == Good(g(p, x), |Enc(x.value)|)
  }

  ghost predicate AcceptsAll<T(!new)>(f: Switch<T>, g: Update<T>, fs: seq<Field>) {
    forall k :: 0 <= k < |fs| ==> Accepts(f, g, fs[k])
  }

  lemma ReadFieldStep<T(!new)>(f: Switch<T>, g: Update<T>, x: Field, tail: seq<byte>, p: T, b: seq<byte>)
    requires Accepts(f, g, x)
    requires b == EncField(x) + tail
    ensures ReadStruct(f, b, p) == Ahead(ReadStruct(f, tail, g(p, x)), |EncField(x)|)
  {
    FieldBeginExact(x, tail);
    Cut(EncField(x), tail);
    assert f(p, TypeOf(x.value), x.id, Enc(x.value) + tail) == Good(g(p, x), |Enc(x.value)|);
    assert b[3 + |Enc(x.value)|..] == tail;
  }

  /** Reading any sequence of acceptable fields is folding them, and consumes exactly what was encoded. */
  lemma {:induction false} ReadStructFields<T(!new)>(f: Switch<T>, g: Update<T>, fs: seq<Field>, p: T,
        rest: seq<byte>, b: seq<byte>)
    requires AcceptsAll(f, g, fs)
    requires b == EncFields(fs) + ([STOP] + rest)
    ensures ReadStruct(f, b, p) == Good(Fold(g, p, fs), |EncFields(fs)| + 1)
    decreases |fs|
  {
    if fs == [] {
      assert b == [STOP] + rest;
    } else {
      var tail := EncFields(fs[1..]) + ([STOP] + rest);
      EncFieldsCons(fs, [STOP] + rest);
      ReadFieldStep(f, g, fs[0], tail, p, b);
      ReadStructFields(f, g, fs[1..], g(p, fs[0]), rest, tail);
      FoldCons(g, p, fs);
    }
  }

  /** The same for a whole encoded struct. */
  lemma StructExact<T(!new)>(f: Switch<T>, g: Update<T>, fs: seq<Field>, p: T, rest: seq<byte>)
    requires AcceptsAll(f, g, fs)
    ensures ReadStruct(f, Enc(VStruct(fs)) + rest, p) == Good(Fold(g, p, fs), |Enc(VStruct(fs))|)
  {
    AppendAssociates(EncFields(fs), [STOP], rest);
    ReadStructFields(f, g, fs, p, rest, Enc(VStruct(fs)) + rest);
  }

  /** A list of structs given by their fields. */
  ghost predicate StructsOnly(es: seq<Value>) {
    forall k :: 0 <= k < |es| ==> es[k].VStruct?
  }

  ghost predicate AcceptsElems<T(!new)>(f: Switch<T>, g: Update<T>, es: seq<Value>) {
    forall k :: 0 <= k < |es| ==> AcceptsElem(f, g, es[k])
  }

  ghost predicate AcceptsElem<T(!new)>(f: Switch<T>, g: Update<T>, v: Value) {
    v.VStruct? ==> AcceptsAll(f, g, v.fields)
  }

  ghost function FoldElems<T>(g: Update<T>, zero: T, es: seq<Value>): (r: seq<T>)
    requires StructsOnly(es)
    ensures |r| == |es|
  {
    seq(|es|, k requires 0 <= k < |es| => Fold(g, zero, es[k].fields))
  }

  lemma FoldElemsCons<T>(g: Update<T>, zero: T, es: seq<Value>)
    requires StructsOnly(es) && es != []
    ensures FoldElems(g, zero, es) == [Fold(g, zero, es[0].fields)] + FoldElems(g, zero, es[1..])
  {
  }

  lemma ReadElemStep<T(!new)>(f: Switch<T>, g: Update<T>, zero: T, fs: seq<Field>, size: nat, tail: seq<byte>,
        b: seq<byte>, vs: seq<T>, m: nat)
    requires AcceptsAll(f, g, fs) && b == Enc(VStruct(fs)) + tail
    requires ReadStructs(f, zero, tail, size) == Good(vs, m)
    ensures ReadStructs(f, zero, b, size + 1) == Good([Fold(g, zero, fs)] + vs, |Enc(VStruct(fs))| + m)
  {
    StructExact(f, g, fs, zero, tail);
    Cut(Enc(VStruct(fs)), tail);
  }

  lemma ReadElemsStep<T(!new)>(f: Switch<T>, g: Update<T>, zero: T, es: seq<Value>, rest: seq<byte>, b: seq<byte>,
        tail: seq<byte>)
    requires es != [] && StructsOnly(es) && AcceptsElem(f, g, es[0])
    requires b == EncElems(es) + rest && tail == EncElems(es[1..]) + rest
    requires ReadStructs(f, zero, tail, |es| - 1) == Good(FoldElems(g, zero, es[1..]), |EncElems(es[1..])|)
    ensures ReadStructs(f, zero, b, |es|) == Good(FoldElems(g, zero, es), |EncElems(es)|)
  {
    EncElemsCons(es, rest);
    ReadElemStep(f, g, zero, es[0].fields, |es| - 1, tail, b, FoldElems(g, zero, es[1..]), |EncElems(es[1..])|);
    FoldElemsCons(g, zero, es);
  }

  lemma {:induction false} ReadStructsElems<T(!new)>(f: Switch<T>, g: Update<T>, zero: T, es: seq<Value>,
        rest: seq<byte>, b: seq<byte>)
    requires StructsOnly(es) && AcceptsElems(f, g, es)
    requires b == EncElems(es) + rest
    ensures ReadStructs(f, zero, b, |es|) == Good(FoldElems(g, zero, es), |EncElems(es)|)
    decreases |es|
  {
    if es != [] {
      var tail := EncElems(es[1..]) + rest;
      ReadStructsElems(f, g, zero, es[1..], rest, tail);
      assert AcceptsElem(f, g, es[0]);
      ReadElemsStep(f, g, zero, es, rest, b, tail);
    }
  }

  // Order does not matter.

  /** Fields with different ids may be applied in either order. */
  ghost predicate Commutes<T(!new)>(g: Update<T>) {
    forall p: T, x: Field, y: Field :: x.id != y.id ==> g(g(p, x), y) == g(g(p, y), x)
  }

  ghost predicate DistinctIds(fs: seq<Field>) {
    forall i, j :: 0 <= i < j < |fs| ==> fs[i].id != fs[j].id
  }

  lemma {:induction false} MoveToFront<T(!new)>(g: Update<T>, p: T, fs: seq<Field>, k: nat)
    requires Commutes(g) && k < |fs|
    requires forall i :: 0 <= i < k ==> fs[i].id != fs[k].id
    ensures Fold(g, p, fs) == Fold(g, g(p, fs[k]), fs[..k] + fs[k + 1..])
    decreases k
  {
    FoldCons(g, p, fs);
    var others := fs[..k] + fs[k + 1..];
    if k == 0 {
      assert others == fs[1..];
    } else {
      var tail := fs[1..];
      MoveToFront(g, g(p, fs[0]), tail, k - 1);
      assert tail[..k - 1] + tail[k..] == others[1..];
      assert others[0] == fs[0];
      FoldCons(g, g(p, fs[k]), others);
    }
  }

  lemma RemoveOccurrence(fs: seq<Field>, gs: seq<Field>, k: nat)
    requires fs != [] && multiset(fs) == multiset(gs) && k < |gs| && gs[k] == fs[0]
    ensures multiset(fs[1..]) == multiset(gs[..k] + gs[k + 1..])
  {
    assert fs == [fs[0]] + fs[1..];
    assert gs == gs[..k] + [gs[k]] + gs[k + 1..];
    assert multiset(fs) == multiset{fs[0]} + multiset(fs[1..]);
    assert multiset(gs) == multiset(gs[..k]) + multiset{gs[k]} + multiset(gs[k + 1..]);
    assert multiset(fs[1..]) == multiset(fs) - multiset{fs[0]};
    assert multiset(gs[..k] + gs[k + 1..]) == multiset(gs) - multiset{gs[k]};
  }

  /** The head of one ordering inside another: what stands before it has other ids. */
  lemma HeadOccurs(fs: seq<Field>, gs: seq<Field>) returns (k: nat)
    requires fs != [] && DistinctIds(fs) && multiset(fs) == multiset(gs)
    ensures k < |gs| && gs[k] == fs[0]
    ensures multiset(fs[1..]) == multiset(gs[..k] + gs[k + 1..])
    ensures forall i :: 0 <= i < k ==> gs[i].id != gs[k].id
  {
    assert fs[0] in multiset(gs);
    k :| 0 <= k < |gs| && gs[k] == fs[0];
    RemoveOccurrence(fs, gs, k);
    var others := gs[..k] + gs[k + 1..];
    forall i | 0 <= i < k ensures gs[i].id != gs[k].id {
      assert others[i] == gs[i] && others[i] in multiset(fs[1..]);
      assert gs[i] in fs[1..];
    }
  }

  /** Any reordering of fields with distinct ids decodes to the same struct. */
  lemma {:induction false} OrderInsensitive<T(!new)>(g: Update<T>, p: T, fs: seq<Field>, gs: seq<Field>)
    requires Commutes(g) && DistinctIds(fs) && multiset(fs) == multiset(gs)
    ensures Fold(g, p, fs) == Fold(g, p, gs)
    decreases |fs|
  {
    if fs == [] {
      assert |multiset(gs)| == 0;
    } else {
      var k := HeadOccurs(fs, gs);
      MoveToFront(g, p, gs, k);
      FoldCons(g, p, fs);
      OrderInsensitive(g, g(p, fs[0]), fs[1..], gs[..k] + gs[k + 1..]);
    }
  }

  // Fields the struct does not know do not matter.

  ghost predicate Ignored<T(!new)>(g: Update<T>, x: Field) {
    forall p: T :: g(p, x) == p
  }

  /** Dropping any ignored fields from a sequence leaves its meaning. */
  lemma {:induction false} ExtensionInsensitive<T(!new)>(g: Update<T>, p: T, fs: seq<Field>, mask: seq<bool>)
    requires |fs| == |mask| && forall k :: 0 <= k < |fs| && !mask[k] ==> Ignored(g, fs[k])
    ensures Fold(g, p, Keep(fs, mask)) == Fold(g, p, fs)
    decreases |fs|
  {
    if fs != [] {
      FoldCons(g, p, fs);
      ExtensionInsensitive(g, g(p, fs[0]), fs[1..], mask[1..]);
      if mask[0] {
        FoldCons(g, p, Keep(fs, mask));
        assert Keep(fs, mask)[1..] == Keep(fs[1..], mask[1..]);
      } else {
        assert Ignored(g, fs[0]);
        assert Keep(fs, mask) == Keep(fs[1..], mask[1..]);
      }
    }
  }

  lemma {:induction false} KeptMember(fs: seq<Field>, mask: seq<bool>, k: nat)
    requires |fs| == |mask| && k < |fs| && mask[k]
    ensures fs[k] in Keep(fs, mask)
    decreases |fs|
  {
    if k > 0 { KeptMember(fs[1..], mask[1..], k - 1); }
  }

  /** gs holds the fields of fs in some order (those with a true mask) and, between them, other fields. */
  ghost predicate Arranges(gs: seq<Field>, mask: seq<bool>, fs: seq<Field>) {
    |gs| == |mask| && multiset(Keep(gs, mask)) == multiset(fs)
  }

  /** Every field with a false mask is read past without effect. */
  ghost predicate SkipsOthers<T(!new)>(f: Switch<T>, g: Update<T>, gs: seq<Field>, mask: seq<bool>)
    requires |gs| == |mask|
  {
    forall k :: 0 <= k < |gs| && !mask[k] ==> Accepts(f, g, gs[k]) && Ignored(g, gs[k])
  }

  /** An arrangement whose other fields are ignored means what the fields fs mean. */
  lemma ArrangedFold<T(!new)>(g: Update<T>, p: T, fs: seq<Field>, gs: seq<Field>, mask: seq<bool>)
    requires Commutes(g) && DistinctIds(fs) && Arranges(gs, mask, fs)
    requires forall k :: 0 <= k < |gs| && !mask[k] ==> Ignored(g, gs[k])
    ensures Fold(g, p, gs) == Fold(g, p, fs)
  {
    ExtensionInsensitive(g, p, gs, mask);
    OrderInsensitive(g, p, fs, Keep(gs, mask));
  }

  lemma ArrangedMember(fs: seq<Field>, gs: seq<Field>, mask: seq<bool>, k: nat)
    requires Arranges(gs, mask, fs) && k < |gs| && mask[k]
    ensures gs[k] in fs
  {
    KeptMember(gs, mask, k);
    assert gs[k] in multiset(fs);
  }

  /**
   Reading any arrangement of fs whose other fields the reader skips gives what the fields fs mean, and consumes exactly
   the bytes of gs.
   */
  lemma ReadsAnyArrangement<T(!new)>(
      f: Switch<T>, g: Update<T>, p: T, fs: seq<Field>, gs: seq<Field>, mask: seq<bool>, rest: seq<byte>)
    requires AcceptsAll(f, g, fs)
    requires Commutes(g) && DistinctIds(fs) && Arranges(gs, mask, fs) && SkipsOthers(f, g, gs, mask)
    ensures ReadStruct(f, Enc(VStruct(gs)) + rest, p) == Good(Fold(g, p, fs), |Enc(VStruct(gs))|)
  {
    forall k | 0 <= k < |gs| ensures Accepts(f, g, gs[k]) {
      if mask[k] { ArrangedMember(fs, gs, mask, k); }
    }
    StructExact(f, g, gs, p, rest);
    ArrangedFold(g, p, fs, gs, mask);
  }
}
