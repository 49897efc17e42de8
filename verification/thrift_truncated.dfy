/**
 Truncated messages: a reader that accepts some bytes accepts them in the same way whatever follows, so that no strict
 prefix of a message can be read.
 */
module ThriftTruncated {
  import opened Prelude
  import opened ThriftWire
  import opened ThriftStruct
  import opened ThriftRecords
  import opened ThriftRoundTrip

  // What a read or a skip accepted does not depend on what follows.

  lemma SliceStays(b: seq<byte>, c: seq<byte>, i: nat, j: nat)
    requires i <= j <= |b|
    ensures (b + c)[i..j] == b[i..j] && (b + c)[j..] == b[j..] + c
  {
  }

  lemma PrimitivesStable(b: seq<byte>, c: seq<byte>)
    ensures ReadI32(b).Good? ==> ReadI32(b + c) == ReadI32(b)
    ensures ReadI64(b).Good? ==> ReadI64(b + c) == ReadI64(b)
    ensures ReadString(b).Good? ==> ReadString(b + c) == ReadString(b)
  {
    if |b| >= 4 { SliceStays(b, c, 0, 4); }
    if |b| >= 8 { SliceStays(b, c, 0, 8); }
    if ReadString(b).Good? { SliceStays(b, c, 4, ReadString(b).n); }
  }

  lemma HeadersStable(b: seq<byte>, c: seq<byte>)
    ensures ReadFieldBegin(b).Good? ==> ReadFieldBegin(b + c) == ReadFieldBegin(b)
    ensures ReadListBegin(b).Good? ==> ReadListBegin(b + c) == ReadListBegin(b)
    ensures ReadMapBegin(b).Good? ==> ReadMapBegin(b + c) == ReadMapBegin(b)
  {
    if |b| >= 3 { SliceStays(b, c, 1, 3); }
    if |b| >= 5 { SliceStays(b, c, 1, 5); }
    if |b| >= 6 { SliceStays(b, c, 2, 6); }
  }

  // One step of each skipping function, its parts given names.

  lemma SkipListUnfolds(b: seq<byte>, t: byte, et: byte, size: nat, body: seq<byte>)
    requires (t == LIST || t == SET) && ReadListBegin(b) == Good((et, size), 5) && b[5..] == body
    ensures Skip(b, t) == Plus(5, SkipElems(body, et, size))
  {
  }

  lemma SkipFieldsUnfolds(b: seq<byte>, t: byte, id: i16, mid: seq<byte>, n: nat, tail: seq<byte>)
    requires t != STOP && ReadFieldBegin(b) == Good((t, id), 3) && b[3..] == mid
    requires Skip(mid, t) == Some(n) && b[3 + n..] == tail
    ensures SkipFields(b) == Plus(3 + n, SkipFields(tail))
  {
  }

  lemma SkipElemsUnfolds(b: seq<byte>, t: byte, size: nat, n: nat, tail: seq<byte>)
    requires size > 0 && Skip(b, t) == Some(n) && b[n..] == tail
    ensures SkipElems(b, t, size) == Plus(n, SkipElems(tail, t, size - 1))
  {
  }

  lemma SkipEntriesUnfolds(b: seq<byte>, kt: byte, vt: byte, size: nat, n: nat, mid: seq<byte>, m: nat, tail: seq<byte>)
    requires size > 0 && Skip(b, kt) == Some(n) && b[n..] == mid
    requires Skip(mid, vt) == Some(m) && n + m <= |b| && b[n + m..] == tail
    ensures SkipEntries(b, kt, vt, size) == Plus(n + m, SkipEntries(tail, kt, vt, size - 1))
  {
  }

  lemma {:induction false} SkipStable(b: seq<byte>, c: seq<byte>, t: byte)
    requires Skip(b, t).Some?
    ensures Skip(b + c, t) == Skip(b, t)
    decreases |b|, 1, 0
  {
    if FixedSize(t) > 0 {
    } else if t == STRING {
      PrimitivesStable(b, c);
    } else if t == STRUCT {
      SkipFieldsStable(b, c);
    } else if t == LIST || t == SET {
      SkipListStable(b, c, t);
    } else {
      SkipMapStable(b, c);
    }
  }

  lemma {:induction false} SkipListStable(b: seq<byte>, c: seq<byte>, t: byte)
    requires (t == LIST || t == SET) && Skip(b, t).Some?
    ensures Skip(b + c, t) == Skip(b, t)
    decreases |b|, 0, 0
  {
    var (et, size) := ReadListBegin(b).val;
    var body := b[5..];
    HeadersStable(b, c);
    SliceStays(b, c, 5, 5);
    SkipListUnfolds(b, t, et, size, body);
    SkipListUnfolds(b + c, t, et, size, body + c);
    SkipElemsStable(body, c, et, size);
  }

  lemma {:induction false} SkipMapStable(b: seq<byte>, c: seq<byte>)
    requires Skip(b, MAP).Some?
    ensures Skip(b + c, MAP) == Skip(b, MAP)
    decreases |b|, 0, 0
  {
    var (kt, vt, size) := ReadMapBegin(b).val;
    var body := b[6..];
    HeadersStable(b, c);
    SliceStays(b, c, 6, 6);
    SkipMapUnfolds(b, kt, vt, size, body);
    SkipMapUnfolds(b + c, kt, vt, size, body + c);
    SkipEntriesStable(body, c, kt, vt, size);
  }

  lemma {:induction false} SkipFieldsStable(b: seq<byte>, c: seq<byte>)
    requires SkipFields(b).Some?
    ensures SkipFields(b + c) == SkipFields(b)
    decreases |b|, 0, 0
  {
    HeadersStable(b, c);
    var (t, id) := ReadFieldBegin(b).val;
    if t != STOP {
      var mid := b[3..];
      var n := Skip(mid, t).value;
      var tail := b[3 + n..];
      SliceStays(b, c, 3, 3);
      SliceStays(b, c, 3 + n, 3 + n);
      SkipFieldsUnfolds(b, t, id, mid, n, tail);
      SkipStable(mid, c, t);
      SkipFieldsUnfolds(b + c, t, id, mid + c, n, tail + c);
      SkipFieldsStable(tail, c);
    }
  }

  lemma {:induction false} SkipElemsStable(b: seq<byte>, c: seq<byte>, t: byte, size: nat)
    requires SkipElems(b, t, size).Some?
    ensures SkipElems(b + c, t, size) == SkipElems(b, t, size)
    decreases |b|, 2, size
  {
    if size > 0 {
      var n := Skip(b, t).value;
      var tail := b[n..];
      SliceStays(b, c, n, n);
      SkipElemsUnfolds(b, t, size, n, tail);
      SkipStable(b, c, t);
      SkipElemsUnfolds(b + c, t, size, n, tail + c);
      SkipElemsStable(tail, c, t, size - 1);
    }
  }

  lemma {:induction false} SkipEntriesStable(b: seq<byte>, c: seq<byte>, kt: byte, vt: byte, size: nat)
    requires SkipEntries(b, kt, vt, size).Some?
    ensures SkipEntries(b + c, kt, vt, size) == SkipEntries(b, kt, vt, size)
    decreases |b|, 2, size
  {
    if size > 0 {
      var n := Skip(b, kt).value;
      var mid := b[n..];
      var m := Skip(mid, vt).value;
      var tail := b[n + m..];
      SliceStays(b, c, n, n);
      SliceStays(b, c, n + m, n + m);
      SkipEntriesUnfolds(b, kt, vt, size, n, mid, m, tail);
      SkipStable(b, c, kt);
      SkipStable(mid, c, vt);
      SkipEntriesUnfolds(b + c, kt, vt, size, n, mid + c, m, tail + c);
      SkipEntriesStable(tail, c, kt, vt, size - 1);
    }
  }

  // The same for the read loop of a struct and for lists of structs, if it holds of the switch.

  ghost predicate Stable<T(!new)>(f: Switch<T>) {
    forall p: T, t, id, b, c {:trigger f(p, t, id, b + c)} :: StableAt(f, p, t, id, b, c)
  }

  ghost predicate StableAt<T>(f: Switch<T>, p: T, t: byte, id: i16, b: seq<byte>, c: seq<byte>) {
    f(p, t, id, b).Good? ==> f(p, t, id, b + c) == f(p, t, id, b)
  }

  lemma {:induction false} ReadStructStable<T(!new)>(f: Switch<T>, b: seq<byte>, c: seq<byte>, p: T)
    requires Stable(f) && ReadStruct(f, b, p).Good?
    ensures ReadStruct(f, b + c, p) == ReadStruct(f, b, p)
    decreases |b|
  {
    HeadersStable(b, c);
    var ((t, id), l) := (ReadFieldBegin(b).val, ReadFieldBegin(b).n);
    if t != STOP {
      SliceStays(b, c, l, l);
      var r := f(p, t, id, b[l..]);
      assert StableAt(f, p, t, id, b[l..], c) && f(p, t, id, b[l..] + c) == r;
      SliceStays(b, c, l + r.n, l + r.n);
      ReadStructStable(f, b[l + r.n..], c, r.val);
    }
  }

  lemma {:induction false} ReadStructsStable<T(!new)>(f: Switch<T>, zero: T, b: seq<byte>, c: seq<byte>, size: nat)
    requires Stable(f) && ReadStructs(f, zero, b, size).Good?
    ensures ReadStructs(f, zero, b + c, size) == ReadStructs(f, zero, b, size)
    decreases size
  {
    if size > 0 {
      ReadStructStable(f, b, c, zero);
      var n := ReadStruct(f, b, zero).n;
      SliceStays(b, c, n, n);
      ReadStructsStable(f, zero, b[n..], c, size - 1);
    }
  }

  lemma ReadStructListStable<T(!new)>(f: Switch<T>, zero: T, b: seq<byte>, c: seq<byte>)
    requires Stable(f) && ReadStructList(f, zero, b).Good?
    ensures ReadStructList(f, zero, b + c) == ReadStructList(f, zero, b)
  {
    HeadersStable(b, c);
    var l := ReadListBegin(b).n;
    SliceStays(b, c, l, l);
    ReadStructsStable(f, zero, b[l..], c, ReadListBegin(b).val.1);
  }

  lemma {:induction false} ReadI64sStable(b: seq<byte>, c: seq<byte>, size: nat)
    requires ReadI64s(b, size).Good?
    ensures ReadI64s(b + c, size) == ReadI64s(b, size)
    decreases size
  {
    if size > 0 {
      PrimitivesStable(b, c);
      SliceStays(b, c, 8, 8);
      ReadI64sStable(b[8..], c, size - 1);
    }
  }

  lemma ReadI64ListStable(b: seq<byte>, c: seq<byte>)
    requires ReadI64List(b).Good?
    ensures ReadI64List(b + c) == ReadI64List(b)
  {
    HeadersStable(b, c);
    SliceStays(b, c, 5, 5);
    ReadI64sStable(b[5..], c, ReadListBegin(b).val.1);
  }

  /** A message that is read to its last byte cannot be read with bytes missing at its end. */
  lemma StrictPrefixFails<T(!new)>(f: Switch<T>, p: T, b: seq<byte>, cut: nat)
    requires Stable(f) && ReadStruct(f, b + [], p).Good? && ReadStruct(f, b + [], p).n == |b| && cut < |b|
    ensures ReadStruct(f, b[..cut], p) == Bad
  {
    assert b[..cut] + b[cut..] == b + [];
    assert ReadStruct(f, b[..cut], p).Good? ==> ReadStruct(f, b[..cut] + b[cut..], p) == ReadStruct(f, b[..cut], p) by {
      if ReadStruct(f, b[..cut], p).Good? { ReadStructStable(f, b[..cut], b[cut..], p); }
    }
  }

  // The records.

  lemma BaseStable()
    ensures Stable(BaseSwitch)
  {
    forall p: BaseResponse, t, id, b, c ensures StableAt(BaseSwitch, p, t, id, b, c) {
      PrimitivesStable(b, c);
      if Skip(b, t).Some? { SkipStable(b, c, t); }
    }
  }

  lemma ItemStable()
    ensures Stable(ItemSwitch)
  {
    forall p: OrderItem, t, id, b, c ensures StableAt(ItemSwitch, p, t, id, b, c) {
      PrimitivesStable(b, c);
      if Skip(b, t).Some? { SkipStable(b, c, t); }
    }
  }

  lemma OrderStable()
    ensures Stable(OrderSwitch)
  {
    ItemStable();
    forall p: Order, t, id, b, c ensures StableAt(OrderSwitch, p, t, id, b, c) {
      PrimitivesStable(b, c);
      if Skip(b, t).Some? { SkipStable(b, c, t); }
      if ReadStructList(ItemSwitch, ZERO_ITEM, b).Good? { ReadStructListStable(ItemSwitch, ZERO_ITEM, b, c); }
    }
  }

  lemma ListStable()
    ensures Stable(ListSwitch)
  {
    BaseStable();
    OrderStable();
    forall p: ListOrdersResponse, t, id, b, c ensures StableAt(ListSwitch, p, t, id, b, c) {
      PrimitivesStable(b, c);
      if Skip(b, t).Some? { SkipStable(b, c, t); }
      if ReadStructList(OrderSwitch, ZERO_ORDER, b).Good? { ReadStructListStable(OrderSwitch, ZERO_ORDER, b, c); }
      if ReadStruct(BaseSwitch, b, ZERO_BASE).Good? { ReadStructStable(BaseSwitch, b, c, ZERO_BASE); }
    }
  }

  lemma CloseStable()
    ensures Stable(CloseSwitch)
  {
    BaseStable();
    forall p: CloseExpiredOrdersResponse, t, id, b, c ensures StableAt(CloseSwitch, p, t, id, b, c) {
      PrimitivesStable(b, c);
      if Skip(b, t).Some? { SkipStable(b, c, t); }
      if ReadI64List(b).Good? { ReadI64ListStable(b, c); }
      if ReadStruct(BaseSwitch, b, ZERO_BASE).Good? { ReadStructStable(BaseSwitch, b, c, ZERO_BASE); }
    }
  }

  lemma ConfirmStable()
    ensures Stable(ConfirmSwitch)
  {
    forall p: ConfirmOrderPaidRequest, t, id, b, c ensures StableAt(ConfirmSwitch, p, t, id, b, c) {
      PrimitivesStable(b, c);
      if Skip(b, t).Some? { SkipStable(b, c, t); }
    }
  }

  /** What the writers emit fails to read when cut anywhere before its end. */
  lemma BaseTruncated(p: BaseResponse, cut: nat)
    requires BaseFits(Some(p)) && cut < |Enc(VStruct(BaseFields(p)))|
    ensures ReadStruct(BaseSwitch, Enc(VStruct(BaseFields(p)))[..cut], ZERO_BASE) == Bad
  {
    BaseStable();
    BaseRoundTrip(p, []);
    StrictPrefixFails(BaseSwitch, ZERO_BASE, Enc(VStruct(BaseFields(p))), cut);
  }

  lemma ItemTruncated(p: OrderItem, cut: nat)
    requires ItemFits(Some(p)) && cut < |Enc(VStruct(ItemFields(p)))|
    ensures ReadStruct(ItemSwitch, Enc(VStruct(ItemFields(p)))[..cut], ZERO_ITEM) == Bad
  {
    ItemStable();
    ItemRoundTrip(p, []);
    StrictPrefixFails(ItemSwitch, ZERO_ITEM, Enc(VStruct(ItemFields(p))), cut);
  }

  lemma OrderTruncated(p: Order, cut: nat)
    requires OrderFits(Some(p)) && cut < |Enc(VStruct(OrderFields(p)))|
    ensures ReadStruct(OrderSwitch, Enc(VStruct(OrderFields(p)))[..cut], ZERO_ORDER) == Bad
  {
    OrderStable();
    OrderRoundTrip(p, []);
    StrictPrefixFails(OrderSwitch, ZERO_ORDER, Enc(VStruct(OrderFields(p))), cut);
  }

  lemma ListTruncated(p: ListOrdersResponse, cut: nat)
    requires ListFits(p) && cut < |Enc(VStruct(ListFields(p)))|
    ensures ReadStruct(ListSwitch, Enc(VStruct(ListFields(p)))[..cut], ZERO_LIST) == Bad
  {
    ListStable();
    ListRoundTrip(p, []);
    StrictPrefixFails(ListSwitch, ZERO_LIST, Enc(VStruct(ListFields(p))), cut);
  }

  lemma CloseTruncated(p: CloseExpiredOrdersResponse, cut: nat)
    requires CloseFits(p) && cut < |Enc(VStruct(CloseFields(p)))|
    ensures ReadStruct(CloseSwitch, Enc(VStruct(CloseFields(p)))[..cut], ZERO_CLOSE) == Bad
  {
    CloseStable();
    CloseRoundTrip(p, []);
    StrictPrefixFails(CloseSwitch, ZERO_CLOSE, Enc(VStruct(CloseFields(p))), cut);
  }

  lemma ConfirmTruncated(p: ConfirmOrderPaidRequest, cut: nat)
    requires ConfirmFits(p) && cut < |Enc(VStruct(ConfirmFields(p)))|
    ensures ReadStruct(ConfirmSwitch, Enc(VStruct(ConfirmFields(p)))[..cut], ZERO_CONFIRM) == Bad
  {
    ConfirmStable();
    ConfirmRoundTrip(p, []);
    StrictPrefixFails(ConfirmSwitch, ZERO_CONFIRM, Enc(VStruct(ConfirmFields(p))), cut);
  }
}
