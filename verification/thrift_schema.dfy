/**
 Which field stands under which id (idl/order.thrift, idl/base.thrift), on bytes: what a peer finds in a written struct by
 walking over its field headers, and what a single field with literal header bytes does to a struct that is being read.
 Wire types and ids are numbers here, so that nothing depends on how the records are encoded or decoded.
 */
module ThriftSchema {
  import opened Prelude
  import opened ThriftWire
  import opened ThriftStruct
  import opened ThriftBuffer
  import opened ThriftRecords
  import opened ThriftRoundTrip

  // Finding a field by its id, with nothing but header reads and skips.

  datatype Found = Found(t: byte, bytes: seq<byte>)

  /** The wire type of the first field with this id, and the bytes from its value on. */
  function FindField(b: seq<byte>, id: i16): Option<Found>
    decreases |b|
  {
    match ReadFieldBegin(b)
    case Bad => None
    case Good((t, x), l) =>
      if t == 0 then None
      else if x == id then Some(Found(t, b[l..]))
      else
        match Skip(b[l..], t)
        case None => None
        case Some(n) => FindField(b[l + n..], id)
  }

  /** What is left after k structs. */
  function AfterStructs(b: seq<byte>, k: nat): Option<seq<byte>>
    decreases k
  {
    if k == 0 then Some(b) else
      match SkipFields(b)
      case None => None
      case Some(n) => AfterStructs(b[n..], k - 1)
  }

  ghost predicate HasI32(b: seq<byte>, id: i16, v: i32) {
    match FindField(b, id) case None => false case Some(f) => f.t == 8 && ReadI32(f.bytes) == Good(v, 4)
  }

  ghost predicate HasI64(b: seq<byte>, id: i16, v: i64) {
    match FindField(b, id) case None => false case Some(f) => f.t == 10 && ReadI64(f.bytes) == Good(v, 8)
  }

  ghost predicate HasString(b: seq<byte>, id: i16, s: Str) {
    match FindField(b, id) case None => false case Some(f) => f.t == 11 && ReadString(f.bytes) == Good(s, 4 + |s|)
  }

  /** A list field: element type, size, and where its elements begin. */
  ghost predicate HasList(b: seq<byte>, id: i16, et: byte, size: nat, elems: seq<byte>) {
    match FindField(b, id)
    case None => false
    case Some(f) => f.t == 15 && ReadListBegin(f.bytes) == Good((et, size), 5) && f.bytes[5..] == elems
  }

  // Field headers in front of the one that is looked for.

  lemma FindHere(f: Field, tail: seq<byte>)
    ensures FindField(EncField(f) + tail, f.id) == Some(Found(TypeOf(f.value), Enc(f.value) + tail))
  {
    FieldBeginExact(f, tail);
  }

  lemma FindBehind(f: Field, tail: seq<byte>, id: i16)
    requires FieldOk(f) && f.id != id
    ensures FindField(EncField(f) + tail, id) == FindField(tail, id)
  {
    FieldBeginExact(f, tail);
    SkipFieldValue(f, tail);
    Cut(EncField(f), tail);
  }

  lemma {:induction false} FindsField(fs: seq<Field>, k: nat, rest: seq<byte>, b: seq<byte>) returns (tail: seq<byte>)
    requires k < |fs| && b == EncFields(fs) + rest
    requires forall i :: 0 <= i < k ==> FieldOk(fs[i]) && fs[i].id != fs[k].id
    ensures FindField(b, fs[k].id) == Some(Found(TypeOf(fs[k].value), Enc(fs[k].value) + tail))
    decreases k
  {
    EncFieldsCons(fs, rest);
    tail := EncFields(fs[1..]) + rest;
    if k == 0 {
      FindHere(fs[0], tail);
    } else {
      FindBehind(fs[0], tail, fs[k].id);
      tail := FindsField(fs[1..], k - 1, rest, tail);
    }
  }

  lemma {:induction false} FindsNothing(fs: seq<Field>, id: i16, rest: seq<byte>, b: seq<byte>)
    requires b == EncFields(fs) + ([STOP] + rest)
    requires forall i :: 0 <= i < |fs| ==> FieldOk(fs[i]) && fs[i].id != id
    ensures FindField(b, id) == None
    decreases |fs|
  {
    if fs == [] {
      assert b == [STOP] + rest;
    } else {
      var tail := EncFields(fs[1..]) + ([STOP] + rest);
      EncFieldsCons(fs, [STOP] + rest);
      FindBehind(fs[0], tail, id);
      FindsNothing(fs[1..], id, rest, tail);
    }
  }

  /** In an encoded struct whose ids differ, every field is found. */
  lemma FindsInStruct(fs: seq<Field>, k: nat, rest: seq<byte>) returns (tail: seq<byte>)
    requires WellFormed(VStruct(fs)) && DistinctIds(fs) && k < |fs|
    ensures FindField(Enc(VStruct(fs)) + rest, fs[k].id) == Some(Found(TypeOf(fs[k].value), Enc(fs[k].value) + tail))
  {
    AppendAssociates(EncFields(fs), [STOP], rest);
    tail := FindsField(fs, k, [STOP] + rest, Enc(VStruct(fs)) + rest);
  }

  lemma FindsI32(fs: seq<Field>, k: nat, rest: seq<byte>, v: i32)
    requires WellFormed(VStruct(fs)) && DistinctIds(fs) && k < |fs| && fs[k].value == VI32(v)
    ensures HasI32(Enc(VStruct(fs)) + rest, fs[k].id, v)
  {
    var tail := FindsInStruct(fs, k, rest);
    I32Exact(v, tail);
  }

  lemma FindsI64(fs: seq<Field>, k: nat, rest: seq<byte>, v: i64)
    requires WellFormed(VStruct(fs)) && DistinctIds(fs) && k < |fs| && fs[k].value == VI64(v)
    ensures HasI64(Enc(VStruct(fs)) + rest, fs[k].id, v)
  {
    var tail := FindsInStruct(fs, k, rest);
    I64Exact(v, tail);
  }

  lemma {:induction false} FindsString(fs: seq<Field>, k: nat, rest: seq<byte>, s: Str)
    requires WellFormed(VStruct(fs)) && DistinctIds(fs) && k < |fs| && fs[k].value == VString(s)
    ensures HasString(Enc(VStruct(fs)) + rest, fs[k].id, s)
  {
    var tail := FindsInStruct(fs, k, rest);
    assert FieldOk(fs[k]) && WellFormed(VString(s));
    StringExact(s, tail);
  }

  lemma {:induction false} FindsList(fs: seq<Field>, k: nat, rest: seq<byte>, et: byte,
        es: seq<Value>) returns (tail: seq<byte>)
    requires WellFormed(VStruct(fs)) && DistinctIds(fs) && k < |fs| && fs[k].value == VList(et, es)
    ensures HasList(Enc(VStruct(fs)) + rest, fs[k].id, et, |es|, EncElems(es) + tail)
  {
    tail := FindsInStruct(fs, k, rest);
    assert FieldOk(fs[k]) && WellFormed(VList(et, es));
    AppendAssociates([et] + Word(|es|, 4), EncElems(es), tail);
    ListBeginExact(et, |es|, EncElems(es) + tail);
  }

  lemma {:induction false} FirstStruct(v: Value, tail: seq<byte>, k: nat)
    requires ElemOk(STRUCT, v) && k > 0
    ensures AfterStructs(Enc(v) + tail, k) == AfterStructs(tail, k - 1)
  {
    SkipExact(v, tail);
    Cut(Enc(v), tail);
  }

  /** The k-th of several encoded structs, and what follows it. */
  lemma {:induction false} StructsBefore(es: seq<Value>, k: nat, rest: seq<byte>, b: seq<byte>) returns (tail: seq<byte>)
    requires k < |es| && b == EncElems(es) + rest
    requires forall i :: 0 <= i < |es| ==> ElemOk(STRUCT, es[i])
    ensures AfterStructs(b, k) == Some(Enc(es[k]) + tail)
    decreases k
  {
    EncElemsCons(es, rest);
    tail := EncElems(es[1..]) + rest;
    if k > 0 {
      assert ElemOk(STRUCT, es[0]);
      FirstStruct(es[0], tail, k);
      tail := StructsBefore(es[1..], k - 1, rest, tail);
    }
  }

  // What the writers' bytes say.

  ghost predicate BaseOnWire(b: seq<byte>, p: BaseResponse) {
    HasI32(b, 1, p.code) && HasString(b, 2, p.message)
  }

  ghost predicate ItemOnWire(b: seq<byte>, p: OrderItem) {
    && HasI64(b, 1, p.itemId) && HasI64(b, 2, p.orderId) && HasI64(b, 3, p.productId) && HasI64(b, 4, p.skuId)
    && HasString(b, 5, p.productTitleSnapshot) && HasString(b, 6, p.skuTitleSnapshot)
    && HasI64(b, 7, p.salePriceSnapshot) && HasI32(b, 8, p.quantity) && HasI64(b, 9, p.subtotalAmount)
  }

  /** A nil pointer leaves nothing but a stop byte. */
  ghost predicate Empty(b: seq<byte>) {
    b != [] && b[0] == 0
  }

  ghost predicate ItemsOnWire(b: seq<byte>, ps: seq<Option<OrderItem>>) {
    forall k :: 0 <= k < |ps| ==> ItemAt(AfterStructs(b, k), ps[k])
  }

  ghost predicate ItemAt(b: Option<seq<byte>>, p: Option<OrderItem>) {
    b.Some? && if p.None? then Empty(b.value) else ItemOnWire(b.value, p.value)
  }

  ghost predicate OrderOnWire(b: seq<byte>, p: Order) {
    && HasI64(b, 1, p.orderId) && HasI64(b, 2, p.userId) && HasI32(b, 3, p.status) && HasI64(b, 4, p.totalAmount)
    && HasI64(b, 5, p.payAmount) && HasI64(b, 6, p.expireAt)
    && (exists elems :: HasList(b, 7, 12, |Elems(p.items)|, elems) && ItemsOnWire(elems, Elems(p.items)))
    && HasString(b, 8, p.cancelReason) && HasString(b, 9, p.paymentId) && HasI64(b, 10, p.paidAt)
    && HasString(b, 11, p.paymentMethod) && HasString(b, 12, p.paymentTradeNo)
  }

  ghost predicate OrdersOnWire(b: seq<byte>, ps: seq<Option<Order>>) {
    forall k :: 0 <= k < |ps| ==> OrderAt(AfterStructs(b, k), ps[k])
  }

  ghost predicate OrderAt(b: Option<seq<byte>>, p: Option<Order>) {
    b.Some? && if p.None? then Empty(b.value) else OrderOnWire(b.value, p.value)
  }

  ghost predicate HasBase(b: seq<byte>, p: Option<BaseResponse>) {
    match FindField(b, 255)
    case None => false
    case Some(f) => f.t == 12 && if p.None? then Empty(f.bytes) else BaseOnWire(f.bytes, p.value)
  }

  ghost predicate ListOnWire(b: seq<byte>, p: ListOrdersResponse) {
    && (exists elems :: HasList(b, 1, 12, |Elems(p.orders)|, elems) && OrdersOnWire(elems, Elems(p.orders)))
    && HasI64(b, 2, p.total) && HasBase(b, p.base)
  }

  ghost predicate IdsOnWire(b: seq<byte>, ids: seq<i64>) {
    |b| >= 8 * |ids| && forall k :: 0 <= k < |ids| ==> ReadI64(b[8 * k..]) == Good(ids[k], 8)
  }

  ghost predicate CloseOnWire(b: seq<byte>, p: CloseExpiredOrdersResponse) {
    && HasI32(b, 1, p.closedCount)
    && (exists elems :: HasList(b, 2, 10, |Elems(p.orderIds)|, elems) && IdsOnWire(elems, Elems(p.orderIds)))
    && HasBase(b, p.base)
  }

  /** An optional field is there when it is set, and only then. */
  ghost predicate HasOptional(b: seq<byte>, id: i16, s: Option<Str>) {
    if s.None? then FindField(b, id) == None else HasString(b, id, s.value)
  }

  ghost predicate ConfirmOnWire(b: seq<byte>, p: ConfirmOrderPaidRequest) {
    && HasI64(b, 1, p.orderId) && HasString(b, 2, p.paymentId)
    && HasOptional(b, 3, p.requestId) && HasOptional(b, 4, p.paymentMethod) && HasOptional(b, 5, p.paymentTradeNo)
    && if p.paidAt.None? then FindField(b, 6) == None else HasI64(b, 6, p.paidAt.value)
  }

  lemma WrittenWellFormed(fs: seq<Field>)
    requires forall k :: 0 <= k < |fs| ==> WellFormed(fs[k].value)
    ensures WellFormed(VStruct(fs))
  {
    forall k | 0 <= k < |fs| ensures FieldOk(fs[k]) {
    }
  }

  lemma BaseWrites(p: BaseResponse, rest: seq<byte>)
    requires BaseFits(Some(p))
    ensures BaseOnWire(Enc(VStruct(BaseFields(p))) + rest, p)
  {
    var fs := BaseFields(p);
    BaseWritten(p);
    WrittenWellFormed(fs);
    FindsI32(fs, 0, rest, p.code);
    FindsString(fs, 1, rest, p.message);
  }

  lemma ItemWrites(p: OrderItem, rest: seq<byte>)
    requires ItemFits(Some(p))
    ensures ItemOnWire(Enc(VStruct(ItemFields(p))) + rest, p)
  {
    var fs := ItemFields(p);
    ItemWritten(p);
    WrittenWellFormed(fs);
    ItemWritesIds(p, fs, rest);
    ItemWritesRest(p, fs, rest);
  }

  lemma ItemWritesIds(p: OrderItem, fs: seq<Field>, rest: seq<byte>)
    requires fs == ItemFields(p) && WellFormed(VStruct(fs)) && DistinctIds(fs)
    ensures var b := Enc(VStruct(fs)) + rest;
      HasI64(b, 1, p.itemId) && HasI64(b, 2, p.orderId) && HasI64(b, 3, p.productId) && HasI64(b, 4, p.skuId)
  {
    FindsI64(fs, 0, rest, p.itemId);
    FindsI64(fs, 1, rest, p.orderId);
    FindsI64(fs, 2, rest, p.productId);
    FindsI64(fs, 3, rest, p.skuId);
  }

  lemma ItemWritesRest(p: OrderItem, fs: seq<Field>, rest: seq<byte>)
    requires fs == ItemFields(p) && WellFormed(VStruct(fs)) && DistinctIds(fs)
    ensures var b := Enc(VStruct(fs)) + rest;
      && HasString(b, 5, p.productTitleSnapshot) && HasString(b, 6, p.skuTitleSnapshot)
      && HasI64(b, 7, p.salePriceSnapshot) && HasI32(b, 8, p.quantity) && HasI64(b, 9, p.subtotalAmount)
  {
    FindsI64(fs, 4, rest, p.salePriceSnapshot);
    FindsI32(fs, 5, rest, p.quantity);
    FindsI64(fs, 6, rest, p.subtotalAmount);
    FindsString(fs, 7, rest, p.productTitleSnapshot);
    FindsString(fs, 8, rest, p.skuTitleSnapshot);
  }

  lemma NilIsEmpty(rest: seq<byte>)
    ensures Empty(Enc(VStruct([])) + rest)
  {
  }

  lemma {:induction false} ItemsWrite(ps: seq<Option<OrderItem>>, rest: seq<byte>)
    requires forall i :: i in ps ==> ItemFits(i)
    ensures ItemsOnWire(EncElems(ItemValues(ps)) + rest, ps)
  {
    var es := ItemValues(ps);
    forall k | 0 <= k < |es| ensures ElemOk(STRUCT, es[k]) {
      assert ps[k] in ps;
      ItemValueTaken(ps[k]);
    }
    forall k | 0 <= k < |ps| ensures ItemAt(AfterStructs(EncElems(es) + rest, k), ps[k]) {
      var tail := StructsBefore(es, k, rest, EncElems(es) + rest);
      assert ps[k] in ps && es[k] == ItemValue(ps[k]);
      if ps[k].None? { NilIsEmpty(tail); } else { ItemWrites(ps[k].value, tail); }
    }
  }

  lemma OrderWrites(p: Order, rest: seq<byte>)
    requires OrderFits(Some(p))
    ensures OrderOnWire(Enc(VStruct(OrderFields(p))) + rest, p)
  {
    var fs := OrderFields(p);
    OrderWritten(p);
    OrderFieldsTaken(p);
    assert forall k :: 0 <= k < |fs| ==> OrderTakes(fs[k]);
    WrittenWellFormed(fs);
    OrderWritesNumbers(p, fs, rest);
    OrderWritesAmounts(p, fs, rest);
    OrderWritesTexts(p, fs, rest);
    OrderWritesItems(p, fs, rest);
  }

  lemma OrderWritesItems(p: Order, fs: seq<Field>, rest: seq<byte>)
    requires fs == OrderFields(p) && OrderFits(Some(p)) && WellFormed(VStruct(fs)) && DistinctIds(fs)
    ensures exists elems ::
      HasList(Enc(VStruct(fs)) + rest, 7, 12, |Elems(p.items)|, elems) && ItemsOnWire(elems, Elems(p.items))
  {
    var es := ItemValues(Elems(p.items));
    var tail := FindsList(fs, 7, rest, STRUCT, es);
    ItemsWrite(Elems(p.items), tail);
  }

  lemma OrderWritesNumbers(p: Order, fs: seq<Field>, rest: seq<byte>)
    requires fs == OrderFields(p) && WellFormed(VStruct(fs)) && DistinctIds(fs)
    ensures var b := Enc(VStruct(fs)) + rest;
      HasI64(b, 1, p.orderId) && HasI64(b, 2, p.userId) && HasI32(b, 3, p.status) && HasI64(b, 10, p.paidAt)
  {
    FindsI64(fs, 0, rest, p.orderId);
    FindsI64(fs, 1, rest, p.userId);
    FindsI32(fs, 2, rest, p.status);
    FindsI64(fs, 6, rest, p.paidAt);
  }

  lemma OrderWritesAmounts(p: Order, fs: seq<Field>, rest: seq<byte>)
    requires fs == OrderFields(p) && WellFormed(VStruct(fs)) && DistinctIds(fs)
    ensures var b := Enc(VStruct(fs)) + rest;
      HasI64(b, 4, p.totalAmount) && HasI64(b, 5, p.payAmount) && HasI64(b, 6, p.expireAt)
  {
    FindsI64(fs, 3, rest, p.totalAmount);
    FindsI64(fs, 4, rest, p.payAmount);
    FindsI64(fs, 5, rest, p.expireAt);
  }

  lemma OrderWritesTexts(p: Order, fs: seq<Field>, rest: seq<byte>)
    requires fs == OrderFields(p) && WellFormed(VStruct(fs)) && DistinctIds(fs)
    ensures var b := Enc(VStruct(fs)) + rest;
      && HasString(b, 8, p.cancelReason) && HasString(b, 9, p.paymentId)
      && HasString(b, 11, p.paymentMethod) && HasString(b, 12, p.paymentTradeNo)
  {
    FindsString(fs, 8, rest, p.cancelReason);
    FindsString(fs, 9, rest, p.paymentId);
    FindsString(fs, 10, rest, p.paymentMethod);
    FindsString(fs, 11, rest, p.paymentTradeNo);
  }

  lemma {:induction false} OrdersWrite(ps: seq<Option<Order>>, rest: seq<byte>)
    requires forall o :: o in ps ==> OrderFits(o)
    ensures OrdersOnWire(EncElems(OrderValues(ps)) + rest, ps)
  {
    var es := OrderValues(ps);
    forall k | 0 <= k < |es| ensures ElemOk(STRUCT, es[k]) {
      assert ps[k] in ps;
      OrderValueTaken(ps[k]);
    }
    forall k | 0 <= k < |ps| ensures OrderAt(AfterStructs(EncElems(es) + rest, k), ps[k]) {
      var tail := StructsBefore(es, k, rest, EncElems(es) + rest);
      assert ps[k] in ps && es[k] == OrderValue(ps[k]);
      if ps[k].None? { NilIsEmpty(tail); } else { OrderWrites(ps[k].value, tail); }
    }
  }

  lemma BaseFieldWrites(fs: seq<Field>, k: nat, rest: seq<byte>, p: Option<BaseResponse>)
    requires WellFormed(VStruct(fs)) && DistinctIds(fs) && k < |fs| && fs[k] == Field(255, BaseValue(p)) && BaseFits(p)
    ensures HasBase(Enc(VStruct(fs)) + rest, p)
  {
    var tail := FindsInStruct(fs, k, rest);
    if p.None? { NilIsEmpty(tail); } else { BaseWrites(p.value, tail); }
  }

  lemma ListWrites(p: ListOrdersResponse, rest: seq<byte>)
    requires ListFits(p)
    ensures ListOnWire(Enc(VStruct(ListFields(p))) + rest, p)
  {
    var fs := ListFields(p);
    ListWritten(p);
    ListFieldsTaken(p);
    assert forall k :: 0 <= k < |fs| ==> ListTakes(fs[k]);
    WrittenWellFormed(fs);
    FindsI64(fs, 0, rest, p.total);
    var tail := FindsList(fs, 1, rest, STRUCT, OrderValues(Elems(p.orders)));
    OrdersWrite(Elems(p.orders), tail);
    BaseFieldWrites(fs, 2, rest, p.base);
  }

  lemma {:induction false} IdsWrite(ids: seq<i64>, rest: seq<byte>, b: seq<byte>)
    requires b == EncElems(I64Values(ids)) + rest
    ensures IdsOnWire(b, ids)
    decreases |ids|
  {
    if ids != [] {
      var es := I64Values(ids);
      var tail := EncElems(I64Values(ids[1..])) + rest;
      assert es[1..] == I64Values(ids[1..]);
      EncElemsCons(es, rest);
      I64Exact(ids[0], tail);
      Cut(Enc(es[0]), tail);
      IdsWrite(ids[1..], rest, tail);
      forall k | 0 <= k < |ids| ensures ReadI64(b[8 * k..]) == Good(ids[k], 8) {
        if k > 0 { assert b[8 * k..] == tail[8 * (k - 1)..]; } else { assert b[0..] == b; }
      }
    }
  }

  lemma CloseWrites(p: CloseExpiredOrdersResponse, rest: seq<byte>)
    requires CloseFits(p)
    ensures CloseOnWire(Enc(VStruct(CloseFields(p))) + rest, p)
  {
    var fs := CloseFields(p);
    CloseWritten(p);
    CloseFieldsTaken(p);
    assert forall k :: 0 <= k < |fs| ==> CloseTakes(fs[k]);
    WrittenWellFormed(fs);
    FindsI32(fs, 0, rest, p.closedCount);
    var es := I64Values(Elems(p.orderIds));
    var tail := FindsList(fs, 1, rest, I64, es);
    IdsWrite(Elems(p.orderIds), tail, EncElems(es) + tail);
    BaseFieldWrites(fs, 2, rest, p.base);
  }

  /** A set field stands somewhere in the struct, the id of an unset one nowhere. */
  ghost predicate Occurs(fs: seq<Field>, id: i16, v: Option<Value>) {
    if v.None? then forall i :: 0 <= i < |fs| ==> fs[i].id != id else Field(id, v.value) in fs
  }

  function TextOf(s: Option<Str>): Option<Value> {
    if s.None? then None else Some(VString(s.value))
  }

  function NumberOf(n: Option<i64>): Option<Value> {
    if n.None? then None else Some(VI64(n.value))
  }

  lemma {:induction false} OptionalWrites(fs: seq<Field>, id: i16, s: Option<Str>, rest: seq<byte>)
    requires WellFormed(VStruct(fs)) && DistinctIds(fs) && Occurs(fs, id, TextOf(s))
    ensures HasOptional(Enc(VStruct(fs)) + rest, id, s)
  {
    if s.None? {
      NotInStruct(fs, id, rest);
    } else {
      var k :| 0 <= k < |fs| && fs[k] == Field(id, VString(s.value));
      FindsString(fs, k, rest, s.value);
    }
  }

  lemma NotInStruct(fs: seq<Field>, id: i16, rest: seq<byte>)
    requires WellFormed(VStruct(fs)) && forall i :: 0 <= i < |fs| ==> fs[i].id != id
    ensures FindField(Enc(VStruct(fs)) + rest, id) == None
  {
    AppendAssociates(EncFields(fs), [STOP], rest);
    FindsNothing(fs, id, rest, Enc(VStruct(fs)) + rest);
  }

  lemma ConfirmFieldsPresent(p: ConfirmOrderPaidRequest, fs: seq<Field>)
    requires fs == ConfirmFields(p)
    ensures Field(1, VI64(p.orderId)) in fs && Field(2, VString(p.paymentId)) in fs
    ensures Occurs(fs, 6, NumberOf(p.paidAt))
  {
  }

  lemma ConfirmTextsPresent(p: ConfirmOrderPaidRequest, fs: seq<Field>)
    requires fs == ConfirmFields(p)
    ensures Occurs(fs, 3, TextOf(p.requestId)) && Occurs(fs, 4, TextOf(p.paymentMethod))
    ensures Occurs(fs, 5, TextOf(p.paymentTradeNo))
  {
  }

  lemma ConfirmWrites(p: ConfirmOrderPaidRequest, rest: seq<byte>)
    requires ConfirmFits(p)
    ensures ConfirmOnWire(Enc(VStruct(ConfirmFields(p))) + rest, p)
  {
    var fs := ConfirmFields(p);
    ConfirmWritten(p);
    WrittenWellFormed(fs);
    ConfirmWritesFields(p, fs, rest);
  }

  lemma ConfirmWritesFields(p: ConfirmOrderPaidRequest, fs: seq<Field>, rest: seq<byte>)
    requires fs == ConfirmFields(p) && WellFormed(VStruct(fs)) && DistinctIds(fs)
    ensures ConfirmOnWire(Enc(VStruct(fs)) + rest, p)
  {
    ConfirmFieldsPresent(p, fs);
    ConfirmTextsPresent(p, fs);
    var i :| 0 <= i < |fs| && fs[i] == Field(1, VI64(p.orderId));
    FindsI64(fs, i, rest, p.orderId);
    var j :| 0 <= j < |fs| && fs[j] == Field(2, VString(p.paymentId));
    FindsString(fs, j, rest, p.paymentId);
    OptionalWrites(fs, 3, p.requestId, rest);
    OptionalWrites(fs, 4, p.paymentMethod, rest);
    OptionalWrites(fs, 5, p.paymentTradeNo, rest);
    if p.paidAt.None? {
      NotInStruct(fs, 6, rest);
    } else {
      var k :| 0 <= k < |fs| && fs[k] == Field(6, VI64(p.paidAt.value));
      FindsI64(fs, k, rest, p.paidAt.value);
    }
  }

  // What a single field does to a struct that is being read.

  /** A struct of one field, given by its bytes, whatever follows: it turns p into q and takes its own length. */
  ghost predicate ReadsAs<T(!new)>(f: Switch<T>, p: T, head: seq<byte>, value: seq<byte>, rest: seq<byte>, q: T) {
    ReadStruct(f, head + value + [0] + rest, p) == Good(q, |head| + |value| + 1)
  }

  lemma ReadsOne<T(!new)>(f: Switch<T>, g: Update<T>, p: T, x: Field, head: seq<byte>, rest: seq<byte>)
    requires Accepts(f, g, x) && head == FieldHeader(x)
    ensures ReadsAs(f, p, head, Enc(x.value), rest, g(p, x))
  {
    var tail := [0] + rest;
    ReadFieldStep(f, g, x, tail, p, EncField(x) + tail);
    assert head + Enc(x.value) + [0] + rest == EncField(x) + tail;
    assert ReadStruct(f, tail, g(p, x)) == Good(g(p, x), 1);
  }

  lemma AgreeingAccepts<T(!new)>(f: Switch<T>, h: Switch<T>, g: Update<T>, x: Field)
    requires Agrees(f, h) && Accepts(h, g, x)
    ensures Accepts(f, g, x)
  {
    forall p: T, rest ensures f(p, TypeOf(x.value), x.id, Enc(x.value) + rest) == Good(g(p, x), |Enc(x.value)|) {
      assert h(p, TypeOf(x.value), x.id, Enc(x.value) + rest) == Good(g(p, x), |Enc(x.value)|);
    }
  }

  lemma {:induction false} ListBytes(et: byte, es: seq<Value>)
    ensures Enc(VList(et, es)) == [et] + Word(|es|, 4) + EncElems(es)
  {
  }

  lemma HeaderBytes(id: byte, v: Value)
    ensures FieldHeader(Field(id, v)) == [TypeOf(v), 0, id]
  {
    assert Word(id, 2) == Word(id / 256, 1) + [id % 256];
    assert Word(0, 1) == Word(0, 0) + [0];
  }

  lemma BaseReadsInts(f: Switch<BaseResponse>, p: BaseResponse, v: i32, rest: seq<byte>)
    requires Agrees(f, BaseSwitch)
    ensures ReadsAs(f, p, [8, 0, 1], Word(v, 4), rest, p.(code := v))
  {
    BaseReadsOne(f, p, Field(1, VI32(v)), [8, 0, 1], Word(v, 4), rest, p.(code := v));
  }

  lemma {:induction false} BaseReadsTexts(f: Switch<BaseResponse>, p: BaseResponse, s: Str, value: seq<byte>,
        rest: seq<byte>)
    requires Agrees(f, BaseSwitch)
    requires |s| < LIMIT && value == Word(|s|, 4) + s
    ensures ReadsAs(f, p, [11, 0, 2], value, rest, p.(message := s))
  {
    BaseReadsOne(f, p, Field(2, VString(s)), [11, 0, 2], value, rest, p.(message := s));
  }

  lemma BaseReadsOne(f: Switch<BaseResponse>, p: BaseResponse, x: Field, head: seq<byte>, value: seq<byte>,
        rest: seq<byte>, q: BaseResponse)
    requires Agrees(f, BaseSwitch) && WellFormed(x.value) && 0 <= x.id < 256
    requires head == [TypeOf(x.value), 0, x.id] && value == Enc(x.value) && q == BaseUpdate(p, x)
    ensures ReadsAs(f, p, head, value, rest, q)
  {
    BaseAccepts(x);
    AgreeingAccepts(f, BaseSwitch, BaseUpdate, x);
    HeaderBytes(x.id, x.value);
    ReadsOne(f, BaseUpdate, p, x, head, rest);
  }

  lemma ItemReadsInts(f: Switch<OrderItem>, p: OrderItem, v: i32, rest: seq<byte>)
    requires Agrees(f, ItemSwitch)
    ensures ReadsAs(f, p, [8, 0, 8], Word(v, 4), rest, p.(quantity := v))
  {
    ItemReadsOne(f, p, Field(8, VI32(v)), [8, 0, 8], Word(v, 4), rest, p.(quantity := v));
  }

  lemma ItemReadsLongs(f: Switch<OrderItem>, p: OrderItem, v: i64, rest: seq<byte>)
    requires Agrees(f, ItemSwitch)
    ensures ReadsAs(f, p, [10, 0, 1], Word(v, 8), rest, p.(itemId := v))
    ensures ReadsAs(f, p, [10, 0, 2], Word(v, 8), rest, p.(orderId := v))
    ensures ReadsAs(f, p, [10, 0, 3], Word(v, 8), rest, p.(productId := v))
    ensures ReadsAs(f, p, [10, 0, 4], Word(v, 8), rest, p.(skuId := v))
    ensures ReadsAs(f, p, [10, 0, 7], Word(v, 8), rest, p.(salePriceSnapshot := v))
    ensures ReadsAs(f, p, [10, 0, 9], Word(v, 8), rest, p.(subtotalAmount := v))
  {
    ItemReadsOne(f, p, Field(1, VI64(v)), [10, 0, 1], Word(v, 8), rest, p.(itemId := v));
    ItemReadsOne(f, p, Field(2, VI64(v)), [10, 0, 2], Word(v, 8), rest, p.(orderId := v));
    ItemReadsOne(f, p, Field(3, VI64(v)), [10, 0, 3], Word(v, 8), rest, p.(productId := v));
    ItemReadsOne(f, p, Field(4, VI64(v)), [10, 0, 4], Word(v, 8), rest, p.(skuId := v));
    ItemReadsOne(f, p, Field(7, VI64(v)), [10, 0, 7], Word(v, 8), rest, p.(salePriceSnapshot := v));
    ItemReadsOne(f, p, Field(9, VI64(v)), [10, 0, 9], Word(v, 8), rest, p.(subtotalAmount := v));
  }

  lemma {:induction false} ItemReadsTexts(f: Switch<OrderItem>, p: OrderItem, s: Str, value: seq<byte>, rest: seq<byte>)
    requires Agrees(f, ItemSwitch)
    requires |s| < LIMIT && value == Word(|s|, 4) + s
    ensures ReadsAs(f, p, [11, 0, 5], value, rest, p.(productTitleSnapshot := s))
    ensures ReadsAs(f, p, [11, 0, 6], value, rest, p.(skuTitleSnapshot := s))
  {
    ItemReadsOne(f, p, Field(5, VString(s)), [11, 0, 5], value, rest, p.(productTitleSnapshot := s));
    ItemReadsOne(f, p, Field(6, VString(s)), [11, 0, 6], value, rest, p.(skuTitleSnapshot := s));
  }

  lemma ItemReadsOne(f: Switch<OrderItem>, p: OrderItem, x: Field, head: seq<byte>, value: seq<byte>,
        rest: seq<byte>, q: OrderItem)
    requires Agrees(f, ItemSwitch) && WellFormed(x.value) && 0 <= x.id < 256
    requires head == [TypeOf(x.value), 0, x.id] && value == Enc(x.value) && q == ItemUpdate(p, x)
    ensures ReadsAs(f, p, head, value, rest, q)
  {
    ItemAccepts(x);
    AgreeingAccepts(f, ItemSwitch, ItemUpdate, x);
    HeaderBytes(x.id, x.value);
    ReadsOne(f, ItemUpdate, p, x, head, rest);
  }

  lemma OrderReadsInts(f: Switch<Order>, p: Order, v: i32, rest: seq<byte>)
    requires Agrees(f, OrderSwitch)
    ensures ReadsAs(f, p, [8, 0, 3], Word(v, 4), rest, p.(status := v))
  {
    OrderReadsOne(f, p, Field(3, VI32(v)), [8, 0, 3], Word(v, 4), rest, p.(status := v));
  }

  lemma OrderReadsLongs(f: Switch<Order>, p: Order, v: i64, rest: seq<byte>)
    requires Agrees(f, OrderSwitch)
    ensures ReadsAs(f, p, [10, 0, 1], Word(v, 8), rest, p.(orderId := v))
    ensures ReadsAs(f, p, [10, 0, 2], Word(v, 8), rest, p.(userId := v))
    ensures ReadsAs(f, p, [10, 0, 4], Word(v, 8), rest, p.(totalAmount := v))
    ensures ReadsAs(f, p, [10, 0, 5], Word(v, 8), rest, p.(payAmount := v))
    ensures ReadsAs(f, p, [10, 0, 6], Word(v, 8), rest, p.(expireAt := v))
    ensures ReadsAs(f, p, [10, 0, 10], Word(v, 8), rest, p.(paidAt := v))
  {
    OrderReadsOne(f, p, Field(1, VI64(v)), [10, 0, 1], Word(v, 8), rest, p.(orderId := v));
    OrderReadsOne(f, p, Field(2, VI64(v)), [10, 0, 2], Word(v, 8), rest, p.(userId := v));
    OrderReadsOne(f, p, Field(4, VI64(v)), [10, 0, 4], Word(v, 8), rest, p.(totalAmount := v));
    OrderReadsOne(f, p, Field(5, VI64(v)), [10, 0, 5], Word(v, 8), rest, p.(payAmount := v));
    OrderReadsOne(f, p, Field(6, VI64(v)), [10, 0, 6], Word(v, 8), rest, p.(expireAt := v));
    OrderReadsOne(f, p, Field(10, VI64(v)), [10, 0, 10], Word(v, 8), rest, p.(paidAt := v));
  }

  lemma {:induction false} OrderReadsTexts(f: Switch<Order>, p: Order, s: Str, value: seq<byte>, rest: seq<byte>)
    requires Agrees(f, OrderSwitch)
    requires |s| < LIMIT && value == Word(|s|, 4) + s
    ensures ReadsAs(f, p, [11, 0, 8], value, rest, p.(cancelReason := s))
    ensures ReadsAs(f, p, [11, 0, 9], value, rest, p.(paymentId := s))
    ensures ReadsAs(f, p, [11, 0, 11], value, rest, p.(paymentMethod := s))
    ensures ReadsAs(f, p, [11, 0, 12], value, rest, p.(paymentTradeNo := s))
  {
    OrderReadsOne(f, p, Field(8, VString(s)), [11, 0, 8], value, rest, p.(cancelReason := s));
    OrderReadsOne(f, p, Field(9, VString(s)), [11, 0, 9], value, rest, p.(paymentId := s));
    OrderReadsOne(f, p, Field(11, VString(s)), [11, 0, 11], value, rest, p.(paymentMethod := s));
    OrderReadsOne(f, p, Field(12, VString(s)), [11, 0, 12], value, rest, p.(paymentTradeNo := s));
  }

  lemma OrderReadsOne(f: Switch<Order>, p: Order, x: Field, head: seq<byte>, value: seq<byte>, rest: seq<byte>,
        q: Order)
    requires Agrees(f, OrderSwitch) && OrderTakes(x) && 0 <= x.id < 256
    requires head == [TypeOf(x.value), 0, x.id] && value == Enc(x.value) && q == OrderUpdate(p, x)
    ensures ReadsAs(f, p, head, value, rest, q)
  {
    OrderAccepts(x);
    AgreeingAccepts(f, OrderSwitch, OrderUpdate, x);
    HeaderBytes(x.id, x.value);
    ReadsOne(f, OrderUpdate, p, x, head, rest);
  }

  lemma ListReadsLongs(f: Switch<ListOrdersResponse>, p: ListOrdersResponse, v: i64, rest: seq<byte>)
    requires Agrees(f, ListSwitch)
    ensures ReadsAs(f, p, [10, 0, 2], Word(v, 8), rest, p.(total := v))
  {
    ListReadsOne(f, p, Field(2, VI64(v)), [10, 0, 2], Word(v, 8), rest, p.(total := v));
  }

  lemma ListReadsOne(f: Switch<ListOrdersResponse>, p: ListOrdersResponse, x: Field, head: seq<byte>,
        value: seq<byte>, rest: seq<byte>, q: ListOrdersResponse)
    requires Agrees(f, ListSwitch) && ListTakes(x) && 0 <= x.id < 256
    requires head == [TypeOf(x.value), 0, x.id] && value == Enc(x.value) && q == ListUpdate(p, x)
    ensures ReadsAs(f, p, head, value, rest, q)
  {
    ListAccepts(x);
    AgreeingAccepts(f, ListSwitch, ListUpdate, x);
    HeaderBytes(x.id, x.value);
    ReadsOne(f, ListUpdate, p, x, head, rest);
  }

  lemma CloseReadsInts(f: Switch<CloseExpiredOrdersResponse>, p: CloseExpiredOrdersResponse, v: i32, rest: seq<byte>)
    requires Agrees(f, CloseSwitch)
    ensures ReadsAs(f, p, [8, 0, 1], Word(v, 4), rest, p.(closedCount := v))
  {
    CloseReadsOne(f, p, Field(1, VI32(v)), [8, 0, 1], Word(v, 4), rest, p.(closedCount := v));
  }

  lemma CloseReadsOne(f: Switch<CloseExpiredOrdersResponse>, p: CloseExpiredOrdersResponse, x: Field,
        head: seq<byte>, value: seq<byte>, rest: seq<byte>, q: CloseExpiredOrdersResponse)
    requires Agrees(f, CloseSwitch) && CloseTakes(x) && 0 <= x.id < 256
    requires head == [TypeOf(x.value), 0, x.id] && value == Enc(x.value) && q == CloseUpdate(p, x)
    ensures ReadsAs(f, p, head, value, rest, q)
  {
    CloseAccepts(x);
    AgreeingAccepts(f, CloseSwitch, CloseUpdate, x);
    HeaderBytes(x.id, x.value);
    ReadsOne(f, CloseUpdate, p, x, head, rest);
  }

  lemma ConfirmReadsLongs(f: Switch<ConfirmOrderPaidRequest>, p: ConfirmOrderPaidRequest, v: i64, rest: seq<byte>)
    requires Agrees(f, ConfirmSwitch)
    ensures ReadsAs(f, p, [10, 0, 1], Word(v, 8), rest, p.(orderId := v))
    ensures ReadsAs(f, p, [10, 0, 6], Word(v, 8), rest, p.(paidAt := Some(v)))
  {
    ConfirmReadsOne(f, p, Field(1, VI64(v)), [10, 0, 1], Word(v, 8), rest, p.(orderId := v));
    ConfirmReadsOne(f, p, Field(6, VI64(v)), [10, 0, 6], Word(v, 8), rest, p.(paidAt := Some(v)));
  }

  lemma {:induction false} ConfirmReadsTexts(f: Switch<ConfirmOrderPaidRequest>, p: ConfirmOrderPaidRequest, s: Str,
        value: seq<byte>, rest: seq<byte>)
    requires Agrees(f, ConfirmSwitch)
    requires |s| < LIMIT && value == Word(|s|, 4) + s
    ensures ReadsAs(f, p, [11, 0, 2], value, rest, p.(paymentId := s))
    ensures ReadsAs(f, p, [11, 0, 3], value, rest, p.(requestId := Some(s)))
    ensures ReadsAs(f, p, [11, 0, 4], value, rest, p.(paymentMethod := Some(s)))
    ensures ReadsAs(f, p, [11, 0, 5], value, rest, p.(paymentTradeNo := Some(s)))
  {
    ConfirmReadsOne(f, p, Field(2, VString(s)), [11, 0, 2], value, rest, p.(paymentId := s));
    ConfirmReadsOne(f, p, Field(3, VString(s)), [11, 0, 3], value, rest, p.(requestId := Some(s)));
    ConfirmReadsOne(f, p, Field(4, VString(s)), [11, 0, 4], value, rest, p.(paymentMethod := Some(s)));
    ConfirmReadsOne(f, p, Field(5, VString(s)), [11, 0, 5], value, rest, p.(paymentTradeNo := Some(s)));
  }

  lemma ConfirmReadsOne(f: Switch<ConfirmOrderPaidRequest>, p: ConfirmOrderPaidRequest, x: Field, head: seq<byte>,
        value: seq<byte>, rest: seq<byte>, q: ConfirmOrderPaidRequest)
    requires Agrees(f, ConfirmSwitch) && WellFormed(x.value) && 0 <= x.id < 256
    requires head == [TypeOf(x.value), 0, x.id] && value == Enc(x.value) && q == ConfirmUpdate(p, x)
    ensures ReadsAs(f, p, head, value, rest, q)
  {
    ConfirmAccepts(x);
    AgreeingAccepts(f, ConfirmSwitch, ConfirmUpdate, x);
    HeaderBytes(x.id, x.value);
    ReadsOne(f, ConfirmUpdate, p, x, head, rest);
  }

  lemma {:induction false} ItemValuesTaken(ps: seq<Option<OrderItem>>)
    requires |ps| < LIMIT && forall i :: i in ps ==> ItemFits(i)
    ensures WellFormed(VList(STRUCT, ItemValues(ps)))
  {
    forall k | 0 <= k < |ps| ensures ElemOk(STRUCT, ItemValues(ps)[k]) {
      assert ps[k] in ps;
      ItemValueTaken(ps[k]);
    }
  }

  lemma {:induction false} OrderValuesTaken(ps: seq<Option<Order>>)
    requires |ps| < LIMIT && forall o :: o in ps ==> OrderFits(o)
    ensures WellFormed(VList(STRUCT, OrderValues(ps)))
    ensures forall k :: 0 <= k < |ps| ==> OrderStructTaken(OrderValues(ps)[k])
  {
    forall k | 0 <= k < |ps| ensures ElemOk(STRUCT, OrderValues(ps)[k]) && OrderStructTaken(OrderValues(ps)[k]) {
      assert ps[k] in ps;
      OrderValueTaken(ps[k]);
    }
  }

  lemma {:induction false} OrderItemsField(p: Order, ps: seq<Option<OrderItem>>)
    requires |ps| < LIMIT && forall i :: i in ps ==> ItemFits(i)
    ensures var x := Field(7, VList(STRUCT, ItemValues(ps)));
      && OrderTakes(x) && OrderUpdate(p, x) == p.(items := Present(ItemsBack(ps)))
      && Enc(x.value) == [12] + Word(|ps|, 4) + EncElems(ItemValues(ps))
  {
    ItemValuesTaken(ps);
    ItemsFold(ps);
    ListBytes(STRUCT, ItemValues(ps));
  }

  lemma {:induction false} ListOrdersField(p: ListOrdersResponse, ps: seq<Option<Order>>)
    requires |ps| < LIMIT && forall o :: o in ps ==> OrderFits(o)
    ensures var x := Field(1, VList(STRUCT, OrderValues(ps)));
      && ListTakes(x) && ListUpdate(p, x) == p.(orders := Present(OrdersBack(ps)))
      && Enc(x.value) == [12] + Word(|ps|, 4) + EncElems(OrderValues(ps))
  {
    OrderValuesTaken(ps);
    OrdersFold(ps);
    ListBytes(STRUCT, OrderValues(ps));
  }

  lemma {:induction false} CloseIdsField(p: CloseExpiredOrdersResponse, ids: seq<i64>)
    requires |ids| < LIMIT
    ensures var x := Field(2, VList(I64, I64Values(ids)));
      && CloseTakes(x) && CloseUpdate(p, x) == p.(orderIds := Slice(ids))
      && Enc(x.value) == [10] + Word(|ids|, 4) + EncElems(I64Values(ids))
  {
    forall k | 0 <= k < |ids| ensures ElemOk(I64, I64Values(ids)[k]) {
    }
    assert I64sOf(I64Values(ids)) == ids;
    ListBytes(I64, I64Values(ids));
  }

  /** The list of items, as a writer emits it: each item read into a struct of its own, nil as a zero struct. */
  lemma {:induction false} OrderReadsItems(f: Switch<Order>, p: Order, ps: seq<Option<OrderItem>>, value: seq<byte>,
        rest: seq<byte>)
    requires Agrees(f, OrderSwitch) && value == [12] + Word(|ps|, 4) + EncElems(ItemValues(ps))
    requires |ps| < LIMIT && forall i :: i in ps ==> ItemFits(i)
    ensures ReadsAs(f, p, [15, 0, 7], value, rest, p.(items := Present(ItemsBack(ps))))
  {
    OrderItemsField(p, ps);
    OrderReadsOne(f, p, Field(7, VList(STRUCT, ItemValues(ps))), [15, 0, 7], value, rest,
                  p.(items := Present(ItemsBack(ps))));
  }

  lemma {:induction false} ListReadsOrders(f: Switch<ListOrdersResponse>, p: ListOrdersResponse, ps: seq<Option<Order>>,
        value: seq<byte>, rest: seq<byte>)
    requires Agrees(f, ListSwitch) && value == [12] + Word(|ps|, 4) + EncElems(OrderValues(ps))
    requires |ps| < LIMIT && forall o :: o in ps ==> OrderFits(o)
    ensures ReadsAs(f, p, [15, 0, 1], value, rest, p.(orders := Present(OrdersBack(ps))))
  {
    ListOrdersField(p, ps);
    ListReadsOne(f, p, Field(1, VList(STRUCT, OrderValues(ps))), [15, 0, 1], value, rest,
                 p.(orders := Present(OrdersBack(ps))));
  }

  lemma {:induction false} CloseReadsIds(f: Switch<CloseExpiredOrdersResponse>, p: CloseExpiredOrdersResponse,
        ids: seq<i64>,
        value: seq<byte>, rest: seq<byte>)
    requires Agrees(f, CloseSwitch) && value == [10] + Word(|ids|, 4) + EncElems(I64Values(ids))
    requires |ids| < LIMIT
    ensures ReadsAs(f, p, [15, 0, 2], value, rest, p.(orderIds := Slice(ids)))
  {
    CloseIdsField(p, ids);
    CloseReadsOne(f, p, Field(2, VList(I64, I64Values(ids))), [15, 0, 2], value, rest, p.(orderIds := Slice(ids)));
  }

  lemma ListReadsBase(f: Switch<ListOrdersResponse>, p: ListOrdersResponse, h: BaseResponse, rest: seq<byte>)
    requires Agrees(f, ListSwitch)
    requires BaseFits(Some(h))
    ensures ReadsAs(f, p, [12, 0, 255], Enc(VStruct(BaseFields(h))), rest, p.(base := Some(h)))
  {
    BaseValueTaken(Some(h));
    BaseFold(h);
    ListReadsOne(f, p, Field(255, VStruct(BaseFields(h))), [12, 0, 255], Enc(VStruct(BaseFields(h))), rest,
                 p.(base := Some(h)));
  }

  lemma CloseReadsBase(f: Switch<CloseExpiredOrdersResponse>, p: CloseExpiredOrdersResponse, h: BaseResponse,
        rest: seq<byte>)
    requires Agrees(f, CloseSwitch)
    requires BaseFits(Some(h))
    ensures ReadsAs(f, p, [12, 0, 255], Enc(VStruct(BaseFields(h))), rest, p.(base := Some(h)))
  {
    BaseValueTaken(Some(h));
    BaseFold(h);
    CloseReadsOne(f, p, Field(255, VStruct(BaseFields(h))), [12, 0, 255], Enc(VStruct(BaseFields(h))), rest,
                 p.(base := Some(h)));
  }

  // In a buffer.

  lemma {:induction false} SplicedTail(was: seq<byte>, at: nat, x: seq<byte>)
    requires at + |x| <= |was|
    ensures Splice(was, at, x)[at..] == x + was[at + |x|..]
  {
  }

  lemma {:induction false} BaseLeft(was: seq<byte>, at: nat, p: BaseResponse)
    requires BaseFits(Some(p)) && at + |Enc(VStruct(BaseFields(p)))| <= |was|
    ensures BaseOnWire(Splice(was, at, Enc(VStruct(BaseFields(p))))[at..], p)
  {
    SplicedTail(was, at, Enc(VStruct(BaseFields(p))));
    BaseWrites(p, was[at + |Enc(VStruct(BaseFields(p)))|..]);
  }

  lemma {:induction false} ItemLeft(was: seq<byte>, at: nat, p: OrderItem)
    requires ItemFits(Some(p)) && at + |Enc(VStruct(ItemFields(p)))| <= |was|
    ensures ItemOnWire(Splice(was, at, Enc(VStruct(ItemFields(p))))[at..], p)
  {
    SplicedTail(was, at, Enc(VStruct(ItemFields(p))));
    ItemWrites(p, was[at + |Enc(VStruct(ItemFields(p)))|..]);
  }

  lemma {:induction false} OrderLeft(was: seq<byte>, at: nat, p: Order)
    requires OrderFits(Some(p)) && at + |Enc(VStruct(OrderFields(p)))| <= |was|
    ensures OrderOnWire(Splice(was, at, Enc(VStruct(OrderFields(p))))[at..], p)
  {
    SplicedTail(was, at, Enc(VStruct(OrderFields(p))));
    OrderWrites(p, was[at + |Enc(VStruct(OrderFields(p)))|..]);
  }

  lemma {:induction false} ListLeft(was: seq<byte>, at: nat, p: ListOrdersResponse)
    requires ListFits(p) && at + |Enc(VStruct(ListFields(p)))| <= |was|
    ensures ListOnWire(Splice(was, at, Enc(VStruct(ListFields(p))))[at..], p)
  {
    SplicedTail(was, at, Enc(VStruct(ListFields(p))));
    ListWrites(p, was[at + |Enc(VStruct(ListFields(p)))|..]);
  }

  lemma {:induction false} CloseLeft(was: seq<byte>, at: nat, p: CloseExpiredOrdersResponse)
    requires CloseFits(p) && at + |Enc(VStruct(CloseFields(p)))| <= |was|
    ensures CloseOnWire(Splice(was, at, Enc(VStruct(CloseFields(p))))[at..], p)
  {
    SplicedTail(was, at, Enc(VStruct(CloseFields(p))));
    CloseWrites(p, was[at + |Enc(VStruct(CloseFields(p)))|..]);
  }

  lemma {:induction false} ConfirmLeft(was: seq<byte>, at: nat, p: ConfirmOrderPaidRequest)
    requires ConfirmFits(p) && at + |Enc(VStruct(ConfirmFields(p)))| <= |was|
    ensures ConfirmOnWire(Splice(was, at, Enc(VStruct(ConfirmFields(p))))[at..], p)
  {
    SplicedTail(was, at, Enc(VStruct(ConfirmFields(p))));
    ConfirmWrites(p, was[at + |Enc(VStruct(ConfirmFields(p)))|..]);
  }
}
