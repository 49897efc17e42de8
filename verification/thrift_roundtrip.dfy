/**
 Reading back what the writers emit, for every record that fits the protocol's size fields, in any field order and among
 any fields the reader does not know.
 */
module ThriftRoundTrip {
  import opened Prelude
  import opened ThriftWire
  import opened ThriftStruct
  import opened ThriftRecords

  // What fits on the wire, and what comes back: nil lists come back empty, nil structs come back zero.

  predicate ShortOpt(s: Option<Str>) {
    s.Some? ==> |s.value| < LIMIT
  }

  predicate BaseFits(p: Option<BaseResponse>) {
    p.Some? ==> |p.value.message| < LIMIT
  }

  predicate ItemFits(p: Option<OrderItem>) {
    p.Some? ==> |p.value.productTitleSnapshot| < LIMIT && |p.value.skuTitleSnapshot| < LIMIT
  }

  ghost predicate OrderFits(p: Option<Order>) {
    p.Some? ==>
      var o := p.value;
      |o.cancelReason| < LIMIT && |o.paymentId| < LIMIT && |o.paymentMethod| < LIMIT && |o.paymentTradeNo| < LIMIT &&
      |Elems(o.items)| < LIMIT && forall i :: i in Elems(o.items) ==> ItemFits(i)
  }

  ghost predicate ListFits(p: ListOrdersResponse) {
    |Elems(p.orders)| < LIMIT && BaseFits(p.base) && forall o :: o in Elems(p.orders) ==> OrderFits(o)
  }

  predicate CloseFits(p: CloseExpiredOrdersResponse) {
    |Elems(p.orderIds)| < LIMIT && BaseFits(p.base)
  }

  predicate ConfirmFits(p: ConfirmOrderPaidRequest) {
    |p.paymentId| < LIMIT && ShortOpt(p.requestId) && ShortOpt(p.paymentMethod) && ShortOpt(p.paymentTradeNo)
  }

  function OrZero<T>(p: Option<T>, zero: T): T {
    if p.Some? then p.value else zero
  }

  function ItemsBack(ps: seq<Option<OrderItem>>): (r: seq<OrderItem>)
    ensures |r| == |ps|
  {
    seq(|ps|, k requires 0 <= k < |ps| => OrZero(ps[k], ZERO_ITEM))
  }

  function OrderBack(p: Order): Order {
    p.(items := Present(ItemsBack(Elems(p.items))))
  }

  function OrdersBack(ps: seq<Option<Order>>): (r: seq<Order>)
    ensures |r| == |ps|
  {
    seq(|ps|, k requires 0 <= k < |ps| => if ps[k].Some? then OrderBack(ps[k].value) else ZERO_ORDER)
  }

  function ListBack(p: ListOrdersResponse): ListOrdersResponse {
    ListOrdersResponse(Present(OrdersBack(Elems(p.orders))), p.total, Some(OrZero(p.base, ZERO_BASE)))
  }

  function CloseBack(p: CloseExpiredOrdersResponse): CloseExpiredOrdersResponse {
    p.(orderIds := Slice(Elems(p.orderIds)), base := Some(OrZero(p.base, ZERO_BASE)))
  }

  // The meaning of the written fields.

  lemma BaseFold(p: BaseResponse)
    ensures Fold(BaseUpdate, ZERO_BASE, BaseFields(p)) == p
  {
    var fs := BaseFields(p);
    assert fs == [] + [fs[0]] + [fs[1]];
    FoldSnoc(BaseUpdate, ZERO_BASE, [], fs[0]);
    FoldSnoc(BaseUpdate, ZERO_BASE, [] + [fs[0]], fs[1]);
  }

  lemma ItemFold(p: OrderItem)
    ensures Fold(ItemUpdate, ZERO_ITEM, ItemFields(p)) == p
  {
    var fs := ItemFields(p);
    FoldThree(ItemUpdate, ZERO_ITEM, [], fs[0], fs[1], fs[2]);
    FoldThree(ItemUpdate, ZERO_ITEM, fs[..3], fs[3], fs[4], fs[5]);
    FoldThree(ItemUpdate, ZERO_ITEM, fs[..6], fs[6], fs[7], fs[8]);
    assert fs[..3] == [] + [fs[0], fs[1], fs[2]];
    assert fs[..6] == fs[..3] + [fs[3], fs[4], fs[5]];
    assert fs == fs[..6] + [fs[6], fs[7], fs[8]];
  }

  lemma ItemsFold(ps: seq<Option<OrderItem>>)
    ensures StructsOnly(ItemValues(ps))
    ensures FoldElems(ItemUpdate, ZERO_ITEM, ItemValues(ps)) == ItemsBack(ps)
  {
    forall k | 0 <= k < |ps|
      ensures ItemValue(ps[k]).VStruct?
      ensures Fold(ItemUpdate, ZERO_ITEM, ItemValue(ps[k]).fields) == ItemsBack(ps)[k]
    {
      if ps[k].Some? { ItemFold(ps[k].value); }
    }
  }

  /** The fields of an order with any list of structs in the place of its items. */
  function OrderFieldsWith(p: Order, et: byte, es: seq<Value>): seq<Field> {
    OrderFields(p)[7 := Field(7, VList(et, es))]
  }

  lemma OrderFold(p: Order)
    ensures Fold(OrderUpdate, ZERO_ORDER, OrderFields(p)) == OrderBack(p)
  {
    var es := ItemValues(Elems(p.items));
    ItemsFold(Elems(p.items));
    assert OrderFieldsWith(p, STRUCT, es) == OrderFields(p);
    OrderFoldWith(p, STRUCT, es);
  }

  lemma OrderFoldWith(p: Order, et: byte, es: seq<Value>)
    requires StructsOnly(es) && FoldElems(ItemUpdate, ZERO_ITEM, es) == ItemsBack(Elems(p.items))
    ensures Fold(OrderUpdate, ZERO_ORDER, OrderFieldsWith(p, et, es)) == OrderBack(p)
  {
    var fs := OrderFieldsWith(p, et, es);
    FoldThree(OrderUpdate, ZERO_ORDER, [], fs[0], fs[1], fs[2]);
    FoldThree(OrderUpdate, ZERO_ORDER, fs[..3], fs[3], fs[4], fs[5]);
    assert fs[..3] == [] + [fs[0], fs[1], fs[2]];
    assert fs[..6] == fs[..3] + [fs[3], fs[4], fs[5]];
    assert Fold(OrderUpdate, ZERO_ORDER, fs[..6]) == ZERO_ORDER.(
      orderId := p.orderId, userId := p.userId, status := p.status, totalAmount := p.totalAmount, payAmount := p.payAmount,
      expireAt := p.expireAt);
    OrderFoldRest(p, et, es, fs);
  }

  lemma OrderFoldRest(p: Order, et: byte, es: seq<Value>, fs: seq<Field>)
    requires StructsOnly(es) && FoldElems(ItemUpdate, ZERO_ITEM, es) == ItemsBack(Elems(p.items))
    requires fs == OrderFieldsWith(p, et, es)
    requires Fold(OrderUpdate, ZERO_ORDER, fs[..6]) == ZERO_ORDER.(
      orderId := p.orderId, userId := p.userId, status := p.status, totalAmount := p.totalAmount, payAmount := p.payAmount,
      expireAt := p.expireAt)
    ensures Fold(OrderUpdate, ZERO_ORDER, fs) == OrderBack(p)
  {
    FoldThree(OrderUpdate, ZERO_ORDER, fs[..6], fs[6], fs[7], fs[8]);
    FoldThree(OrderUpdate, ZERO_ORDER, fs[..9], fs[9], fs[10], fs[11]);
    assert fs[..9] == fs[..6] + [fs[6], fs[7], fs[8]];
    assert fs == fs[..9] + [fs[9], fs[10], fs[11]];
  }

  lemma OrdersFold(ps: seq<Option<Order>>)
    ensures StructsOnly(OrderValues(ps))
    ensures FoldElems(OrderUpdate, ZERO_ORDER, OrderValues(ps)) == OrdersBack(ps)
  {
    forall k | 0 <= k < |ps|
      ensures OrderValue(ps[k]).VStruct?
      ensures Fold(OrderUpdate, ZERO_ORDER, OrderValue(ps[k]).fields) == OrdersBack(ps)[k]
    {
      if ps[k].Some? { OrderFold(ps[k].value); }
    }
  }

  lemma BaseValueFold(p: Option<BaseResponse>)
    ensures Fold(BaseUpdate, ZERO_BASE, BaseValue(p).fields) == OrZero(p, ZERO_BASE)
  {
    if p.Some? { BaseFold(p.value); }
  }

  lemma ListFold(p: ListOrdersResponse)
    ensures Fold(ListUpdate, ZERO_LIST, ListFields(p)) == ListBack(p)
  {
    var fs := ListFields(p);
    OrdersFold(Elems(p.orders));
    BaseValueFold(p.base);
    FoldThree(ListUpdate, ZERO_LIST, [], fs[0], fs[1], fs[2]);
    assert fs == [] + [fs[0], fs[1], fs[2]];
  }

  lemma CloseFold(p: CloseExpiredOrdersResponse)
    ensures Fold(CloseUpdate, ZERO_CLOSE, CloseFields(p)) == CloseBack(p)
  {
    var fs, ids := CloseFields(p), Elems(p.orderIds);
    BaseValueFold(p.base);
    assert I64sOnly(I64Values(ids)) && I64sOf(I64Values(ids)) == ids;
    FoldThree(CloseUpdate, ZERO_CLOSE, [], fs[0], fs[1], fs[2]);
    assert fs == [] + [fs[0], fs[1], fs[2]];
  }

  lemma OptStringFold(p: ConfirmOrderPaidRequest, fs: seq<Field>, id: i16, s: Option<Str>)
    ensures var q := Fold(ConfirmUpdate, p, fs);
      Fold(ConfirmUpdate, p, fs + OptString(id, s)) == if s.None? then q else ConfirmUpdate(q, Field(id, VString(s.value)))
  {
    if s.None? {
      assert fs + OptString(id, s) == fs;
    } else {
      FoldSnoc(ConfirmUpdate, p, fs, Field(id, VString(s.value)));
    }
  }

  lemma OptI64Fold(p: ConfirmOrderPaidRequest, fs: seq<Field>, id: i16, v: Option<i64>)
    ensures var q := Fold(ConfirmUpdate, p, fs);
      Fold(ConfirmUpdate, p, fs + OptI64(id, v)) == if v.None? then q else ConfirmUpdate(q, Field(id, VI64(v.value)))
  {
    if v.None? {
      assert fs + OptI64(id, v) == fs;
    } else {
      FoldSnoc(ConfirmUpdate, p, fs, Field(id, VI64(v.value)));
    }
  }

  lemma ConfirmRequiredFold(p: ConfirmOrderPaidRequest)
    ensures Fold(ConfirmUpdate, ZERO_CONFIRM,
                 [Field(1, VI64(p.orderId))] + OptI64(6, p.paidAt) + [Field(2, VString(p.paymentId))])
         == p.(requestId := None, paymentMethod := None, paymentTradeNo := None)
  {
    var f1 := [Field(1, VI64(p.orderId))];
    FoldSnoc(ConfirmUpdate, ZERO_CONFIRM, [], f1[0]);
    assert [] + f1 == f1;
    OptI64Fold(ZERO_CONFIRM, f1, 6, p.paidAt);
    FoldSnoc(ConfirmUpdate, ZERO_CONFIRM, f1 + OptI64(6, p.paidAt), Field(2, VString(p.paymentId)));
  }

  lemma ConfirmOptionalFold(p: ConfirmOrderPaidRequest, fs: seq<Field>)
    requires Fold(ConfirmUpdate, ZERO_CONFIRM, fs) == p.(requestId := None, paymentMethod := None, paymentTradeNo := None)
    ensures Fold(ConfirmUpdate, ZERO_CONFIRM, fs + OptString(3, p.requestId) + OptString(4, p.paymentMethod))
         == p.(paymentTradeNo := None)
  {
    OptStringFold(ZERO_CONFIRM, fs, 3, p.requestId);
    OptStringFold(ZERO_CONFIRM, fs + OptString(3, p.requestId), 4, p.paymentMethod);
  }

  lemma ConfirmFold(p: ConfirmOrderPaidRequest)
    ensures Fold(ConfirmUpdate, ZERO_CONFIRM, ConfirmFields(p)) == p
  {
    var fs := [Field(1, VI64(p.orderId))] + OptI64(6, p.paidAt) + [Field(2, VString(p.paymentId))];
    ConfirmRequiredFold(p);
    ConfirmOptionalFold(p, fs);
    OptStringFold(ZERO_CONFIRM, fs + OptString(3, p.requestId) + OptString(4, p.paymentMethod), 5, p.paymentTradeNo);
  }

  // What is written is well formed and accepted.

  lemma BaseValueTaken(p: Option<BaseResponse>)
    requires BaseFits(p)
    ensures WellFormed(BaseValue(p))
  {
  }

  lemma ItemValueTaken(p: Option<OrderItem>)
    requires ItemFits(p)
    ensures ElemOk(STRUCT, ItemValue(p))
  {
    forall k | 0 <= k < |ItemValue(p).fields| ensures FieldOk(ItemValue(p).fields[k]) {
    }
  }

  lemma OrderFieldsTaken(p: Order)
    requires OrderFits(Some(p))
    ensures forall k :: 0 <= k < |OrderFields(p)| ==> OrderTakes(OrderFields(p)[k])
  {
    var items := Elems(p.items);
    forall k | 0 <= k < |items| ensures ElemOk(STRUCT, ItemValues(items)[k]) {
      assert items[k] in items;
      ItemValueTaken(items[k]);
    }
    ItemsFold(items);
  }

  lemma OrderValueTaken(p: Option<Order>)
    requires OrderFits(p)
    ensures ElemOk(STRUCT, OrderValue(p)) && OrderStructTaken(OrderValue(p))
  {
    if p.Some? {
      OrderFieldsTaken(p.value);
      forall k | 0 <= k < |OrderValue(p).fields| ensures FieldOk(OrderValue(p).fields[k]) {
        assert OrderTakes(OrderFields(p.value)[k]);
      }
    }
  }

  lemma ListFieldsTaken(p: ListOrdersResponse)
    requires ListFits(p)
    ensures forall k :: 0 <= k < |ListFields(p)| ==> ListTakes(ListFields(p)[k])
  {
    var orders := Elems(p.orders);
    forall k | 0 <= k < |orders|
      ensures ElemOk(STRUCT, OrderValues(orders)[k]) && OrderStructTaken(OrderValues(orders)[k])
    {
      assert orders[k] in orders;
      OrderValueTaken(orders[k]);
    }
    BaseValueTaken(p.base);
  }

  lemma CloseFieldsTaken(p: CloseExpiredOrdersResponse)
    requires CloseFits(p)
    ensures forall k :: 0 <= k < |CloseFields(p)| ==> CloseTakes(CloseFields(p)[k])
  {
    var vs := I64Values(Elems(p.orderIds));
    forall k | 0 <= k < |vs| ensures ElemOk(I64, vs[k]) {
    }
    BaseValueTaken(p.base);
  }

  // The writers' fields have distinct ids and the readers accept them.

  lemma BaseWritten(p: BaseResponse)
    requires BaseFits(Some(p))
    ensures AcceptsAll(BaseSwitch, BaseUpdate, BaseFields(p)) && DistinctIds(BaseFields(p))
  {
    var fs := BaseFields(p);
    forall k | 0 <= k < |fs| ensures Accepts(BaseSwitch, BaseUpdate, fs[k]) {
      BaseAccepts(fs[k]);
    }
  }

  lemma ItemWritten(p: OrderItem)
    requires ItemFits(Some(p))
    ensures AcceptsAll(ItemSwitch, ItemUpdate, ItemFields(p)) && DistinctIds(ItemFields(p))
  {
    var fs := ItemFields(p);
    forall k | 0 <= k < |fs| ensures Accepts(ItemSwitch, ItemUpdate, fs[k]) {
      ItemAccepts(fs[k]);
    }
  }

  lemma OrderWritten(p: Order)
    requires OrderFits(Some(p))
    ensures AcceptsAll(OrderSwitch, OrderUpdate, OrderFields(p)) && DistinctIds(OrderFields(p))
  {
    var fs := OrderFields(p);
    OrderFieldsTaken(p);
    forall k | 0 <= k < |fs| ensures Accepts(OrderSwitch, OrderUpdate, fs[k]) {
      OrderAccepts(fs[k]);
    }
  }

  lemma ListWritten(p: ListOrdersResponse)
    requires ListFits(p)
    ensures AcceptsAll(ListSwitch, ListUpdate, ListFields(p)) && DistinctIds(ListFields(p))
  {
    var fs := ListFields(p);
    ListFieldsTaken(p);
    forall k | 0 <= k < |fs| ensures Accepts(ListSwitch, ListUpdate, fs[k]) {
      ListAccepts(fs[k]);
    }
  }

  lemma CloseWritten(p: CloseExpiredOrdersResponse)
    requires CloseFits(p)
    ensures AcceptsAll(CloseSwitch, CloseUpdate, CloseFields(p)) && DistinctIds(CloseFields(p))
  {
    var fs := CloseFields(p);
    CloseFieldsTaken(p);
    forall k | 0 <= k < |fs| ensures Accepts(CloseSwitch, CloseUpdate, fs[k]) {
      CloseAccepts(fs[k]);
    }
  }

  lemma ConfirmIdsDistinct(p: ConfirmOrderPaidRequest)
    ensures DistinctIds(ConfirmFields(p))
  {
  }

  lemma ConfirmWritten(p: ConfirmOrderPaidRequest)
    requires ConfirmFits(p)
    ensures AcceptsAll(ConfirmSwitch, ConfirmUpdate, ConfirmFields(p)) && DistinctIds(ConfirmFields(p))
  {
    ConfirmIdsDistinct(p);
    var fs := ConfirmFields(p);
    forall k | 0 <= k < |fs| ensures Accepts(ConfirmSwitch, ConfirmUpdate, fs[k]) {
      ConfirmAccepts(fs[k]);
    }
  }

  // Round trips: reading what was written, whatever follows, gives the record back and consumes exactly its bytes.

  lemma BaseRoundTrip(p: BaseResponse, rest: seq<byte>)
    requires BaseFits(Some(p))
    ensures var b := Enc(VStruct(BaseFields(p)));
      ReadStruct(BaseSwitch, b + rest, ZERO_BASE) == Good(p, |b|)
  {
    BaseWritten(p);
    BaseFold(p);
    StructExact(BaseSwitch, BaseUpdate, BaseFields(p), ZERO_BASE, rest);
  }

  lemma ItemRoundTrip(p: OrderItem, rest: seq<byte>)
    requires ItemFits(Some(p))
    ensures var b := Enc(VStruct(ItemFields(p)));
      ReadStruct(ItemSwitch, b + rest, ZERO_ITEM) == Good(p, |b|)
  {
    ItemWritten(p);
    ItemFold(p);
    StructExact(ItemSwitch, ItemUpdate, ItemFields(p), ZERO_ITEM, rest);
  }

  lemma OrderRoundTrip(p: Order, rest: seq<byte>)
    requires OrderFits(Some(p))
    ensures var b := Enc(VStruct(OrderFields(p)));
      ReadStruct(OrderSwitch, b + rest, ZERO_ORDER) == Good(OrderBack(p), |b|)
  {
    OrderWritten(p);
    OrderFold(p);
    StructExact(OrderSwitch, OrderUpdate, OrderFields(p), ZERO_ORDER, rest);
  }

  lemma ListRoundTrip(p: ListOrdersResponse, rest: seq<byte>)
    requires ListFits(p)
    ensures var b := Enc(VStruct(ListFields(p)));
      ReadStruct(ListSwitch, b + rest, ZERO_LIST) == Good(ListBack(p), |b|)
  {
    ListWritten(p);
    ListFold(p);
    StructExact(ListSwitch, ListUpdate, ListFields(p), ZERO_LIST, rest);
  }

  lemma CloseRoundTrip(p: CloseExpiredOrdersResponse, rest: seq<byte>)
    requires CloseFits(p)
    ensures var b := Enc(VStruct(CloseFields(p)));
      ReadStruct(CloseSwitch, b + rest, ZERO_CLOSE) == Good(CloseBack(p), |b|)
  {
    CloseWritten(p);
    CloseFold(p);
    StructExact(CloseSwitch, CloseUpdate, CloseFields(p), ZERO_CLOSE, rest);
  }

  lemma ConfirmRoundTrip(p: ConfirmOrderPaidRequest, rest: seq<byte>)
    requires ConfirmFits(p)
    ensures var b := Enc(VStruct(ConfirmFields(p)));
      ReadStruct(ConfirmSwitch, b + rest, ZERO_CONFIRM) == Good(p, |b|)
  {
    ConfirmWritten(p);
    ConfirmFold(p);
    StructExact(ConfirmSwitch, ConfirmUpdate, ConfirmFields(p), ZERO_CONFIRM, rest);
  }
}
