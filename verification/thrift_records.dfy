/**
 The records of the order service (kitex_gen/meshcart/order/k-order.go, kitex_gen/meshcart/base/k-base.go): for each
 struct its fields in the order the writer emits them, the switch of its reader, and what one field does to it.
 */
module ThriftRecords {
  import opened Prelude
  import opened ThriftWire
  import opened ThriftStruct

  // The reads and skips the switches are made of.

  function SkipTo<T>(p: T, b: seq<byte>, t: byte): Read<T> {
    match Skip(b, t) case None => Bad case Some(n) => Good(p, n)
  }

  function Map<A, B>(r: Read<A>, f: A -> B): Read<B> {
    match r case Bad => Bad case Good(v, n) => Good(f(v), n)
  }

  /** A list of structs: the element type on the wire is not looked at. */
  function ReadStructList<T(!new)>(f: Switch<T>, zero: T, b: seq<byte>): (r: Read<seq<T>>)
    ensures r.Good? ==> r.n <= |b|
  {
    match ReadListBegin(b)
    case Bad => Bad
    case Good((_, size), l) => Ahead(ReadStructs(f, zero, b[l..], size), l)
  }

  function ReadI64s(b: seq<byte>, size: nat): (r: Read<seq<i64>>)
    ensures r.Good? ==> r.n <= |b| && |r.val| == size
    decreases size
  {
    if size == 0 then Good([], 0) else
      match ReadI64(b)
      case Bad => Bad
      case Good(v, n) => After([v], n, ReadI64s(b[n..], size - 1))
  }

  function ReadI64List(b: seq<byte>): (r: Read<seq<i64>>)
    ensures r.Good? ==> r.n <= |b|
  {
    match ReadListBegin(b)
    case Bad => Bad
    case Good((_, size), l) => Ahead(ReadI64s(b[l..], size), l)
  }

  /** A value as one switch branch reads it, whatever follows. */
  lemma PrimitivesExact(v: Value, rest: seq<byte>)
    requires WellFormed(v)
    ensures Skip(Enc(v) + rest, TypeOf(v)) == Some(|Enc(v)|)
    ensures v.VI32? ==> ReadI32(Enc(v) + rest) == Good(v.i32, |Enc(v)|)
    ensures v.VI64? ==> ReadI64(Enc(v) + rest) == Good(v.i64, |Enc(v)|)
    ensures v.VString? ==> ReadString(Enc(v) + rest) == Good(v.s, |Enc(v)|)
  {
    SkipExact(v, rest);
    if v.VI32? { I32Exact(v.i32, rest); }
    if v.VI64? { I64Exact(v.i64, rest); }
    if v.VString? { StringExact(v.s, rest); }
  }

  // BaseResponse

  datatype BaseResponse = BaseResponse(code: i32, message: Str)

  const ZERO_BASE := BaseResponse(0, [])

  function BaseFields(p: BaseResponse): seq<Field> {
    [Field(1, VI32(p.code)), Field(2, VString(p.message))]
  }

  function BaseSwitch(p: BaseResponse, t: byte, id: i16, b: seq<byte>): (r: Read<BaseResponse>)
    ensures r.Good? ==> r.n <= |b|
  {
    if id == 1 && t == I32 then Map(ReadI32(b), v => p.(code := v))
    else if id == 2 && t == STRING then Map(ReadString(b), v => p.(message := v))
    else SkipTo(p, b, t)
  }

  ghost function BaseUpdate(p: BaseResponse, x: Field): BaseResponse {
    match x.value
    case VI32(v) => if x.id == 1 then p.(code := v) else p
    case VString(v) => if x.id == 2 then p.(message := v) else p
    case _ => p
  }

  lemma BaseAccepts(x: Field)
    requires WellFormed(x.value)
    ensures Accepts(BaseSwitch, BaseUpdate, x)
  {
    forall p: BaseResponse, rest
      ensures BaseSwitch(p, TypeOf(x.value), x.id, Enc(x.value) + rest) == Good(BaseUpdate(p, x), |Enc(x.value)|)
    {
      PrimitivesExact(x.value, rest);
    }
  }

  // OrderItem

  datatype OrderItem = OrderItem(
    itemId: i64, orderId: i64, productId: i64, skuId: i64, productTitleSnapshot: Str, skuTitleSnapshot: Str,
    salePriceSnapshot: i64, quantity: i32, subtotalAmount: i64)

  const ZERO_ITEM := OrderItem(0, 0, 0, 0, [], [], 0, 0, 0)

  function ItemFields(p: OrderItem): seq<Field> {
    [Field(1, VI64(p.itemId)), Field(2, VI64(p.orderId)), Field(3, VI64(p.productId)), Field(4, VI64(p.skuId)),
     Field(7, VI64(p.salePriceSnapshot)), Field(8, VI32(p.quantity)), Field(9, VI64(p.subtotalAmount)),
     Field(5, VString(p.productTitleSnapshot)), Field(6, VString(p.skuTitleSnapshot))]
  }

  function ItemSwitch(p: OrderItem, t: byte, id: i16, b: seq<byte>): (r: Read<OrderItem>)
    ensures r.Good? ==> r.n <= |b|
  {
    if id == 1 && t == I64 then Map(ReadI64(b), v => p.(itemId := v))
    else if id == 2 && t == I64 then Map(ReadI64(b), v => p.(orderId := v))
    else if id == 3 && t == I64 then Map(ReadI64(b), v => p.(productId := v))
    else if id == 4 && t == I64 then Map(ReadI64(b), v => p.(skuId := v))
    else if id == 5 && t == STRING then Map(ReadString(b), v => p.(productTitleSnapshot := v))
    else if id == 6 && t == STRING then Map(ReadString(b), v => p.(skuTitleSnapshot := v))
    else if id == 7 && t == I64 then Map(ReadI64(b), v => p.(salePriceSnapshot := v))
    else if id == 8 && t == I32 then Map(ReadI32(b), v => p.(quantity := v))
    else if id == 9 && t == I64 then Map(ReadI64(b), v => p.(subtotalAmount := v))
    else SkipTo(p, b, t)
  }

  ghost function ItemUpdate(p: OrderItem, x: Field): OrderItem {
    match x.value
    case VI32(v) => if x.id == 8 then p.(quantity := v) else p
    case VString(v) =>
      if x.id == 5 then p.(productTitleSnapshot := v)
      else if x.id == 6 then p.(skuTitleSnapshot := v)
      else p
    case VI64(v) =>
      if x.id == 1 then p.(itemId := v)
      else if x.id == 2 then p.(orderId := v)
      else if x.id == 3 then p.(productId := v)
      else if x.id == 4 then p.(skuId := v)
      else if x.id == 7 then p.(salePriceSnapshot := v)
      else if x.id == 9 then p.(subtotalAmount := v)
      else p
    case _ => p
  }

  lemma ItemAccepts(x: Field)
    requires WellFormed(x.value)
    ensures Accepts(ItemSwitch, ItemUpdate, x)
  {
    forall p: OrderItem, rest
      ensures ItemSwitch(p, TypeOf(x.value), x.id, Enc(x.value) + rest) == Good(ItemUpdate(p, x), |Enc(x.value)|)
    {
      PrimitivesExact(x.value, rest);
    }
  }

  // Order

  datatype Order = Order(
    orderId: i64, userId: i64, status: i32, totalAmount: i64, payAmount: i64, expireAt: i64,
    items: Slice<Option<OrderItem>>, cancelReason: Str, paymentId: Str, paidAt: i64, paymentMethod: Str, paymentTradeNo: Str)

  const ZERO_ORDER := Order(0, 0, 0, 0, 0, 0, Nil, [], [], 0, [], [])

  /** A nil struct pointer is written as a struct without fields. */
  function ItemValue(p: Option<OrderItem>): Value {
    VStruct(if p.None? then [] else ItemFields(p.value))
  }

  function ItemValues(ps: seq<Option<OrderItem>>): (vs: seq<Value>)
    ensures |vs| == |ps|
  {
    seq(|ps|, k requires 0 <= k < |ps| => ItemValue(ps[k]))
  }

  function OrderFields(p: Order): seq<Field> {
    [Field(1, VI64(p.orderId)), Field(2, VI64(p.userId)), Field(3, VI32(p.status)), Field(4, VI64(p.totalAmount)),
     Field(5, VI64(p.payAmount)), Field(6, VI64(p.expireAt)), Field(10, VI64(p.paidAt)),
     Field(7, VList(STRUCT, ItemValues(Elems(p.items)))), Field(8, VString(p.cancelReason)), Field(9, VString(p.paymentId)),
     Field(11, VString(p.paymentMethod)), Field(12, VString(p.paymentTradeNo))]
  }

  function Present<T>(xs: seq<T>): (r: Slice<Option<T>>)
    ensures r.Slice? && |r.s| == |xs| && forall k :: 0 <= k < |xs| ==> r.s[k] == Some(xs[k])
  {
    Slice(seq(|xs|, k requires 0 <= k < |xs| => Some(xs[k])))
  }

  /** Every branch but the list of items. */
  function OrderScalars(p: Order, t: byte, id: i16, b: seq<byte>): (r: Read<Order>)
    ensures r.Good? ==> r.n <= |b|
  {
    if id == 1 && t == I64 then Map(ReadI64(b), v => p.(orderId := v))
    else if id == 2 && t == I64 then Map(ReadI64(b), v => p.(userId := v))
    else if id == 3 && t == I32 then Map(ReadI32(b), v => p.(status := v))
    else if id == 4 && t == I64 then Map(ReadI64(b), v => p.(totalAmount := v))
    else if id == 5 && t == I64 then Map(ReadI64(b), v => p.(payAmount := v))
    else if id == 6 && t == I64 then Map(ReadI64(b), v => p.(expireAt := v))
    else if id == 8 && t == STRING then Map(ReadString(b), v => p.(cancelReason := v))
    else if id == 9 && t == STRING then Map(ReadString(b), v => p.(paymentId := v))
    else if id == 10 && t == I64 then Map(ReadI64(b), v => p.(paidAt := v))
    else if id == 11 && t == STRING then Map(ReadString(b), v => p.(paymentMethod := v))
    else if id == 12 && t == STRING then Map(ReadString(b), v => p.(paymentTradeNo := v))
    else SkipTo(p, b, t)
  }

  function OrderSwitch(p: Order, t: byte, id: i16, b: seq<byte>): (r: Read<Order>)
    ensures r.Good? ==> r.n <= |b|
  {
    if id == 7 && t == LIST then Map(ReadStructList(ItemSwitch, ZERO_ITEM, b), vs => p.(items := Present(vs)))
    else OrderScalars(p, t, id, b)
  }

  ghost function OrderUpdate(p: Order, x: Field): Order {
    match x.value
    case VI32(v) => if x.id == 3 then p.(status := v) else p
    case VString(v) =>
      if x.id == 8 then p.(cancelReason := v)
      else if x.id == 9 then p.(paymentId := v)
      else if x.id == 11 then p.(paymentMethod := v)
      else if x.id == 12 then p.(paymentTradeNo := v)
      else p
    case VI64(v) =>
      if x.id == 1 then p.(orderId := v)
      else if x.id == 2 then p.(userId := v)
      else if x.id == 4 then p.(totalAmount := v)
      else if x.id == 5 then p.(payAmount := v)
      else if x.id == 6 then p.(expireAt := v)
      else if x.id == 10 then p.(paidAt := v)
      else p
    case VList(_, es) =>
      if x.id == 7 && StructsOnly(es) then p.(items := Present(FoldElems(ItemUpdate, ZERO_ITEM, es))) else p
    case _ => p
  }

  /** The list field must hold structs; every other field may be anything well formed. */
  ghost predicate OrderTakes(x: Field) {
    WellFormed(x.value) && (x.id == 7 && x.value.VList? ==> StructsOnly(x.value.elems))
  }

  /** A list of structs all of whose fields the element reader accepts. */
  lemma StructListExact<T(!new)>(f: Switch<T>, g: Update<T>, zero: T, et: byte, es: seq<Value>, rest: seq<byte>)
    requires StructsOnly(es) && |es| < LIMIT && AcceptsElems(f, g, es)
    ensures ReadStructList(f, zero, Enc(VList(et, es)) + rest) == Good(FoldElems(g, zero, es), |Enc(VList(et, es))|)
  {
    AppendAssociates([et] + Word(|es|, 4), EncElems(es), rest);
    ListBeginExact(et, |es|, EncElems(es) + rest);
    ReadStructsElems(f, g, zero, es, rest, EncElems(es) + rest);
  }

  lemma ItemStructAccepted(v: Value)
    requires WellFormed(v)
    ensures AcceptsElem(ItemSwitch, ItemUpdate, v)
  {
    if v.VStruct? {
      forall j | 0 <= j < |v.fields| ensures Accepts(ItemSwitch, ItemUpdate, v.fields[j]) {
        assert FieldOk(v.fields[j]);
        ItemAccepts(v.fields[j]);
      }
    }
  }

  lemma ItemsAccepted(et: byte, es: seq<Value>)
    requires WellFormed(VList(et, es))
    ensures AcceptsElems(ItemSwitch, ItemUpdate, es)
  {
    forall k | 0 <= k < |es| ensures AcceptsElem(ItemSwitch, ItemUpdate, es[k]) {
      assert ElemOk(et, es[k]);
      ItemStructAccepted(es[k]);
    }
  }

  lemma OrderScalarExact(p: Order, x: Field, rest: seq<byte>)
    requires WellFormed(x.value) && !(x.id == 7 && x.value.VList?)
    ensures OrderScalars(p, TypeOf(x.value), x.id, Enc(x.value) + rest) == Good(OrderUpdate(p, x), |Enc(x.value)|)
  {
    PrimitivesExact(x.value, rest);
  }

  lemma OrderAccepts(x: Field)
    requires OrderTakes(x)
    ensures Accepts(OrderSwitch, OrderUpdate, x)
  {
    forall p: Order, rest
      ensures OrderSwitch(p, TypeOf(x.value), x.id, Enc(x.value) + rest) == Good(OrderUpdate(p, x), |Enc(x.value)|)
    {
      if x.id == 7 && x.value.VList? {
        ItemsAccepted(x.value.elemType, x.value.elems);
        StructListExact(ItemSwitch, ItemUpdate, ZERO_ITEM, x.value.elemType, x.value.elems, rest);
      } else {
        OrderScalarExact(p, x, rest);
      }
    }
  }

  // ListOrdersResponse

  datatype ListOrdersResponse = ListOrdersResponse(orders: Slice<Option<Order>>, total: i64, base: Option<BaseResponse>)

  const ZERO_LIST := ListOrdersResponse(Nil, 0, None)

  function OrderValue(p: Option<Order>): Value {
    VStruct(if p.None? then [] else OrderFields(p.value))
  }

  function OrderValues(ps: seq<Option<Order>>): (vs: seq<Value>)
    ensures |vs| == |ps|
  {
    seq(|ps|, k requires 0 <= k < |ps| => OrderValue(ps[k]))
  }

  function BaseValue(p: Option<BaseResponse>): Value {
    VStruct(if p.None? then [] else BaseFields(p.value))
  }

  function ListFields(p: ListOrdersResponse): seq<Field> {
    [Field(2, VI64(p.total)), Field(1, VList(STRUCT, OrderValues(Elems(p.orders)))), Field(255, BaseValue(p.base))]
  }

  function ListSwitch(p: ListOrdersResponse, t: byte, id: i16, b: seq<byte>): (r: Read<ListOrdersResponse>)
    ensures r.Good? ==> r.n <= |b|
  {
    if id == 1 && t == LIST then Map(ReadStructList(OrderSwitch, ZERO_ORDER, b), vs => p.(orders := Present(vs)))
    else if id == 2 && t == I64 then Map(ReadI64(b), v => p.(total := v))
    else if id == 255 && t == STRUCT then Map(ReadStruct(BaseSwitch, b, ZERO_BASE), v => p.(base := Some(v)))
    else SkipTo(p, b, t)
  }

  ghost function ListUpdate(p: ListOrdersResponse, x: Field): ListOrdersResponse {
    match x.value
    case VI64(v) => if x.id == 2 then p.(total := v) else p
    case VList(_, es) =>
      if x.id == 1 && StructsOnly(es) then p.(orders := Present(FoldElems(OrderUpdate, ZERO_ORDER, es))) else p
    case VStruct(fs) => if x.id == 255 then p.(base := Some(Fold(BaseUpdate, ZERO_BASE, fs))) else p
    case _ => p
  }

  ghost predicate OrderStructTaken(v: Value) {
    v.VStruct? && forall k :: 0 <= k < |v.fields| ==> OrderTakes(v.fields[k])
  }

  ghost predicate ListTakes(x: Field) {
    WellFormed(x.value) &&
    (x.id == 1 && x.value.VList? ==> forall k :: 0 <= k < |x.value.elems| ==> OrderStructTaken(x.value.elems[k]))
  }

  lemma OrderStructAccepted(v: Value)
    requires OrderStructTaken(v)
    ensures AcceptsElem(OrderSwitch, OrderUpdate, v)
  {
    forall j | 0 <= j < |v.fields| ensures Accepts(OrderSwitch, OrderUpdate, v.fields[j]) {
      OrderAccepts(v.fields[j]);
    }
  }

  lemma OrdersAccepted(es: seq<Value>)
    requires forall k :: 0 <= k < |es| ==> OrderStructTaken(es[k])
    ensures StructsOnly(es) && AcceptsElems(OrderSwitch, OrderUpdate, es)
  {
    forall k | 0 <= k < |es| ensures AcceptsElem(OrderSwitch, OrderUpdate, es[k]) {
      OrderStructAccepted(es[k]);
    }
  }

  /** A nested response header. */
  lemma BaseStructExact(fs: seq<Field>, rest: seq<byte>)
    requires WellFormed(VStruct(fs))
    ensures ReadStruct(BaseSwitch, Enc(VStruct(fs)) + rest, ZERO_BASE)
      == Good(Fold(BaseUpdate, ZERO_BASE, fs), |Enc(VStruct(fs))|)
  {
    forall j | 0 <= j < |fs| ensures Accepts(BaseSwitch, BaseUpdate, fs[j]) {
      assert FieldOk(fs[j]);
      BaseAccepts(fs[j]);
    }
    StructExact(BaseSwitch, BaseUpdate, fs, ZERO_BASE, rest);
  }

  lemma ListAccepts(x: Field)
    requires ListTakes(x)
    ensures Accepts(ListSwitch, ListUpdate, x)
  {
    forall p: ListOrdersResponse, rest
      ensures ListSwitch(p, TypeOf(x.value), x.id, Enc(x.value) + rest) == Good(ListUpdate(p, x), |Enc(x.value)|)
    {
      if x.id == 1 && x.value.VList? {
        OrdersAccepted(x.value.elems);
        StructListExact(OrderSwitch, OrderUpdate, ZERO_ORDER, x.value.elemType, x.value.elems, rest);
      } else if x.id == 255 && x.value.VStruct? {
        BaseStructExact(x.value.fields, rest);
      } else {
        PrimitivesExact(x.value, rest);
      }
    }
  }

  // CloseExpiredOrdersResponse

  datatype CloseExpiredOrdersResponse = CloseExpiredOrdersResponse(
    closedCount: i32, orderIds: Slice<i64>, base: Option<BaseResponse>)

  const ZERO_CLOSE := CloseExpiredOrdersResponse(0, Nil, None)

  function I64Values(ids: seq<i64>): (vs: seq<Value>)
    ensures |vs| == |ids|
  {
    seq(|ids|, k requires 0 <= k < |ids| => VI64(ids[k]))
  }

  function CloseFields(p: CloseExpiredOrdersResponse): seq<Field> {
    [Field(1, VI32(p.closedCount)), Field(2, VList(I64, I64Values(Elems(p.orderIds)))), Field(255, BaseValue(p.base))]
  }

  function CloseSwitch(p: CloseExpiredOrdersResponse, t: byte, id: i16,
        b: seq<byte>): (r: Read<CloseExpiredOrdersResponse>)
    ensures r.Good? ==> r.n <= |b|
  {
    if id == 1 && t == I32 then Map(ReadI32(b), v => p.(closedCount := v))
    else if id == 2 && t == LIST then Map(ReadI64List(b), v => p.(orderIds := Slice(v)))
    else if id == 255 && t == STRUCT then Map(ReadStruct(BaseSwitch, b, ZERO_BASE), v => p.(base := Some(v)))
    else SkipTo(p, b, t)
  }

  ghost predicate I64sOnly(es: seq<Value>) {
    forall k :: 0 <= k < |es| ==> es[k].VI64?
  }

  ghost function I64sOf(es: seq<Value>): (r: seq<i64>)
    requires I64sOnly(es)
    ensures |r| == |es| && forall k :: 0 <= k < |es| ==> r[k] == es[k].i64
  {
    seq(|es|, k requires 0 <= k < |es| => es[k].i64)
  }

  ghost function CloseUpdate(p: CloseExpiredOrdersResponse, x: Field): CloseExpiredOrdersResponse {
    match x.value
    case VI32(v) => if x.id == 1 then p.(closedCount := v) else p
    case VList(_, es) => if x.id == 2 && I64sOnly(es) then p.(orderIds := Slice(I64sOf(es))) else p
    case VStruct(fs) => if x.id == 255 then p.(base := Some(Fold(BaseUpdate, ZERO_BASE, fs))) else p
    case _ => p
  }

  ghost predicate CloseTakes(x: Field) {
    WellFormed(x.value) && (x.id == 2 && x.value.VList? ==> I64sOnly(x.value.elems))
  }

  lemma I64sStep(v: i64, size: nat, tail: seq<byte>, b: seq<byte>)
    requires b == Enc(VI64(v)) + tail
    ensures ReadI64s(b, size + 1) == After([v], |Enc(VI64(v))|, ReadI64s(tail, size))
  {
    I64Exact(v, tail);
    Cut(Enc(VI64(v)), tail);
  }

  lemma {:induction false} I64sExact(es: seq<Value>, rest: seq<byte>, b: seq<byte>)
    requires I64sOnly(es) && b == EncElems(es) + rest
    ensures ReadI64s(b, |es|) == Good(I64sOf(es), |EncElems(es)|)
    decreases |es|
  {
    if es != [] {
      var tail := EncElems(es[1..]) + rest;
      EncElemsCons(es, rest);
      I64sStep(es[0].i64, |es| - 1, tail, b);
      I64sExact(es[1..], rest, tail);
      assert I64sOf(es) == [es[0].i64] + I64sOf(es[1..]);
    }
  }

  lemma CloseAccepts(x: Field)
    requires CloseTakes(x)
    ensures Accepts(CloseSwitch, CloseUpdate, x)
  {
    forall p: CloseExpiredOrdersResponse, rest
      ensures CloseSwitch(p, TypeOf(x.value), x.id, Enc(x.value) + rest) == Good(CloseUpdate(p, x), |Enc(x.value)|)
    {
      if x.id == 2 && x.value.VList? {
        I64ListExact(x.value.elemType, x.value.elems, rest);
      } else if x.id == 255 && x.value.VStruct? {
        BaseStructExact(x.value.fields, rest);
      } else {
        PrimitivesExact(x.value, rest);
      }
    }
  }

  lemma I64ListExact(et: byte, es: seq<Value>, rest: seq<byte>)
    requires I64sOnly(es) && |es| < LIMIT
    ensures ReadI64List(Enc(VList(et, es)) + rest) == Good(I64sOf(es), |Enc(VList(et, es))|)
  {
    var b, body := Enc(VList(et, es)) + rest, EncElems(es) + rest;
    AppendAssociates([et] + Word(|es|, 4), EncElems(es), rest);
    ListBeginExact(et, |es|, body);
    I64ListUnfolds(b, et, |es|, body);
    I64sExact(es, rest, body);
  }

  lemma I64ListUnfolds(b: seq<byte>, et: byte, size: nat, body: seq<byte>)
    requires ReadListBegin(b) == Good((et, size), 5) && b[5..] == body
    ensures ReadI64List(b) == Ahead(ReadI64s(body, size), 5)
  {
  }

  // ConfirmOrderPaidRequest

  datatype ConfirmOrderPaidRequest = ConfirmOrderPaidRequest(
    orderId: i64, paymentId: Str, requestId: Option<Str>, paymentMethod: Option<Str>, paymentTradeNo: Option<Str>,
    paidAt: Option<i64>)

  const ZERO_CONFIRM := ConfirmOrderPaidRequest(0, [], None, None, None, None)

  /** An optional field is written only when it is set. */
  function OptString(id: i16, s: Option<Str>): seq<Field> {
    if s.None? then [] else [Field(id, VString(s.value))]
  }

  function OptI64(id: i16, v: Option<i64>): seq<Field> {
    if v.None? then [] else [Field(id, VI64(v.value))]
  }

  function ConfirmFields(p: ConfirmOrderPaidRequest): seq<Field> {
    [Field(1, VI64(p.orderId))] + OptI64(6, p.paidAt) + [Field(2, VString(p.paymentId))]
    + OptString(3, p.requestId) + OptString(4, p.paymentMethod) + OptString(5, p.paymentTradeNo)
  }

  function ConfirmSwitch(p: ConfirmOrderPaidRequest, t: byte, id: i16, b: seq<byte>): (r: Read<ConfirmOrderPaidRequest>)
    ensures r.Good? ==> r.n <= |b|
  {
    if id == 1 && t == I64 then Map(ReadI64(b), v => p.(orderId := v))
    else if id == 2 && t == STRING then Map(ReadString(b), v => p.(paymentId := v))
    else if id == 3 && t == STRING then Map(ReadString(b), v => p.(requestId := Some(v)))
    else if id == 4 && t == STRING then Map(ReadString(b), v => p.(paymentMethod := Some(v)))
    else if id == 5 && t == STRING then Map(ReadString(b), v => p.(paymentTradeNo := Some(v)))
    else if id == 6 && t == I64 then Map(ReadI64(b), v => p.(paidAt := Some(v)))
    else SkipTo(p, b, t)
  }

  ghost function ConfirmUpdate(p: ConfirmOrderPaidRequest, x: Field): ConfirmOrderPaidRequest {
    match x.value
    case VString(v) =>
      if x.id == 2 then p.(paymentId := v)
      else if x.id == 3 then p.(requestId := Some(v))
      else if x.id == 4 then p.(paymentMethod := Some(v))
      else if x.id == 5 then p.(paymentTradeNo := Some(v))
      else p
    case VI64(v) => if x.id == 1 then p.(orderId := v) else if x.id == 6 then p.(paidAt := Some(v)) else p
    case _ => p
  }

  lemma ConfirmAccepts(x: Field)
    requires WellFormed(x.value)
    ensures Accepts(ConfirmSwitch, ConfirmUpdate, x)
  {
    forall p: ConfirmOrderPaidRequest, rest
      ensures ConfirmSwitch(p, TypeOf(x.value), x.id, Enc(x.value) + rest) == Good(ConfirmUpdate(p, x), |Enc(x.value)|)
    {
      PrimitivesExact(x.value, rest);
    }
  }
}
