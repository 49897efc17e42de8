/**
 Readers do not depend on the order of a record's fields, nor on fields they do not know: an unknown id, or a known id
 with another wire type.
 */
module ThriftArrangement {
  import opened Prelude
  import opened ThriftWire
  import opened ThriftStruct
  import opened ThriftRecords
  import opened ThriftRoundTrip

  /** Well-formed fields that a reader with this schema skips. */
  ghost predicate Foreign(schema: i16 -> byte, gs: seq<Field>, mask: seq<bool>)
    requires |gs| == |mask|
  {
    forall k :: 0 <= k < |gs| && !mask[k] ==> WellFormed(gs[k].value) && schema(gs[k].id) != TypeOf(gs[k].value)
  }

  /** The switch reads past the field without effect, whatever the struct and whatever follows. */
  ghost predicate ReadsPast<T(!new)>(f: Switch<T>, x: Field) {
    forall p: T, rest :: f(p, TypeOf(x.value), x.id, Enc(x.value) + rest) == Good(p, |Enc(x.value)|)
  }

  lemma IgnoredIsReadPast<T(!new)>(f: Switch<T>, g: Update<T>, x: Field)
    requires Accepts(f, g, x) && Ignored(g, x)
    ensures ReadsPast(f, x)
  {
    forall p: T, rest ensures f(p, TypeOf(x.value), x.id, Enc(x.value) + rest) == Good(p, |Enc(x.value)|) {
      assert g(p, x) == p;
    }
  }

  /** The update takes a field exactly as the switch does and ignores it, if its type is not the one its id has. */
  ghost predicate IgnoresForeign<T(!new)>(f: Switch<T>, g: Update<T>, schema: i16 -> byte) {
    forall x: Field {:trigger Accepts(f, g, x)} {:trigger Ignored(g, x)} ::
      WellFormed(x.value) && schema(x.id) != TypeOf(x.value) ==> Accepts(f, g, x) && Ignored(g, x)
  }

  /** Whatever stands between them, fields in any order mean what they mean in theirs. */
  lemma ReadsArranged<T(!new)>(f: Switch<T>, g: Update<T>, zero: T, schema: i16 -> byte, fs: seq<Field>,
        gs: seq<Field>, mask: seq<bool>, rest: seq<byte>)
    requires IgnoresForeign(f, g, schema) && Commutes(g) && AcceptsAll(f, g, fs) && DistinctIds(fs)
    requires Arranges(gs, mask, fs) && Foreign(schema, gs, mask)
    ensures ReadStruct(f, Enc(VStruct(gs)) + rest, zero) == Good(Fold(g, zero, fs), |Enc(VStruct(gs))|)
  {
    assert forall k :: 0 <= k < |gs| && !mask[k] ==> Accepts(f, g, gs[k]) && Ignored(g, gs[k]);
    ReadsAnyArrangement(f, g, zero, fs, gs, mask, rest);
  }

  lemma ReadsEveryArrangement<T(!new)>(f: Switch<T>, g: Update<T>, zero: T, schema: i16 -> byte, fs: seq<Field>, back: T)
    requires IgnoresForeign(f, g, schema) && Commutes(g) && AcceptsAll(f, g, fs) && DistinctIds(fs)
    requires Fold(g, zero, fs) == back
    ensures forall gs, mask, rest :: Arranges(gs, mask, fs) && Foreign(schema, gs, mask) ==>
      ReadStruct(f, Enc(VStruct(gs)) + rest, zero) == Good(back, |Enc(VStruct(gs))|)
  {
    forall gs, mask, rest | Arranges(gs, mask, fs) && Foreign(schema, gs, mask)
      ensures ReadStruct(f, Enc(VStruct(gs)) + rest, zero) == Good(back, |Enc(VStruct(gs))|)
    {
      ReadsArranged(f, g, zero, schema, fs, gs, mask, rest);
    }
  }

  /** A field of the expected type leaves its mark on one of the two structs. */
  ghost predicate Marks<T(!new)>(f: Switch<T>, schema: i16 -> byte, zero: T, other: T) {
    forall t, id, b, n :: schema(id) == t != STOP ==> f(zero, t, id, b) != Good(zero, n) || f(other, t, id, b) != Good(other, n)
  }

  lemma SkipsExactly<T(!new)>(f: Switch<T>, g: Update<T>, schema: i16 -> byte, zero: T, other: T, x: Field)
    requires IgnoresForeign(f, g, schema) && Marks(f, schema, zero, other) && WellFormed(x.value)
    ensures ReadsPast(f, x) <==> schema(x.id) != TypeOf(x.value)
  {
    if schema(x.id) == TypeOf(x.value) {
      var b := Enc(x.value) + [];
      assert f(zero, TypeOf(x.value), x.id, b) != Good(zero, |Enc(x.value)|)
        || f(other, TypeOf(x.value), x.id, b) != Good(other, |Enc(x.value)|);
    } else {
      assert Accepts(f, g, x);
      IgnoredIsReadPast(f, g, x);
    }
  }

  // BaseResponse

  /** The wire type a BaseResponse expects for an id; STOP for an id it does not know. */
  function BaseType(id: i16): byte {
    if id == 1 then I32 else if id == 2 then STRING else STOP
  }

  lemma BaseCommutes()
    ensures Commutes(BaseUpdate)
  {
    forall p: BaseResponse, x: Field, y: Field | x.id != y.id
      ensures BaseUpdate(BaseUpdate(p, x), y) == BaseUpdate(BaseUpdate(p, y), x)
    {
    }
  }

  lemma BaseForeign()
    ensures IgnoresForeign(BaseSwitch, BaseUpdate, BaseType)
  {
    forall x: Field | WellFormed(x.value) && BaseType(x.id) != TypeOf(x.value)
      ensures Accepts(BaseSwitch, BaseUpdate, x) && Ignored(BaseUpdate, x)
    {
      BaseAccepts(x);
    }
  }

  lemma BaseArrangement(p: BaseResponse)
    requires BaseFits(Some(p))
    ensures forall gs, mask, rest :: Arranges(gs, mask, BaseFields(p)) && Foreign(BaseType, gs, mask) ==>
      ReadStruct(BaseSwitch, Enc(VStruct(gs)) + rest, ZERO_BASE) == Good(p, |Enc(VStruct(gs))|)
  {
    BaseWritten(p);
    BaseFold(p);
    BaseCommutes();
    BaseForeign();
    ReadsEveryArrangement(BaseSwitch, BaseUpdate, ZERO_BASE, BaseType, BaseFields(p), p);
  }

  const OTHER_BASE := BaseResponse(1, [0])

  lemma BaseSkipsExactly(x: Field)
    requires WellFormed(x.value)
    ensures ReadsPast(BaseSwitch, x) <==> BaseType(x.id) != TypeOf(x.value)
  {
    BaseForeign();
    BaseMarks();
    SkipsExactly(BaseSwitch, BaseUpdate, BaseType, ZERO_BASE, OTHER_BASE, x);
  }

  lemma BaseMarks()
    ensures Marks(BaseSwitch, BaseType, ZERO_BASE, OTHER_BASE)
  {
  }

  // OrderItem

  /** The wire type an OrderItem expects for an id; STOP for an id it does not know. */
  function ItemType(id: i16): byte {
    if id == 8 then I32 else if id == 5 || id == 6 then STRING else if 1 <= id <= 9 then I64 else STOP
  }

  lemma ItemCommutes()
    ensures Commutes(ItemUpdate)
  {
    forall p: OrderItem, x: Field, y: Field | x.id != y.id
      ensures ItemUpdate(ItemUpdate(p, x), y) == ItemUpdate(ItemUpdate(p, y), x)
    {
    }
  }

  lemma ItemForeign()
    ensures IgnoresForeign(ItemSwitch, ItemUpdate, ItemType)
  {
    forall x: Field | WellFormed(x.value) && ItemType(x.id) != TypeOf(x.value)
      ensures Accepts(ItemSwitch, ItemUpdate, x) && Ignored(ItemUpdate, x)
    {
      ItemAccepts(x);
    }
  }

  lemma ItemArrangement(p: OrderItem)
    requires ItemFits(Some(p))
    ensures forall gs, mask, rest :: Arranges(gs, mask, ItemFields(p)) && Foreign(ItemType, gs, mask) ==>
      ReadStruct(ItemSwitch, Enc(VStruct(gs)) + rest, ZERO_ITEM) == Good(p, |Enc(VStruct(gs))|)
  {
    ItemWritten(p);
    ItemFold(p);
    ItemCommutes();
    ItemForeign();
    ReadsEveryArrangement(ItemSwitch, ItemUpdate, ZERO_ITEM, ItemType, ItemFields(p), p);
  }

  const OTHER_ITEM := OrderItem(1, 1, 1, 1, [0], [0], 1, 1, 1)

  lemma ItemSkipsExactly(x: Field)
    requires WellFormed(x.value)
    ensures ReadsPast(ItemSwitch, x) <==> ItemType(x.id) != TypeOf(x.value)
  {
    ItemForeign();
    ItemMarks();
    SkipsExactly(ItemSwitch, ItemUpdate, ItemType, ZERO_ITEM, OTHER_ITEM, x);
  }

  lemma ItemMarks()
    ensures Marks(ItemSwitch, ItemType, ZERO_ITEM, OTHER_ITEM)
  {
  }

  // Order

  /** The wire type an Order expects for an id; STOP for an id it does not know. */
  function OrderType(id: i16): byte {
    if id == 3 then I32
    else if id == 7 then LIST
    else if id == 8 || id == 9 || id == 11 || id == 12 then STRING
    else if 1 <= id <= 10 then I64
    else STOP
  }

  lemma OrderNumbersCommute(p: Order, x: Field, y: Field)
    requires x.id != y.id && x.value.VI64? && y.value.VI64?
    ensures OrderUpdate(OrderUpdate(p, x), y) == OrderUpdate(OrderUpdate(p, y), x)
  {
  }

  lemma OrderTextsCommute(p: Order, x: Field, y: Field)
    requires x.id != y.id && x.value.VString? && y.value.VString?
    ensures OrderUpdate(OrderUpdate(p, x), y) == OrderUpdate(OrderUpdate(p, y), x)
  {
  }

  lemma OrderCommutes()
    ensures Commutes(OrderUpdate)
  {
    forall p: Order, x: Field, y: Field | x.id != y.id
      ensures OrderUpdate(OrderUpdate(p, x), y) == OrderUpdate(OrderUpdate(p, y), x)
    {
      if x.value.VI64? && y.value.VI64? {
        OrderNumbersCommute(p, x, y);
      } else if x.value.VString? && y.value.VString? {
        OrderTextsCommute(p, x, y);
      }
    }
  }

  lemma OrderForeign()
    ensures IgnoresForeign(OrderSwitch, OrderUpdate, OrderType)
  {
    forall x: Field | WellFormed(x.value) && OrderType(x.id) != TypeOf(x.value)
      ensures Accepts(OrderSwitch, OrderUpdate, x) && Ignored(OrderUpdate, x)
    {
      OrderAccepts(x);
    }
  }

  lemma OrderArrangement(p: Order)
    requires OrderFits(Some(p))
    ensures forall gs, mask, rest :: Arranges(gs, mask, OrderFields(p)) && Foreign(OrderType, gs, mask) ==>
      ReadStruct(OrderSwitch, Enc(VStruct(gs)) + rest, ZERO_ORDER) == Good(OrderBack(p), |Enc(VStruct(gs))|)
  {
    OrderWritten(p);
    OrderFold(p);
    OrderCommutes();
    OrderForeign();
    ReadsEveryArrangement(OrderSwitch, OrderUpdate, ZERO_ORDER, OrderType, OrderFields(p), OrderBack(p));
  }

  const OTHER_ORDER := Order(1, 1, 1, 1, 1, 1, Nil, [0], [0], 1, [0], [0])

  lemma OrderSkipsExactly(x: Field)
    requires WellFormed(x.value)
    ensures ReadsPast(OrderSwitch, x) <==> OrderType(x.id) != TypeOf(x.value)
  {
    OrderForeign();
    OrderMarks();
    SkipsExactly(OrderSwitch, OrderUpdate, OrderType, ZERO_ORDER, OTHER_ORDER, x);
  }

  lemma OrderMarks()
    ensures Marks(OrderSwitch, OrderType, ZERO_ORDER, OTHER_ORDER)
  {
  }

  // ListOrdersResponse

  /** The wire type a ListOrdersResponse expects for an id; STOP for an id it does not know. */
  function ListType(id: i16): byte {
    if id == 1 then LIST else if id == 2 then I64 else if id == 255 then STRUCT else STOP
  }

  lemma ListCommutes()
    ensures Commutes(ListUpdate)
  {
    forall p: ListOrdersResponse, x: Field, y: Field | x.id != y.id
      ensures ListUpdate(ListUpdate(p, x), y) == ListUpdate(ListUpdate(p, y), x)
    {
    }
  }

  lemma ListForeign()
    ensures IgnoresForeign(ListSwitch, ListUpdate, ListType)
  {
    forall x: Field | WellFormed(x.value) && ListType(x.id) != TypeOf(x.value)
      ensures Accepts(ListSwitch, ListUpdate, x) && Ignored(ListUpdate, x)
    {
      ListAccepts(x);
    }
  }

  lemma ListArrangement(p: ListOrdersResponse)
    requires ListFits(p)
    ensures forall gs, mask, rest :: Arranges(gs, mask, ListFields(p)) && Foreign(ListType, gs, mask) ==>
      ReadStruct(ListSwitch, Enc(VStruct(gs)) + rest, ZERO_LIST) == Good(ListBack(p), |Enc(VStruct(gs))|)
  {
    ListWritten(p);
    ListFold(p);
    ListCommutes();
    ListForeign();
    ReadsEveryArrangement(ListSwitch, ListUpdate, ZERO_LIST, ListType, ListFields(p), ListBack(p));
  }

  const OTHER_LIST := ListOrdersResponse(Nil, 1, None)

  lemma ListSkipsExactly(x: Field)
    requires WellFormed(x.value)
    ensures ReadsPast(ListSwitch, x) <==> ListType(x.id) != TypeOf(x.value)
  {
    ListForeign();
    ListMarks();
    SkipsExactly(ListSwitch, ListUpdate, ListType, ZERO_LIST, OTHER_LIST, x);
  }

  lemma ListMarks()
    ensures Marks(ListSwitch, ListType, ZERO_LIST, OTHER_LIST)
  {
  }

  // CloseExpiredOrdersResponse

  /** The wire type a CloseExpiredOrdersResponse expects for an id; STOP for an id it does not know. */
  function CloseType(id: i16): byte {
    if id == 1 then I32 else if id == 2 then LIST else if id == 255 then STRUCT else STOP
  }

  lemma CloseCommutes()
    ensures Commutes(CloseUpdate)
  {
    forall p: CloseExpiredOrdersResponse, x: Field, y: Field | x.id != y.id
      ensures CloseUpdate(CloseUpdate(p, x), y) == CloseUpdate(CloseUpdate(p, y), x)
    {
    }
  }

  lemma CloseForeign()
    ensures IgnoresForeign(CloseSwitch, CloseUpdate, CloseType)
  {
    forall x: Field | WellFormed(x.value) && CloseType(x.id) != TypeOf(x.value)
      ensures Accepts(CloseSwitch, CloseUpdate, x) && Ignored(CloseUpdate, x)
    {
      CloseAccepts(x);
    }
  }

  lemma CloseArrangement(p: CloseExpiredOrdersResponse)
    requires CloseFits(p)
    ensures forall gs, mask, rest :: Arranges(gs, mask, CloseFields(p)) && Foreign(CloseType, gs, mask) ==>
      ReadStruct(CloseSwitch, Enc(VStruct(gs)) + rest, ZERO_CLOSE) == Good(CloseBack(p), |Enc(VStruct(gs))|)
  {
    CloseWritten(p);
    CloseFold(p);
    CloseCommutes();
    CloseForeign();
    ReadsEveryArrangement(CloseSwitch, CloseUpdate, ZERO_CLOSE, CloseType, CloseFields(p), CloseBack(p));
  }

  const OTHER_CLOSE := CloseExpiredOrdersResponse(1, Nil, None)

  lemma CloseSkipsExactly(x: Field)
    requires WellFormed(x.value)
    ensures ReadsPast(CloseSwitch, x) <==> CloseType(x.id) != TypeOf(x.value)
  {
    CloseForeign();
    CloseMarks();
    SkipsExactly(CloseSwitch, CloseUpdate, CloseType, ZERO_CLOSE, OTHER_CLOSE, x);
  }

  lemma CloseMarks()
    ensures Marks(CloseSwitch, CloseType, ZERO_CLOSE, OTHER_CLOSE)
  {
  }

  // ConfirmOrderPaidRequest

  /** The wire type a ConfirmOrderPaidRequest expects for an id; STOP for an id it does not know. */
  function ConfirmType(id: i16): byte {
    if id == 1 || id == 6 then I64 else if 2 <= id <= 5 then STRING else STOP
  }

  lemma ConfirmCommutes()
    ensures Commutes(ConfirmUpdate)
  {
    forall p: ConfirmOrderPaidRequest, x: Field, y: Field | x.id != y.id
      ensures ConfirmUpdate(ConfirmUpdate(p, x), y) == ConfirmUpdate(ConfirmUpdate(p, y), x)
    {
    }
  }

  lemma ConfirmForeign()
    ensures IgnoresForeign(ConfirmSwitch, ConfirmUpdate, ConfirmType)
  {
    forall x: Field | WellFormed(x.value) && ConfirmType(x.id) != TypeOf(x.value)
      ensures Accepts(ConfirmSwitch, ConfirmUpdate, x) && Ignored(ConfirmUpdate, x)
    {
      ConfirmAccepts(x);
    }
  }

  lemma ConfirmArrangement(p: ConfirmOrderPaidRequest)
    requires ConfirmFits(p)
    ensures forall gs, mask, rest :: Arranges(gs, mask, ConfirmFields(p)) && Foreign(ConfirmType, gs, mask) ==>
      ReadStruct(ConfirmSwitch, Enc(VStruct(gs)) + rest, ZERO_CONFIRM) == Good(p, |Enc(VStruct(gs))|)
  {
    ConfirmWritten(p);
    ConfirmFold(p);
    ConfirmCommutes();
    ConfirmForeign();
    ReadsEveryArrangement(ConfirmSwitch, ConfirmUpdate, ZERO_CONFIRM, ConfirmType, ConfirmFields(p), p);
  }

  const OTHER_CONFIRM := ConfirmOrderPaidRequest(1, [0], None, None, None, None)

  lemma ConfirmSkipsExactly(x: Field)
    requires WellFormed(x.value)
    ensures ReadsPast(ConfirmSwitch, x) <==> ConfirmType(x.id) != TypeOf(x.value)
  {
    ConfirmForeign();
    ConfirmMarks();
    SkipsExactly(ConfirmSwitch, ConfirmUpdate, ConfirmType, ZERO_CONFIRM, OTHER_CONFIRM, x);
  }

  lemma ConfirmMarks()
    ensures Marks(ConfirmSwitch, ConfirmType, ZERO_CONFIRM, OTHER_CONFIRM)
  {
  }

  // The element type of a list is not read.

  /** Two lists that differ only in the element type on the wire read the same. */
  lemma ElementTypeIsNotRead<T(!new)>(f: Switch<T>, zero: T, et: byte, other: byte, b: seq<byte>)
    ensures ReadStructList(f, zero, [et] + b) == ReadStructList(f, zero, [other] + b)
    ensures ReadI64List([et] + b) == ReadI64List([other] + b)
  {
    if |b| >= 4 {
      assert ([et] + b)[1..5] == b[..4] == ([other] + b)[1..5];
      assert ([et] + b)[5..] == b[4..] == ([other] + b)[5..];
    }
  }

  function ZeroItems(n: nat): (r: seq<OrderItem>)
    ensures |r| == n && forall k :: 0 <= k < n ==> r[k] == ZERO_ITEM
  {
    seq(n, _ => ZERO_ITEM)
  }

  /**
   So the wrong-type rule stops at the list header: a well-formed list of zero bytes where a list of items belongs is
   neither skipped nor refused but read as that many zero items.
   */
  lemma BytesReadAsItems(es: seq<Value>, rest: seq<byte>)
    requires |es| < LIMIT && forall k :: 0 <= k < |es| ==> es[k] == VByte(0)
    ensures var v := VList(BYTE, es);
      WellFormed(v) && ReadStructList(ItemSwitch, ZERO_ITEM, Enc(v) + rest) == Good(ZeroItems(|es|), |Enc(v)|)
  {
    AppendAssociates([BYTE] + Word(|es|, 4), EncElems(es), rest);
    ListBeginExact(BYTE, |es|, EncElems(es) + rest);
    ZerosAreStops(es, EncElems(es) + rest, rest);
  }

  lemma {:induction false} ZerosAreStops(es: seq<Value>, b: seq<byte>, rest: seq<byte>)
    requires forall k :: 0 <= k < |es| ==> es[k] == VByte(0)
    requires b == EncElems(es) + rest
    ensures ReadStructs(ItemSwitch, ZERO_ITEM, b, |es|) == Good(ZeroItems(|es|), |EncElems(es)|)
    decreases |es|
  {
    if es == [] {
      assert ZeroItems(0) == [];
    } else {
      var tail := EncElems(es[1..]) + rest;
      EncElemsCons(es, rest);
      assert Word(0, 1) == Word(0, 0) + [0];
      assert b == [STOP] + tail && b[1..] == tail;
      ZerosAreStops(es[1..], tail, rest);
      assert ZeroItems(|es|) == [ZERO_ITEM] + ZeroItems(|es| - 1);
    }
  }
}
