/**
 Rearranging a whole list response at once: its own fields, those of its orders, of their items and of its header, each
 among fields the readers do not know.
 */
module ThriftNested {
  import opened Prelude
  import opened ThriftWire
  import opened ThriftStruct
  import opened ThriftRecords
  import opened ThriftRoundTrip
  import opened ThriftArrangement

  /** gs holds the fields fs in some order, among others that a reader with this schema skips. */
  ghost predicate Scrambles(schema: i16 -> byte, gs: seq<Field>, fs: seq<Field>) {
    exists mask :: Arranges(gs, mask, fs) && Foreign(schema, gs, mask)
  }

  ghost predicate BaseMeans(v: Value, p: Option<BaseResponse>) {
    v.VStruct? && Scrambles(BaseType, v.fields, BaseValue(p).fields)
  }

  ghost predicate ItemMeans(v: Value, p: Option<OrderItem>) {
    v.VStruct? && Scrambles(ItemType, v.fields, ItemValue(p).fields)
  }

  ghost predicate ItemsMean(es: seq<Value>, ps: seq<Option<OrderItem>>) {
    |es| == |ps| && forall k :: 0 <= k < |es| ==> ItemMeans(es[k], ps[k])
  }

  ghost predicate OrderMeans(v: Value, p: Option<Order>) {
    && v.VStruct?
    && match p
       case None => Scrambles(OrderType, v.fields, [])
       case Some(o) =>
         exists et, es :: ItemsMean(es, Elems(o.items)) && Scrambles(OrderType, v.fields, OrderFieldsWith(o, et, es))
  }

  ghost predicate OrdersMean(es: seq<Value>, ps: seq<Option<Order>>) {
    |es| == |ps| && forall k :: 0 <= k < |es| ==> OrderMeans(es[k], ps[k])
  }

  /** The fields of a response with any lists and any header in the places of its own. */
  function ListFieldsWith(p: ListOrdersResponse, et: byte, es: seq<Value>, base: Value): seq<Field> {
    [Field(2, VI64(p.total)), Field(1, VList(et, es)), Field(255, base)]
  }

  ghost predicate ListMeans(v: Value, p: ListOrdersResponse) {
    && v.VStruct?
    && exists et, es, base :: OrdersMean(es, Elems(p.orders)) && BaseMeans(base, p.base)
         && Scrambles(ListType, v.fields, ListFieldsWith(p, et, es, base))
  }

  // What a scrambled struct means.

  lemma ScrambledFold<T(!new)>(f: Switch<T>, g: Update<T>, zero: T, schema: i16 -> byte, gs: seq<Field>, fs: seq<Field>)
    requires IgnoresForeign(f, g, schema) && Commutes(g) && Scrambles(schema, gs, fs) && DistinctIds(fs)
    ensures Fold(g, zero, gs) == Fold(g, zero, fs)
  {
    var mask :| Arranges(gs, mask, fs) && Foreign(schema, gs, mask);
    assert forall k :: 0 <= k < |gs| && !mask[k] ==> Ignored(g, gs[k]);
    ArrangedFold(g, zero, fs, gs, mask);
  }

  lemma ItemIdsDistinct(p: Option<OrderItem>)
    ensures DistinctIds(ItemValue(p).fields)
  {
  }

  lemma ItemMeaning(v: Value, p: Option<OrderItem>)
    requires ItemMeans(v, p)
    ensures Fold(ItemUpdate, ZERO_ITEM, v.fields) == OrZero(p, ZERO_ITEM)
  {
    ItemIdsDistinct(p);
    ItemForeign();
    ItemCommutes();
    ScrambledFold(ItemSwitch, ItemUpdate, ZERO_ITEM, ItemType, v.fields, ItemValue(p).fields);
    ItemValueFold(p);
  }

  lemma ItemValueFold(p: Option<OrderItem>)
    ensures Fold(ItemUpdate, ZERO_ITEM, ItemValue(p).fields) == OrZero(p, ZERO_ITEM)
  {
    if p.Some? { ItemFold(p.value); }
  }

  lemma BaseMeaning(v: Value, p: Option<BaseResponse>)
    requires BaseMeans(v, p)
    ensures Fold(BaseUpdate, ZERO_BASE, v.fields) == OrZero(p, ZERO_BASE)
  {
    BaseForeign();
    BaseCommutes();
    ScrambledFold(BaseSwitch, BaseUpdate, ZERO_BASE, BaseType, v.fields, BaseValue(p).fields);
    BaseValueFold(p);
  }

  lemma ItemsMeaning(es: seq<Value>, ps: seq<Option<OrderItem>>)
    requires ItemsMean(es, ps)
    ensures StructsOnly(es) && FoldElems(ItemUpdate, ZERO_ITEM, es) == ItemsBack(ps)
  {
    forall k | 0 <= k < |es|
      ensures es[k].VStruct? && Fold(ItemUpdate, ZERO_ITEM, es[k].fields) == ItemsBack(ps)[k]
    {
      ItemMeaning(es[k], ps[k]);
    }
  }

  /** A field sequence that scrambles fields the order reader takes. */
  lemma ScrambledOrder(gs: seq<Field>, fs: seq<Field>)
    requires Scrambles(OrderType, gs, fs) && DistinctIds(fs)
    requires forall x :: x in fs && x.id == 7 && x.value.VList? ==> StructsOnly(x.value.elems)
    ensures Fold(OrderUpdate, ZERO_ORDER, gs) == Fold(OrderUpdate, ZERO_ORDER, fs)
    ensures WellFormed(VStruct(gs)) ==> OrderStructTaken(VStruct(gs))
  {
    var mask :| Arranges(gs, mask, fs) && Foreign(OrderType, gs, mask);
    forall k | 0 <= k < |gs| ensures FieldOk(gs[k]) ==> OrderTakes(gs[k]) {
      if mask[k] { ArrangedMember(fs, gs, mask, k); }
    }
    OrderForeign();
    OrderCommutes();
    ScrambledFold(OrderSwitch, OrderUpdate, ZERO_ORDER, OrderType, gs, fs);
  }

  lemma OrderFieldsWithSound(p: Order, et: byte, es: seq<Value>, fs: seq<Field>)
    requires fs == OrderFieldsWith(p, et, es) && StructsOnly(es)
    ensures DistinctIds(fs)
    ensures forall x :: x in fs && x.id == 7 && x.value.VList? ==> StructsOnly(x.value.elems)
  {
  }

  lemma OrderMeaning(v: Value, p: Option<Order>)
    requires OrderMeans(v, p)
    ensures Fold(OrderUpdate, ZERO_ORDER, v.fields) == if p.Some? then OrderBack(p.value) else ZERO_ORDER
    ensures WellFormed(v) ==> OrderStructTaken(v)
  {
    if p.None? {
      ScrambledOrder(v.fields, []);
    } else {
      var et, es :| ItemsMean(es, Elems(p.value.items)) && Scrambles(OrderType, v.fields, OrderFieldsWith(p.value, et, es));
      ItemsMeaning(es, Elems(p.value.items));
      OrderFoldWith(p.value, et, es);
      OrderScrambled(v.fields, p.value, et, es, OrderFieldsWith(p.value, et, es));
    }
    assert v == VStruct(v.fields);
  }

  lemma OrderScrambled(gs: seq<Field>, p: Order, et: byte, es: seq<Value>, fs: seq<Field>)
    requires fs == OrderFieldsWith(p, et, es) && StructsOnly(es) && Scrambles(OrderType, gs, fs)
    ensures Fold(OrderUpdate, ZERO_ORDER, gs) == Fold(OrderUpdate, ZERO_ORDER, fs)
    ensures WellFormed(VStruct(gs)) ==> OrderStructTaken(VStruct(gs))
  {
    OrderFieldsWithSound(p, et, es, fs);
    ScrambledOrder(gs, fs);
  }

  lemma OrdersMeaning(es: seq<Value>, ps: seq<Option<Order>>)
    requires OrdersMean(es, ps)
    ensures StructsOnly(es) && FoldElems(OrderUpdate, ZERO_ORDER, es) == OrdersBack(ps)
    ensures forall k :: 0 <= k < |es| && WellFormed(es[k]) ==> OrderStructTaken(es[k])
  {
    forall k | 0 <= k < |es|
      ensures es[k].VStruct? && Fold(OrderUpdate, ZERO_ORDER, es[k].fields) == OrdersBack(ps)[k]
      ensures WellFormed(es[k]) ==> OrderStructTaken(es[k])
    {
      OrderMeaning(es[k], ps[k]);
    }
  }

  lemma ListFoldWith(p: ListOrdersResponse, et: byte, es: seq<Value>, base: Value)
    requires OrdersMean(es, Elems(p.orders)) && BaseMeans(base, p.base)
    ensures Fold(ListUpdate, ZERO_LIST, ListFieldsWith(p, et, es, base)) == ListBack(p)
  {
    var fs := ListFieldsWith(p, et, es, base);
    OrdersMeaning(es, Elems(p.orders));
    BaseMeaning(base, p.base);
    FoldThree(ListUpdate, ZERO_LIST, [], fs[0], fs[1], fs[2]);
    assert fs == [] + [fs[0], fs[1], fs[2]];
  }

  lemma ListFieldsWithTaken(p: ListOrdersResponse, et: byte, es: seq<Value>, base: Value)
    requires OrdersMean(es, Elems(p.orders)) && WellFormed(VList(et, es)) && WellFormed(base)
    ensures var fs := ListFieldsWith(p, et, es, base);
      AcceptsAll(ListSwitch, ListUpdate, fs) && DistinctIds(fs)
  {
    var fs := ListFieldsWith(p, et, es, base);
    OrdersMeaning(es, Elems(p.orders));
    forall k | 0 <= k < |es| ensures OrderStructTaken(es[k]) {
      assert ElemOk(et, es[k]);
    }
    forall k | 0 <= k < |fs| ensures Accepts(ListSwitch, ListUpdate, fs[k]) {
      assert ListTakes(fs[k]);
      ListAccepts(fs[k]);
    }
  }

  lemma FieldsWellFormed(fs: seq<Field>, gs: seq<Field>, mask: seq<bool>)
    requires WellFormed(VStruct(gs)) && Arranges(gs, mask, fs)
    ensures forall x :: x in fs ==> WellFormed(x.value)
  {
    forall x | x in fs ensures WellFormed(x.value) {
      assert x in multiset(Keep(gs, mask));
      KeptFromThere(gs, mask, x);
      var k :| 0 <= k < |gs| && gs[k] == x;
      assert FieldOk(gs[k]);
    }
  }

  lemma {:induction false} KeptFromThere(gs: seq<Field>, mask: seq<bool>, x: Field)
    requires |gs| == |mask| && x in Keep(gs, mask)
    ensures x in gs
    decreases |gs|
  {
    if x != gs[0] || !mask[0] {
      KeptFromThere(gs[1..], mask[1..], x);
    }
  }

  /** Reading any scrambled encoding of a response, scrambled at every level, gives the response back. */
  lemma ListReadsScrambled(v: Value, p: ListOrdersResponse, rest: seq<byte>)
    requires WellFormed(v) && ListMeans(v, p)
    ensures ReadStruct(ListSwitch, Enc(v) + rest, ZERO_LIST) == Good(ListBack(p), |Enc(v)|)
  {
    var et, es, base :| OrdersMean(es, Elems(p.orders)) && BaseMeans(base, p.base)
         && Scrambles(ListType, v.fields, ListFieldsWith(p, et, es, base));
    var fs := ListFieldsWith(p, et, es, base);
    var mask :| Arranges(v.fields, mask, fs) && Foreign(ListType, v.fields, mask);
    FieldsWellFormed(fs, v.fields, mask);
    assert fs[1] in fs && fs[2] in fs;
    ListFieldsWithTaken(p, et, es, base);
    ListFoldWith(p, et, es, base);
    ListForeign();
    ListCommutes();
    ReadsArranged(ListSwitch, ListUpdate, ZERO_LIST, ListType, fs, v.fields, mask, rest);
    assert v == VStruct(v.fields);
  }

  // What the writers emit is one of them.

  lemma InOrder(schema: i16 -> byte, fs: seq<Field>)
    ensures Scrambles(schema, fs, fs)
  {
    var mask := seq(|fs|, _ => true);
    KeepAll(fs, mask);
    assert Arranges(fs, mask, fs) && Foreign(schema, fs, mask);
  }

  lemma ItemsWrittenMean(ps: seq<Option<OrderItem>>)
    ensures ItemsMean(ItemValues(ps), ps)
  {
    forall k | 0 <= k < |ps| ensures ItemMeans(ItemValues(ps)[k], ps[k]) {
      InOrder(ItemType, ItemValue(ps[k]).fields);
    }
  }

  lemma OrderWrittenMeans(p: Option<Order>)
    ensures OrderMeans(OrderValue(p), p)
  {
    InOrder(OrderType, OrderValue(p).fields);
    if p.Some? {
      ItemsWrittenMean(Elems(p.value.items));
      OrderFieldsInOrder(p.value, STRUCT, ItemValues(Elems(p.value.items)), OrderFields(p.value));
    }
  }

  lemma OrderFieldsInOrder(p: Order, et: byte, es: seq<Value>, fs: seq<Field>)
    requires fs == OrderFields(p) && et == STRUCT && es == ItemValues(Elems(p.items))
    ensures fs == OrderFieldsWith(p, et, es)
  {
  }

  lemma WrittenMeans(p: ListOrdersResponse)
    ensures ListMeans(VStruct(ListFields(p)), p)
  {
    var ps := Elems(p.orders);
    forall k | 0 <= k < |ps| ensures OrderMeans(OrderValues(ps)[k], ps[k]) {
      OrderWrittenMeans(ps[k]);
    }
    assert OrdersMean(OrderValues(ps), ps);
    InOrder(BaseType, BaseValue(p.base).fields);
    InOrder(ListType, ListFields(p));
    assert ListFieldsWith(p, STRUCT, OrderValues(ps), BaseValue(p.base)) == ListFields(p);
  }
}
