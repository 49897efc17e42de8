/** Order items and orders (kitex_gen/meshcart/order/k-order.go). */
module ThriftOrder {
  import opened Prelude
  import opened ThriftWire
  import opened ThriftStruct
  import opened ThriftBuffer
  import R = ThriftRecords

  class OrderItem {
    var itemId: i64
    var orderId: i64
    var productId: i64
    var skuId: i64
    var productTitleSnapshot: Str
    var skuTitleSnapshot: Str
    var salePriceSnapshot: i64
    var quantity: i32
    var subtotalAmount: i64

    constructor ()
      ensures View() == R.ZERO_ITEM
    {
      itemId := 0;
      orderId := 0;
      productId := 0;
      skuId := 0;
      productTitleSnapshot := [];
      skuTitleSnapshot := [];
      salePriceSnapshot := 0;
      quantity := 0;
      subtotalAmount := 0;
    }

    ghost function View(): R.OrderItem
      reads this
    {
      R.OrderItem(itemId, orderId, productId, skuId, productTitleSnapshot, skuTitleSnapshot,
                  salePriceSnapshot, quantity, subtotalAmount)
    }

    /** The record holds the object's fields, name by name. */
    lemma ViewNames()
      ensures View().itemId == itemId && View().orderId == orderId && View().productId == productId
      ensures View().skuId == skuId && View().productTitleSnapshot == productTitleSnapshot
      ensures View().skuTitleSnapshot == skuTitleSnapshot && View().salePriceSnapshot == salePriceSnapshot
      ensures View().quantity == quantity && View().subtotalAmount == subtotalAmount
    {
    }

    method ReadField(t: byte, id: i16, b: seq<byte>, ghost f: Switch<R.OrderItem>, ghost r: Read<R.OrderItem>)
      returns (ok: bool, l: nat)
      requires Agrees(f, R.ItemSwitch) && r == f(View(), t, id, b)
      modifies this
      ensures ok == r.Good? && (ok ==> View() == r.val && l == r.n <= |b|)
      ensures !ok ==> View() == old(View())
    {
      assert r == R.ItemSwitch(View(), t, id, b);
      if id == 1 && t == I64 {
        var v := ReadI64(b);
        if v.Bad? { return false, 0; }
        itemId := v.val;
        return true, v.n;
      } else if id == 2 && t == I64 {
        var v := ReadI64(b);
        if v.Bad? { return false, 0; }
        orderId := v.val;
        return true, v.n;
      } else if id == 3 && t == I64 {
        var v := ReadI64(b);
        if v.Bad? { return false, 0; }
        productId := v.val;
        return true, v.n;
      } else if id == 4 && t == I64 {
        var v := ReadI64(b);
        if v.Bad? { return false, 0; }
        skuId := v.val;
        return true, v.n;
      } else if id == 5 && t == STRING {
        var v := ReadString(b);
        if v.Bad? { return false, 0; }
        productTitleSnapshot := v.val;
        return true, v.n;
      } else if id == 6 && t == STRING {
        var v := ReadString(b);
        if v.Bad? { return false, 0; }
        skuTitleSnapshot := v.val;
        return true, v.n;
      } else if id == 7 && t == I64 {
        var v := ReadI64(b);
        if v.Bad? { return false, 0; }
        salePriceSnapshot := v.val;
        return true, v.n;
      } else if id == 8 && t == I32 {
        var v := ReadI32(b);
        if v.Bad? { return false, 0; }
        quantity := v.val;
        return true, v.n;
      } else if id == 9 && t == I64 {
        var v := ReadI64(b);
        if v.Bad? { return false, 0; }
        subtotalAmount := v.val;
        return true, v.n;
      }
      var n := Skip(b, t);
      if n.None? { return false, 0; }
      return true, n.value;
    }

    /** One turn of the read loop; more: another field may follow. */
    method ReadNext(buf: seq<byte>, offset: nat, ghost f: Switch<R.OrderItem>, ghost first: R.OrderItem)
      returns (ok: bool, more: bool, next: nat)
      requires Agrees(f, R.ItemSwitch) && ReadingOn(f, buf, first, offset, View())
      modifies this
      ensures !ok ==> ReadStruct(f, buf, first) == Bad && StructLeft(f, buf, first) == View()
      ensures ok && !more ==> ReadStruct(f, buf, first) == Good(View(), next)
      ensures ok && more ==> ReadingOn(f, buf, first, next, View()) && next > offset
    {
      ghost var p := View();
      var h := ReadFieldBegin(buf[offset..]);
      if h.Bad? {
        ReadBreaks(f, buf, first, offset, p);
        return false, false, offset;
      }
      var (t, id) := h.val;
      next := offset + h.n;
      if t == STOP {
        ReadStops(f, buf, first, offset, p, id, h.n);
        return true, false, next;
      }
      ghost var r := f(p, t, id, buf[next..]);
      var l;
      ok, l := ReadField(t, id, buf[next..], f, r);
      ReadsField(f, buf, first, offset, p, t, id, h.n, r);
      return ok, true, next + l;
    }

    method FastRead(buf: seq<byte>, ghost f: Switch<R.OrderItem> := R.ItemSwitch) returns (ok: bool, offset: nat)
      requires Agrees(f, R.ItemSwitch)
      modifies this
      ensures var r := ReadStruct(f, buf, old(View()));
        ok == r.Good? && (ok ==> View() == r.val && offset == r.n)
      ensures View() == StructLeft(f, buf, old(View()))
    {
      offset := 0;
      ghost var first := View();
      StartReading(f, buf, first);
      while true
        invariant ReadingOn(f, buf, first, offset, View())
        decreases |buf| - offset
      {
        var more;
        ok, more, offset := ReadNext(buf, offset, f, first);
        if !ok || !more { return; }
      }
    }
  }

  ghost function ItemView(p: OrderItem?): Option<R.OrderItem>
    reads p
  {
    if p == null then None else Some(p.View())
  }

  ghost function ItemViews(ps: seq<OrderItem?>): (r: seq<Option<R.OrderItem>>)
    reads ps
    ensures |r| == |ps| && forall k :: 0 <= k < |ps| ==> r[k] == ItemView(ps[k])
  {
    seq(|ps|, k requires 0 <= k < |ps| reads ps => ItemView(ps[k]))
  }

  /** Writing elsewhere leaves what an item holds. */
  twostate lemma ItemUnchanged(p: OrderItem?)
    requires p != null ==> unchanged(p)
    ensures ItemView(p) == old(ItemView(p))
  {
  }

  twostate lemma ItemsUnchanged(ps: seq<OrderItem?>)
    requires forall p :: p in ps && p != null ==> unchanged(p)
    ensures ItemViews(ps) == old(ItemViews(ps))
  {
    forall k | 0 <= k < |ps| ensures ItemView(ps[k]) == old(ItemView(ps[k])) {
      assert ps[k] in ps;
    }
  }

  method WriteItemNumbers(p: OrderItem, buf: array<byte>, at: nat, ghost was: seq<byte>, ghost fs: seq<Field>)
    returns (end: nat)
    requires fs == R.ItemFields(p.View()) && Wrote(was, buf[..], at, at, fs, 0)
    modifies buf
    ensures Wrote(was, buf[..], at, end, fs, 7)
  {
    end := at;
    end := WriteField(buf, end, Field(1, VI64(p.itemId)), was, at, fs, 0);
    end := WriteField(buf, end, Field(2, VI64(p.orderId)), was, at, fs, 1);
    end := WriteField(buf, end, Field(3, VI64(p.productId)), was, at, fs, 2);
    end := WriteField(buf, end, Field(4, VI64(p.skuId)), was, at, fs, 3);
    end := WriteField(buf, end, Field(7, VI64(p.salePriceSnapshot)), was, at, fs, 4);
    end := WriteField(buf, end, Field(8, VI32(p.quantity)), was, at, fs, 5);
    end := WriteField(buf, end, Field(9, VI64(p.subtotalAmount)), was, at, fs, 6);
  }

  method WriteItemTitles(p: OrderItem, buf: array<byte>, at: nat, from: nat, ghost was: seq<byte>, ghost fs: seq<Field>)
    returns (end: nat)
    requires fs == R.ItemFields(p.View()) && Wrote(was, buf[..], at, from, fs, 7)
    modifies buf
    ensures Wrote(was, buf[..], at, end, fs, 9)
  {
    end := from;
    end := WriteField(buf, end, Field(5, VString(p.productTitleSnapshot)), was, at, fs, 7);
    end := WriteField(buf, end, Field(6, VString(p.skuTitleSnapshot)), was, at, fs, 8);
  }

  /** The titles are written last, behind the numbers, although their ids lie between. */
  method WriteItem(p: OrderItem?, buf: array<byte>, at: nat) returns (end: nat)
    requires at + |Enc(R.ItemValue(ItemView(p)))| <= buf.Length
    modifies buf
    ensures end == at + |old(Enc(R.ItemValue(ItemView(p))))|
    ensures buf[..] == Splice(old(buf[..]), at, old(Enc(R.ItemValue(ItemView(p)))))
  {
    ghost var was, fs := buf[..], R.ItemValue(ItemView(p)).fields;
    WroteNothing(was, at, fs);
    end := at;
    if p != null {
      end := WriteItemNumbers(p, buf, at, was, fs);
      end := WriteItemTitles(p, buf, at, end, was, fs);
    }
    assert Wrote(was, buf[..], at, end, fs, |fs|);
    end := WriteFieldStop(buf, end, was, at, fs);
  }

  lemma ItemSize(p: R.OrderItem)
    ensures |EncFields(R.ItemFields(p))| == 6 * 11 + 7 + (7 + |p.productTitleSnapshot|) + (7 + |p.skuTitleSnapshot|)
  {
    var fs := R.ItemFields(p);
    SizeOfNine(fs);
    assert fs[..9] == fs;
  }

  method ItemLength(p: OrderItem?) returns (l: nat)
    ensures l == |Enc(R.ItemValue(ItemView(p)))|
  {
    l := 0;
    if p != null {
      l := l + 3 + 8;
      l := l + 3 + 8;
      l := l + 3 + 8;
      l := l + 3 + 8;
      l := l + 3 + (4 + |p.productTitleSnapshot|);
      l := l + 3 + (4 + |p.skuTitleSnapshot|);
      l := l + 3 + 8;
      l := l + 3 + 4;
      l := l + 3 + 8;
      ItemSize(p.View());
    }
    l := l + 1;
  }

  lemma ItemViewsNext(ps: seq<OrderItem?>, p: OrderItem, vs: seq<R.OrderItem>)
    requires Slice(ItemViews(ps)) == R.Present(vs)
    ensures Slice(ItemViews(ps + [p])) == R.Present(vs + [p.View()])
  {
    assert ItemViews(ps + [p]) == R.Present(vs + [p.View()]).s;
  }

  method ReadFreshOrderItem(b: seq<byte>, ghost f: Switch<R.OrderItem>) returns (ok: bool, elem: OrderItem, l: nat)
    requires Agrees(f, R.ItemSwitch)
    ensures fresh(elem)
    ensures ReadStruct(f, b, R.ZERO_ITEM) == if ok then Good(elem.View(), l) else Bad
  {
    elem := new OrderItem();
    ok, l := elem.FastRead(b, f);
  }

  /** One more element of a list, read into a fresh object. */
  method ReadNextOrderItem(buf: seq<byte>, size: nat, offset: nat, ghost f: Switch<R.OrderItem>, field: seq<OrderItem?>,
        ghost done: seq<R.OrderItem>)
    returns (ok: bool, elem: OrderItem, next: nat, ghost more: seq<R.OrderItem>)
    requires Agrees(f, R.ItemSwitch) && |done| < size
    requires Slice(ItemViews(field)) == R.Present(done) && ReadingElems(f, R.ZERO_ITEM, buf, size, offset, done)
    ensures fresh(elem)
    ensures !ok ==> ReadStructs(f, R.ZERO_ITEM, buf, size) == Bad
    ensures |more| == |done| + 1 && Slice(ItemViews(field + [elem])) == R.Present(more)
    ensures ok ==> ReadingElems(f, R.ZERO_ITEM, buf, size, next, more)
  {
    var l;
    ok, elem, l := ReadFreshOrderItem(buf[offset..], f);
    ghost var v := elem.View();
    ElemNext(f, R.ZERO_ITEM, buf, size, offset, done, ok, v, l);
    next, more := offset + l, done + [v];
    ItemsUnchanged(field);
    ItemViewsNext(field, elem, done);
  }

  method ReadItems(buf: seq<byte>, size: nat, ghost f: Switch<R.OrderItem>)
    returns (ok: bool, offset: nat, field: seq<OrderItem?>, ghost done: seq<R.OrderItem>)
    requires Agrees(f, R.ItemSwitch)
    ensures fresh(field)
    ensures ok ==> Slice(ItemViews(field)) == R.Present(done)
    ensures ReadStructs(f, R.ZERO_ITEM, buf, size) == if ok then Good(done, offset) else Bad
  {
    ok, offset, field, done := true, 0, [], [];
    StartElems(f, R.ZERO_ITEM, buf, size);
    while |field| < size
      invariant fresh(field)
      invariant |field| == |done| && Slice(ItemViews(field)) == R.Present(done)
      invariant ReadingElems(f, R.ZERO_ITEM, buf, size, offset, done)
    {
      var elem;
      ok, elem, offset, done := ReadNextOrderItem(buf, size, offset, f, field, done);
      if !ok { return; }
      field := field + [elem];
    }
    ElemsDone(f, R.ZERO_ITEM, buf, size, offset, done);
  }

  class Order {
    var orderId: i64
    var userId: i64
    var status: i32
    var totalAmount: i64
    var payAmount: i64
    var expireAt: i64
    var items: Slice<OrderItem?>
    var cancelReason: Str
    var paymentId: Str
    var paidAt: i64
    var paymentMethod: Str
    var paymentTradeNo: Str

    constructor ()
      ensures View() == R.ZERO_ORDER
    {
      orderId := 0;
      userId := 0;
      status := 0;
      totalAmount := 0;
      payAmount := 0;
      expireAt := 0;
      items := Nil;
      cancelReason := [];
      paymentId := [];
      paidAt := 0;
      paymentMethod := [];
      paymentTradeNo := [];
    }

    ghost function View(): R.Order
      reads this, Elems(items)
    {
      R.Order(orderId, userId, status, totalAmount, payAmount, expireAt,
              if items.Nil? then Nil else Slice(ItemViews(items.s)),
              cancelReason, paymentId, paidAt, paymentMethod, paymentTradeNo)
    }

    /** The record holds the object's fields, name by name. */
    lemma ViewNames()
      ensures View().orderId == orderId && View().userId == userId && View().status == status
      ensures View().totalAmount == totalAmount && View().payAmount == payAmount && View().expireAt == expireAt
      ensures View().cancelReason == cancelReason && View().paymentId == paymentId && View().paidAt == paidAt
      ensures View().paymentMethod == paymentMethod && View().paymentTradeNo == paymentTradeNo
      ensures View().items == if items.Nil? then Nil else Slice(ItemViews(items.s))
    {
    }

    method FastReadField7(buf: seq<byte>, ghost f: Switch<R.OrderItem> := R.ItemSwitch) returns (ok: bool, offset: nat)
      requires Agrees(f, R.ItemSwitch)
      modifies this
      ensures var r := R.ReadStructList(f, R.ZERO_ITEM, buf);
        ok == r.Good? && (ok ==> View() == old(View()).(items := R.Present(r.val)) && offset == r.n)
      ensures !ok ==> View() == old(View())
    {
      var h := ReadListBegin(buf);
      if h.Bad? { return false, 0; }
      var l, field;
      ghost var done;
      ok, l, field, done := ReadItems(buf[h.n..], h.val.1, f);
      if !ok { return false, h.n; }
      items := Slice(field);
      return true, h.n + l;
    }

    method ReadLowNumber(t: byte, id: i16, b: seq<byte>, ghost r: Read<R.Order>) returns (ok: bool, l: nat)
      requires t != STRING && id <= 4 && r == R.OrderScalars(View(), t, id, b)
      modifies this
      ensures ok == r.Good? && (ok ==> View() == r.val && l == r.n <= |b|)
      ensures !ok ==> View() == old(View())
    {
      if id == 1 && t == I64 {
        var v := ReadI64(b);
        if v.Bad? { return false, 0; }
        orderId := v.val;
        return true, v.n;
      } else if id == 2 && t == I64 {
        var v := ReadI64(b);
        if v.Bad? { return false, 0; }
        userId := v.val;
        return true, v.n;
      } else if id == 3 && t == I32 {
        var v := ReadI32(b);
        if v.Bad? { return false, 0; }
        status := v.val;
        return true, v.n;
      } else if id == 4 && t == I64 {
        var v := ReadI64(b);
        if v.Bad? { return false, 0; }
        totalAmount := v.val;
        return true, v.n;
      }
      var n := Skip(b, t);
      if n.None? { return false, 0; }
      return true, n.value;
    }

    method ReadHighNumber(t: byte, id: i16, b: seq<byte>, ghost r: Read<R.Order>) returns (ok: bool, l: nat)
      requires t != STRING && id > 4 && r == R.OrderScalars(View(), t, id, b)
      modifies this
      ensures ok == r.Good? && (ok ==> View() == r.val && l == r.n <= |b|)
      ensures !ok ==> View() == old(View())
    {
      if id == 5 && t == I64 {
        var v := ReadI64(b);
        if v.Bad? { return false, 0; }
        payAmount := v.val;
        return true, v.n;
      } else if id == 6 && t == I64 {
        var v := ReadI64(b);
        if v.Bad? { return false, 0; }
        expireAt := v.val;
        return true, v.n;
      } else if id == 10 && t == I64 {
        var v := ReadI64(b);
        if v.Bad? { return false, 0; }
        paidAt := v.val;
        return true, v.n;
      }
      var n := Skip(b, t);
      if n.None? { return false, 0; }
      return true, n.value;
    }

    method ReadText(t: byte, id: i16, b: seq<byte>, ghost r: Read<R.Order>) returns (ok: bool, l: nat)
      requires t == STRING && r == R.OrderScalars(View(), t, id, b)
      modifies this
      ensures ok == r.Good? && (ok ==> View() == r.val && l == r.n <= |b|)
      ensures !ok ==> View() == old(View())
    {
      if id == 8 && t == STRING {
        var v := ReadString(b);
        if v.Bad? { return false, 0; }
        cancelReason := v.val;
        return true, v.n;
      } else if id == 9 && t == STRING {
        var v := ReadString(b);
        if v.Bad? { return false, 0; }
        paymentId := v.val;
        return true, v.n;
      } else if id == 11 && t == STRING {
        var v := ReadString(b);
        if v.Bad? { return false, 0; }
        paymentMethod := v.val;
        return true, v.n;
      } else if id == 12 && t == STRING {
        var v := ReadString(b);
        if v.Bad? { return false, 0; }
        paymentTradeNo := v.val;
        return true, v.n;
      }
      var n := Skip(b, t);
      if n.None? { return false, 0; }
      return true, n.value;
    }

    method ReadField(t: byte, id: i16, b: seq<byte>, ghost f: Switch<R.Order>, ghost r: Read<R.Order>)
      returns (ok: bool, l: nat)
      requires Agrees(f, R.OrderSwitch) && r == f(View(), t, id, b)
      modifies this
      ensures ok == r.Good? && (ok ==> View() == r.val && l == r.n <= |b|)
      ensures !ok ==> View() == old(View())
    {
      assert r == R.OrderSwitch(View(), t, id, b);
      if id == 7 && t == LIST {
        ok, l := FastReadField7(b);
      } else if t == STRING {
        ok, l := ReadText(t, id, b, r);
      } else if id <= 4 {
        ok, l := ReadLowNumber(t, id, b, r);
      } else {
        ok, l := ReadHighNumber(t, id, b, r);
      }
    }

    /** One turn of the read loop; more: another field may follow. */
    method ReadNext(buf: seq<byte>, offset: nat, ghost f: Switch<R.Order>, ghost first: R.Order)
      returns (ok: bool, more: bool, next: nat)
      requires Agrees(f, R.OrderSwitch) && ReadingOn(f, buf, first, offset, View())
      modifies this
      ensures !ok ==> ReadStruct(f, buf, first) == Bad && StructLeft(f, buf, first) == View()
      ensures ok && !more ==> ReadStruct(f, buf, first) == Good(View(), next)
      ensures ok && more ==> ReadingOn(f, buf, first, next, View()) && next > offset
    {
      ghost var p := View();
      var h := ReadFieldBegin(buf[offset..]);
      if h.Bad? {
        ReadBreaks(f, buf, first, offset, p);
        return false, false, offset;
      }
      var (t, id) := h.val;
      next := offset + h.n;
      if t == STOP {
        ReadStops(f, buf, first, offset, p, id, h.n);
        return true, false, next;
      }
      ghost var r := f(p, t, id, buf[next..]);
      var l;
      ok, l := ReadField(t, id, buf[next..], f, r);
      ReadsField(f, buf, first, offset, p, t, id, h.n, r);
      return ok, true, next + l;
    }

    method FastRead(buf: seq<byte>, ghost f: Switch<R.Order> := R.OrderSwitch) returns (ok: bool, offset: nat)
      requires Agrees(f, R.OrderSwitch)
      modifies this
      ensures var r := ReadStruct(f, buf, old(View()));
        ok == r.Good? && (ok ==> View() == r.val && offset == r.n)
      ensures View() == StructLeft(f, buf, old(View()))
    {
      offset := 0;
      ghost var first := View();
      StartReading(f, buf, first);
      while true
        invariant ReadingOn(f, buf, first, offset, View())
        decreases |buf| - offset
      {
        var more;
        ok, more, offset := ReadNext(buf, offset, f, first);
        if !ok || !more { return; }
      }
    }
  }

  ghost function OrderView(p: Order?): Option<R.Order>
    reads p, if p == null then [] else Elems(p.items)
  {
    if p == null then None else Some(p.View())
  }

  /** Writing elsewhere leaves what an order holds. */
  twostate lemma OrderUnchanged(p: Order?)
    requires p != null ==> unchanged(p) && forall i :: i in Elems(p.items) && i != null ==> unchanged(i)
    ensures OrderView(p) == old(OrderView(p))
  {
    if p != null {
      ItemsUnchanged(Elems(p.items));
    }
  }

  /** enc is the element encoding, under a name of its own. */
  ghost predicate OrderItemEncoder(enc: Option<R.OrderItem> -> Value) {
    forall v {:trigger R.ItemValue(v)} :: enc(v) == R.ItemValue(v)
  }

  method WriteNextOrderItem(p: OrderItem?, buf: array<byte>, at: nat, ghost was: seq<byte>, ghost gap: nat,
      ghost enc: Option<R.OrderItem> -> Value, ghost es: seq<Value>, ghost k: nat)
    returns (end: nat)
    requires WroteElems(was, buf[..], gap, at, es, k) && k < |es|
    requires OrderItemEncoder(enc) && es[k] == enc(ItemView(p))
    modifies buf
    ensures WroteElems(was, buf[..], gap, end, es, k + 1)
  {
    ghost var now := buf[..];
    assert es[k] == R.ItemValue(ItemView(p));
    WroteElemsRoom(was, now, gap, at, es, k);
    end := WriteItem(p, buf, at);
    WroteElemsNext(was, now, gap, at, es, k);
  }

  /** The elements, one after the other, behind the gap; they are counted on the way. */
  method WriteOrderItemElems(ps: seq<OrderItem?>, buf: array<byte>, gap: nat,
        ghost enc: Option<R.OrderItem> -> Value, ghost es: seq<Value>)
    returns (length: nat, end: nat)
    requires OrderItemEncoder(enc) && |es| == |ps| && gap + 5 + |EncElems(es)| <= buf.Length
    requires forall k :: 0 <= k < |es| ==> es[k] == enc(ItemView(ps[k]))
    modifies buf
    ensures length == |es| && WroteElems(old(buf[..]), buf[..], gap, end, es, |es|)
  {
    WroteNoElems(buf[..], gap, es);
    length, end := 0, gap + 5;
    while length < |ps|
      invariant 0 <= length <= |ps|
      invariant WroteElems(old(buf[..]), buf[..], gap, end, es, length)
    {
      ItemUnchanged(ps[length]);
      end := WriteNextOrderItem(ps[length], buf, end, old(buf[..]), gap, enc, es, length);
      length := length + 1;
    }
  }

  method WriteListOfOrderItems(ps: seq<OrderItem?>, buf: array<byte>, at: nat,
        ghost enc: Option<R.OrderItem> -> Value, ghost es: seq<Value>)
    returns (end: nat)
    requires OrderItemEncoder(enc) && |es| == |ps| && forall k :: 0 <= k < |es| ==> es[k] == enc(ItemView(ps[k]))
    requires at + |EncField(Field(7, VList(STRUCT, es)))| <= buf.Length
    modifies buf
    ensures var f := Field(7, VList(STRUCT, es));
      end == at + |EncField(f)| && buf[..] == Splice(old(buf[..]), at, EncField(f))
  {
    ListFieldSize(7, STRUCT, es);
    var listBegin := WriteFieldBegin(buf, at, LIST, 7);
    ghost var mid := buf[..];
    forall k | 0 <= k < |ps| ensures ItemView(ps[k]) == old(ItemView(ps[k])) {
      ItemUnchanged(ps[k]);
    }
    var length;
    length, end := WriteOrderItemElems(ps, buf, listBegin, enc, es);
    PatchListBegin(buf, listBegin, end, STRUCT, length, old(buf[..]), mid, at, 7, es);
  }

  /** The list field: its header is written last, into the gap left for it. */
  method WriteItems(items: Slice<OrderItem?>, buf: array<byte>, at: nat) returns (end: nat)
    requires at + |EncField(Field(7, VList(STRUCT, R.ItemValues(ItemViews(Elems(items))))))| <= buf.Length
    modifies buf
    ensures var f := Field(7, VList(STRUCT, R.ItemValues(old(ItemViews(Elems(items))))));
      end == at + |EncField(f)| && buf[..] == Splice(old(buf[..]), at, EncField(f))
  {
    ghost var es := R.ItemValues(ItemViews(Elems(items)));
    assert forall k :: 0 <= k < |es| ==> es[k] == R.ItemValue(ItemView(Elems(items)[k]));
    end := WriteListOfOrderItems(Elems(items), buf, at, R.ItemValue, es);
  }

  method WriteOrderStart(p: Order, buf: array<byte>, at: nat, ghost was: seq<byte>, ghost fs: seq<Field>)
    returns (end: nat)
    requires fs == R.OrderFields(p.View()) && Wrote(was, buf[..], at, at, fs, 0)
    modifies buf
    ensures Wrote(was, buf[..], at, end, fs, 7)
  {
    end := at;
    end := WriteField(buf, end, Field(1, VI64(p.orderId)), was, at, fs, 0);
    end := WriteField(buf, end, Field(2, VI64(p.userId)), was, at, fs, 1);
    end := WriteField(buf, end, Field(3, VI32(p.status)), was, at, fs, 2);
    end := WriteField(buf, end, Field(4, VI64(p.totalAmount)), was, at, fs, 3);
    end := WriteField(buf, end, Field(5, VI64(p.payAmount)), was, at, fs, 4);
    end := WriteField(buf, end, Field(6, VI64(p.expireAt)), was, at, fs, 5);
    end := WriteField(buf, end, Field(10, VI64(p.paidAt)), was, at, fs, 6);
  }

  method WriteOrderEnd(p: Order, buf: array<byte>, at: nat, from: nat, ghost was: seq<byte>, ghost fs: seq<Field>)
    returns (end: nat)
    requires fs == R.OrderFields(p.View()) && Wrote(was, buf[..], at, from, fs, 8)
    modifies buf
    ensures Wrote(was, buf[..], at, end, fs, 12)
  {
    end := from;
    end := WriteField(buf, end, Field(8, VString(p.cancelReason)), was, at, fs, 8);
    end := WriteField(buf, end, Field(9, VString(p.paymentId)), was, at, fs, 9);
    end := WriteField(buf, end, Field(11, VString(p.paymentMethod)), was, at, fs, 10);
    end := WriteField(buf, end, Field(12, VString(p.paymentTradeNo)), was, at, fs, 11);
  }

  method WriteOrderItems(p: Order, buf: array<byte>, at: nat, from: nat, ghost was: seq<byte>, ghost fs: seq<Field>)
    returns (end: nat)
    requires |fs| == 12 && fs[7] == Field(7, VList(STRUCT, R.ItemValues(Elems(p.View().items))))
    requires Wrote(was, buf[..], at, from, fs, 7)
    modifies buf
    ensures Wrote(was, buf[..], at, end, fs, 8)
  {
    ghost var now := buf[..];
    WroteRoom(was, now, at, from, fs, 7);
    end := WriteItems(p.items, buf, from);
    WroteNext(was, now, at, from, fs, 7);
  }

  method WriteOrderFields(p: Order, buf: array<byte>, at: nat, ghost was: seq<byte>, ghost fs: seq<Field>)
    returns (end: nat)
    requires fs == R.OrderFields(p.View()) && Wrote(was, buf[..], at, at, fs, 0)
    modifies buf
    ensures Wrote(was, buf[..], at, end, fs, 12)
  {
    end := WriteOrderStart(p, buf, at, was, fs);
    end := WriteOrderItems(p, buf, at, end, was, fs);
    end := WriteOrderEnd(p, buf, at, end, was, fs);
  }

  method WriteOrder(p: Order?, buf: array<byte>, at: nat) returns (end: nat)
    requires at + |Enc(R.OrderValue(OrderView(p)))| <= buf.Length
    modifies buf
    ensures end == at + |old(Enc(R.OrderValue(OrderView(p))))|
    ensures buf[..] == Splice(old(buf[..]), at, old(Enc(R.OrderValue(OrderView(p)))))
  {
    ghost var was, fs := buf[..], R.OrderValue(OrderView(p)).fields;
    WroteNothing(was, at, fs);
    end := at;
    if p != null {
      end := WriteOrderFields(p, buf, at, was, fs);
    }
    assert Wrote(was, buf[..], at, end, fs, |fs|);
    end := WriteFieldStop(buf, end, was, at, fs);
  }

  method OrderItemElemLength(p: OrderItem?, ghost enc: Option<R.OrderItem> -> Value, ghost e: Value) returns (l: nat)
    requires OrderItemEncoder(enc) && e == enc(ItemView(p))
    ensures l == |Enc(e)|
  {
    assert e == R.ItemValue(ItemView(p));
    l := ItemLength(p);
  }

  method OrderItemElemsLength(ps: seq<OrderItem?>, ghost enc: Option<R.OrderItem> -> Value, ghost es: seq<Value>)
    returns (l: nat)
    requires OrderItemEncoder(enc) && |es| == |ps| && forall k :: 0 <= k < |es| ==> es[k] == enc(ItemView(ps[k]))
    ensures l == |EncElems(es)|
  {
    l := 0;
    var i := 0;
    while i < |ps|
      invariant 0 <= i <= |ps| && l == |EncElems(es[..i])|
    {
      ItemUnchanged(ps[i]);
      ElemsNext(es, i);
      var n := OrderItemElemLength(ps[i], enc, es[i]);
      l := l + n;
      i := i + 1;
    }
    assert es[..|ps|] == es;
  }

  method ItemsLength(items: Slice<OrderItem?>) returns (l: nat)
    ensures l == |EncField(Field(7, VList(STRUCT, R.ItemValues(old(ItemViews(Elems(items)))))))|
  {
    ghost var es := R.ItemValues(ItemViews(Elems(items)));
    var n := OrderItemElemsLength(Elems(items), R.ItemValue, es);
    l := 3 + 5 + n;
    ListFieldSize(7, STRUCT, es);
  }

  lemma OrderSize(p: R.Order)
    ensures |EncFields(R.OrderFields(p))|
         == 6 * 11 + 7 + |EncField(Field(7, VList(STRUCT, R.ItemValues(Elems(p.items)))))|
          + (7 + |p.cancelReason|) + (7 + |p.paymentId|) + (7 + |p.paymentMethod|) + (7 + |p.paymentTradeNo|)
  {
    SizeOfNine(R.OrderFields(p));
    SizeOfTwelve(R.OrderFields(p));
  }

  method OrderLength(p: Order?) returns (l: nat)
    ensures l == |Enc(R.OrderValue(old(OrderView(p))))|
  {
    l := 0;
    if p != null {
      l := l + 3 + 8;
      l := l + 3 + 8;
      l := l + 3 + 4;
      l := l + 3 + 8;
      l := l + 3 + 8;
      l := l + 3 + 8;
      var n := ItemsLength(p.items);
      l := l + n;
      l := l + 3 + (4 + |p.cancelReason|);
      l := l + 3 + (4 + |p.paymentId|);
      l := l + 3 + 8;
      l := l + 3 + (4 + |p.paymentMethod|);
      l := l + 3 + (4 + |p.paymentTradeNo|);
      OrderSize(old(p.View()));
    }
    l := l + 1;
  }
}
