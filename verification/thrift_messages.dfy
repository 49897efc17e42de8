/** Responses with lists, and a request with optional fields (kitex_gen/meshcart/order/k-order.go). */
module ThriftMessages {
  import opened Prelude
  import opened ThriftWire
  import opened ThriftStruct
  import opened ThriftBuffer
  import opened ThriftBase
  import opened ThriftOrder
  import R = ThriftRecords
  import opened ThriftRoundTrip

  // ListOrdersResponse

  ghost function ItemsOf(ps: seq<Order?>): (r: set<OrderItem?>)
    reads ps
    ensures forall k :: 0 <= k < |ps| && ps[k] != null ==> forall i :: i in Elems(ps[k].items) ==> i in r
  {
    set p, i | p in ps && p != null && i in Elems(p.items) :: i
  }

  ghost function OrderViews(ps: seq<Order?>): (r: seq<Option<R.Order>>)
    reads ps, ItemsOf(ps)
    ensures |r| == |ps| && forall k :: 0 <= k < |ps| ==> r[k] == OrderView(ps[k])
  {
    seq(|ps|, k requires 0 <= k < |ps| reads ps, ItemsOf(ps) => OrderView(ps[k]))
  }

  /** Writing elsewhere leaves what the orders hold. */
  twostate lemma OrdersUnchanged(ps: seq<Order?>)
    requires forall p :: p in ps && p != null ==> unchanged(p)
    requires forall i :: i in old(ItemsOf(ps)) && i != null ==> unchanged(i)
    ensures OrderViews(ps) == old(OrderViews(ps))
  {
    forall k | 0 <= k < |ps| ensures OrderView(ps[k]) == old(OrderView(ps[k])) {
      if ps[k] != null {
        assert ps[k] in ps && unchanged(ps[k]);
        assert forall i :: i in Elems(ps[k].items) ==> i in old(ItemsOf(ps));
        OrderUnchanged(ps[k]);
      }
    }
  }

  lemma OrderViewsNext(ps: seq<Order?>, p: Order, vs: seq<R.Order>)
    requires Slice(OrderViews(ps)) == R.Present(vs)
    ensures Slice(OrderViews(ps + [p])) == R.Present(vs + [p.View()])
  {
    assert OrderViews(ps + [p]) == R.Present(vs + [p.View()]).s;
  }

  method ReadFreshOrder(b: seq<byte>, ghost f: Switch<R.Order>) returns (ok: bool, elem: Order, l: nat)
    requires Agrees(f, R.OrderSwitch)
    ensures fresh(elem)
    ensures ReadStruct(f, b, R.ZERO_ORDER) == if ok then Good(elem.View(), l) else Bad
  {
    elem := new Order();
    ok, l := elem.FastRead(b, f);
  }

  /** One more element of a list, read into a fresh object. */
  method ReadNextOrder(buf: seq<byte>, size: nat, offset: nat, ghost f: Switch<R.Order>, field: seq<Order?>,
        ghost done: seq<R.Order>)
    returns (ok: bool, elem: Order, next: nat, ghost more: seq<R.Order>)
    requires Agrees(f, R.OrderSwitch) && |done| < size
    requires Slice(OrderViews(field)) == R.Present(done) && ReadingElems(f, R.ZERO_ORDER, buf, size, offset, done)
    ensures fresh(elem)
    ensures !ok ==> ReadStructs(f, R.ZERO_ORDER, buf, size) == Bad
    ensures |more| == |done| + 1 && Slice(OrderViews(field + [elem])) == R.Present(more)
    ensures ok ==> ReadingElems(f, R.ZERO_ORDER, buf, size, next, more)
  {
    var l;
    ok, elem, l := ReadFreshOrder(buf[offset..], f);
    ghost var v := elem.View();
    ElemNext(f, R.ZERO_ORDER, buf, size, offset, done, ok, v, l);
    next, more := offset + l, done + [v];
    OrdersUnchanged(field);
    OrderViewsNext(field, elem, done);
  }

  method ReadOrders(buf: seq<byte>, size: nat, ghost f: Switch<R.Order>)
    returns (ok: bool, offset: nat, field: seq<Order?>, ghost done: seq<R.Order>)
    requires Agrees(f, R.OrderSwitch)
    ensures fresh(field)
    ensures ok ==> Slice(OrderViews(field)) == R.Present(done)
    ensures ReadStructs(f, R.ZERO_ORDER, buf, size) == if ok then Good(done, offset) else Bad
  {
    ok, offset, field, done := true, 0, [], [];
    StartElems(f, R.ZERO_ORDER, buf, size);
    while |field| < size
      invariant fresh(field)
      invariant |field| == |done| && Slice(OrderViews(field)) == R.Present(done)
      invariant ReadingElems(f, R.ZERO_ORDER, buf, size, offset, done)
    {
      var elem;
      ok, elem, offset, done := ReadNextOrder(buf, size, offset, f, field, done);
      if !ok { return; }
      field := field + [elem];
    }
    ElemsDone(f, R.ZERO_ORDER, buf, size, offset, done);
  }

  class ListOrdersResponse {
    var orders: Slice<Order?>
    var total: i64
    var base: BaseResponse?

    constructor ()
      ensures View() == R.ZERO_LIST
    {
      orders := Nil;
      total := 0;
      base := null;
    }

    ghost function Footprint(): set<object?>
      reads this, Elems(orders)
    {
      {base as object?} + (set p | p in Elems(orders) :: p as object?) + (set i | i in ItemsOf(Elems(orders)) :: i as object?)
    }

    ghost function View(): R.ListOrdersResponse
      reads this, Elems(orders), Footprint()
    {
      R.ListOrdersResponse(if orders.Nil? then Nil else Slice(OrderViews(orders.s)), total, BaseView(base))
    }

    /** The record holds the object's fields, name by name. */
    lemma ViewNames()
      ensures View().total == total && View().base == BaseView(base)
      ensures View().orders == if orders.Nil? then Nil else Slice(OrderViews(orders.s))
    {
    }

    method SetOrders(field: seq<Order?>)
      modifies this
      ensures View() == old(View()).(orders := Slice(old(OrderViews(field))))
    {
      orders := Slice(field);
      OrdersUnchanged(field);
    }

    method FastReadField1(buf: seq<byte>, ghost f: Switch<R.Order> := R.OrderSwitch) returns (ok: bool, offset: nat)
      requires Agrees(f, R.OrderSwitch)
      modifies this
      ensures var r := R.ReadStructList(f, R.ZERO_ORDER, buf);
        ok == r.Good? && (ok ==> View() == old(View()).(orders := R.Present(r.val)) && offset == r.n)
      ensures !ok ==> View() == old(View())
    {
      var h := ReadListBegin(buf);
      if h.Bad? { return false, 0; }
      var l, field;
      ghost var done;
      ok, l, field, done := ReadOrders(buf[h.n..], h.val.1, f);
      OrdersUnchanged(Elems(orders));
      if !ok { return false, h.n; }
      SetOrders(field);
      return true, h.n + l;
    }

    method FastReadField255(buf: seq<byte>) returns (ok: bool, offset: nat)
      modifies this
      ensures var r := ReadStruct(R.BaseSwitch, buf, R.ZERO_BASE);
        ok == r.Good? && (ok ==> View() == old(View()).(base := Some(r.val)) && offset == r.n)
      ensures !ok ==> View() == old(View())
    {
      var field := new BaseResponse();
      ok, offset := field.FastRead(buf);
      if ok {
        base := field;
      }
      OrdersUnchanged(Elems(orders));
    }

    method ReadField(t: byte, id: i16, b: seq<byte>, ghost f: Switch<R.ListOrdersResponse>,
          ghost r: Read<R.ListOrdersResponse>)
      returns (ok: bool, l: nat)
      requires Agrees(f, R.ListSwitch) && r == f(View(), t, id, b)
      modifies this
      ensures ok == r.Good? && (ok ==> View() == r.val && l == r.n <= |b|)
      ensures !ok ==> View() == old(View())
    {
      assert r == R.ListSwitch(View(), t, id, b);
      if id == 1 && t == LIST {
        ok, l := FastReadField1(b);
      } else if id == 255 && t == STRUCT {
        ok, l := FastReadField255(b);
      } else if id == 2 && t == I64 {
        var v := ReadI64(b);
        if v.Bad? { return false, 0; }
        total := v.val;
        OrdersUnchanged(Elems(orders));
        return true, v.n;
      } else {
        var n := Skip(b, t);
        if n.None? { return false, 0; }
        return true, n.value;
      }
    }

    /** One turn of the read loop; more: another field may follow. */
    method ReadNext(buf: seq<byte>, offset: nat, ghost f: Switch<R.ListOrdersResponse>,
          ghost first: R.ListOrdersResponse)
      returns (ok: bool, more: bool, next: nat)
      requires Agrees(f, R.ListSwitch) && ReadingOn(f, buf, first, offset, View())
      modifies this
      ensures !ok ==> ReadStruct(f, buf, first) == Bad && StructLeft(f, buf, first) == View()
      ensures ok && !more ==> ReadStruct(f, buf, first) == Good(View(), next)
      ensures ok && more ==> ReadingOn(f, buf, first, next, View()) && next > offset
    {
      ghost var p := View();
      var h := ReadFieldBegin(buf[offset..]);
      if h.Bad? {
        ReadBreaks(f, buf, first, offset, p);
        return false, false, offset;
      }
      var (t, id) := h.val;
      next := offset + h.n;
      if t == STOP {
        ReadStops(f, buf, first, offset, p, id, h.n);
        return true, false, next;
      }
      ghost var r := f(p, t, id, buf[next..]);
      var l;
      ok, l := ReadField(t, id, buf[next..], f, r);
      ghost var q := View();
      ReadsField(f, buf, first, offset, p, t, id, h.n, r);
      assert q == if ok then r.val else p;
      return ok, true, next + l;
    }

    method FastRead(buf: seq<byte>, ghost f: Switch<R.ListOrdersResponse> := R.ListSwitch)
      returns (ok: bool, offset: nat)
      requires Agrees(f, R.ListSwitch)
      modifies this
      ensures var r := ReadStruct(f, buf, old(View()));
        ok == r.Good? && (ok ==> View() == r.val && offset == r.n)
      ensures View() == StructLeft(f, buf, old(View()))
    {
      offset := 0;
      ghost var first := View();
      StartReading(f, buf, first);
      while true
        invariant ReadingOn(f, buf, first, offset, View())
        decreases |buf| - offset
      {
        var more;
        ok, more, offset := ReadNext(buf, offset, f, first);
        if !ok || !more { return; }
      }
    }
  }

  /** enc is the element encoding, under a name of its own. */
  ghost predicate OrderEncoder(enc: Option<R.Order> -> Value) {
    forall v {:trigger R.OrderValue(v)} :: enc(v) == R.OrderValue(v)
  }

  method WriteNextOrder(p: Order?, buf: array<byte>, at: nat, ghost was: seq<byte>, ghost gap: nat,
      ghost enc: Option<R.Order> -> Value, ghost es: seq<Value>, ghost k: nat)
    returns (end: nat)
    requires WroteElems(was, buf[..], gap, at, es, k) && k < |es|
    requires OrderEncoder(enc) && es[k] == enc(OrderView(p))
    modifies buf
    ensures WroteElems(was, buf[..], gap, end, es, k + 1)
  {
    ghost var now := buf[..];
    assert es[k] == R.OrderValue(OrderView(p));
    WroteElemsRoom(was, now, gap, at, es, k);
    end := WriteOrder(p, buf, at);
    WroteElemsNext(was, now, gap, at, es, k);
  }

  /** The elements, one after the other, behind the gap; they are counted on the way. */
  method WriteOrderElems(ps: seq<Order?>, buf: array<byte>, gap: nat, ghost enc: Option<R.Order> -> Value,
        ghost es: seq<Value>)
    returns (length: nat, end: nat)
    requires OrderEncoder(enc) && |es| == |ps| && gap + 5 + |EncElems(es)| <= buf.Length
    requires forall k :: 0 <= k < |es| ==> es[k] == enc(OrderView(ps[k]))
    modifies buf
    ensures length == |es| && WroteElems(old(buf[..]), buf[..], gap, end, es, |es|)
  {
    WroteNoElems(buf[..], gap, es);
    length, end := 0, gap + 5;
    while length < |ps|
      invariant 0 <= length <= |ps|
      invariant WroteElems(old(buf[..]), buf[..], gap, end, es, length)
    {
      OrderUnchanged(ps[length]);
      end := WriteNextOrder(ps[length], buf, end, old(buf[..]), gap, enc, es, length);
      length := length + 1;
    }
  }

  method WriteListOfOrders(ps: seq<Order?>, buf: array<byte>, at: nat, ghost enc: Option<R.Order> -> Value,
        ghost es: seq<Value>)
    returns (end: nat)
    requires OrderEncoder(enc) && |es| == |ps| && forall k :: 0 <= k < |es| ==> es[k] == enc(OrderView(ps[k]))
    requires at + |EncField(Field(1, VList(STRUCT, es)))| <= buf.Length
    modifies buf
    ensures var f := Field(1, VList(STRUCT, es));
      end == at + |EncField(f)| && buf[..] == Splice(old(buf[..]), at, EncField(f))
  {
    ListFieldSize(1, STRUCT, es);
    var listBegin := WriteFieldBegin(buf, at, LIST, 1);
    ghost var mid := buf[..];
    forall k | 0 <= k < |ps| ensures OrderView(ps[k]) == old(OrderView(ps[k])) {
      OrderUnchanged(ps[k]);
    }
    var length;
    length, end := WriteOrderElems(ps, buf, listBegin, enc, es);
    PatchListBegin(buf, listBegin, end, STRUCT, length, old(buf[..]), mid, at, 1, es);
  }

  /** The list field: its header is written last, into the gap left for it. */
  method WriteOrders(orders: Slice<Order?>, buf: array<byte>, at: nat) returns (end: nat)
    requires at + |EncField(Field(1, VList(STRUCT, R.OrderValues(OrderViews(Elems(orders))))))| <= buf.Length
    modifies buf
    ensures var f := Field(1, VList(STRUCT, R.OrderValues(old(OrderViews(Elems(orders))))));
      end == at + |EncField(f)| && buf[..] == Splice(old(buf[..]), at, EncField(f))
  {
    ghost var es := R.OrderValues(OrderViews(Elems(orders)));
    assert forall k :: 0 <= k < |es| ==> es[k] == R.OrderValue(OrderView(Elems(orders)[k]));
    end := WriteListOfOrders(Elems(orders), buf, at, R.OrderValue, es);
  }

  method WriteListTotal(total: i64, buf: array<byte>, at: nat, ghost was: seq<byte>, ghost fs: seq<Field>)
    returns (end: nat)
    requires |fs| > 0 && fs[0] == Field(2, VI64(total)) && Wrote(was, buf[..], at, at, fs, 0)
    modifies buf
    ensures Wrote(was, buf[..], at, end, fs, 1)
  {
    end := WriteField(buf, at, Field(2, VI64(total)), was, at, fs, 0);
  }

  method WriteListOrders(orders: Slice<Order?>, buf: array<byte>, at: nat, from: nat, ghost was: seq<byte>,
        ghost fs: seq<Field>)
    returns (end: nat)
    requires |fs| > 1 && fs[1] == Field(1, VList(STRUCT, R.OrderValues(OrderViews(Elems(orders)))))
    requires Wrote(was, buf[..], at, from, fs, 1)
    modifies buf
    ensures Wrote(was, buf[..], at, end, fs, 2)
  {
    ghost var now := buf[..];
    WroteRoom(was, now, at, from, fs, 1);
    end := WriteOrders(orders, buf, from);
    WroteNext(was, now, at, from, fs, 1);
  }

  /** The list goes second although its id is first. */
  method WriteList(p: ListOrdersResponse?, buf: array<byte>, at: nat) returns (end: nat)
    requires at + |Enc(VStruct(ListFieldsOf(p)))| <= buf.Length
    modifies buf
    ensures end == at + |old(Enc(VStruct(ListFieldsOf(p))))|
    ensures buf[..] == Splice(old(buf[..]), at, old(Enc(VStruct(ListFieldsOf(p)))))
  {
    ghost var was, fs := buf[..], ListFieldsOf(p);
    WroteNothing(was, at, fs);
    end := WriteListFields(p, buf, at, was, fs);
    end := WriteFieldStop(buf, end, was, at, fs);
  }

  ghost function ListFieldsOf(p: ListOrdersResponse?): seq<Field>
    reads p, if p == null then [] else Elems(p.orders), if p == null then {} else p.Footprint()
  {
    if p == null then [] else R.ListFields(p.View())
  }

  method WriteListFields(p: ListOrdersResponse?, buf: array<byte>, at: nat, ghost was: seq<byte>, ghost fs: seq<Field>)
    returns (end: nat)
    requires fs == ListFieldsOf(p) && Wrote(was, buf[..], at, at, fs, 0)
    modifies buf
    ensures Wrote(was, buf[..], at, end, fs, |fs|)
  {
    end := at;
    if p != null {
      end := WriteListTotal(p.total, buf, at, was, fs);
      OrdersUnchanged(Elems(p.orders));
      end := WriteListOrders(p.orders, buf, at, end, was, fs);
      end := WriteBaseField(p.base, buf, at, end, was, fs, 2);
    }
  }

  lemma ListSize(p: R.ListOrdersResponse)
    ensures |EncFields(R.ListFields(p))|
         == |EncField(Field(1, VList(STRUCT, R.OrderValues(Elems(p.orders)))))| + 11 + (3 + |Enc(R.BaseValue(p.base))|)
  {
    var fs := R.ListFields(p);
    SizeOfThree([], fs[0], fs[1], fs[2]);
    assert fs == [] + [fs[0], fs[1], fs[2]];
  }

  method OrderElemLength(p: Order?, ghost enc: Option<R.Order> -> Value, ghost e: Value) returns (l: nat)
    requires OrderEncoder(enc) && e == enc(OrderView(p))
    ensures l == |Enc(e)|
  {
    assert e == R.OrderValue(OrderView(p));
    l := OrderLength(p);
  }

  method OrderElemsLength(ps: seq<Order?>, ghost enc: Option<R.Order> -> Value, ghost es: seq<Value>) returns (l: nat)
    requires OrderEncoder(enc) && |es| == |ps| && forall k :: 0 <= k < |es| ==> es[k] == enc(OrderView(ps[k]))
    ensures l == |EncElems(es)|
  {
    l := 0;
    var i := 0;
    while i < |ps|
      invariant 0 <= i <= |ps| && l == |EncElems(es[..i])|
    {
      OrderUnchanged(ps[i]);
      ElemsNext(es, i);
      var n := OrderElemLength(ps[i], enc, es[i]);
      l := l + n;
      i := i + 1;
    }
    assert es[..|ps|] == es;
  }

  method OrdersLength(orders: Slice<Order?>) returns (l: nat)
    ensures l == |EncField(Field(1, VList(STRUCT, R.OrderValues(old(OrderViews(Elems(orders)))))))|
  {
    ghost var es := R.OrderValues(OrderViews(Elems(orders)));
    var n := OrderElemsLength(Elems(orders), R.OrderValue, es);
    l := 3 + 5 + n;
    ListFieldSize(1, STRUCT, es);
  }

  method ListLength(p: ListOrdersResponse?) returns (l: nat)
    ensures l == |Enc(VStruct(old(ListFieldsOf(p))))|
  {
    l := 0;
    if p != null {
      l := OrdersLength(p.orders);
      l := l + 3 + 8;
      var n := BaseLength(p.base);
      l := l + 3 + n;
      assert old(OrderViews(Elems(p.orders))) == Elems(old(p.View()).orders);
      ListSize(old(p.View()));
    }
    l := l + 1;
  }

  // Through the wire.

  /** The sender sizes a buffer with the length computation and fills it completely. */
  method Send(p: ListOrdersResponse) returns (buf: array<byte>)
    ensures fresh(buf) && buf[..] == old(Enc(VStruct(R.ListFields(p.View()))))
  {
    var size := ListLength(p);
    buf := new byte[size];
    ghost var blank := buf[..];
    OrdersUnchanged(Elems(p.orders));
    var end := WriteList(p, buf, 0);
    SpliceAll(blank, old(Enc(VStruct(R.ListFields(p.View())))));
  }

  /** What one side sends the other reads back, whatever bytes follow. */
  method Deliver(p: ListOrdersResponse, rest: seq<byte>) returns (ok: bool, q: ListOrdersResponse, n: nat)
    requires ListFits(p.View())
    ensures fresh(q) && ok && q.View() == ListBack(old(p.View())) && n == |old(Enc(VStruct(R.ListFields(p.View()))))|
  {
    ListRoundTrip(old(p.View()), rest);
    var buf := Send(p);
    q := new ListOrdersResponse();
    ok, n := q.FastRead(buf[..] + rest);
  }
}
