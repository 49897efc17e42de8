/**
 `FastWrite` of the records: what a writer leaves at the start of a buffer, told by the ids and wire types of the schema;
 a nil pointer leaves a stop byte (kitex_gen/meshcart/base/k-base.go:114-137, kitex_gen/meshcart/order/k-order.go:1049-1079).
 */
module ThriftFastWrite {
  import opened Prelude
  import opened ThriftWire
  import opened ThriftRoundTrip
  import opened ThriftSchema
  import opened ThriftBase
  import opened ThriftOrder
  import opened ThriftMessages
  import opened ThriftCloseExpired
  import opened ThriftConfirm
  import R = ThriftRecords

  method FastWriteBase(p: BaseResponse?, buf: array<byte>) returns (n: nat)
    requires |Enc(R.BaseValue(BaseView(p)))| <= buf.Length
    modifies buf
    ensures n == |old(Enc(R.BaseValue(BaseView(p))))| && buf[n..] == old(buf[..])[n..]
    ensures p == null ==> n == 1 && buf[0] == 0
    ensures p != null && old(BaseFits(BaseView(p))) ==> BaseOnWire(buf[..], old(p.View()))
  {
    ghost var was, view: Option<R.BaseResponse> := buf[..], if p == null then None else Some(p.View());
    ghost var fits := p != null && BaseFits(BaseView(p));
    n := WriteBase(p, buf, 0);
    if fits { BaseLeft(was, 0, view.value); }
  }

  method FastWriteItem(p: OrderItem?, buf: array<byte>) returns (n: nat)
    requires |Enc(R.ItemValue(ItemView(p)))| <= buf.Length
    modifies buf
    ensures n == |old(Enc(R.ItemValue(ItemView(p))))| && buf[n..] == old(buf[..])[n..]
    ensures p == null ==> n == 1 && buf[0] == 0
    ensures p != null && old(ItemFits(ItemView(p))) ==> ItemOnWire(buf[..], old(p.View()))
  {
    ghost var was, view: Option<R.OrderItem> := buf[..], if p == null then None else Some(p.View());
    ghost var fits := p != null && ItemFits(ItemView(p));
    n := WriteItem(p, buf, 0);
    if fits { ItemLeft(was, 0, view.value); }
  }

  method FastWriteOrder(p: Order?, buf: array<byte>) returns (n: nat)
    requires |Enc(R.OrderValue(OrderView(p)))| <= buf.Length
    modifies buf
    ensures n == |old(Enc(R.OrderValue(OrderView(p))))| && buf[n..] == old(buf[..])[n..]
    ensures p == null ==> n == 1 && buf[0] == 0
    ensures p != null && old(OrderFits(OrderView(p))) ==> OrderOnWire(buf[..], old(p.View()))
  {
    ghost var was, view: Option<R.Order> := buf[..], if p == null then None else Some(p.View());
    ghost var fits := p != null && OrderFits(OrderView(p));
    n := WriteOrder(p, buf, 0);
    if fits { OrderLeft(was, 0, view.value); }
  }

  method FastWriteList(p: ListOrdersResponse?, buf: array<byte>) returns (n: nat)
    requires |Enc(VStruct(ListFieldsOf(p)))| <= buf.Length
    modifies buf
    ensures n == |old(Enc(VStruct(ListFieldsOf(p))))| && buf[n..] == old(buf[..])[n..]
    ensures p == null ==> n == 1 && buf[0] == 0
    ensures p != null && old(ListFits(p.View())) ==> ListOnWire(buf[..], old(p.View()))
  {
    ghost var was, view: Option<R.ListOrdersResponse> := buf[..], if p == null then None else Some(p.View());
    ghost var fits := p != null && ListFits(p.View());
    n := WriteList(p, buf, 0);
    if fits { ListLeft(was, 0, view.value); }
  }

  method FastWriteClose(p: CloseExpiredOrdersResponse?, buf: array<byte>) returns (n: nat)
    requires |Enc(VStruct(CloseFieldsOf(p)))| <= buf.Length
    modifies buf
    ensures n == |old(Enc(VStruct(CloseFieldsOf(p))))| && buf[n..] == old(buf[..])[n..]
    ensures p == null ==> n == 1 && buf[0] == 0
    ensures p != null && old(CloseFits(p.View())) ==> CloseOnWire(buf[..], old(p.View()))
  {
    ghost var was, view: Option<R.CloseExpiredOrdersResponse> := buf[..], if p == null then None else Some(p.View());
    ghost var fits := p != null && CloseFits(p.View());
    n := WriteClose(p, buf, 0);
    if fits { CloseLeft(was, 0, view.value); }
  }

  method FastWriteConfirm(p: ConfirmOrderPaidRequest?, buf: array<byte>) returns (n: nat)
    requires |Enc(VStruct(ConfirmFieldsOf(p)))| <= buf.Length
    modifies buf
    ensures n == |old(Enc(VStruct(ConfirmFieldsOf(p))))| && buf[n..] == old(buf[..])[n..]
    ensures p == null ==> n == 1 && buf[0] == 0
    ensures p != null && old(ConfirmFits(p.View())) ==> ConfirmOnWire(buf[..], old(p.View()))
  {
    ghost var was, view: Option<R.ConfirmOrderPaidRequest> := buf[..], if p == null then None else Some(p.View());
    ghost var fits := p != null && ConfirmFits(p.View());
    n := WriteConfirm(p, buf, 0);
    if fits { ConfirmLeft(was, 0, view.value); }
  }
}
