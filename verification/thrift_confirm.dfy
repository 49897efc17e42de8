/** A request with optional fields (kitex_gen/meshcart/order/k-order.go, ConfirmOrderPaidRequest). */
module ThriftConfirm {
  import opened Prelude
  import opened ThriftWire
  import opened ThriftStruct
  import opened ThriftBuffer
  import R = ThriftRecords

  /** Pointers stand for set or unset: None is a nil pointer. */
  class ConfirmOrderPaidRequest {
    var orderId: i64
    var paymentId: Str
    var requestId: Option<Str>
    var paymentMethod: Option<Str>
    var paymentTradeNo: Option<Str>
    var paidAt: Option<i64>

    constructor ()
      ensures View() == R.ZERO_CONFIRM
    {
      orderId := 0;
      paymentId := [];
      requestId := None;
      paymentMethod := None;
      paymentTradeNo := None;
      paidAt := None;
    }

    ghost function View(): R.ConfirmOrderPaidRequest
      reads this
    {
      R.ConfirmOrderPaidRequest(orderId, paymentId, requestId, paymentMethod, paymentTradeNo, paidAt)
    }

    /** The record holds the object's fields, name by name. */
    lemma ViewNames()
      ensures View().orderId == orderId && View().paymentId == paymentId && View().requestId == requestId
      ensures View().paymentMethod == paymentMethod && View().paymentTradeNo == paymentTradeNo && View().paidAt == paidAt
    {
    }

    method ReadField(t: byte, id: i16, b: seq<byte>, ghost f: Switch<R.ConfirmOrderPaidRequest>,
          ghost r: Read<R.ConfirmOrderPaidRequest>)
      returns (ok: bool, l: nat)
      requires Agrees(f, R.ConfirmSwitch) && r == f(View(), t, id, b)
      modifies this
      ensures ok == r.Good? && (ok ==> View() == r.val && l == r.n <= |b|)
      ensures !ok ==> View() == old(View())
    {
      assert r == R.ConfirmSwitch(View(), t, id, b);
      if id == 1 && t == I64 {
        var v := ReadI64(b);
        if v.Bad? { return false, 0; }
        orderId := v.val;
        return true, v.n;
      } else if id == 2 && t == STRING {
        var v := ReadString(b);
        if v.Bad? { return false, 0; }
        paymentId := v.val;
        return true, v.n;
      } else if id == 3 && t == STRING {
        var v := ReadString(b);
        if v.Bad? { return false, 0; }
        requestId := Some(v.val);
        return true, v.n;
      } else if id == 4 && t == STRING {
        var v := ReadString(b);
        if v.Bad? { return false, 0; }
        paymentMethod := Some(v.val);
        return true, v.n;
      } else if id == 5 && t == STRING {
        var v := ReadString(b);
        if v.Bad? { return false, 0; }
        paymentTradeNo := Some(v.val);
        return true, v.n;
      } else if id == 6 && t == I64 {
        var v := ReadI64(b);
        if v.Bad? { return false, 0; }
        paidAt := Some(v.val);
        return true, v.n;
      }
      var n := Skip(b, t);
      if n.None? { return false, 0; }
      return true, n.value;
    }

    /** One turn of the read loop; more: another field may follow. */
    method ReadNext(buf: seq<byte>, offset: nat, ghost f: Switch<R.ConfirmOrderPaidRequest>,
          ghost first: R.ConfirmOrderPaidRequest)
      returns (ok: bool, more: bool, next: nat)
      requires Agrees(f, R.ConfirmSwitch) && ReadingOn(f, buf, first, offset, View())
      modifies this
      ensures !ok ==> ReadStruct(f, buf, first) == Bad && StructLeft(f, buf, first) == View()
      ensures ok && !more ==> ReadStruct(f, buf, first) == Good(View(), next)
      ensures ok && more ==> ReadingOn(f, buf, first, next, View()) && next > offset
    {
      ghost var p := View();
      var h := ReadFieldBegin(buf[offset..]);
      if h.Bad? {
        ReadBreaks(f, buf, first, offset, p);
        return false, false, offset;
      }
      var (t, id) := h.val;
      next := offset + h.n;
      if t == STOP {
        ReadStops(f, buf, first, offset, p, id, h.n);
        return true, false, next;
      }
      ghost var r := f(p, t, id, buf[next..]);
      var l;
      ok, l := ReadField(t, id, buf[next..], f, r);
      ReadsField(f, buf, first, offset, p, t, id, h.n, r);
      return ok, true, next + l;
    }

    method FastRead(buf: seq<byte>, ghost f: Switch<R.ConfirmOrderPaidRequest> := R.ConfirmSwitch)
      returns (ok: bool, offset: nat)
      requires Agrees(f, R.ConfirmSwitch)
      modifies this
      ensures var r := ReadStruct(f, buf, old(View()));
        ok == r.Good? && (ok ==> View() == r.val && offset == r.n)
      ensures View() == StructLeft(f, buf, old(View()))
    {
      offset := 0;
      ghost var first := View();
      StartReading(f, buf, first);
      while true
        invariant ReadingOn(f, buf, first, offset, View())
        decreases |buf| - offset
      {
        var more;
        ok, more, offset := ReadNext(buf, offset, f, first);
        if !ok || !more { return; }
      }
    }
  }

  ghost function ConfirmFieldsOf(p: ConfirmOrderPaidRequest?): seq<Field>
    reads p
  {
    if p == null then [] else R.ConfirmFields(p.View())
  }

  /** An optional field takes its place among the others only when it is set. */
  method WriteOptional(v: Option<Value>, id: i16, buf: array<byte>, at: nat, from: nat,
      ghost was: seq<byte>, ghost fs: seq<Field>, ghost k: nat)
    returns (end: nat, ghost next: nat)
    requires v.Some? ==> Scalar(v.value) && k < |fs| && fs[k] == Field(id, v.value)
    requires Wrote(was, buf[..], at, from, fs, k)
    modifies buf
    ensures next == (if v.Some? then k + 1 else k) && Wrote(was, buf[..], at, end, fs, next)
  {
    end, next := from, k;
    if v.Some? {
      end := WriteField(buf, from, Field(id, v.value), was, at, fs, k);
      next := k + 1;
    }
  }

  function TextOf(s: Option<Str>): Option<Value> {
    if s.None? then None else Some(VString(s.value))
  }

  function NumberOf(n: Option<i64>): Option<Value> {
    if n.None? then None else Some(VI64(n.value))
  }

  method WriteRequired(p: ConfirmOrderPaidRequest, buf: array<byte>, at: nat, ghost was: seq<byte>,
        ghost fs: seq<Field>)
    returns (end: nat)
    requires fs == R.ConfirmFields(p.View()) && Wrote(was, buf[..], at, at, fs, 0)
    modifies buf
    ensures Wrote(was, buf[..], at, end, fs, if p.paidAt.None? then 2 else 3)
  {
    ghost var k: nat;
    end := WriteField(buf, at, Field(1, VI64(p.orderId)), was, at, fs, 0);
    end, k := WriteOptional(NumberOf(p.paidAt), 6, buf, at, end, was, fs, 1);
    end := WriteField(buf, end, Field(2, VString(p.paymentId)), was, at, fs, k);
  }

  method WriteConfirmFields(p: ConfirmOrderPaidRequest, buf: array<byte>, at: nat, ghost was: seq<byte>,
        ghost fs: seq<Field>)
    returns (end: nat)
    requires fs == R.ConfirmFields(p.View()) && Wrote(was, buf[..], at, at, fs, 0)
    modifies buf
    ensures Wrote(was, buf[..], at, end, fs, |fs|)
  {
    end := WriteRequired(p, buf, at, was, fs);
    ghost var k := if p.paidAt.None? then 2 else 3;
    end, k := WriteOptional(TextOf(p.requestId), 3, buf, at, end, was, fs, k);
    end, k := WriteOptional(TextOf(p.paymentMethod), 4, buf, at, end, was, fs, k);
    end, k := WriteOptional(TextOf(p.paymentTradeNo), 5, buf, at, end, was, fs, k);
  }

  method WriteConfirm(p: ConfirmOrderPaidRequest?, buf: array<byte>, at: nat) returns (end: nat)
    requires at + |Enc(VStruct(ConfirmFieldsOf(p)))| <= buf.Length
    modifies buf
    ensures end == at + |old(Enc(VStruct(ConfirmFieldsOf(p))))|
    ensures buf[..] == Splice(old(buf[..]), at, old(Enc(VStruct(ConfirmFieldsOf(p)))))
  {
    ghost var was, fs := buf[..], ConfirmFieldsOf(p);
    WroteNothing(was, at, fs);
    end := at;
    if p != null {
      end := WriteConfirmFields(p, buf, at, was, fs);
    }
    assert Wrote(was, buf[..], at, end, fs, |fs|);
    end := WriteFieldStop(buf, end, was, at, fs);
  }

  /** An unset field adds nothing. */
  function TextSize(s: Option<Str>): nat {
    if s.None? then 0 else 7 + |s.value|
  }

  lemma TextFieldSize(fs: seq<Field>, id: i16, s: Option<Str>)
    ensures |EncFields(fs + R.OptString(id, s))| == |EncFields(fs)| + TextSize(s)
  {
    if s.None? {
      assert fs + R.OptString(id, s) == fs;
    } else {
      EncFieldsSnoc(fs, Field(id, VString(s.value)));
    }
  }

  lemma ConfirmSize(p: R.ConfirmOrderPaidRequest)
    ensures |EncFields(R.ConfirmFields(p))|
         == 11 + (7 + |p.paymentId|) + TextSize(p.requestId) + TextSize(p.paymentMethod) + TextSize(p.paymentTradeNo)
          + (if p.paidAt.None? then 0 else 11)
  {
    var f1 := [] + [Field(1, VI64(p.orderId))];
    EncFieldsSnoc([], Field(1, VI64(p.orderId)));
    var f2 := f1 + R.OptI64(6, p.paidAt);
    if p.paidAt.None? {
      assert f2 == f1;
    } else {
      EncFieldsSnoc(f1, Field(6, VI64(p.paidAt.value)));
    }
    EncFieldsSnoc(f2, Field(2, VString(p.paymentId)));
    var f3 := f2 + [Field(2, VString(p.paymentId))];
    var f4 := f3 + R.OptString(3, p.requestId);
    TextFieldSize(f3, 3, p.requestId);
    TextFieldSize(f4, 4, p.paymentMethod);
    TextFieldSize(f4 + R.OptString(4, p.paymentMethod), 5, p.paymentTradeNo);
    assert [] + [Field(1, VI64(p.orderId))] == [Field(1, VI64(p.orderId))];
  }

  method ConfirmLength(p: ConfirmOrderPaidRequest?) returns (l: nat)
    ensures l == |Enc(VStruct(ConfirmFieldsOf(p)))|
  {
    l := 0;
    if p != null {
      l := l + 3 + 8;
      l := l + 3 + (4 + |p.paymentId|);
      if p.requestId.Some? { l := l + 3 + (4 + |p.requestId.value|); }
      if p.paymentMethod.Some? { l := l + 3 + (4 + |p.paymentMethod.value|); }
      if p.paymentTradeNo.Some? { l := l + 3 + (4 + |p.paymentTradeNo.value|); }
      if p.paidAt.Some? { l := l + 3 + 8; }
      ConfirmSize(p.View());
    }
    l := l + 1;
  }
}
