/** A response with a list of integers (kitex_gen/meshcart/order/k-order.go, CloseExpiredOrdersResponse). */
module ThriftCloseExpired {
  import opened Prelude
  import opened ThriftWire
  import opened ThriftStruct
  import opened ThriftBuffer
  import opened ThriftBase
  import R = ThriftRecords

  // The list of integers.

  lemma I64sUnfold(b: seq<byte>, size: nat, v: i64, n: nat, tail: seq<byte>)
    requires size > 0 && ReadI64(b) == Good(v, n) && b[n..] == tail
    ensures R.ReadI64s(b, size) == After([v], n, R.ReadI64s(tail, size - 1))
  {
  }

  lemma NextI64(b: seq<byte>, size: nat, offset: nat, done: seq<i64>, v: i64, n: nat)
    requires Reading(R.ReadI64s, b, size, offset, done) && |done| < size && ReadI64(b[offset..]) == Good(v, n)
    ensures Reading(R.ReadI64s, b, size, offset + n, done + [v])
  {
    assert b[offset..][n..] == b[offset + n..];
    I64sUnfold(b[offset..], size - |done|, v, n, b[offset + n..]);
    ReadOn(R.ReadI64s, b, size, offset, done, v, n);
  }

  lemma NoI64(b: seq<byte>, size: nat, offset: nat, done: seq<i64>)
    requires Reading(R.ReadI64s, b, size, offset, done) && |done| < size && ReadI64(b[offset..]).Bad?
    ensures R.ReadI64s(b, size) == Bad
  {
  }

  method ReadIds(buf: seq<byte>, size: nat) returns (ok: bool, offset: nat, field: seq<i64>)
    ensures R.ReadI64s(buf, size) == if ok then Good(field, offset) else Bad
  {
    offset, field := 0, [];
    StartReadingElems(R.ReadI64s, buf, size);
    while |field| < size
      invariant Reading(R.ReadI64s, buf, size, offset, field)
    {
      var v := ReadI64(buf[offset..]);
      if v.Bad? {
        NoI64(buf, size, offset, field);
        return false, offset, field;
      }
      NextI64(buf, size, offset, field, v.val, v.n);
      offset := offset + v.n;
      field := field + [v.val];
    }
    assert field + [] == field;
    ok := true;
  }

  /** The loop puts the integers behind the gap and counts them. */
  method WriteIdElems(ids: seq<i64>, buf: array<byte>, gap: nat, ghost es: seq<Value>) returns (length: nat, end: nat)
    requires |es| == |ids| && gap + 5 + |EncElems(es)| <= buf.Length
    requires forall k :: 0 <= k < |es| ==> es[k] == VI64(ids[k])
    modifies buf
    ensures length == |es| && WroteElems(old(buf[..]), buf[..], gap, end, es, |es|)
  {
    WroteNoElems(buf[..], gap, es);
    length, end := 0, gap + 5;
    while length < |ids|
      invariant 0 <= length <= |ids|
      invariant WroteElems(old(buf[..]), buf[..], gap, end, es, length)
    {
      end := WriteNextId(ids[length], buf, end, old(buf[..]), gap, es, length);
      length := length + 1;
    }
  }

  method WriteNextId(id: i64, buf: array<byte>, at: nat, ghost was: seq<byte>, ghost gap: nat, ghost es: seq<Value>,
        ghost k: nat)
    returns (end: nat)
    requires WroteElems(was, buf[..], gap, at, es, k) && k < |es| && es[k] == VI64(id)
    modifies buf
    ensures WroteElems(was, buf[..], gap, end, es, k + 1)
  {
    ghost var now := buf[..];
    WroteElemsRoom(was, now, gap, at, es, k);
    end := WriteI64(buf, at, id);
    WroteElemsNext(was, now, gap, at, es, k);
  }

  method WriteIds(ids: Slice<i64>, buf: array<byte>, at: nat) returns (end: nat)
    requires at + |EncField(Field(2, VList(I64, R.I64Values(Elems(ids)))))| <= buf.Length
    modifies buf
    ensures var f := Field(2, VList(I64, R.I64Values(Elems(ids))));
      end == at + |EncField(f)| && buf[..] == Splice(old(buf[..]), at, EncField(f))
  {
    ghost var es := R.I64Values(Elems(ids));
    var listBegin := WriteFieldBegin(buf, at, LIST, 2);
    ghost var mid := buf[..];
    var length;
    length, end := WriteIdElems(Elems(ids), buf, listBegin, es);
    PatchListBegin(buf, listBegin, end, I64, length, old(buf[..]), mid, at, 2, es);
  }

  lemma {:induction false} IdsSize(es: seq<Value>)
    requires forall k :: 0 <= k < |es| ==> es[k].VI64?
    ensures |EncElems(es)| == 8 * |es|
    decreases |es|
  {
    if es != [] { IdsSize(es[1..]); }
  }

  // The response.

  class CloseExpiredOrdersResponse {
    var closedCount: i32
    var orderIds: Slice<i64>
    var base: BaseResponse?

    constructor ()
      ensures View() == R.ZERO_CLOSE
    {
      closedCount := 0;
      orderIds := Nil;
      base := null;
    }

    ghost function View(): R.CloseExpiredOrdersResponse
      reads this, base
    {
      R.CloseExpiredOrdersResponse(closedCount, orderIds, BaseView(base))
    }

    /** The record holds the object's fields, name by name. */
    lemma ViewNames()
      ensures View().closedCount == closedCount && View().orderIds == orderIds && View().base == BaseView(base)
    {
    }

    method FastReadField2(buf: seq<byte>) returns (ok: bool, offset: nat)
      modifies this
      ensures var r := R.ReadI64List(buf);
        ok == r.Good? && (ok ==> View() == old(View()).(orderIds := Slice(r.val)) && offset == r.n)
      ensures !ok ==> View() == old(View())
    {
      var h := ReadListBegin(buf);
      if h.Bad? { return false, 0; }
      var l, field;
      ok, l, field := ReadIds(buf[h.n..], h.val.1);
      if !ok { return false, h.n; }
      orderIds := Slice(field);
      return true, h.n + l;
    }

    method FastReadField255(buf: seq<byte>) returns (ok: bool, offset: nat)
      modifies this
      ensures var r := ReadStruct(R.BaseSwitch, buf, R.ZERO_BASE);
        ok == r.Good? && (ok ==> View() == old(View()).(base := Some(r.val)) && offset == r.n)
      ensures !ok ==> View() == old(View())
    {
      var field := new BaseResponse();
      ok, offset := field.FastRead(buf);
      if ok {
        base := field;
      }
    }

    method ReadField(t: byte, id: i16, b: seq<byte>, ghost f: Switch<R.CloseExpiredOrdersResponse>,
          ghost r: Read<R.CloseExpiredOrdersResponse>)
      returns (ok: bool, l: nat)
      requires Agrees(f, R.CloseSwitch) && r == f(View(), t, id, b)
      modifies this
      ensures ok == r.Good? && (ok ==> View() == r.val && l == r.n <= |b|)
      ensures !ok ==> View() == old(View())
    {
      assert r == R.CloseSwitch(View(), t, id, b);
      if id == 2 && t == LIST {
        ok, l := FastReadField2(b);
      } else if id == 255 && t == STRUCT {
        ok, l := FastReadField255(b);
      } else if id == 1 && t == I32 {
        var v := ReadI32(b);
        if v.Bad? { return false, 0; }
        closedCount := v.val;
        return true, v.n;
      } else {
        var n := Skip(b, t);
        if n.None? { return false, 0; }
        return true, n.value;
      }
    }

    /** One turn of the read loop; more: another field may follow. */
    method ReadNext(buf: seq<byte>, offset: nat, ghost f: Switch<R.CloseExpiredOrdersResponse>,
          ghost first: R.CloseExpiredOrdersResponse)
      returns (ok: bool, more: bool, next: nat)
      requires Agrees(f, R.CloseSwitch) && ReadingOn(f, buf, first, offset, View())
      modifies this
      ensures !ok ==> ReadStruct(f, buf, first) == Bad && StructLeft(f, buf, first) == View()
      ensures ok && !more ==> ReadStruct(f, buf, first) == Good(View(), next)
      ensures ok && more ==> ReadingOn(f, buf, first, next, View()) && next > offset
    {
      ghost var p := View();
      var h := ReadFieldBegin(buf[offset..]);
      if h.Bad? {
        ReadBreaks(f, buf, first, offset, p);
        return false, false, offset;
      }
      var (t, id) := h.val;
      next := offset + h.n;
      if t == STOP {
        ReadStops(f, buf, first, offset, p, id, h.n);
        return true, false, next;
      }
      ghost var r := f(p, t, id, buf[next..]);
      var l;
      ok, l := ReadField(t, id, buf[next..], f, r);
      ReadsField(f, buf, first, offset, p, t, id, h.n, r);
      return ok, true, next + l;
    }

    method FastRead(buf: seq<byte>, ghost f: Switch<R.CloseExpiredOrdersResponse> := R.CloseSwitch)
      returns (ok: bool, offset: nat)
      requires Agrees(f, R.CloseSwitch)
      modifies this
      ensures var r := ReadStruct(f, buf, old(View()));
        ok == r.Good? && (ok ==> View() == r.val && offset == r.n)
      ensures View() == StructLeft(f, buf, old(View()))
    {
      offset := 0;
      ghost var first := View();
      StartReading(f, buf, first);
      while true
        invariant ReadingOn(f, buf, first, offset, View())
        decreases |buf| - offset
      {
        var more;
        ok, more, offset := ReadNext(buf, offset, f, first);
        if !ok || !more { return; }
      }
    }
  }

  ghost function CloseFieldsOf(p: CloseExpiredOrdersResponse?): seq<Field>
    reads p, if p == null then null else p.base
  {
    if p == null then [] else R.CloseFields(p.View())
  }

  method WriteCloseCount(count: i32, buf: array<byte>, at: nat, ghost was: seq<byte>, ghost fs: seq<Field>)
    returns (end: nat)
    requires |fs| > 0 && fs[0] == Field(1, VI32(count)) && Wrote(was, buf[..], at, at, fs, 0)
    modifies buf
    ensures Wrote(was, buf[..], at, end, fs, 1)
  {
    end := WriteField(buf, at, Field(1, VI32(count)), was, at, fs, 0);
  }

  method WriteCloseIds(ids: Slice<i64>, buf: array<byte>, at: nat, from: nat, ghost was: seq<byte>,
        ghost fs: seq<Field>)
    returns (end: nat)
    requires |fs| > 1 && fs[1] == Field(2, VList(I64, R.I64Values(Elems(ids))))
    requires Wrote(was, buf[..], at, from, fs, 1)
    modifies buf
    ensures Wrote(was, buf[..], at, end, fs, 2)
  {
    ghost var now := buf[..];
    WroteRoom(was, now, at, from, fs, 1);
    end := WriteIds(ids, buf, from);
    WroteNext(was, now, at, from, fs, 1);
  }

  method WriteCloseFields(p: CloseExpiredOrdersResponse?, buf: array<byte>, at: nat, ghost was: seq<byte>,
        ghost fs: seq<Field>)
    returns (end: nat)
    requires fs == CloseFieldsOf(p) && Wrote(was, buf[..], at, at, fs, 0)
    modifies buf
    ensures Wrote(was, buf[..], at, end, fs, |fs|)
  {
    end := at;
    if p != null {
      end := WriteCloseCount(p.closedCount, buf, at, was, fs);
      end := WriteCloseIds(p.orderIds, buf, at, end, was, fs);
      end := WriteBaseField(p.base, buf, at, end, was, fs, 2);
    }
  }

  method WriteClose(p: CloseExpiredOrdersResponse?, buf: array<byte>, at: nat) returns (end: nat)
    requires at + |Enc(VStruct(CloseFieldsOf(p)))| <= buf.Length
    modifies buf
    ensures end == at + |old(Enc(VStruct(CloseFieldsOf(p))))|
    ensures buf[..] == Splice(old(buf[..]), at, old(Enc(VStruct(CloseFieldsOf(p)))))
  {
    ghost var was, fs := buf[..], CloseFieldsOf(p);
    WroteNothing(was, at, fs);
    end := WriteCloseFields(p, buf, at, was, fs);
    end := WriteFieldStop(buf, end, was, at, fs);
  }

  lemma CloseSize(p: R.CloseExpiredOrdersResponse)
    ensures |EncFields(R.CloseFields(p))| == 7 + (8 + 8 * |Elems(p.orderIds)|) + (3 + |Enc(R.BaseValue(p.base))|)
  {
    var fs, es := R.CloseFields(p), R.I64Values(Elems(p.orderIds));
    SizeOfThree([], fs[0], fs[1], fs[2]);
    assert fs == [] + [fs[0], fs[1], fs[2]];
    IdsSize(es);
    ListFieldSize(2, I64, es);
  }

  /** The size of the list is a product here, not a loop. */
  method CloseLength(p: CloseExpiredOrdersResponse?) returns (l: nat)
    ensures l == |Enc(VStruct(CloseFieldsOf(p)))|
  {
    l := 0;
    if p != null {
      l := l + 3 + 4;
      l := l + 3 + 5 + 8 * |Elems(p.orderIds)|;
      var n := BaseLength(p.base);
      l := l + 3 + n;
      CloseSize(p.View());
    }
    l := l + 1;
  }
}
