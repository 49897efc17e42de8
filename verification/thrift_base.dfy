/** The header every response carries (kitex_gen/meshcart/base/k-base.go). */
module ThriftBase {
  import opened Prelude
  import opened ThriftWire
  import opened ThriftStruct
  import opened ThriftBuffer
  import R = ThriftRecords

  class BaseResponse {
    var code: i32
    var message: Str

    constructor ()
      ensures View() == R.ZERO_BASE
    {
      code := 0;
      message := [];
    }

    ghost function View(): R.BaseResponse
      reads this
    {
      R.BaseResponse(code, message)
    }

    /** The record holds the object's fields, name by name. */
    lemma ViewNames()
      ensures View().code == code && View().message == message
    {
    }

    method ReadField(t: byte, id: i16, b: seq<byte>, ghost f: Switch<R.BaseResponse>, ghost r: Read<R.BaseResponse>)
      returns (ok: bool, l: nat)
      requires Agrees(f, R.BaseSwitch) && r == f(View(), t, id, b)
      modifies this
      ensures ok == r.Good? && (ok ==> View() == r.val && l == r.n <= |b|)
      ensures !ok ==> View() == old(View())
    {
      assert r == R.BaseSwitch(View(), t, id, b);
      if id == 1 && t == I32 {
        var v := ReadI32(b);
        if v.Bad? { return false, 0; }
        code := v.val;
        return true, v.n;
      } else if id == 2 && t == STRING {
        var v := ReadString(b);
        if v.Bad? { return false, 0; }
        message := v.val;
        return true, v.n;
      }
      var n := Skip(b, t);
      if n.None? { return false, 0; }
      return true, n.value;
    }

    /** One turn of the read loop; more: another field may follow. */
    method ReadNext(buf: seq<byte>, offset: nat, ghost f: Switch<R.BaseResponse>, ghost first: R.BaseResponse)
      returns (ok: bool, more: bool, next: nat)
      requires Agrees(f, R.BaseSwitch) && ReadingOn(f, buf, first, offset, View())
      modifies this
      ensures !ok ==> ReadStruct(f, buf, first) == Bad && StructLeft(f, buf, first) == View()
      ensures ok && !more ==> ReadStruct(f, buf, first) == Good(View(), next)
      ensures ok && more ==> ReadingOn(f, buf, first, next, View()) && next > offset
    {
      ghost var p := View();
      var h := ReadFieldBegin(buf[offset..]);
      if h.Bad? {
        ReadBreaks(f, buf, first, offset, p);
        return false, false, offset;
      }
      var (t, id) := h.val;
      next := offset + h.n;
      if t == STOP {
        ReadStops(f, buf, first, offset, p, id, h.n);
        return true, false, next;
      }
      ghost var r := f(p, t, id, buf[next..]);
      var l;
      ok, l := ReadField(t, id, buf[next..], f, r);
      ReadsField(f, buf, first, offset, p, t, id, h.n, r);
      return ok, true, next + l;
    }

    method FastRead(buf: seq<byte>, ghost f: Switch<R.BaseResponse> := R.BaseSwitch) returns (ok: bool, offset: nat)
      requires Agrees(f, R.BaseSwitch)
      modifies this
      ensures var r := ReadStruct(f, buf, old(View()));
        ok == r.Good? && (ok ==> View() == r.val && offset == r.n)
      ensures View() == StructLeft(f, buf, old(View()))
    {
      offset := 0;
      ghost var first := View();
      StartReading(f, buf, first);
      while true
        invariant ReadingOn(f, buf, first, offset, View())
        decreases |buf| - offset
      {
        var more;
        ok, more, offset := ReadNext(buf, offset, f, first);
        if !ok || !more { return; }
      }
    }
  }

  ghost function BaseView(p: BaseResponse?): Option<R.BaseResponse>
    reads p
  {
    if p == null then None else Some(p.View())
  }

  /** A nil header is written as a bare stop byte. */
  method WriteBase(p: BaseResponse?, buf: array<byte>, at: nat) returns (end: nat)
    requires at + |Enc(R.BaseValue(BaseView(p)))| <= buf.Length
    modifies buf
    ensures end == at + |old(Enc(R.BaseValue(BaseView(p))))|
    ensures buf[..] == Splice(old(buf[..]), at, old(Enc(R.BaseValue(BaseView(p)))))
  {
    ghost var was, fs := buf[..], R.BaseValue(BaseView(p)).fields;
    WroteNothing(was, at, fs);
    end := at;
    if p != null {
      end := WriteField(buf, end, Field(1, VI32(p.code)), was, at, fs, 0);
      end := WriteField(buf, end, Field(2, VString(p.message)), was, at, fs, 1);
    }
    end := WriteFieldStop(buf, end, was, at, fs);
  }

  method WriteField255(base: BaseResponse?, buf: array<byte>, at: nat, ghost v: Value) returns (end: nat)
    requires v == R.BaseValue(BaseView(base)) && at + |EncField(Field(255, v))| <= buf.Length
    modifies buf
    ensures end == at + |EncField(Field(255, v))|
    ensures buf[..] == Splice(old(buf[..]), at, EncField(Field(255, v)))
  {
    assert FieldHeader(Field(255, v)) == [STRUCT] + Word(255, 2);
    end := WriteFieldBegin(buf, at, STRUCT, 255);
    end := WriteBase(base, buf, end);
    SpliceThen(old(buf[..]), at, FieldHeader(Field(255, v)), Enc(v));
  }

  method WriteBaseField(base: BaseResponse?, buf: array<byte>, at: nat, from: nat, ghost was: seq<byte>,
        ghost fs: seq<Field>, ghost k: nat)
    returns (end: nat)
    requires k < |fs| && fs[k] == Field(255, R.BaseValue(BaseView(base)))
    requires Wrote(was, buf[..], at, from, fs, k)
    modifies buf
    ensures Wrote(was, buf[..], at, end, fs, k + 1)
  {
    ghost var now := buf[..];
    WroteRoom(was, now, at, from, fs, k);
    end := WriteField255(base, buf, from, fs[k].value);
    WroteNext(was, now, at, from, fs, k);
  }

  lemma BaseSize(p: R.BaseResponse)
    ensures |EncFields(R.BaseFields(p))| == 7 + (7 + |p.message|)
  {
    var fs := R.BaseFields(p);
    EncFieldsSnoc([], fs[0]);
    EncFieldsSnoc([] + [fs[0]], fs[1]);
    assert fs == [] + [fs[0]] + [fs[1]];
  }

  /** The size computation, which the writer does not consult, agrees with what the writer puts down. */
  method BaseLength(p: BaseResponse?) returns (l: nat)
    ensures l == |Enc(R.BaseValue(BaseView(p)))|
  {
    l := 0;
    if p != null {
      l := l + 3 + 4;
      l := l + 3 + (4 + |p.message|);
      BaseSize(p.View());
    }
    l := l + 1;
  }
}
