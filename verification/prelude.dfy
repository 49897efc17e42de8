/** Types shared by every component of the model. */
module Prelude {
  type byte = x: int | 0 <= x < 256

  /** A Go string: bytes. */
  type Str = seq<byte>

  datatype Option<+T> = None | Some(value: T)

  lemma Pick<T>(s: set<T>) returns (x: T)
    requires s != {}
    ensures x in s
  {
    x :| x in s;
  }

  function Max(a: int, b: int): int {
    if a > b then a else b
  }

  /** A Go slice; nil and empty are told apart. */
  datatype Slice<+T> = Nil | Slice(s: seq<T>)

  function Elems<T>(x: Slice<T>): seq<T> {
    if x.Nil? then [] else x.s
  }

  /** The elements of xs whose place in the mask is true, in order. */
  function Keep<T>(xs: seq<T>, mask: seq<bool>): seq<T>
    requires |xs| == |mask|
  {
    if xs == [] then [] else (if mask[0] then [xs[0]] else []) + Keep(xs[1..], mask[1..])
  }

  lemma {:induction false} KeepAll<T>(xs: seq<T>, mask: seq<bool>)
    requires |xs| == |mask| && forall i :: 0 <= i < |mask| ==> mask[i]
    ensures Keep(xs, mask) == xs
  {
    if xs != [] { KeepAll(xs[1..], mask[1..]); }
  }

  lemma KeepCons<T>(x: T, b: bool, xs: seq<T>, mask: seq<bool>)
    requires |xs| == |mask|
    ensures Keep([x] + xs, [b] + mask) == (if b then [x] else []) + Keep(xs, mask)
  {
    assert ([x] + xs)[1..] == xs && ([b] + mask)[1..] == mask;
  }

  lemma {:induction false} KeepAppend<T>(xs: seq<T>, ys: seq<T>, m: seq<bool>, n: seq<bool>)
    requires |xs| == |m| && |ys| == |n|
    ensures Keep(xs + ys, m + n) == Keep(xs, m) + Keep(ys, n)
  {
    if xs == [] {
      assert xs + ys == ys && m + n == n;
    } else {
      KeepAppend(xs[1..], ys, m[1..], n);
      KeepCons(xs[0], m[0], xs[1..] + ys, m[1..] + n);
      assert xs + ys == [xs[0]] + (xs[1..] + ys) && m + n == [m[0]] + (m[1..] + n);
    }
  }

  lemma {:induction false} KeepMiddle<T>(xs: seq<T>, mid: seq<T>, ys: seq<T>, ones: seq<bool>, twos: seq<bool>)
    requires |mid| == 1 && |ones| == |xs| && |twos| == |ys|
    requires (forall i :: 0 <= i < |ones| ==> ones[i]) && forall i :: 0 <= i < |twos| ==> twos[i]
    ensures Keep(xs + mid + ys, ones + [false] + twos) == xs + ys
  {
    KeepAppend(xs + mid, ys, ones + [false], twos);
    KeepAppend(xs, mid, ones, [false]);
    KeepNone(mid);
    KeepAll(xs, ones);
    KeepAll(ys, twos);
  }

  lemma KeepNone<T>(mid: seq<T>)
    requires |mid| == 1
    ensures Keep(mid, [false]) == []
  {
    assert Keep(mid[1..], [false][1..]) == [];
  }
}
