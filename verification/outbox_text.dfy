/**
 How an error message is cut for its column (app/mq/dispatcher.go): white space goes at both ends, then everything behind
 the first 255 bytes. White space is Unicode's, in UTF-8.
 */
module OutboxText {
  import opened Prelude

  predicate AsciiSpace(a: byte) {
    9 <= a <= 13 || a == 32
  }

  /** U+0085 and U+00A0. */
  predicate Space2(a: byte, b: byte) {
    a == 0xC2 && (b == 0x85 || b == 0xA0)
  }

  /** U+1680, U+2000 to U+200A, U+2028, U+2029, U+202F, U+205F and U+3000. */
  predicate Space3(a: byte, b: byte, c: byte) {
    || (a == 0xE1 && b == 0x9A && c == 0x80)
    || (a == 0xE2 && b == 0x80 && (0x80 <= c <= 0x8A || c == 0xA8 || c == 0xA9 || c == 0xAF))
    || (a == 0xE2 && b == 0x81 && c == 0x9F)
    || (a == 0xE3 && b == 0x80 && c == 0x80)
  }

  /** The length of the white-space character at the front, zero if there is none. */
  function LeadingSpace(s: Str): (n: nat)
    ensures n <= |s|
  {
    if |s| >= 1 && AsciiSpace(s[0]) then 1
    else if |s| >= 2 && Space2(s[0], s[1]) then 2
    else if |s| >= 3 && Space3(s[0], s[1], s[2]) then 3
    else 0
  }

  function TrailingSpace(s: Str): (n: nat)
    ensures n <= |s|
  {
    var l := |s|;
    if l >= 1 && AsciiSpace(s[l - 1]) then 1
    else if l >= 2 && Space2(s[l - 2], s[l - 1]) then 2
    else if l >= 3 && Space3(s[l - 3], s[l - 2], s[l - 1]) then 3
    else 0
  }

  function TrimLeft(s: Str): Str
    decreases |s|
  {
    if LeadingSpace(s) > 0 then TrimLeft(s[LeadingSpace(s)..]) else s
  }

  function TrimRight(s: Str): Str
    decreases |s|
  {
    if TrailingSpace(s) > 0 then TrimRight(s[..|s| - TrailingSpace(s)]) else s
  }

  function TruncateError(message: Str): (r: Str)
    ensures |r| <= 255
  {
    var trimmed := TrimRight(TrimLeft(message));
    if |trimmed| <= 255 then trimmed else trimmed[..255]
  }

  /** White-space characters only. */
  ghost predicate Blank(s: Str)
    decreases |s|
  {
    s == [] || (LeadingSpace(s) > 0 && Blank(s[LeadingSpace(s)..]))
  }

  lemma LeadingSpaceStays(s: Str, t: Str)
    ensures LeadingSpace(s) > 0 ==> LeadingSpace(s + t) == LeadingSpace(s)
  {
  }

  lemma {:induction false} BlankAppend(s: Str, t: Str)
    requires Blank(s) && Blank(t)
    ensures Blank(s + t)
    decreases |s|
  {
    if s == [] {
      assert s + t == t;
    } else {
      LeadingSpaceStays(s, t);
      BlankAppend(s[LeadingSpace(s)..], t);
      assert (s + t)[LeadingSpace(s)..] == s[LeadingSpace(s)..] + t;
    }
  }

  lemma OneSpaceIsBlank(c: Str)
    requires LeadingSpace(c) == |c|
    ensures Blank(c)
  {
    assert c[|c|..] == [];
  }

  lemma Regroup(a: Str, b: Str, c: Str)
    ensures a + (b + c) == a + b + c
  {
  }

  lemma {:induction false} TrimLeftCuts(s: Str) returns (blank: Str)
    ensures s == blank + TrimLeft(s) && Blank(blank) && LeadingSpace(TrimLeft(s)) == 0
    decreases |s|
  {
    var n := LeadingSpace(s);
    if n == 0 {
      blank := [];
      assert blank + s == s;
    } else {
      var first, rest, trimmed := s[..n], s[n..], TrimLeft(s);
      assert first + rest == s && LeadingSpace(first) == |first|;
      OneSpaceIsBlank(first);
      var more := TrimLeftCuts(rest);
      blank := first + more;
      BlankAppend(first, more);
      Regroup(first, more, trimmed);
    }
  }

  lemma {:induction false} TrimRightCuts(s: Str) returns (blank: Str)
    ensures s == TrimRight(s) + blank && Blank(blank) && TrailingSpace(TrimRight(s)) == 0
    decreases |s|
  {
    var n := |s| - TrailingSpace(s);
    if n == |s| {
      blank := [];
      assert s + blank == s;
    } else {
      var rest, last, trimmed := s[..n], s[n..], TrimRight(s);
      assert rest + last == s && LeadingSpace(last) == |last|;
      OneSpaceIsBlank(last);
      var more := TrimRightCuts(rest);
      blank := more + last;
      BlankAppend(more, last);
      Regroup(trimmed, more, last);
    }
  }

  /** A recorded error is the message without the white space around it, cut off after 255 bytes. */
  lemma TruncateErrorKeepsTheCore(message: Str) returns (left: Str, core: Str, right: Str)
    ensures message == left + core + right && Blank(left) && Blank(right)
    ensures LeadingSpace(core) == TrailingSpace(core) == 0
    ensures TruncateError(message) == if |core| <= 255 then core else core[..255]
  {
    var rest := TrimLeft(message);
    core := TrimRight(rest);
    left := TrimLeftCuts(message);
    right := TrimRightCuts(rest);
    LeadingSpaceStays(core, right);
    Regroup(left, core, right);
  }
}
