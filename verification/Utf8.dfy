/** Byte strings and the well-formedness rules of UTF-8 (RFC 3629, sections 3 and 4). */
module Utf8 {

  type byte = x: int | 0 <= x < 256
  type bytes = seq<byte>

  function Ascii(s: string): (r: bytes)
    requires forall i :: 0 <= i < |s| ==> s[i] < 128 as char
    ensures |r| == |s|
    ensures forall i :: 0 <= i < |s| ==> r[i] == s[i] as int && r[i] < 128
  {
    seq(|s|, i requires 0 <= i < |s| => s[i] as int)
  }

  function Concat(parts: seq<bytes>): bytes {
    if parts == [] then [] else parts[0] + Concat(parts[1..])
  }

  /** Every byte except a continuation byte may start a character. */
  predicate RuneStart(b: byte) {
    !(0x80 <= b < 0xC0)
  }

  predicate Cont(b: byte) {
    0x80 <= b < 0xC0
  }

  /** Length of the well-formed character at the front of s, 0 when there is none. */
  function CharLen(s: bytes): (n: nat)
    ensures n <= |s| && n <= 4
    ensures n > 0 ==> RuneStart(s[0]) && forall i :: 0 < i < n ==> Cont(s[i])
  {
    if |s| >= 1 && s[0] < 0x80 then 1
    else if |s| >= 2 && 0xC2 <= s[0] <= 0xDF && Cont(s[1]) then 2
    else if |s| >= 3 && 0xE0 <= s[0] <= 0xEF && Cont(s[1]) && Cont(s[2])
            && (s[0] == 0xE0 ==> 0xA0 <= s[1]) && (s[0] == 0xED ==> s[1] <= 0x9F) then 3
    else if |s| >= 4 && 0xF0 <= s[0] <= 0xF4 && Cont(s[1]) && Cont(s[2]) && Cont(s[3])
            && (s[0] == 0xF0 ==> 0x90 <= s[1]) && (s[0] == 0xF4 ==> s[1] <= 0x8F) then 4
    else 0
  }

  predicate Valid(s: bytes)
    decreases |s|
  {
    s == [] || (CharLen(s) > 0 && Valid(s[CharLen(s)..]))
  }

  /** CharLen looks at no more bytes than it consumes. */
  lemma CharLenLocal(s: bytes, t: bytes)
    requires 0 < CharLen(s) <= |t|
    requires forall i :: 0 <= i < CharLen(s) ==> t[i] == s[i]
    ensures CharLen(t) == CharLen(s)
  {
    assert t[0] == s[0];
    assert CharLen(s) > 1 ==> t[1] == s[1];
    assert CharLen(s) > 2 ==> t[2] == s[2];
    assert CharLen(s) > 3 ==> t[3] == s[3];
  }

  lemma CharLenConcat(a: bytes, b: bytes)
    requires CharLen(a) > 0
    ensures CharLen(a + b) == CharLen(a)
  {
    CharLenLocal(a, a + b);
  }

  lemma DropConcat(a: bytes, b: bytes, n: nat)
    requires n <= |a|
    ensures (a + b)[n..] == a[n..] + b
  {
  }

  lemma {:induction false} ValidConcat(a: bytes, b: bytes)
    requires Valid(a) && Valid(b)
    ensures Valid(a + b)
    decreases |a|
  {
    if a == [] {
      assert a + b == b;
    } else {
      var n := CharLen(a);
      ValidConcat(a[n..], b);
      CharLenConcat(a, b);
      DropConcat(a, b, n);
    }
  }

  lemma TakeDrop(s: bytes, n: nat, end: nat)
    requires n <= end <= |s|
    ensures s[..end][n..] == s[n..][..end - n]
  {
  }

  /** A cut in front of a character keeps the first character whole. */
  lemma CutBehindFirst(s: bytes, end: nat)
    requires CharLen(s) > 0 && 0 < end < |s| && RuneStart(s[end])
    ensures CharLen(s) <= end && CharLen(s[..end]) == CharLen(s)
  {
    if CharLen(s) <= end {
      CharLenLocal(s, s[..end]);
    }
  }

  /** Cutting well-formed text in front of a character leaves well-formed text. */
  lemma {:induction false} ValidCut(s: bytes, end: nat)
    requires Valid(s) && end <= |s|
    requires end == 0 || end == |s| || RuneStart(s[end])
    ensures Valid(s[..end])
    decreases |s|
  {
    if end == |s| {
      assert s[..end] == s;
    } else if end > 0 {
      var n := CharLen(s);
      CutBehindFirst(s, end);
      ValidCut(s[n..], end - n);
      TakeDrop(s, n, end);
    }
  }

  lemma {:induction false} ValidAscii(s: bytes)
    requires forall i :: 0 <= i < |s| ==> s[i] < 128
    ensures Valid(s)
    decreases |s|
  {
    if s != [] {
      ValidAscii(s[1..]);
    }
  }

  /** Where a cut at `end` backs off to: the last position at or before `end`
      that is the start of a character, or 0. */
  function CutPoint(s: bytes, end: nat): (e: nat)
    requires end <= |s|
    ensures e <= end
    ensures e == 0 || e == |s| || RuneStart(s[e])
    ensures end < |s| ==> forall i :: e < i <= end ==> Cont(s[i])
  {
    if end > 0 && end < |s| && !RuneStart(s[end]) then CutPoint(s, end - 1) else end
  }

  /** In well-formed text a cut gives up at most three bytes. */
  lemma {:induction false} CutPointIsNear(s: bytes, end: nat)
    requires Valid(s) && end < |s|
    ensures end - CutPoint(s, end) <= 3
    decreases |s|
  {
    var n := CharLen(s);
    if end < n {
      assert CutPoint(s, end) >= end - 3;
    } else {
      CutPointIsNear(s[n..], end - n);
      var e := CutPoint(s[n..], end - n);
      assert RuneStart(s[n + e]) by {
        if e == 0 {
          assert CharLen(s[n..]) > 0;
        }
      }
      assert CutPoint(s, end) >= n + e;
    }
  }

  /** Length of the Unicode White_Space character at the front of s, 0 when there is none. */
  function SpaceLen(s: bytes): (n: nat)
    ensures n <= |s|
  {
    if |s| >= 1 && (0x09 <= s[0] <= 0x0D || s[0] == 0x20) then 1
    else if |s| >= 2 && s[0] == 0xC2 && (s[1] == 0x85 || s[1] == 0xA0) then 2
    else if |s| >= 3 && s[0] == 0xE1 && s[1] == 0x9A && s[2] == 0x80 then 3
    else if |s| >= 3 && s[0] == 0xE2 && s[1] == 0x80
            && (0x80 <= s[2] <= 0x8A || s[2] == 0xA8 || s[2] == 0xA9 || s[2] == 0xAF) then 3
    else if |s| >= 3 && s[0] == 0xE2 && s[1] == 0x81 && s[2] == 0x9F then 3
    else if |s| >= 3 && s[0] == 0xE3 && s[1] == 0x80 && s[2] == 0x80 then 3
    else 0
  }

  /** strings.TrimSpace(s) == "" */
  predicate Blank(s: bytes)
    decreases |s|
  {
    s == [] || (SpaceLen(s) > 0 && Blank(s[SpaceLen(s)..]))
  }
}
