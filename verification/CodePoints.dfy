/** What Utf8's byte tests mean in terms of code points: the encoding of RFC 3629,
    section 3, and the White_Space property that strings.TrimSpace goes by. */
module CodePoints {
  import opened Utf8

  /** Unicode scalar values: code points that are no surrogates. */
  predicate Scalar(c: int) {
    0 <= c < 0xD800 || 0xE000 <= c < 0x110000
  }

  type codepoint = c: int | 0 <= c < 0xD800 || 0xE000 <= c < 0x110000

  /** A continuation byte: the last six bits of a number. */
  function Low(c: nat): (b: byte)
    ensures Cont(b)
  {
    0x80 + c % 0x40
  }

  function Lead(mark: nat, high: nat): byte
    requires mark + high < 256
  {
    mark + high
  }

  function Encode(c: codepoint): (r: bytes)
    ensures 1 <= |r| <= 4
  {
    if c < 0x80 then [Lead(0, c)]
    else if c < 0x800 then [Lead(0xC0, c / 0x40), Low(c)]
    else if c < 0x10000 then [Lead(0xE0, c / 0x1000), Low(c / 0x40), Low(c)]
    else [Lead(0xF0, c / 0x40000), Low(c / 0x1000), Low(c / 0x40), Low(c)]
  }

  function EncodeAll(codes: seq<codepoint>): bytes {
    if codes == [] then [] else Encode(codes[0]) + EncodeAll(codes[1..])
  }

  /** A number with six more bits. */
  function More(high: int, low: byte): int {
    high * 0x40 + (low as int - 0x80)
  }

  /** The code point whose encoding is at the front of s. */
  function Front(s: bytes): int
    requires CharLen(s) > 0
  {
    match CharLen(s)
    case 1 => s[0]
    case 2 => More(s[0] as int - 0xC0, s[1])
    case 3 => More(More(s[0] as int - 0xE0, s[1]), s[2])
    case _ => More(More(More(s[0] as int - 0xF0, s[1]), s[2]), s[3])
  }

  // ------------------------------------------------------------------- well-formed

  lemma MoreIsLow(high: nat, low: byte)
    requires Cont(low)
    ensures More(high, low) >= 0 && More(high, low) / 0x40 == high && Low(More(high, low)) == low
  {
  }

  /** What CharLen accepts is the encoding of a scalar value ... */
  lemma FrontIsEncoded(s: bytes)
    requires CharLen(s) > 0
    ensures Scalar(Front(s)) && s[..CharLen(s)] == Encode(Front(s))
  {
    match CharLen(s)
    case 1 =>
    case 2 =>
      MoreIsLow(s[0] as int - 0xC0, s[1]);
    case 3 =>
      FrontOfThree(s);
    case _ =>
      FrontOfFour(s);
  }

  lemma FrontOfThree(s: bytes)
    requires CharLen(s) == 3
    ensures Scalar(Front(s)) && s[..3] == Encode(Front(s))
  {
    var a := s[0] as int - 0xE0;
    var b := More(a, s[1]);
    MoreIsLow(a, s[1]);
    MoreIsLow(b, s[2]);
    assert Front(s) / 0x1000 == a;
  }

  lemma FrontOfFour(s: bytes)
    requires CharLen(s) == 4
    ensures Scalar(Front(s)) && s[..4] == Encode(Front(s))
  {
    var a := s[0] as int - 0xF0;
    var b := More(a, s[1]);
    var c := More(b, s[2]);
    MoreIsLow(a, s[1]);
    MoreIsLow(b, s[2]);
    MoreIsLow(c, s[3]);
    assert Front(s) / 0x1000 == b && Front(s) / 0x40000 == a;
  }

  /** ... and every encoding is accepted. */
  lemma EncodedIsFront(c: codepoint, rest: bytes)
    ensures CharLen(Encode(c) + rest) == |Encode(c)|
  {
    var s, e := Encode(c) + rest, Encode(c);
    assert forall i :: 0 <= i < |e| ==> s[i] == e[i];
    if 0x800 <= c < 0x10000 {
      assert s[0] == 0xE0 + c / 0x1000 && s[1] == Low(c / 0x40) && s[2] == Low(c);
      assert s[0] == 0xE0 ==> c / 0x40 < 0x40 && 0x20 <= c / 0x40;
      assert s[0] == 0xED ==> 0x340 <= c / 0x40 < 0x380 && c < 0xD800;
    } else if 0x10000 <= c {
      assert s[0] == 0xF0 + c / 0x40000 && s[1] == Low(c / 0x1000) && s[2] == Low(c / 0x40) && s[3] == Low(c);
      assert s[0] == 0xF0 ==> 0x10 <= c / 0x1000 < 0x40;
      assert s[0] == 0xF4 ==> 0x100 <= c / 0x1000 < 0x110;
    }
  }

  lemma TakeAndDrop(s: bytes, n: nat)
    requires n <= |s|
    ensures s == s[..n] + s[n..]
  {
  }

  /** Well-formed text is what scalar values encode to, ... */
  lemma {:induction false} ValidIsEncoded(s: bytes) returns (codes: seq<codepoint>)
    requires Utf8.Valid(s)
    ensures s == EncodeAll(codes)
    decreases |s|
  {
    if s == [] {
      codes := [];
    } else {
      FrontIsEncoded(s);
      var rest := ValidIsEncoded(s[CharLen(s)..]);
      codes := [Front(s)] + rest;
      assert codes[1..] == rest;
      TakeAndDrop(s, CharLen(s));
    }
  }

  /** ... and all that they encode to is well-formed. */
  lemma {:induction false} EncodedIsValid(codes: seq<codepoint>)
    ensures Utf8.Valid(EncodeAll(codes))
    decreases |codes|
  {
    if codes != [] {
      var e, rest := Encode(codes[0]), EncodeAll(codes[1..]);
      EncodedIsValid(codes[1..]);
      EncodedIsFront(codes[0], rest);
      assert (e + rest)[|e|..] == rest;
    }
  }

  // -------------------------------------------------------------------- white space

  /** The code points with the White_Space property. */
  const WHITE_SPACE: set<int> := {
    0x09, 0x0A, 0x0B, 0x0C, 0x0D, 0x20, 0x85, 0xA0, 0x1680,
    0x2000, 0x2001, 0x2002, 0x2003, 0x2004, 0x2005, 0x2006, 0x2007, 0x2008, 0x2009, 0x200A,
    0x2028, 0x2029, 0x202F, 0x205F, 0x3000
  }

  ghost predicate AllWhite(codes: seq<codepoint>) {
    forall i :: 0 <= i < |codes| ==> codes[i] in WHITE_SPACE
  }

  /** s consists of white space and nothing else. */
  ghost predicate WhiteSpace(s: bytes) {
    exists codes: seq<codepoint> :: AllWhite(codes) && s == EncodeAll(codes)
  }

  /** SpaceLen finds white space characters ... */
  lemma SpaceIsWhite(s: bytes)
    requires SpaceLen(s) > 0
    ensures CharLen(s) == SpaceLen(s) && Front(s) in WHITE_SPACE
  {
  }

  /** ... and all of them. */
  lemma WhiteIsSpace(c: codepoint, rest: bytes)
    requires c in WHITE_SPACE
    ensures SpaceLen(Encode(c) + rest) == |Encode(c)|
  {
    var s, e := Encode(c) + rest, Encode(c);
    assert forall i :: 0 <= i < |e| ==> s[i] == e[i];
  }

  lemma {:induction false} BlankIsWhite(s: bytes) returns (codes: seq<codepoint>)
    requires Blank(s)
    ensures AllWhite(codes) && s == EncodeAll(codes)
    decreases |s|
  {
    if s == [] {
      codes := [];
    } else {
      SpaceIsWhite(s);
      FrontIsEncoded(s);
      var rest := BlankIsWhite(s[SpaceLen(s)..]);
      codes := [Front(s)] + rest;
      assert codes[1..] == rest;
      TakeAndDrop(s, SpaceLen(s));
    }
  }

  lemma {:induction false} WhiteIsBlank(codes: seq<codepoint>)
    requires AllWhite(codes)
    ensures Blank(EncodeAll(codes))
    decreases |codes|
  {
    if codes != [] {
      var e, rest := Encode(codes[0]), EncodeAll(codes[1..]);
      WhiteIsBlank(codes[1..]);
      WhiteIsSpace(codes[0], rest);
      assert (e + rest)[|e|..] == rest;
    }
  }

  /** strings.TrimSpace leaves nothing of a text exactly when it is white space. */
  lemma BlankIffWhiteSpace(s: bytes)
    ensures Blank(s) <==> WhiteSpace(s)
  {
    if Blank(s) {
      var codes := BlankIsWhite(s);
    } else if WhiteSpace(s) {
      var codes: seq<codepoint> :| AllWhite(codes) && s == EncodeAll(codes);
      WhiteIsBlank(codes);
    }
  }

  /** For ASCII text: tab, line feed, vertical tab, form feed, carriage return, space. */
  lemma {:induction false} BlankAscii(s: bytes)
    requires forall i :: 0 <= i < |s| ==> s[i] < 0x80
    ensures Blank(s) <==> forall i :: 0 <= i < |s| ==> s[i] in {9, 10, 11, 12, 13, 32}
    decreases |s|
  {
    if s != [] {
      BlankAscii(s[1..]);
      assert forall i :: 0 < i < |s| ==> s[i] == s[1..][i - 1];
    }
  }
}
