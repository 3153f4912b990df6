/** The capped byte builder of pkg/api/resultbudget.go.
    `Budget` is the builder's value: what each operation means.
    `BuilderWithBudget` is the builder itself, updated in place, and every
    method of it is proved to mean the operation of the same name. */
module ResultBudget {
  import opened Strings
  import opened Utf8

  const NOTICE: bytes := Ascii("\n[truncated: max_result_bytes]\n")

  datatype Budget = Budget(text: bytes, limit: int, capped: bool, truncated: bool) {

    /** The states a builder can be in: open with no cap, within its limit, cut,
        or born without room (a scratch of a parent that has none left). */
    ghost predicate Valid() {
      if !capped then !truncated
      else if !truncated then 0 < limit && |text| <= limit
      else Dead() || (0 < limit && HasSuffix(text, NOTICE) && |Payload()| <= limit)
    }

    predicate Dead() {
      capped && truncated && text == [] && limit == 0
    }

    /** The text without the trailing notice of a cut. */
    function Payload(): (p: bytes) {
      if truncated then TrimSuffix(text, NOTICE) else text
    }

    function Remaining(): int {
      if !capped then -1
      else if truncated then 0
      else if limit - |text| < 0 then 0 else limit - |text|
    }

    function Fits(n: int): bool {
      if truncated then false
      else if Remaining() < 0 then true
      else Remaining() > (if n < 0 then 0 else n)
    }

    function Write(s: bytes): (b: Budget)
      ensures b.capped == capped && b.limit == limit
      ensures truncated ==> b == this
      ensures Valid() ==> b.Valid()
      // An unbroken write is the whole of s; a broken one is a prefix of s that
      // ends in front of a character, and the notice.
      ensures !truncated ==>
        if !capped || |s| <= Remaining() then b == this.(text := text + s)
        else b.truncated && b.text == text + s[..CutPoint(s, Remaining())] + NOTICE
      ensures Valid() && !truncated && b.truncated ==> b.Payload() == text + s[..CutPoint(s, Remaining())]
    {
      if truncated then this
      else if !capped || |s| <= Remaining() then this.(text := text + s)
      else
        var cut := s[..CutPoint(s, Remaining())];
        var b := this.(text := text + cut + NOTICE, truncated := true);
        assert b.text[..|b.text| - |NOTICE|] == text + cut;
        b
    }

    /** The builder after the check that precedes every section: an exact fill is
        turned into a cut. */
    function Settled(): (b: Budget)
      ensures Valid() ==> b.Valid()
    {
      if !truncated && Remaining() == 0 then Write(Ascii("\n")) else this
    }

    function Spent(): bool {
      truncated || Remaining() == 0
    }

    function Scratch(reserve: int): (b: Budget)
      ensures b.Valid() && b.capped == capped && b.text == []
    {
      var held := if reserve < 0 then 0 else reserve;
      if !capped then New(0)
      else if truncated || Remaining() - held <= 0 then Budget([], 0, true, true)
      else New(Remaining() - held)
    }

    function WriteCut(s: bytes, cut: bool): (r: (Budget, bool))
      ensures Valid() ==> r.0.Valid()
    {
      if truncated then (this, false)
      else if s == [] then (this, !cut)
      else
        var b := Write(s);
        if b.truncated then (b, false)
        else
          var c := if cut then b.Write(NOTICE) else b;
          (c, !c.truncated)
    }

    function CommitScratch(header: bytes, suffix: bytes, inner: Budget): (r: (Budget, bool))
      ensures Valid() ==> r.0.Valid()
    {
      if Blank(inner.Payload()) then (this, !inner.truncated)
      else WriteCut(header + inner.Payload() + suffix, inner.truncated)
    }
  }

  function New(limit: int): (b: Budget)
    ensures b.Valid() && b.text == [] && !b.truncated && b.capped == (limit > 0)
  {
    if limit <= 0 then Budget([], 0, false, false) else Budget([], limit, true, false)
  }

  class BuilderWithBudget {
    var b: bytes
    var limit: int
    var capped: bool
    var truncated: bool

    function State(): Budget
      reads this
    {
      Budget(b, limit, capped, truncated)
    }

    constructor (limit: int)
      ensures State() == New(limit)
    {
      b := [];
      this.limit := if limit <= 0 then 0 else limit;
      capped := limit > 0;
      truncated := false;
    }

    /** The builder of a parent that has no room left. */
    constructor NoRoom()
      ensures State() == Budget([], 0, true, true)
    {
      b, limit, capped, truncated := [], 0, true, true;
    }

    method WriteString(s: bytes) returns (cut: bool)
      modifies this
      ensures State() == old(State()).Write(s)
      ensures cut == truncated
    {
      if truncated {
        return true;
      }
      if !capped {
        b := b + s;
        return false;
      }
      var remainder := limit - |b|;
      if remainder < 0 {
        remainder := 0;
      }
      if remainder >= |s| {
        b := b + s;
        return false;
      }
      var end := remainder;
      while end > 0 && end < |s| && !RuneStart(s[end])
        invariant 0 <= end <= remainder
        invariant CutPoint(s, end) == CutPoint(s, remainder)
      {
        end := end - 1;
      }
      ghost var before := b;
      if end > 0 {
        b := b + s[..end];
      }
      assert b == before + s[..end];
      b := b + NOTICE;
      truncated := true;
      return true;
    }

    method Spent() returns (spent: bool)
      modifies this
      ensures spent == old(State()).Spent()
      ensures State() == old(State()).Settled()
    {
      if truncated {
        return true;
      }
      if State().Remaining() == 0 {
        var _ := WriteString(Ascii("\n"));
        return true;
      }
      return false;
    }

    method Prefix() returns (text: bytes, cut: bool)
      ensures text == State().Payload() && cut == truncated
    {
      text := b;
      if truncated {
        return TrimSuffix(text, NOTICE), true;
      }
      return text, false;
    }

    method WriteCut(text: bytes, cut: bool) returns (more: bool)
      modifies this
      ensures (State(), more) == old(State()).WriteCut(text, cut)
    {
      if truncated {
        return false;
      }
      if text == [] {
        return !cut;
      }
      var broken := WriteString(text);
      if broken {
        return false;
      }
      if cut {
        var _ := WriteString(NOTICE);
      }
      return !truncated;
    }

    method CommitScratch(header: bytes, suffix: bytes, inner: BuilderWithBudget) returns (more: bool)
      modifies this
      ensures (State(), more) == old(State()).CommitScratch(header, suffix, old(inner.State()))
    {
      var body, cut := inner.Prefix();
      if Blank(body) {
        return !cut;
      }
      more := WriteCut(header + body + suffix, cut);
    }

    method Scratch(reserve: int) returns (scratch: BuilderWithBudget)
      ensures fresh(scratch) && scratch.State() == State().Scratch(reserve)
    {
      if !capped {
        scratch := new BuilderWithBudget(0);
        return;
      }
      var held := if reserve < 0 then 0 else reserve;
      if truncated {
        scratch := new BuilderWithBudget.NoRoom();
        return;
      }
      var room := State().Remaining() - held;
      if room <= 0 {
        scratch := new BuilderWithBudget.NoRoom();
        return;
      }
      scratch := new BuilderWithBudget(room);
    }
  }

  /** What the signal of WriteCut means: there is more to fetch exactly when the
      builder was open and has taken the text whole, and with it the notice of a cut
      text. An empty text that was cut says to stop. */
  lemma WriteCutSignals(b: Budget, s: bytes, cut: bool)
    requires b.Valid()
    ensures var (c, more) := b.WriteCut(s, cut);
      && (more ==> !c.truncated)
      && (more <==> !b.truncated && if s == [] then !cut
                                    else b.capped ==> |s| + (if cut then |NOTICE| else 0) <= b.Remaining())
  {
  }

  lemma CommitScratchSignals(b: Budget, header: bytes, suffix: bytes, inner: Budget)
    requires b.Valid() && !b.truncated
    ensures var (c, more) := b.CommitScratch(header, suffix, inner); var body := inner.Payload();
      && (more ==> !c.truncated)
      && (more <==> if Blank(body) then !inner.truncated
                    else b.capped ==> |header| + |body| + |suffix| + (if inner.truncated then |NOTICE| else 0) <= b.Remaining())
  {
    if !Blank(inner.Payload()) {
      assert header + inner.Payload() + suffix != [];
      WriteCutSignals(b, header + inner.Payload() + suffix, inner.truncated);
    }
  }

  // ---------------------------------------------------------------- flat writers

  /** One builder given the texts in order. */
  function WriteAll(b: Budget, texts: seq<bytes>): Budget
    decreases |texts|
  {
    if texts == [] then b else WriteAll(b.Write(texts[0]), texts[1..])
  }

  ghost predicate AllValid(texts: seq<bytes>) {
    forall i :: 0 <= i < |texts| ==> Utf8.Valid(texts[i])
  }

  lemma {:induction false} WriteAllCut(b: Budget, texts: seq<bytes>)
    requires b.truncated
    ensures WriteAll(b, texts) == b
    decreases |texts|
  {
    if texts != [] {
      WriteAllCut(b, texts[1..]);
    }
  }

  /** r is what b becomes when `all` is its old text and everything written to it. */
  ghost predicate Flat(b: Budget, all: bytes, r: Budget) {
    if |all| <= b.limit then !r.truncated && r.text == all
    else CutFlat(b, all, r)
  }

  ghost predicate CutFlat(b: Budget, all: bytes, r: Budget) {
    && r.truncated && r.text == r.Payload() + NOTICE
    && r.Payload() <= all && |r.Payload()| <= b.limit
  }

  /** The cut is in front of a character and near the limit. */
  ghost predicate CleanCut(b: Budget, r: Budget) {
    r.truncated ==> Utf8.Valid(r.Payload()) && |r.Payload()| >= b.limit - 3
  }

  lemma CutWrite(b: Budget, s: bytes, more: bytes)
    requires b.Valid() && b.capped && !b.truncated && |s| > b.Remaining()
    ensures CutFlat(b, b.text + (s + more), b.Write(s))
  {
    var cut := s[..CutPoint(s, b.Remaining())];
    assert b.text + (s + more) == b.text + cut + (s[|cut|..] + more);
  }

  lemma CleanCutWrite(b: Budget, s: bytes)
    requires b.Valid() && b.capped && !b.truncated && Utf8.Valid(b.text) && Utf8.Valid(s)
    ensures CleanCut(b, b.Write(s)) && (!b.Write(s).truncated ==> Utf8.Valid(b.Write(s).text))
  {
    ValidConcat(b.text, s);
    if |s| > b.Remaining() {
      var e := CutPoint(s, b.Remaining());
      CutPointIsNear(s, b.Remaining());
      ValidCut(s, e);
      ValidConcat(b.text, s[..e]);
    }
  }

  /** The general form of FlatWriter, for a builder that already holds text. */
  lemma {:induction false} FlatWriterFrom(b: Budget, texts: seq<bytes>)
    requires b.Valid() && b.capped && !b.truncated
    ensures Flat(b, b.text + Concat(texts), WriteAll(b, texts))
    ensures AllValid(texts) && Utf8.Valid(b.text) ==> CleanCut(b, WriteAll(b, texts))
    decreases |texts|
  {
    if texts == [] {
      assert b.text + Concat(texts) == b.text;
    } else {
      var c, more := b.Write(texts[0]), Concat(texts[1..]);
      if AllValid(texts) && Utf8.Valid(b.text) {
        CleanCutWrite(b, texts[0]);
      }
      if c.truncated {
        CutWrite(b, texts[0], more);
        WriteAllCut(c, texts[1..]);
      } else {
        assert b.text + (texts[0] + more) == b.text + texts[0] + more;
        FlatWriterFrom(c, texts[1..]);
      }
    }
  }

  lemma {:induction false} ConcatAppend(a: seq<bytes>, b: seq<bytes>)
    ensures Concat(a + b) == Concat(a) + Concat(b)
    decreases |a|
  {
    if a == [] {
      assert a + b == b && Concat(a) + Concat(b) == Concat(b);
    } else {
      ConcatAppend(a[1..], b);
      assert (a + b)[1..] == a[1..] + b;
      assert a[0] + (Concat(a[1..]) + Concat(b)) == a[0] + Concat(a[1..]) + Concat(b);
    }
  }

  lemma ConcatGrows(texts: seq<bytes>, i: nat)
    requires i < |texts|
    ensures Concat(texts[..i + 1]) == Concat(texts[..i]) + texts[i]
  {
    assert texts[..i + 1] == texts[..i] + [texts[i]];
    ConcatAppend(texts[..i], [texts[i]]);
    assert Concat([texts[i]]) == texts[i] + [];
  }

  lemma {:induction false} WriteAllAppend(b: Budget, xs: seq<bytes>, ys: seq<bytes>)
    ensures WriteAll(b, xs + ys) == WriteAll(WriteAll(b, xs), ys)
    decreases |xs|
  {
    if xs == [] {
      assert xs + ys == ys;
    } else {
      assert (xs + ys)[1..] == xs[1..] + ys;
      WriteAllAppend(b.Write(xs[0]), xs[1..], ys);
    }
  }

  lemma {:induction false} WriteAllShape(b: Budget, texts: seq<bytes>)
    ensures var r := WriteAll(b, texts); r.capped == b.capped && r.limit == b.limit
    decreases |texts|
  {
    if texts != [] {
      WriteAllShape(b.Write(texts[0]), texts[1..]);
    }
  }

  /** A text that does not fit: what is kept of it, and the notice. */
  function CutText(s: bytes, left: nat): (r: bytes)
    requires left < |s|
    ensures |r| <= left + |NOTICE|
  {
    s[..CutPoint(s, left)] + NOTICE
  }

  lemma Associate(a: bytes, b: bytes, c: bytes)
    ensures a + b + c == a + (b + c)
  {
  }

  lemma OverflowingWrite(b: Budget, s: bytes)
    requires b.Valid() && b.capped && !b.truncated && |s| > b.Remaining()
    ensures b.Write(s).truncated && b.Write(s).text == b.text + CutText(s, b.Remaining())
  {
    Associate(b.text, s[..CutPoint(s, b.Remaining())], NOTICE);
  }

  /** Texts that fit are all in the builder. */
  lemma FittingPrint(limit: int, texts: seq<bytes>)
    requires limit > 0 && |Concat(texts)| <= limit
    ensures WriteAll(New(limit), texts) == Budget(Concat(texts), limit, true, false)
  {
    FlatWriterFrom(New(limit), texts);
    WriteAllShape(New(limit), texts);
    assert [] + Concat(texts) == Concat(texts);
  }

  /** One builder given the same texts stops at the same text. */
  lemma BuilderStops(room: int, texts: seq<bytes>, at: nat)
    requires room > 0 && at < |texts| && |Concat(texts[..at])| <= room
    requires |Concat(texts[..at])| + |texts[at]| > room
    ensures var before := Concat(texts[..at]); var r := WriteAll(New(room), texts);
      r.truncated && r.text == before + CutText(texts[at], room - |before|)
  {
    var b := Budget(Concat(texts[..at]), room, true, false);
    FittingPrint(room, texts[..at]);
    OverflowingWrite(b, texts[at]);
    assert texts == texts[..at] + texts[at..];
    WriteAllAppend(New(room), texts[..at], texts[at..]);
    WriteAllCut(b.Write(texts[at]), texts[at..][1..]);
  }

  /** The first text with which the limit is exceeded. */
  function Overflowing(limit: nat, texts: seq<bytes>): (at: nat)
    requires |Concat(texts)| > limit
    ensures at < |texts| && |Concat(texts[..at])| <= limit < |Concat(texts[..at])| + |texts[at]|
    decreases |texts|
  {
    if |texts[0]| > limit then 0
    else
      var at := 1 + Overflowing(limit - |texts[0]|, texts[1..]);
      assert texts[..at][1..] == texts[1..][..at - 1];
      at
  }

  /** Everything behind the first texts, and how much of it a cut keeps. */
  function Behind(texts: seq<bytes>, at: nat): bytes
    requires at <= |texts|
  {
    Concat(texts[at..])
  }

  function Kept(limit: nat, texts: seq<bytes>): (kept: nat)
    requires |Concat(texts)| > limit
    ensures var at := Overflowing(limit, texts); kept <= |texts[at]| && |Concat(texts[..at])| + kept <= limit
  {
    var at := Overflowing(limit, texts);
    CutPoint(texts[at], limit - |Concat(texts[..at])|)
  }

  lemma AtOverflow(limit: nat, texts: seq<bytes>)
    requires |Concat(texts)| > limit
    ensures var at := Overflowing(limit, texts); var kept := Kept(limit, texts);
      && Concat(texts) == Concat(texts[..at]) + Behind(texts, at)
      && kept <= |Behind(texts, at)| && Behind(texts, at)[..kept] == texts[at][..kept]
  {
    var at := Overflowing(limit, texts);
    ConcatAppend(texts[..at], texts[at..]);
    assert texts[..at] + texts[at..] == texts;
    FrontOfRest(texts[at], Concat(texts[at..][1..]), Kept(limit, texts));
  }

  lemma ReadPrint(r: Budget, before: bytes, rest: bytes, kept: nat, text: bytes)
    requires kept <= |rest| && kept <= |text| && rest[..kept] == text[..kept]
    requires r.truncated && r.text == before + (text[..kept] + NOTICE)
    ensures r.text == before + rest[..kept] + NOTICE && r.Payload() == before + rest[..kept]
    ensures r.text == before + rest <==> rest[kept..] == NOTICE
  {
    SplitPrint(before, rest, kept, NOTICE);
  }

  /** r ends at the first text that overflows: what comes before, what is kept of
      that text, and the notice. With well-formed texts the part in front of the
      notice is well-formed and at most three bytes short of the limit. The print
      equals the texts only if what is left out of them is itself a notice. */
  ghost predicate EndsInOverflow(limit: nat, texts: seq<bytes>, r: Budget)
    requires |Concat(texts)| > limit
  {
    var at := Overflowing(limit, texts);
    var before, rest, kept := Concat(texts[..at]), Behind(texts, at), Kept(limit, texts);
    && Concat(texts) == before + rest && kept <= |rest| && rest[..kept] == texts[at][..kept]
    && r.truncated && r.text == before + rest[..kept] + NOTICE && |before| + kept <= limit
    && (AllValid(texts) ==> Utf8.Valid(before + rest[..kept]) && |before| + kept >= limit - 3)
    && (r.text == Concat(texts) <==> rest[kept..] == NOTICE)
  }

  lemma OverflowPrint(limit: nat, texts: seq<bytes>, r: Budget)
    requires |Concat(texts)| > limit && r.truncated
    requires var at := Overflowing(limit, texts);
      r.text == Concat(texts[..at]) + CutText(texts[at], limit - |Concat(texts[..at])|)
    requires AllValid(texts) ==> Utf8.Valid(r.Payload()) && |r.Payload()| >= limit - 3
    ensures EndsInOverflow(limit, texts, r)
  {
    var at := Overflowing(limit, texts);
    AtOverflow(limit, texts);
    assert CutText(texts[at], limit - |Concat(texts[..at])|) == texts[at][..Kept(limit, texts)] + NOTICE;
    ReadPrint(r, Concat(texts[..at]), Behind(texts, at), Kept(limit, texts), texts[at]);
  }

  lemma CleanPrint(limit: int, texts: seq<bytes>)
    requires limit > 0 && AllValid(texts)
    ensures CleanCut(New(limit), WriteAll(New(limit), texts))
  {
    FlatWriterFrom(New(limit), texts);
  }

  /** What a capped builder prints for any writes: their concatenation when it
      fits, and otherwise what EndsInOverflow says of them. */
  lemma FlatWriter(limit: int, texts: seq<bytes>)
    requires limit > 0
    ensures var r := WriteAll(New(limit), texts);
      if |Concat(texts)| <= limit then !r.truncated && r.text == Concat(texts) else EndsInOverflow(limit, texts, r)
  {
    if |Concat(texts)| <= limit {
      FittingPrint(limit, texts);
    } else {
      if AllValid(texts) {
        CleanPrint(limit, texts);
      }
      BuilderStops(limit, texts, Overflowing(limit, texts));
      OverflowPrint(limit, texts, WriteAll(New(limit), texts));
    }
  }

  lemma FrontOfRest(first: bytes, more: bytes, kept: nat)
    requires kept <= |first|
    ensures (first + more)[..kept] == first[..kept]
  {
  }

  /** The print of a cut text, and when it is the text. */
  lemma SplitPrint(before: bytes, rest: bytes, kept: nat, notice: bytes)
    requires kept <= |rest|
    ensures before + (rest[..kept] + notice) == before + rest[..kept] + notice
    ensures before + rest[..kept] + notice == before + rest <==> rest[kept..] == notice
    ensures var out := before + rest[..kept] + notice;
      HasSuffix(out, notice) && TrimSuffix(out, notice) == before + rest[..kept]
  {
    assert rest == rest[..kept] + rest[kept..];
    assert before + rest == before + rest[..kept] + rest[kept..];
    var out := before + rest[..kept] + notice;
    assert out[|out| - |notice|..] == notice;
    assert out[..|out| - |notice|] == before + rest[..kept];
    if out == before + rest {
      assert (before + rest[..kept] + rest[kept..])[|before| + kept..] == rest[kept..];
    }
  }

  /** That case is real: a text that ends in a notice is cut and still printed as it is. */
  lemma CutTextPrintedWhole()
    ensures var r := WriteAll(New(1), [[65] + NOTICE]);
      r.truncated && r.text == Concat([[65] + NOTICE])
  {
    var s: bytes := [65] + NOTICE;
    assert CutPoint(s, 1) == 1;
    assert s[..1] == [65];
    var r := WriteAll(New(1), [s]);
    assert [s][1..] == [];
    assert r == WriteAll(New(1).Write(s), []);
    assert Concat([s]) == s + [];
  }

  /** ASCII text is cut at the limit to the byte, and this is how the notice reads. */
  lemma AsciiIsCutAtLimit(limit: nat, s: bytes)
    requires 0 < limit < |s| && forall i :: 0 <= i < |s| ==> s[i] < 0x80
    ensures WriteAll(New(limit), [s]).text == s[..limit] + Ascii("\n[truncated: max_result_bytes]\n")
  {
    assert CutPoint(s, limit) == limit;
    assert [] + s[..limit] == s[..limit];
    assert [s][1..] == [];
    assert WriteAll(New(limit), [s]) == WriteAll(New(limit).Write(s), []);
  }

  /** An uncapped builder prints everything. */
  lemma {:induction false} UncappedWriter(b: Budget, texts: seq<bytes>)
    requires !b.capped && !b.truncated
    ensures WriteAll(b, texts) == b.(text := b.text + Concat(texts))
    decreases |texts|
  {
    if texts == [] {
      assert b.text + Concat(texts) == b.text;
    } else {
      UncappedWriter(b.Write(texts[0]), texts[1..]);
      assert b.text + Concat(texts) == b.text + texts[0] + Concat(texts[1..]);
    }
  }
}
