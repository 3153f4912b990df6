/** FitSections (pkg/api/resultbudget.go) and the size check of finished
    results (pkg/mcp/resultlimit.go). */
module ResultLimit {
  import opened Utf8
  import opened ResultBudget
  import opened Reports
  import opened ReportLayout

  lemma {:induction false} ConcatOfEmpty(a: seq<bytes>)
    requires forall i :: 0 <= i < |a| ==> a[i] == []
    ensures Concat(a) == []
    decreases |a|
  {
    if a != [] {
      ConcatOfEmpty(a[1..]);
    }
  }

  lemma CutAtConcat(texts: seq<bytes>, out: seq<bytes>, at: nat)
    requires |out| == |texts| && at < |texts|
    requires out[..at] == texts[..at]
    requires forall i :: at < i < |out| ==> out[i] == []
    ensures Concat(out) == Concat(texts[..at]) + out[at]
  {
    ConcatOfEmpty(out[at + 1..]);
    assert out == out[..at] + [out[at]] + out[at + 1..];
    ConcatAppend(out[..at] + [out[at]], out[at + 1..]);
    ConcatAppend(out[..at], [out[at]]);
    assert Concat([out[at]]) == out[at] + [];
  }

  /** The texts cut in order to fit the room. With room, the results together
      are what one builder of that limit prints for the texts; a text that was
      cut is followed by nothing. Without room, the first non-empty text becomes
      the notice and the rest is empty. */
  ghost predicate Fitted(room: int, texts: seq<bytes>, out: seq<bytes>) {
    && |out| == |texts|
    && (room > 0 ==> Concat(out) == WriteAll(New(room), texts).text)
    && (room <= 0 ==> OnlyNotice(texts, out))
    && NothingBehindCut(texts, out)
    && |Concat(out)| <= (if room < 0 then 0 else room) + |NOTICE|
  }

  ghost predicate NothingBehindCut(texts: seq<bytes>, out: seq<bytes>)
    requires |out| == |texts|
  {
    forall i, j :: 0 <= i < j < |out| && out[i] != texts[i] ==> out[j] == []
  }

  ghost predicate OnlyNotice(texts: seq<bytes>, out: seq<bytes>)
    requires |out| == |texts|
  {
    forall i :: 0 <= i < |out| ==> out[i] == if FirstText(texts, i) then NOTICE else []
  }

  ghost predicate FirstText(texts: seq<bytes>, i: nat)
    requires i < |texts|
  {
    texts[i] != [] && forall j :: 0 <= j < i ==> texts[j] == []
  }

  /** One text on a builder of its own. */
  method LimitString(limit: int, s: bytes) returns (text: bytes, cut: bool)
    ensures cut == (0 < limit < |s|)
    ensures text == if 0 < limit < |s| then CutText(s, limit) else s
  {
    var b := new BuilderWithBudget(limit);
    cut := b.WriteString(s);
    text := b.b;
    assert [] + s == s;
    assert cut ==> [] + s[..CutPoint(s, limit)] == s[..CutPoint(s, limit)];
  }

  /** The first i texts are taken over whole, the rest is still empty. */
  ghost predicate WholeUpTo(texts: seq<bytes>, out: seq<bytes>, i: nat) {
    && |out| == |texts| && i <= |texts|
    && (forall j :: 0 <= j < i ==> out[j] == texts[j])
    && (forall j :: i <= j < |out| ==> out[j] == [])
  }

  lemma OneMoreWhole(texts: seq<bytes>, out: seq<bytes>, i: nat)
    requires WholeUpTo(texts, out, i) && i < |texts|
    ensures WholeUpTo(texts, out[i := texts[i]], i + 1)
    ensures texts[i] == [] ==> out[i := texts[i]] == out
  {
  }

  lemma StopsHere(texts: seq<bytes>, out: seq<bytes>, i: nat, left: nat)
    requires WholeUpTo(texts, out, i) && i < |texts| && left < |texts[i]|
    ensures StopsAt(texts, out[i := CutText(texts[i], left)], i, left)
  {
  }

  method FitSections(room: int, texts: seq<bytes>) returns (out: seq<bytes>)
    ensures Fitted(room, texts, out)
  {
    out := seq(|texts|, _ => []);
    var left := if room < 0 then 0 else room;
    ghost var cap := left;
    var i := 0;
    while i < |texts|
      invariant 0 <= i <= |texts| && WholeUpTo(texts, out, i)
      invariant 0 <= left == cap - |Concat(texts[..i])|
    {
      ConcatGrows(texts, i);
      OneMoreWhole(texts, out, i);
      if texts[i] != [] {
        if left <= 0 {
          NothingFits(texts[i]);
          StopsHere(texts, out, i, left);
          out := out[i := NOTICE];
          FinishAt(room, texts, out, i);
          return;
        }
        var fitted, cut := LimitString(left, texts[i]);
        if cut {
          StopsHere(texts, out, i, left);
          out := out[i := fitted];
          FinishAt(room, texts, out, i);
          return;
        }
        out := out[i := fitted];
        left := left - |out[i]|;
      }
      i := i + 1;
    }
    FinishUncut(room, texts, out);
  }

  lemma FinishAt(room: int, texts: seq<bytes>, out: seq<bytes>, at: nat)
    requires at < |texts|
    requires StopsAt(texts, out, at, (if room < 0 then 0 else room) - |Concat(texts[..at])|)
    ensures Fitted(room, texts, out)
  {
    if room > 0 {
      FinishCut(room, texts, out, at);
    } else {
      FinishWithoutRoom(room, texts, out, at);
    }
  }

  lemma FinishUncut(room: int, texts: seq<bytes>, out: seq<bytes>)
    requires |out| == |texts| && forall j :: 0 <= j < |texts| ==> out[j] == texts[j]
    requires |Concat(texts[..|texts|])| <= if room < 0 then 0 else room
    ensures Fitted(room, texts, out)
  {
    assert texts[..|texts|] == texts && out == texts;
    if room > 0 {
      FlatWriter(room, texts);
    } else {
      AllEmpty(texts);
    }
  }

  lemma {:induction false} AllEmpty(texts: seq<bytes>)
    requires Concat(texts) == []
    ensures forall i :: 0 <= i < |texts| ==> texts[i] == []
    decreases |texts|
  {
    if texts != [] {
      AllEmpty(texts[1..]);
      assert forall i :: 0 < i < |texts| ==> texts[i] == texts[1..][i - 1];
    }
  }

  lemma NothingFits(s: bytes)
    requires s != []
    ensures CutText(s, 0) == NOTICE
  {
  }

  /** out follows texts up to `at`, is empty behind it, and holds a cut text there. */
  ghost predicate StopsAt(texts: seq<bytes>, out: seq<bytes>, at: nat, left: int) {
    && |out| == |texts| && at < |texts|
    && (forall i :: 0 <= i < at ==> out[i] == texts[i])
    && (forall i :: at < i < |out| ==> out[i] == [])
    && 0 <= left < |texts[at]| && out[at] == CutText(texts[at], left)
  }

  lemma StopsAtConcat(texts: seq<bytes>, out: seq<bytes>, at: nat, left: int)
    requires StopsAt(texts, out, at, left)
    ensures Concat(out) == Concat(texts[..at]) + CutText(texts[at], left)
  {
    assert out[..at] == texts[..at];
    CutAtConcat(texts, out, at);
  }

  lemma StopsLikeBuilder(room: int, texts: seq<bytes>, out: seq<bytes>, at: nat)
    requires room > 0 && at < |texts| && StopsAt(texts, out, at, room - |Concat(texts[..at])|)
    ensures Concat(out) == WriteAll(New(room), texts).text
  {
    StopsAtConcat(texts, out, at, room - |Concat(texts[..at])|);
    BuilderStops(room, texts, at);
  }

  lemma StopsWithinRoom(room: nat, texts: seq<bytes>, out: seq<bytes>, at: nat)
    requires at < |texts| && StopsAt(texts, out, at, room - |Concat(texts[..at])|)
    ensures |Concat(out)| <= room + |NOTICE|
  {
    StopsAtConcat(texts, out, at, room - |Concat(texts[..at])|);
  }

  lemma StopsForGood(texts: seq<bytes>, out: seq<bytes>, at: nat, left: int)
    requires StopsAt(texts, out, at, left)
    ensures NothingBehindCut(texts, out)
  {
  }

  /** Stopping at a text that does not fit satisfies FitSections' contract, with room ... */
  lemma FinishCut(room: int, texts: seq<bytes>, out: seq<bytes>, at: nat)
    requires room > 0 && at < |texts| && StopsAt(texts, out, at, room - |Concat(texts[..at])|)
    ensures Fitted(room, texts, out)
  {
    StopsForGood(texts, out, at, room - |Concat(texts[..at])|);
    StopsWithinRoom(room, texts, out, at);
    StopsLikeBuilder(room, texts, out, at);
  }

  /** ... and without. */
  lemma FinishWithoutRoom(room: int, texts: seq<bytes>, out: seq<bytes>, at: nat)
    requires room <= 0 && at < |texts| && Concat(texts[..at]) == [] && StopsAt(texts, out, at, 0)
    ensures Fitted(room, texts, out)
  {
    StopsForGood(texts, out, at, 0);
    StopsWithinRoom(0, texts, out, at);
    StopsWithoutRoom(texts, out, at);
  }

  lemma StopsWithoutRoom(texts: seq<bytes>, out: seq<bytes>, at: nat)
    requires at < |texts| && Concat(texts[..at]) == [] && StopsAt(texts, out, at, 0)
    ensures OnlyNotice(texts, out)
  {
    NothingFits(texts[at]);
    AllEmpty(texts[..at]);
    assert forall i :: 0 <= i < at ==> texts[i] == texts[..at][i];
    assert FirstText(texts, at);
    assert forall i :: at < i < |texts| ==> !FirstText(texts, i);
  }

  // ------------------------------------------------------------------ acceptance

  /** A result may exceed its limit by one notice. */
  predicate OverResultLimit(limit: int, size: int) {
    size > limit + |NOTICE|
  }

  /** Prompt messages are accepted when their texts are together within the limit. */
  method PromptWithinLimit(limit: int, messages: seq<bytes>) returns (ok: bool)
    ensures ok <==> limit <= 0 || |Concat(messages)| <= limit + |NOTICE|
  {
    if limit <= 0 {
      return true;
    }
    var size := 0;
    for i := 0 to |messages|
      invariant size == |Concat(messages[..i])|
    {
      assert messages[..i + 1] == messages[..i] + [messages[i]];
      ConcatAppend(messages[..i], [messages[i]]);
      assert Concat([messages[i]]) == messages[i] + [];
      size := size + |messages[i]|;
    }
    assert messages[..|messages|] == messages;
    return !OverResultLimit(limit, size);
  }

  /** A prompt that fits its texts with FitSections is never rejected. */
  method FittedPrompt(limit: int, texts: seq<bytes>) returns (ok: bool)
    ensures ok
  {
    var fitted := FitSections(limit, texts);
    ok := PromptWithinLimit(limit, fitted);
  }

  /** A report gathered next to a reserved assistant text (NewPromptBudget) is
      accepted together with it exactly when that text alone is acceptable. */
  lemma PromptBudgetAccepted(limit: int, assistant: bytes, steps: seq<Step>)
    requires limit > 0
    ensures var b := Sections(New(limit).Scratch(|assistant|), steps).0;
      !OverResultLimit(limit, |b.text| + |assistant|) <==> |assistant| <= limit + |NOTICE|
  {
    var scratch := New(limit).Scratch(|assistant|);
    if scratch.truncated {
      CutStays(scratch, steps);
    } else {
      ReportBound(limit - |assistant|, steps);
    }
  }
}
