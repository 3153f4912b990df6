/** What a budgeted report may look like, stated on bytes alone: no builder, no
    scratch and no notice to strip. The theorems say that the builder of
    pkg/api/resultbudget.go prints nothing else. */
module ReportLayout {
  import opened CodePoints
  import opened Strings
  import opened Utf8
  import opened ResultBudget
  import opened Reports

  ghost predicate WellFormedStep(step: Step)
    decreases step, 0
  {
    match step
    case NilStep => true
    case Fail => true
    case Text(s) => Utf8.Valid(s)
    case Section(header, suffix, body, _) => Utf8.Valid(header) && Utf8.Valid(suffix) && WellFormed(body)
  }

  /** Every text of the report is UTF-8. */
  ghost predicate WellFormed(steps: seq<Step>)
    decreases steps, 0
  {
    steps == [] || (WellFormedStep(steps[0]) && WellFormed(steps[1..]))
  }

  /** `out` is what one step may add in `room` bytes. `cut` says that something
      of it is missing, `ok` that it did not fail. */
  ghost predicate LaidStep(step: Step, room: nat, out: bytes, cut: bool, ok: bool)
    decreases step, 0
  {
    match step
    case NilStep => out == [] && !cut && ok
    case Fail => out == [] && !cut && !ok
    case Text(s) =>
      // whole if it fits, else a prefix that stops at most 3 bytes before the room is used up
      ok && out <= s && |out| <= room && cut == (|s| > room) && (if cut then room - |out| <= 3 else out == s)
    case Section(header, suffix, body, propagate) =>
      var wrapper := |header| + |suffix|;
      if room <= wrapper then out == [] && !cut && ok
      else LaidSection(step, room - wrapper, room, out, cut, ok)
  }

  /** A section whose wrapper leaves `left` bytes for its body. */
  ghost predicate LaidSection(step: Step, left: nat, room: nat, out: bytes, cut: bool, ok: bool)
    requires step.Section?
    decreases step.body, 1
  {
    exists inner, innerCut, innerOk ::
      && Laid(step.body, left, inner, innerCut, innerOk)
      && if !innerOk then (out == [] && !cut && ok == !step.propagate)
         else if Blank(inner) then (out == [] && !cut && ok)
         else (ok && cut == innerCut && InOnePiece(step.header + inner + step.suffix, room, out, cut))
  }

  /** The block is contiguous and whole. What is left of the room behind a cut
      block holds the beginning of a notice. */
  ghost predicate InOnePiece(block: bytes, room: nat, out: bytes, cut: bool) {
    && block <= out && |out| <= room
    && if cut then (|out| == room && room - |block| <= 3 && out[|block|..] <= NOTICE) else out == block
  }

  ghost predicate Laid(steps: seq<Step>, room: nat, out: bytes, cut: bool, ok: bool)
    decreases steps, 0
  {
    if steps == [] then out == [] && !cut && ok
    else if steps[0].NilStep? then Laid(steps[1..], room, out, cut, ok)
    else if room == 0 then out == [] && cut && ok  // steps are dropped only by a cut
    else exists k: nat, headCut, headOk | k <= |out| ::
      && LaidStep(steps[0], room, out[..k], headCut, headOk)
      && if !headOk then (k == |out| && !cut && !ok)
         else if headCut then (k == |out| && cut && ok)
         else (k <= room && Laid(steps[1..], room - k, out[k..], cut, ok))
  }

  /** c is b after `out` was printed: with the notice behind it exactly when c is cut. */
  ghost predicate Printed(b: Budget, out: bytes, c: Budget) {
    && |out| <= b.Remaining()
    && c.text == b.text + out + (if c.truncated then NOTICE else [])
    && (c.truncated ==> b.Remaining() - |out| <= 3)
  }

  lemma WriteLaid(b: Budget, s: bytes) returns (out: bytes)
    requires b.Valid() && b.capped && !b.truncated && Utf8.Valid(s)
    ensures var c := b.Write(s);
      && Printed(b, out, c) && Utf8.Valid(out)
      && out <= s && c.truncated == (|s| > b.Remaining()) && (!c.truncated ==> out == s)
  {
    var c := b.Write(s);
    if c.truncated {
      var e := CutPoint(s, b.Remaining());
      out := s[..e];
      CutPointIsNear(s, b.Remaining());
      ValidCut(s, e);
    } else {
      out := s;
      assert b.text + s + [] == b.text + s;
    }
  }

  /** A builder that is spent by an exact fill ends in a notice. */
  lemma SettledPrinted(b: Budget)
    requires b.Valid() && b.capped && !b.truncated && b.Remaining() == 0
    ensures b.Settled().truncated && Printed(b, [], b.Settled())
  {
    var s := Ascii("\n");
    assert s[..0] == [];
  }

  lemma PayloadIsBody(inner: Budget, body: bytes)
    requires inner.text == body + (if inner.truncated then NOTICE else [])
    ensures inner.Payload() == body
  {
    if inner.truncated {
      assert inner.text[..|inner.text| - |NOTICE|] == body;
    } else {
      assert body + [] == body;
    }
  }

  /** A notice written into less room than it needs is broken, and announces itself. */
  lemma NoticeBreaks(d: Budget)
    requires d.Valid() && d.capped && !d.truncated && d.Remaining() <= 3
    ensures d.Remaining() <= |NOTICE|
    ensures d.Write(NOTICE) == d.(text := d.text + NOTICE[..d.Remaining()] + NOTICE, truncated := true)
  {
    var left := d.Remaining();
    assert RuneStart(NOTICE[left]);
    assert CutPoint(NOTICE, left) == left;
  }

  lemma CutBlock(b: Budget, block: bytes)
    requires b.Valid() && b.capped && !b.truncated && block != []
    requires |block| <= b.Remaining() <= |block| + 3
    ensures var left := b.Remaining() - |block|;
      && left <= |NOTICE|
      && b.WriteCut(block, true).0 == b.(text := b.text + block + NOTICE[..left] + NOTICE, truncated := true)
  {
    NoticeBreaks(b.Write(block));
  }

  lemma Regroup(x: bytes, y: bytes, z: bytes, end: bytes)
    ensures x + y + z + end == x + (y + z) + end
    ensures y <= y + z && (y + z)[|y|..] == z
  {
  }

  lemma BlockLaid(b: Budget, block: bytes, cut: bool) returns (out: bytes)
    requires b.Valid() && b.capped && !b.truncated && Utf8.Valid(block) && block != []
    requires |block| <= b.Remaining() && (cut ==> b.Remaining() - |block| <= 3)
    ensures var c := b.WriteCut(block, cut).0;
      && Printed(b, out, c) && Utf8.Valid(out)
      && c.truncated == cut && InOnePiece(block, b.Remaining(), out, cut)
  {
    if cut {
      CutBlock(b, block);
      var part := NOTICE[..b.Remaining() - |block|];
      ValidAscii(part);
      ValidConcat(block, part);
      Regroup(b.text, block, part, NOTICE);
      out := block + part;
    } else {
      Regroup(b.text, block, [], []);
      out := block;
    }
  }

  /** A body gathered in a scratch fits its parent together with its wrapper. */
  lemma BodyFits(b: Budget, header: bytes, suffix: bytes, inner: Budget, body: bytes)
    requires b.Valid() && b.capped && !b.truncated && b.Remaining() > |header| + |suffix|
    requires Printed(b.Scratch(|header| + |suffix|), body, inner)
    ensures inner.Payload() == body
    ensures |header + body + suffix| <= b.Remaining()
    ensures inner.truncated ==> b.Remaining() - |header + body + suffix| <= 3
  {
    assert [] + body == body;
    PayloadIsBody(inner, body);
  }

  /** Committing a gathered body: one contiguous block, and a cut body cuts the parent. */
  lemma CommitLaid(b: Budget, header: bytes, suffix: bytes, inner: Budget, body: bytes) returns (out: bytes)
    requires b.Valid() && b.capped && !b.truncated
    requires Utf8.Valid(header) && Utf8.Valid(suffix) && Utf8.Valid(body)
    requires b.Remaining() > |header| + |suffix|
    requires Printed(b.Scratch(|header| + |suffix|), body, inner)
    ensures inner.Payload() == body
    ensures var c := b.CommitScratch(header, suffix, inner).0;
      && Printed(b, out, c) && Utf8.Valid(out)
      && if Blank(body) then (out == [] && !c.truncated)
         else (c.truncated == inner.truncated
               && InOnePiece(header + body + suffix, b.Remaining(), out, c.truncated))
  {
    BodyFits(b, header, suffix, inner, body);
    if Blank(body) {
      out := [];
      Regroup(b.text, [], [], []);
    } else {
      var block := header + body + suffix;
      assert block != [];
      ValidConcat(header, body);
      ValidConcat(header + body, suffix);
      out := BlockLaid(b, block, inner.truncated);
    }
  }

  lemma {:induction false} StepLaid(b: Budget, step: Step) returns (out: bytes)
    requires b.Valid() && b.capped && !b.truncated && b.Remaining() > 0
    requires WellFormedStep(step) && !step.NilStep?
    ensures var (c, ok) := RunStep(b, step);
      && Printed(b, out, c) && Utf8.Valid(out) && LaidStep(step, b.Remaining(), out, c.truncated, ok)
    ensures !RunStep(b, step).1 ==> out == [] && !RunStep(b, step).0.truncated
    decreases step, 0
  {
    match step
    case Text(s) =>
      out := WriteLaid(b, s);
    case Fail =>
      out := [];
      assert b.text + [] + [] == b.text;
    case Section(header, suffix, body, _) =>
      out := [];
      assert b.text + [] + [] == b.text;
      if b.Remaining() > |header| + |suffix| {
        out := SectionLaid(b, step);
      }
  }

  /** A section whose wrapper fits gathers its body and commits it. */
  lemma SectionRuns(b: Budget, step: Step)
    requires b.Valid() && !b.truncated && step.Section?
    requires b.capped ==> b.Remaining() > |step.header| + |step.suffix|
    ensures var scratch := b.Scratch(|step.header| + |step.suffix|);
      var (inner, ok) := Sections(scratch, step.body);
      && scratch == New(if b.capped then b.Remaining() - |step.header| - |step.suffix| else 0)
      && RunStep(b, step)
         == if ok then (b.CommitScratch(step.header, step.suffix, inner).0, true) else (b, !step.propagate)
  {
    assert b.Fits(|step.header|) && !b.Scratch(|step.header| + |step.suffix|).truncated;
  }

  lemma LaidSectionIntro(step: Step, left: nat, room: nat, inner: bytes, innerCut: bool, innerOk: bool,
                         out: bytes, cut: bool, ok: bool)
    requires step.Section? && Laid(step.body, left, inner, innerCut, innerOk)
    requires if !innerOk then (out == [] && !cut && ok == !step.propagate)
             else if Blank(inner) then (out == [] && !cut && ok)
             else (ok && cut == innerCut && InOnePiece(step.header + inner + step.suffix, room, out, cut))
    ensures LaidSection(step, left, room, out, cut, ok)
  {
  }

  lemma LaidIntro(steps: seq<Step>, room: nat, head: bytes, headCut: bool, headOk: bool,
                  tail: bytes, cut: bool, ok: bool)
    requires steps != [] && !steps[0].NilStep? && room > 0
    requires LaidStep(steps[0], room, head, headCut, headOk)
    requires if !headOk then (tail == [] && !cut && !ok)
             else if headCut then (tail == [] && cut && ok)
             else (|head| <= room && Laid(steps[1..], room - |head|, tail, cut, ok))
    ensures Laid(steps, room, head + tail, cut, ok)
  {
    var out := head + tail;
    assert out[..|head|] == head && out[|head|..] == tail;
    assert LaidStep(steps[0], room, out[..|head|], headCut, headOk);
  }

  lemma PrintedThen(b: Budget, head: bytes, c: Budget, tail: bytes, d: Budget)
    requires b.Valid() && c.Valid() && b.capped && c.capped && b.limit == c.limit && !b.truncated && !c.truncated
    requires Printed(b, head, c) && Printed(c, tail, d)
    ensures Printed(b, head + tail, d) && c.Remaining() == b.Remaining() - |head|
  {
    assert b.text + head + [] == b.text + head;
    var end := if d.truncated then NOTICE else [];
    assert b.text + head + tail + end == b.text + (head + tail) + end;
  }

  lemma {:induction false} SectionLaid(b: Budget, step: Step) returns (out: bytes)
    requires b.Valid() && b.capped && !b.truncated && step.Section? && WellFormedStep(step)
    requires b.Remaining() > |step.header| + |step.suffix|
    ensures var (c, ok) := RunStep(b, step); var left := b.Remaining() - (|step.header| + |step.suffix|);
      && Printed(b, out, c) && Utf8.Valid(out) && LaidSection(step, left, b.Remaining(), out, c.truncated, ok)
    ensures !RunStep(b, step).1 ==> out == [] && !RunStep(b, step).0.truncated
    decreases step.body, 1
  {
    SectionRuns(b, step);
    var scratch := b.Scratch(|step.header| + |step.suffix|);
    var inner := SectionsLaid(scratch, step.body);
    var (c, ok) := Sections(scratch, step.body);
    if ok {
      out := CommitLaid(b, step.header, step.suffix, c, inner);
    } else {
      out := [];
      assert b.text + [] + [] == b.text;
    }
    LaidSectionIntro(step, scratch.Remaining(), b.Remaining(), inner, c.truncated, ok,
                     out, RunStep(b, step).0.truncated, RunStep(b, step).1);
  }

  /** The general form of Layout, for a builder that already holds text. */
  lemma {:induction false} SectionsLaid(b: Budget, steps: seq<Step>) returns (out: bytes)
    requires b.Valid() && b.capped && !b.truncated && WellFormed(steps)
    ensures var (c, ok) := Sections(b, steps);
      && Printed(b, out, c) && Utf8.Valid(out) && Laid(steps, b.Remaining(), out, c.truncated, ok)
    decreases steps, 0
  {
    if steps == [] {
      out := [];
      assert b.text + [] + [] == b.text;
    } else if steps[0].NilStep? {
      out := SectionsLaid(b, steps[1..]);
    } else if b.Spent() {
      SettledPrinted(b);
      out := [];
    } else {
      var head := StepLaid(b, steps[0]);
      var (c, ok) := RunStep(b, steps[0]);
      if ok && !c.truncated {
        var tail := SectionsLaid(c, steps[1..]);
        var (d, allOk) := Sections(c, steps[1..]);
        PrintedThen(b, head, c, tail, d);
        LaidIntro(steps, b.Remaining(), head, false, true, tail, d.truncated, allOk);
        ValidConcat(head, tail);
        out := head + tail;
      } else {
        if ok {
          CutStays(c, steps[1..]);
        }
        LaidIntro(steps, b.Remaining(), head, c.truncated, ok, [], c.truncated, ok);
        assert head + [] == head;
        out := head;
      }
    }
  }

  /** Nothing is printed behind a notice. */
  lemma {:induction false} CutStays(b: Budget, steps: seq<Step>)
    requires b.truncated
    ensures Sections(b, steps) == (b, true)
    decreases |steps|
  {
    if steps != [] && steps[0].NilStep? {
      CutStays(b, steps[1..]);
    }
  }

  /** Every report of any depth with UTF-8 texts prints a layout: the payload fits
      the limit, is UTF-8, holds every section in one piece, and is followed by a
      notice if and only if the layout is cut. A cut at any depth cuts the layout,
      except in a body that is blank. */
  lemma Layout(limit: int, steps: seq<Step>)
    requires limit > 0 && WellFormed(steps)
    ensures var (b, ok) := Sections(New(limit), steps);
      && b.text == b.Payload() + (if b.truncated then NOTICE else [])
      && |b.Payload()| <= limit
      && Utf8.Valid(b.Payload())
      && Laid(steps, limit, b.Payload(), b.truncated, ok)
  {
    var out := SectionsLaid(New(limit), steps);
    var b := Sections(New(limit), steps).0;
    assert New(limit).text + out == out;
    if b.truncated {
      assert b.text[..|b.text| - |NOTICE|] == out;
    } else {
      assert out + [] == out;
    }
  }

  // ------------------------------------------------------- reports of any bytes

  /** The bound needs no UTF-8: whatever the texts are, the payload fits the limit
      and the output exceeds it by no more than one notice. */
  lemma ReportBound(limit: int, steps: seq<Step>)
    requires limit > 0
    ensures var b := Sections(New(limit), steps).0;
      && b.text == b.Payload() + (if b.truncated then NOTICE else [])
      && |b.Payload()| <= limit
      && |b.text| <= limit + |NOTICE|
  {
    var b := Sections(New(limit), steps).0;
    if !b.truncated {
      assert b.text + [] == b.text;
    }
  }

  /** How many of the steps Sections gets past; a failing step is the last one. */
  function Reached(b: Budget, steps: seq<Step>): (n: nat)
    ensures n <= |steps|
    decreases |steps|
  {
    if steps == [] then 0
    else if steps[0].NilStep? then 1 + Reached(b, steps[1..])
    else if b.Spent() then 0
    else
      var (c, ok) := RunStep(b, steps[0]);
      if ok then 1 + Reached(c, steps[1..]) else 1
  }

  /** A step that is not started leaves a notice, also behind an exact fill. */
  lemma {:induction false} DroppedStepLeavesNotice(b: Budget, steps: seq<Step>)
    requires b.Valid() && !b.Dead()
    ensures var (c, ok) := Sections(b, steps);
      Reached(b, steps) < |steps| && ok ==> c.truncated && HasSuffix(c.text, NOTICE)
    decreases |steps|
  {
    if steps != [] {
      if steps[0].NilStep? {
        DroppedStepLeavesNotice(b, steps[1..]);
      } else if !b.Spent() {
        var (c, ok) := RunStep(b, steps[0]);
        if ok {
          DroppedStepLeavesNotice(c, steps[1..]);
        }
      }
    }
  }

  /** Committing a cut body cuts the parent exactly when it is not blank and its block
      leaves less room than a notice needs. With UTF-8 bodies the block always does
      (CommitLaid). */
  lemma CommitOfCutBody(b: Budget, header: bytes, suffix: bytes, inner: Budget)
    requires b.Valid() && b.capped && !b.truncated && inner.truncated
    ensures b.CommitScratch(header, suffix, inner).0.truncated
      <==> !Blank(inner.Payload()) && |header + inner.Payload() + suffix| + |NOTICE| > b.Remaining()
  {
    if !Blank(inner.Payload()) {
      assert header + inner.Payload() + suffix != [];
    }
  }

  lemma RunsOn(b: Budget, step: Step, rest: seq<Step>)
    requires !step.NilStep? && !b.Spent() && RunStep(b, step).1
    ensures Sections(b, [step] + rest) == Sections(RunStep(b, step).0, rest)
  {
    assert ([step] + rest)[1..] == rest;
  }

  /** What a scratch of 59 bytes makes of an "A" and more continuation bytes than fit. */
  lemma CutBackToFirst(tail: bytes)
    requires |tail| == 60 && forall i :: 0 <= i < |tail| ==> Cont(tail[i])
    ensures Sections(New(59), [Text([65]), Text(tail)]) == (Budget([65] + NOTICE, 59, true, true), true)
    ensures Budget([65] + NOTICE, 59, true, true).Payload() == [65]
  {
    var one, cut := Budget([65], 59, true, false), Budget([65] + NOTICE, 59, true, true);
    assert New(59).Write([65]) == one;
    BackOffToNothing(tail, 58);
    assert tail[..0] == [] && [65] + tail[..0] + NOTICE == [65] + NOTICE;
    assert one.Write(tail) == cut;
    assert [Text([65]), Text(tail)] == [Text([65])] + ([Text(tail)] + []);
    RunsOn(New(59), Text([65]), [Text(tail)] + []);
    RunsOn(one, Text(tail), []);
    PayloadIsBody(cut, [65]);
  }

  /** The excluded case happens: a cut that backs off over bytes that are no UTF-8
      leaves so much room that the notice is printed as text and the parent stays open. */
  lemma CutLostWithoutUtf8(tail: bytes)
    requires |tail| == 60 && forall i :: 0 <= i < |tail| ==> Cont(tail[i])
    ensures var step := Section([72], [], [Text([65]), Text(tail)], true);
      var (b, ok) := Sections(New(60), [step]);
      ok && !b.truncated && b.text == [72, 65] + NOTICE
  {
    var step := Section([72], [], [Text([65]), Text(tail)], true);
    var inner := Budget([65] + NOTICE, 59, true, true);
    CutBackToFirst(tail);
    assert New(60).Scratch(1) == New(59);
    SectionRuns(New(60), step);
    assert !Blank([65]) && [72] + [65] + [] == [72, 65];
    var written := Budget([72, 65], 60, true, false);
    assert New(60).Write([72, 65]) == written;
    assert New(60).WriteCut([72, 65], true).0 == written.Write(NOTICE);
    assert written.Remaining() == 58 > |NOTICE|;
    RunsOn(New(60), step, []);
    assert [step] + [] == [step];
  }

  lemma {:induction false} BackOffToNothing(s: bytes, end: nat)
    requires end < |s| && forall i :: 0 <= i < |s| ==> Cont(s[i])
    ensures CutPoint(s, end) == 0
  {
    if end > 0 {
      BackOffToNothing(s, end - 1);
    }
  }

  /** A cut body that is blank is dropped without a notice, also in UTF-8. */
  lemma BlankCutLost()
    ensures var step := Section([72], [], [Text([32, 32, 32, 32])], true);
      Sections(New(4), [step]) == (New(4), true) && Sections(New(4).Scratch(1), step.body).0.truncated
  {
    var body := [Text([32, 32, 32, 32])];
    var cut := New(3).Write([32, 32, 32, 32]);
    assert New(4).Scratch(1) == New(3);
    assert body[1..] == [] && Sections(New(3), body) == Sections(cut, []);
    assert cut.text[..3] == [32, 32, 32] && cut.Payload() == [32, 32, 32];
    assert Blank([32, 32, 32]) by {
      assert [32, 32, 32][1..] == [32, 32] && [32, 32][1..] == [32] && [32][1..] == [];
    }
    assert [Section([72], [], body, true)][1..] == [];
  }

  /** A section is skipped without a notice when its header and suffix fill the room. */
  lemma WrapperFillsRoom()
    ensures Sections(New(4), [Section([72, 72], [73, 73], [Text([65])], true)]) == (New(4), true)
  {
    assert New(4).Scratch(4).truncated;
    var step := Section([72, 72], [73, 73], [Text([65])], true);
    RunsOn(New(4), step, []);
    assert [step] + [] == [step];
  }

  /** A gathered section leaves its parent as it was exactly when its body is white space. */
  lemma WhiteSectionVanishes(b: Budget, step: Step)
    requires b.Valid() && !b.truncated && step.Section?
    requires b.capped ==> b.Remaining() > |step.header| + |step.suffix|
    requires Sections(b.Scratch(|step.header| + |step.suffix|), step.body).1
    ensures var inner := Sections(b.Scratch(|step.header| + |step.suffix|), step.body).0;
      RunStep(b, step).0 == b <==> WhiteSpace(inner.Payload())
  {
    var inner := Sections(b.Scratch(|step.header| + |step.suffix|), step.body).0;
    SectionRuns(b, step);
    BlankIffWhiteSpace(inner.Payload());
    if !Blank(inner.Payload()) {
      var block := step.header + inner.Payload() + step.suffix;
      assert block != [];
      WriteCutGrows(b, block, inner.truncated);
    }
  }

  lemma WriteCutGrows(b: Budget, s: bytes, cut: bool)
    requires b.Valid() && !b.truncated && s != []
    ensures |b.WriteCut(s, cut).0.text| > |b.text|
  {
  }

  /** For example a body of one newline. */
  lemma NewlineVanishes()
    ensures var step := Section(Ascii("## H\n\n"), Ascii("\n\n"), [Text(Ascii("\n"))], true);
      Sections(New(100), [step]) == (New(100), true)
  {
    var step := Section(Ascii("## H\n\n"), Ascii("\n\n"), [Text(Ascii("\n"))], true);
    var scratch := New(92);
    assert New(100).Scratch(8) == scratch;
    var inner := Budget([10], 92, true, false);
    assert scratch.Write(Ascii("\n")) == inner;
    RunsOn(scratch, step.body[0], []);
    assert step.body == step.body[..1] + [] && [step] == [step] + [];
    BlankAscii([10]);
    SectionRuns(New(100), step);
    RunsOn(New(100), step, []);
  }

  // ------------------------------------------------------ reports that have room

  /** What a step reads without any limit, and whether it succeeds. */
  function FullStep(step: Step): (r: (bytes, bool))
    ensures |r.0| <= StepDemand(step)
    decreases step, 0
  {
    match step
    case NilStep => ([], true)
    case Text(s) => (s, true)
    case Fail => ([], false)
    case Section(header, suffix, body, propagate) =>
      var (inner, ok) := Full(body);
      if !ok then ([], !propagate)
      else if Blank(inner) then ([], true)
      else (header + inner + suffix, true)
  }

  /** The report as it reads without any limit: up to the first step that fails. */
  function Full(steps: seq<Step>): (r: (bytes, bool))
    ensures |r.0| <= Demand(steps)
    decreases steps, 0
  {
    if steps == [] then ([], true)
    else
      var (head, ok) := FullStep(steps[0]);
      if !ok then ([], false)
      else
        var (rest, restOk) := Full(steps[1..]);
        (head + rest, restOk)
  }

  function StepDemand(step: Step): nat
    decreases step, 0
  {
    match step
    case Text(s) => |s|
    case Section(header, suffix, body, _) => |header| + |suffix| + Demand(body)
    case _ => 0
  }

  /** The bytes of all texts, headers and suffixes of the report. */
  function Demand(steps: seq<Step>): nat
    decreases steps, 0
  {
    if steps == [] then 0 else StepDemand(steps[0]) + Demand(steps[1..])
  }

  ghost predicate Roomy(b: Budget, demand: nat) {
    b.Valid() && !b.truncated && (b.capped ==> demand < b.Remaining())
  }

  lemma Append(b: Budget, s: bytes, t: bytes)
    ensures b.(text := b.text + s).(text := b.text + s + t) == b.(text := b.text + (s + t))
    ensures b.(text := b.text + []) == b
  {
    assert b.text + s + t == b.text + (s + t);
    assert b.text + [] == b.text;
  }

  /** A report whose texts are together smaller than the room left is printed as
      it is, and so is every report on an uncapped builder. */
  lemma {:induction false} RoomyReport(b: Budget, steps: seq<Step>)
    requires Roomy(b, Demand(steps))
    ensures Sections(b, steps) == (b.(text := b.text + Full(steps).0), Full(steps).1)
    decreases steps, 0
  {
    Append(b, [], []);
    if steps != [] {
      var (head, ok) := FullStep(steps[0]);
      var c := b.(text := b.text + head);
      RoomyStep(b, steps[0]);
      if ok {
        RoomyReport(c, steps[1..]);
        Append(b, head, Full(steps[1..]).0);
      }
    }
  }

  lemma {:induction false} RoomyStep(b: Budget, step: Step)
    requires Roomy(b, StepDemand(step))
    ensures step.NilStep? ==> FullStep(step) == ([], true) && b == b.(text := b.text + [])
    ensures !step.NilStep? ==> RunStep(b, step) == (b.(text := b.text + FullStep(step).0), FullStep(step).1)
    ensures !FullStep(step).1 ==> FullStep(step).0 == []
    decreases step, 0
  {
    Append(b, [], []);
    if step.Section? {
      RoomySection(b, step);
    }
  }

  /** Committing an uncut body appends the whole section, or nothing if it is blank. */
  lemma CommitWhole(b: Budget, header: bytes, suffix: bytes, inner: Budget)
    requires b.Valid() && !b.truncated && !inner.truncated
    requires b.capped ==> |header| + |inner.text| + |suffix| <= b.Remaining()
    ensures b.CommitScratch(header, suffix, inner).0
      == if Blank(inner.text) then b else b.(text := b.text + (header + inner.text + suffix))
  {
    if !Blank(inner.text) {
      assert header + inner.text + suffix != [];
    }
  }

  lemma {:induction false} RoomySection(b: Budget, step: Step)
    requires step.Section? && Roomy(b, StepDemand(step))
    ensures RunStep(b, step) == (b.(text := b.text + FullStep(step).0), FullStep(step).1)
    decreases step.body, 1
  {
    var scratch := b.Scratch(|step.header| + |step.suffix|);
    SectionRuns(b, step);
    RoomyReport(scratch, step.body);
    var (inner, ok) := Full(step.body);
    assert [] + inner == inner;
    Append(b, [], []);
    if ok {
      CommitWhole(b, step.header, step.suffix, scratch.(text := inner));
    }
  }

  // ------------------------------------------------------------ reports without a notice

  /** A section that is left out without a notice: its header and suffix leave no
      byte for a body, or what its body gathers in the bytes they leave is blank. */
  ghost predicate Dropped(step: Step, room: nat)
    requires step.Section?
  {
    var wrapper := |step.header| + |step.suffix|;
    if room <= wrapper then true
    else
      var (inner, ok) := Sections(New(room - wrapper), step.body);
      ok && Blank(inner.Payload())
  }

  /** `sub` is the report without the sections that are dropped, at any depth, when
      it is printed in full into `room` bytes. Nothing else is missing. */
  ghost predicate Pruned(sub: seq<Step>, steps: seq<Step>, room: nat)
    decreases steps, 0
  {
    && |sub| == |steps|
    && (steps != [] ==>
          && PrunedStep(sub[0], steps[0], room)
          && var (head, ok) := FullStep(sub[0]);
             if ok then |head| <= room && Pruned(sub[1..], steps[1..], room - |head|) else sub[1..] == steps[1..])
  }

  ghost predicate PrunedStep(sub: Step, step: Step, room: nat)
    decreases step, 0
  {
    if !step.Section? then sub == step
    else if Dropped(step, room) then sub.NilStep?
    else sub.Section? && sub == step.(body := sub.body)
         && Pruned(sub.body, step.body, room - (|step.header| + |step.suffix|))
  }

  /** b goes on as c, which is not cut, when it reads `sub`. */
  ghost predicate Reads(b: Budget, sub: seq<Step>, c: Budget, ok: bool) {
    (c, ok) == (b.(text := b.text + Full(sub).0), Full(sub).1)
  }

  ghost predicate ReadsStep(b: Budget, sub: Step, c: Budget, ok: bool) {
    (c, ok) == (b.(text := b.text + FullStep(sub).0), FullStep(sub).1)
  }

  /** A report that fails is not cut. */
  lemma {:induction false} FailureIsNotCut(b: Budget, steps: seq<Step>)
    requires !b.truncated && !Sections(b, steps).1
    ensures !Sections(b, steps).0.truncated
    decreases |steps|
  {
    if steps[0].NilStep? {
      FailureIsNotCut(b, steps[1..]);
    } else {
      var (c, ok) := RunStep(b, steps[0]);
      if ok && c.truncated {
        CutStays(c, steps[1..]);
      } else if ok {
        FailureIsNotCut(c, steps[1..]);
      }
    }
  }

  lemma {:induction false} UncutStep(b: Budget, step: Step) returns (sub: Step)
    requires b.Valid() && b.capped && !b.truncated && WellFormedStep(step) && !step.NilStep?
    requires !RunStep(b, step).0.truncated
    ensures PrunedStep(sub, step, b.Remaining()) && ReadsStep(b, sub, RunStep(b, step).0, RunStep(b, step).1)
    decreases step, 0
  {
    sub := step;
    Append(b, [], []);
    if step.Section? {
      sub := UncutSection(b, step);
    }
  }

  /** A body that is cut and not blank cuts its parent. */
  lemma CutIsPassedOn(b: Budget, step: Step)
    requires b.Valid() && b.capped && !b.truncated && step.Section? && WellFormedStep(step)
    requires !Dropped(step, b.Remaining()) && !RunStep(b, step).0.truncated
    ensures var inner := Sections(New(b.Remaining() - (|step.header| + |step.suffix|)), step.body).0; !inner.truncated
  {
    var scratch := New(b.Remaining() - (|step.header| + |step.suffix|));
    SectionRuns(b, step);
    var (inner, ok) := Sections(scratch, step.body);
    if ok {
      var body := SectionsLaid(scratch, step.body);
      var _ := CommitLaid(b, step.header, step.suffix, inner, body);
    } else {
      FailureIsNotCut(scratch, step.body);
    }
  }

  lemma {:induction false} UncutSection(b: Budget, step: Step) returns (sub: Step)
    requires b.Valid() && b.capped && !b.truncated && step.Section? && WellFormedStep(step)
    requires !RunStep(b, step).0.truncated
    ensures PrunedStep(sub, step, b.Remaining()) && ReadsStep(b, sub, RunStep(b, step).0, RunStep(b, step).1)
    decreases step.body, 1
  {
    Append(b, [], []);
    if Dropped(step, b.Remaining()) {
      sub := NilStep;
    } else {
      var scratch := New(b.Remaining() - (|step.header| + |step.suffix|));
      SectionRuns(b, step);
      CutIsPassedOn(b, step);
      var body := UncutSections(scratch, step.body);
      sub := step.(body := body);
      var (inner, ok) := Sections(scratch, step.body);
      assert [] + Full(body).0 == Full(body).0;
      if ok {
        CommitWhole(b, step.header, step.suffix, inner);
      }
    }
  }

  /** The general form of NoNoticeNothingCut, for a builder that already holds text. */
  lemma {:induction false} UncutSections(b: Budget, steps: seq<Step>) returns (sub: seq<Step>)
    requires b.Valid() && b.capped && !b.truncated && WellFormed(steps)
    requires !Sections(b, steps).0.truncated
    ensures Pruned(sub, steps, b.Remaining()) && Reads(b, sub, Sections(b, steps).0, Sections(b, steps).1)
    decreases steps, 0
  {
    Append(b, [], []);
    if steps == [] {
      sub := [];
    } else if steps[0].NilStep? {
      var rest := UncutSections(b, steps[1..]);
      sub := [NilStep] + rest;
      assert sub[1..] == rest && [] + Full(rest).0 == Full(rest).0;
    } else {
      var (c, ok) := RunStep(b, steps[0]);
      if ok && c.truncated {
        CutStays(c, steps[1..]);
      }
      var head := UncutStep(b, steps[0]);
      var rest := steps[1..];
      if ok {
        rest := UncutSections(c, steps[1..]);
        Append(b, FullStep(head).0, Full(rest).0);
      }
      sub := [head] + rest;
      assert sub[1..] == rest;
    }
  }

  /** Truncation is never silent: a report of UTF-8 texts that ends without a notice
      reads in full, but for the sections that are dropped for lack of room for their
      header and suffix or for a blank body. */
  lemma NoNoticeNothingCut(limit: int, steps: seq<Step>) returns (sub: seq<Step>)
    requires limit > 0 && WellFormed(steps)
    ensures var (b, ok) := Sections(New(limit), steps);
      !b.truncated ==> Pruned(sub, steps, limit) && Full(sub) == (b.text, ok)
  {
    sub := [];
    if !Sections(New(limit), steps).0.truncated {
      sub := UncutSections(New(limit), steps);
      assert [] + Full(sub).0 == Full(sub).0;
    }
  }
}
