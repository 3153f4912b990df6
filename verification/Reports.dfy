/** Budgeted reports: the sections of pkg/api/resultbudget.go, nested to any depth. */
module Reports {
  import opened Utf8
  import opened ResultBudget

  /** A step of a report. `Section` is a step that calls TrySection and gathers a
      nested report; it returns the gather error or, when `propagate` is false,
      swallows it so that later sections still run. `Fail` is a failing fetch. */
  datatype Step =
    | NilStep
    | Text(s: bytes)
    | Section(header: bytes, suffix: bytes, body: seq<Step>, propagate: bool)
    | Fail

  // ------------------------------------------------------------------ meaning

  function TrySection(b: Budget, header: bytes, suffix: bytes, body: seq<Step>): (r: (Budget, bool))
    ensures b.Valid() ==> r.0.Valid()
    ensures r.0.capped == b.capped && r.0.limit == b.limit
    ensures !r.1 ==> r.0 == b
    decreases body, 1
  {
    if !b.Fits(|header|) then (b, true)
    else
      var scratch := b.Scratch(|header| + |suffix|);
      if scratch.truncated then (b, true)
      else
        var (inner, ok) := Sections(scratch, body);
        if ok then (b.CommitScratch(header, suffix, inner).0, true) else (b, false)
  }

  function RunStep(b: Budget, step: Step): (r: (Budget, bool))
    requires !step.NilStep?
    ensures b.Valid() ==> r.0.Valid()
    ensures r.0.capped == b.capped && r.0.limit == b.limit
    decreases step, 0
  {
    match step
    case Text(s) => (b.Write(s), true)
    case Fail => (b, false)
    case Section(header, suffix, body, propagate) =>
      var (c, ok) := TrySection(b, header, suffix, body);
      (c, ok || !propagate)
  }

  /** The builder after the steps, and whether no step failed. */
  function Sections(b: Budget, steps: seq<Step>): (r: (Budget, bool))
    ensures b.Valid() ==> r.0.Valid()
    ensures r.0.capped == b.capped && r.0.limit == b.limit
    decreases steps, 0
  {
    if steps == [] then (b, true)
    else if steps[0].NilStep? then Sections(b, steps[1..])
    else if b.Spent() then (b.Settled(), true)
    else
      var (c, ok) := RunStep(b, steps[0]);
      if ok then Sections(c, steps[1..]) else (c, false)
  }

  // ------------------------------------------------------------- on the builder

  method RunTrySection(b: BuilderWithBudget, header: bytes, suffix: bytes, body: seq<Step>)
    returns (written: bool, ok: bool)
    modifies b
    ensures (b.State(), ok) == TrySection(old(b.State()), header, suffix, body)
    ensures written == (|b.b| > |old(b.b)|)
    decreases body, 1
  {
    if !b.State().Fits(|header|) {
      return false, true;
    }
    var scratch := b.Scratch(|header| + |suffix|);
    if scratch.truncated {
      return false, true;
    }
    ok := RunSections(scratch, body);
    if !ok {
      return false, false;
    }
    var before := |b.b|;
    var _ := b.CommitScratch(header, suffix, scratch);
    return |b.b| > before, true;
  }

  method RunOneStep(b: BuilderWithBudget, step: Step) returns (ok: bool)
    requires !step.NilStep?
    modifies b
    ensures (b.State(), ok) == RunStep(old(b.State()), step)
    decreases step, 0
  {
    match step
    case Text(s) =>
      var _ := b.WriteString(s);
      ok := true;
    case Fail =>
      ok := false;
    case Section(header, suffix, body, propagate) =>
      var _, gathered := RunTrySection(b, header, suffix, body);
      ok := gathered || !propagate;
  }

  method RunSections(b: BuilderWithBudget, steps: seq<Step>) returns (ok: bool)
    modifies b
    ensures (b.State(), ok) == Sections(old(b.State()), steps)
    decreases steps, 0
  {
    var i := 0;
    while i < |steps|
      invariant 0 <= i <= |steps|
      invariant Sections(b.State(), steps[i..]) == Sections(old(b.State()), steps)
    {
      if !steps[i].NilStep? {
        var spent := b.Spent();
        if spent {
          return true;
        }
        var done := RunOneStep(b, steps[i]);
        if !done {
          return false;
        }
      }
      i := i + 1;
    }
    return true;
  }
}
