/** The cap on running handlers of inFlightMiddleware in pkg/mcp/middleware.go. */
module InFlight {

  /** A call in its handler, and whether it occupies a slot. */
  datatype System = System(limit: int, count: int, running: map<nat, bool>)

  datatype Action =
    | SetLimit(limit: int)                // a reload changes the configuration
    | Arrive(call: nat, rpc: string)
    | Leave(call: nat, panics: bool)      // the deferred release runs on both ways out

  predicate Limited(rpc: string) {
    rpc == "tools/call" || rpc == "prompts/get" || rpc == "resources/read"
  }

  predicate Admits(s: System, rpc: string) {
    !Limited(rpc) || s.limit <= 0 || s.count < s.limit
  }

  function Step(s: System, a: Action): System {
    match a
    case SetLimit(limit) => s.(limit := limit)
    case Arrive(call, rpc) =>
      if call in s.running || !Admits(s, rpc) then s
      else s.(running := s.running[call := Limited(rpc)], count := if Limited(rpc) then s.count + 1 else s.count)
    case Leave(call, _) =>
      if call !in s.running then s
      else s.(running := s.running - {call}, count := if s.running[call] then s.count - 1 else s.count)
  }

  function Run(s: System, actions: seq<Action>): System
    decreases |actions|
  {
    if actions == [] then s else Run(Step(s, actions[0]), actions[1..])
  }

  /** The calls that hold a slot. */
  function Slots(s: System): set<nat> {
    set call | call in s.running && s.running[call]
  }

  /** A call is admitted exactly if it is of no limited method, or there is no limit, or
      the count is below it; and it holds a slot exactly if its method is limited. */
  lemma AdmissionIsExact(s: System, call: nat, rpc: string)
    requires call !in s.running
    ensures var limited := rpc in {"tools/call", "prompts/get", "resources/read"};
      var t := Step(s, Arrive(call, rpc));
      && (call in t.running <==> !limited || s.limit <= 0 || s.count < s.limit)
      && (call in t.running ==> t.running[call] == limited)
      && (call !in t.running ==> t == s)
  {
  }

  lemma ArriveCounts(s: System, call: nat, rpc: string)
    requires s.count == |Slots(s)| && call !in s.running && Admits(s, rpc)
    ensures var t := Step(s, Arrive(call, rpc)); t.count == |Slots(t)|
  {
    var t := Step(s, Arrive(call, rpc));
    assert call !in Slots(s);
    if Limited(rpc) {
      assert Slots(t) == Slots(s) + {call};
    } else {
      assert Slots(t) == Slots(s);
    }
  }

  lemma LeaveCounts(s: System, call: nat, panics: bool)
    requires s.count == |Slots(s)| && call in s.running
    ensures var t := Step(s, Leave(call, panics)); t.count == |Slots(t)|
  {
    var t := Step(s, Leave(call, panics));
    if s.running[call] {
      assert call in Slots(s) && Slots(t) == Slots(s) - {call};
    } else {
      assert Slots(t) == Slots(s);
    }
  }

  lemma StepCounts(s: System, a: Action)
    requires s.count == |Slots(s)|
    ensures Step(s, a).count == |Slots(Step(s, a))|
  {
    match a
    case SetLimit(limit) =>
      assert Slots(s.(limit := limit)) == Slots(s);
    case Arrive(call, rpc) =>
      if call !in s.running && Admits(s, rpc) {
        ArriveCounts(s, call, rpc);
      }
    case Leave(call, panics) =>
      if call in s.running {
        LeaveCounts(s, call, panics);
      }
  }

  /** The counter is the number of limited calls in their handlers, in every run. */
  lemma {:induction false} CounterIsExact(s: System, actions: seq<Action>)
    requires s.count == |Slots(s)|
    ensures var t := Run(s, actions); t.count == |Slots(t)|
    decreases |actions|
  {
    if actions != [] {
      StepCounts(s, actions[0]);
      CounterIsExact(Step(s, actions[0]), actions[1..]);
    }
  }

  /** While the limit stays at a positive value, no more handlers run than the limit
      or than ran when it took effect. */
  lemma {:induction false} CapHolds(s: System, actions: seq<Action>)
    requires s.count == |Slots(s)| && s.limit > 0
    requires forall i :: 0 <= i < |actions| ==> !actions[i].SetLimit?
    ensures |Slots(Run(s, actions))| <= if |Slots(s)| > s.limit then |Slots(s)| else s.limit
    decreases |actions|
  {
    if actions != [] {
      StepCounts(s, actions[0]);
      CapHolds(Step(s, actions[0]), actions[1..]);
    }
  }

  class Middleware {
    var inFlight: int

    constructor ()
      ensures inFlight == 0
    {
      inFlight := 0;
    }

    /** Both critical sections in the form the system above takes them. */
    method Acquire(rpc: string, limit: int) returns (ok: bool)
      modifies this
      ensures forall s: System, call :: s.limit == limit && s.count == old(inFlight) && call !in s.running ==>
        ok == Admits(s, rpc) && inFlight == Step(s, Arrive(call, rpc)).count
    {
      if !Limited(rpc) {
        return true;
      }
      if limit > 0 && inFlight >= limit {
        return false;
      }
      inFlight := inFlight + 1;
      return true;
    }

    method Release(rpc: string, panics: bool)
      modifies this
      ensures forall s: System, call :: s.count == old(inFlight) && call in s.running && s.running[call] == Limited(rpc) ==>
        inFlight == Step(s, Leave(call, panics)).count
    {
      if Limited(rpc) {
        inFlight := inFlight - 1;
      }
    }
  }
}
