/** The close/reload lifecycle of pkg/kubernetes/watcher_group.go, one step per
    critical section or watcher call. */
module WatcherGroup {
  import opened Wrappers

  /** A watcher is known by its number; numbers are given in the order of creation. */
  type Id = nat

  /** The group's fields, and which watchers run. */
  datatype Group = Group(closed: bool, primary: Option<Id>, cluster: Option<Id>, running: set<Id>) {
    function Current(): set<Id> {
      Pair(primary, cluster)
    }
  }

  function Pair(primary: Option<Id>, cluster: Option<Id>): (pair: set<Id>)
    ensures forall w :: w in pair <==> primary == Some(w) || cluster == Some(w)
  {
    (if primary.Some? then {primary.value} else {}) + (if cluster.Some? then {cluster.value} else {})
  }

  function Closed(g: Group): Group {
    g.(closed := true, running := g.running - g.Current())
  }

  /** The next pair is installed and the current one stopped; a closed group stops the next pair. */
  function Replaced(g: Group, primary: Option<Id>, cluster: Option<Id>): Group {
    if g.closed then g.(running := g.running - Pair(primary, cluster))
    else Group(false, primary, cluster, g.running - g.Current())
  }

  /** A watcher that cannot start, or runs already, stays as it is. */
  function Watched(g: Group, w: Option<Id>, starts: bool): Group {
    if w.Some? && starts then g.(running := g.running + {w.value}) else g
  }

  // ------------------------------------------------------------------- the object

  class WatcherGroup {
    var closed: bool
    var primary: Option<Id>
    var cluster: Option<Id>
    var running: set<Id>

    function State(): Group
      reads this
    {
      Group(closed, primary, cluster, running)
    }

    constructor ()
      ensures State() == Group(false, None, None, {})
    {
      closed, primary, cluster, running := false, None, None, {};
    }

    method CloseWatcher(w: Option<Id>)
      modifies this`running
      ensures running == if w.Some? then old(running) - {w.value} else old(running)
    {
      if w.Some? {
        running := running - {w.value};
      }
    }

    /** Reports whether Close has already run. The answer that it has is final. */
    method ErrClosed() returns (err: bool)
      ensures err == closed
      ensures err ==> forall s: System, actions: seq<Action> :: s.group == State() ==> Run(s, actions).group.closed
    {
      if closed {
        forall s: System, actions: seq<Action> | s.group == State() ensures Run(s, actions).group.closed {
          StaysClosed(s, actions);
        }
      }
      return closed;
    }

    method Replace(primary: Option<Id>, cluster: Option<Id>) returns (err: bool)
      modifies this
      ensures State() == Replaced(old(State()), primary, cluster) && err == old(closed)
      ensures if err then running == old(running) - Pair(primary, cluster)
              else this.primary == primary && this.cluster == cluster
                   && running == old(running) - Pair(old(this.primary), old(this.cluster))
    {
      if closed {
        CloseWatcher(primary);
        CloseWatcher(cluster);
        return true;
      }
      CloseWatcher(this.primary);
      CloseWatcher(this.cluster);
      this.primary := primary;
      this.cluster := cluster;
      return false;
    }

    method Watch(w: Option<Id>, starts: bool)
      modifies this`running
      ensures State() == Watched(old(State()), w, starts)
    {
      if w.Some? && starts {
        running := running + {w.value};
      }
    }

    method Close()
      modifies this
      ensures State() == Closed(old(State()))
      ensures closed && running == old(running) - Pair(primary, cluster)
    {
      closed := true;
      CloseWatcher(primary);
      CloseWatcher(cluster);
    }

    /** One call, with another thread's Close falling in front of its second, third
        or fourth step (or not at all): whatever was started in the window is stopped. */
    method WatchTargets(startsPrimary: bool, startsCluster: bool, closeBefore: nat)
      modifies this
      ensures old(closed) ==> State() == old(State())
      ensures !old(closed) && closeBefore !in {2, 3, 4} ==>
        State() == Watched(Watched(old(State()), primary, startsPrimary), cluster, startsCluster)
      ensures !old(closed) && closeBefore in {2, 3, 4} ==> State() == Closed(old(State()))
    {
      var wasClosed, first, second := closed, primary, cluster;
      if wasClosed {
        return;
      }
      if closeBefore == 2 {
        Close();
      }
      Watch(first, startsPrimary);
      if closeBefore == 3 {
        Close();
      }
      Watch(second, startsCluster);
      if closeBefore == 4 {
        Close();
      }
      if closed {
        Close();
      }
    }
  }

  // -------------------------------------------------------------------- the system

  /** Where a WatchTargets call is: which watchers it has copied and not yet started,
      and which of those it may have started. */
  datatype Call = Call(primary: Option<Id>, cluster: Option<Id>, at: Point)
  datatype Point = StartPrimary | StartCluster | Recheck | MustClose

  datatype Action =
    | Begin(call: nat)
    | Advance(call: nat, starts: bool)  // the next step of the call
    | Replace(primary: bool, cluster: bool)
    | Close

  datatype System = System(
    group: Group,
    calls: map<nat, Call>,
    next: Id,
    strays: set<Id>      // history: watchers started when they were not installed any more
  )

  function Step(s: System, a: Action): System {
    match a
    case Begin(c) =>
      if c in s.calls || s.group.closed then s
      else s.(calls := s.calls[c := Call(s.group.primary, s.group.cluster, StartPrimary)])
    case Advance(c, starts) =>
      if c !in s.calls then s
      else
        var call := s.calls[c];
        (match call.at
         case StartPrimary => Start(s, c, call.primary, starts, StartCluster)
         case StartCluster => Start(s, c, call.cluster, starts, Recheck)
         case Recheck =>
           if s.group.closed then s.(calls := s.calls[c := call.(at := MustClose)]) else s.(calls := s.calls - {c})
         case MustClose => s.(group := Closed(s.group), calls := s.calls - {c}))
    case Replace(primary, cluster) =>
      s.(group := Replaced(s.group, if primary then Some(s.next) else None, if cluster then Some(s.next + 1) else None),
         next := s.next + 2)
    case Close => s.(group := Closed(s.group))
  }

  function Start(s: System, c: nat, w: Option<Id>, starts: bool, at: Point): System
    requires c in s.calls
  {
    s.(group := Watched(s.group, w, starts),
       calls := s.calls[c := s.calls[c].(at := at)],
       strays := if w.Some? && starts && w.value !in s.group.Current() then s.strays + {w.value} else s.strays)
  }

  function Run(s: System, actions: seq<Action>): System
    decreases |actions|
  {
    if actions == [] then s else Run(Step(s, actions[0]), actions[1..])
  }

  /** Nothing opens a closed group again, and no watcher is installed in it any more. */
  lemma {:induction false} StaysClosed(s: System, actions: seq<Action>)
    requires s.group.closed
    ensures var t := Run(s, actions);
      t.group.closed && t.group.primary == s.group.primary && t.group.cluster == s.group.cluster
    decreases |actions|
  {
    if actions != [] {
      StaysClosed(Step(s, actions[0]), actions[1..]);
    }
  }

  const START := System(Group(false, None, None, {}), map[], 0, {})

  /** The watchers the call has not yet left behind. */
  function Watching(call: Call): set<Id> {
    Pair(call.primary, call.cluster)
  }

  ghost predicate Inv(s: System) {
    Numbered(s) && Accounted(s) && WillStop(s)
  }

  /** Only numbers given out are in use, and a stray is never installed again. */
  ghost predicate Numbered(s: System) {
    && (forall w :: w in s.group.Current() ==> w < s.next)
    && (forall c, w :: c in s.calls && w in Watching(s.calls[c]) ==> w < s.next)
    && (forall w :: w in s.strays ==> w < s.next && w !in s.group.Current())
  }

  /** Whatever runs is installed or a stray, and strays run. */
  ghost predicate Accounted(s: System) {
    && s.strays <= s.group.running
    && s.group.running <= s.group.Current() + s.strays
  }

  /** In a closed group, what runs and is no stray will be stopped by a call in flight. */
  ghost predicate WillStop(s: System) {
    && (s.group.closed ==> forall w :: w in s.group.running && w !in s.strays ==>
          exists c :: c in s.calls && Started(s.calls[c], w))
    && (forall c :: c in s.calls && s.calls[c].at == MustClose ==> s.group.closed)
  }

  ghost predicate Started(call: Call, w: Id) {
    w in Watching(call) && call.at != StartPrimary
  }

  lemma StepKeepsNumbered(s: System, a: Action)
    requires Inv(s)
    ensures Numbered(Step(s, a))
  {
    var t := Step(s, a);
    forall c, w | c in t.calls && w in Watching(t.calls[c]) ensures w < t.next {
      assert (c in s.calls && w in Watching(s.calls[c])) || w in s.group.Current();
    }
    if a.Advance? && a.call in s.calls {
      var call := s.calls[a.call];
      assert call.primary.Some? ==> call.primary.value in Watching(call);
      assert call.cluster.Some? ==> call.cluster.value in Watching(call);
    }
  }

  lemma StepKeepsAccounted(s: System, a: Action)
    requires Inv(s)
    ensures Accounted(Step(s, a))
  {
  }

  lemma StepKeepsWillStop(s: System, a: Action)
    requires Inv(s)
    ensures WillStop(Step(s, a))
  {
    var t := Step(s, a);
    if t.group.closed {
      forall w | w in t.group.running && w !in t.strays
        ensures exists c :: c in t.calls && Started(t.calls[c], w)
      {
        if w in s.group.running && s.group.closed {
          var c :| c in s.calls && Started(s.calls[c], w);
          assert c in t.calls && Started(t.calls[c], w);
        } else {
          assert a.Advance? && a.call in t.calls && Started(t.calls[a.call], w);
        }
      }
    }
  }

  lemma StepKeepsInv(s: System, a: Action)
    requires Inv(s)
    ensures Inv(Step(s, a))
  {
    StepKeepsNumbered(s, a);
    StepKeepsAccounted(s, a);
    StepKeepsWillStop(s, a);
  }

  lemma {:induction false} RunKeepsInv(s: System, actions: seq<Action>)
    requires Inv(s)
    ensures Inv(Run(s, actions))
    decreases |actions|
  {
    if actions != [] {
      StepKeepsInv(s, actions[0]);
      RunKeepsInv(Step(s, actions[0]), actions[1..]);
    }
  }

  /** Once the group is closed and no call is in flight, what still runs are exactly
      the watchers that were started after a Replace had taken them out. */
  lemma OnlyStraysSurvive(actions: seq<Action>)
    ensures var s := Run(START, actions);
      s.group.closed && s.calls == map[] ==> s.group.running == s.strays
  {
    RunKeepsInv(START, actions);
  }

  ghost predicate InWindow(s: System) {
    exists c :: c in s.calls && s.calls[c].at != MustClose
  }

  /** No Replace falls between the copy of a call and its re-check. */
  ghost predicate NoReplaceInWindow(s: System, actions: seq<Action>)
    decreases |actions|
  {
    actions == []
    || ((actions[0].Replace? ==> !InWindow(s)) && NoReplaceInWindow(Step(s, actions[0]), actions[1..]))
  }

  /** What calls in their window are about to start is installed. */
  ghost predicate CallsCurrent(s: System) {
    && s.strays == {}
    && forall c :: c in s.calls && s.calls[c].at != MustClose ==> Watching(s.calls[c]) <= s.group.Current()
  }

  lemma StepKeepsCallsCurrent(s: System, a: Action)
    requires CallsCurrent(s) && (a.Replace? ==> !InWindow(s))
    ensures CallsCurrent(Step(s, a))
  {
    match a
    case Advance(c, _) =>
      if c in s.calls {
        var call := s.calls[c];
        assert call.primary.Some? ==> call.primary.value in Watching(call);
        assert call.cluster.Some? ==> call.cluster.value in Watching(call);
      }
    case _ =>
  }

  lemma {:induction false} RunKeepsCallsCurrent(s: System, actions: seq<Action>)
    requires CallsCurrent(s) && NoReplaceInWindow(s, actions)
    ensures CallsCurrent(Run(s, actions))
    decreases |actions|
  {
    if actions != [] {
      StepKeepsCallsCurrent(s, actions[0]);
      RunKeepsCallsCurrent(Step(s, actions[0]), actions[1..]);
    }
  }

  /** Shutdown: in every interleaving without a Replace in such a window, once the
      group is closed and no call is in flight, no watcher runs. */
  lemma ShutdownStopsAll(actions: seq<Action>)
    requires NoReplaceInWindow(START, actions)
    ensures var s := Run(START, actions);
      s.group.closed && s.calls == map[] ==> s.group.running == {}
  {
    RunKeepsInv(START, actions);
    RunKeepsCallsCurrent(START, actions);
  }

  /** With a Replace in the window, a watcher that was replaced is started and
      outlives the shutdown. */
  lemma ReplacedWatcherLeaks()
    ensures var s := Run(START, [Replace(true, true), Begin(0), Advance(0, true), Replace(true, true),
                                 Advance(0, true), Advance(0, true), Close]);
      s.group.closed && s.calls == map[] && s.group.running == {1} == s.strays
  {
    var actions := [Replace(true, true), Begin(0), Advance(0, true), Replace(true, true),
                    Advance(0, true), Advance(0, true), Close];
    var s1 := Step(START, Replace(true, true));
    var s2 := Step(s1, Begin(0));
    var s3 := Step(s2, Advance(0, true));
    var s4 := Step(s3, Replace(true, true));
    var s5 := Step(s4, Advance(0, true));
    var s6 := Step(s5, Advance(0, true));
    var s7 := Step(s6, Close);
    assert s3.group == Group(false, Some(0), Some(1), {0});
    assert s4.group == Group(false, Some(2), Some(3), {});
    assert s5.group.running == {1} && s5.strays == {1};
    assert s6.calls == map[];
    assert s7.group.running == {1};
    assert Run(s6, actions[6..]) == Run(s7, actions[6..][1..]) == s7;
    assert Run(s5, actions[5..]) == Run(s6, actions[5..][1..]);
    assert Run(s4, actions[4..]) == Run(s5, actions[4..][1..]);
    assert Run(s3, actions[3..]) == Run(s4, actions[3..][1..]);
    assert Run(s2, actions[2..]) == Run(s3, actions[2..][1..]);
    assert Run(s1, actions[1..]) == Run(s2, actions[1..][1..]);
  }
}
