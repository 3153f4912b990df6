/** Reloads of the server and its provider as interleaved critical sections:
    applyToolsetsLocked and ReloadConfiguration of pkg/mcp/mcp.go, and the lazily
    built managers of pkg/kubernetes/provider_kubeconfig.go. A configuration is
    known by its number, counted in the order reloads enter the reload lock. */
module ReloadProtocol {
  import opened ToolSurface
  import opened Wrappers

  const KINDS := 4  // resources, resource templates, tools, prompts, in commit order

  type Surface = s: seq<seq<Item>> | |s| == KINDS witness [[], [], [], []]

  /** What the holder of the reload lock has done so far. */
  datatype Holder =
    | Free
    | Entered(cfg: nat)                                      // a reload, numbered
    | Resetting                                              // a watcher callback, before the reset
    | Converting(cfg: nat, reload: bool)                     // applyToolsetsLocked on cfg
    | Refused                                                // a reload whose conversion failed
    | Committing(cfg: nat, surface: Surface, done: nat)      // `done` registries are committed
    | Published(cfg: nat, surface: Surface)                  // the managers have cfg
    | Stored(cfg: nat, surface: Surface)                     // the snapshot is cfg

  datatype Action =
    | StartReload
    | SwapProviderConfig
    | StartReapply
    | StartReset
    | Reset(ok: bool, context: string, contexts: set<string>, closed: bool)  // closed: the watchers were closed meanwhile
    | Convert(result: Option<Surface>)
    | RollBack
    | CommitNext
    | Publish
    | Store
    | Finish
    | Create(context: string, ok: bool)  // a tool call on a context without a manager, at any time

  datatype System = System(
    providerCfg: nat,
    managers: map<string, Option<nat>>,  // the configuration each live manager holds
    snapshot: nat,
    registries: seq<Registry>,
    enabled: seq<seq<string>>,
    next: nat,
    holder: Holder,
    surface: Surface,                    // history: the last finished surface
    tainted: set<string>                 // history: contexts created on a configuration not yet accepted
  )

  ghost predicate Live(s: System, context: string) {
    context in s.managers && s.managers[context].Some?
  }

  /** A reload has swapped the provider's configuration and not stored it yet. */
  predicate InWindow(s: System) {
    match s.holder
    case Converting(_, reload) => reload
    case Refused => true
    case Committing(cfg, _, _) => cfg != s.snapshot
    case Published(cfg, _) => cfg != s.snapshot
    case _ => false
  }

  /** After a reset only the default context has a manager. */
  function ResetManagers(contexts: set<string>, context: string, cfg: nat): map<string, Option<nat>> {
    map c | c in contexts + {context} :: if c == context then Some(cfg) else None
  }

  function PublishedManagers(managers: map<string, Option<nat>>, cfg: nat): map<string, Option<nat>> {
    map c | c in managers :: if managers[c].Some? then Some(cfg) else None
  }

  function AllNames(surface: Surface): (r: seq<seq<string>>)
    ensures |r| == KINDS && forall k :: 0 <= k < KINDS ==> r[k] == Names(surface[k])
  {
    [Names(surface[0]), Names(surface[1]), Names(surface[2]), Names(surface[3])]
  }

  /** One critical section. An action that cannot happen now changes nothing. */
  function Do(s: System, a: Action): System
    requires |s.registries| == KINDS && |s.enabled| == KINDS
    ensures |Do(s, a).registries| == KINDS && |Do(s, a).enabled| == KINDS
  {
    match (s.holder, a)
    case (Free, StartReload) => s.(holder := Entered(s.next), next := s.next + 1)
    case (Free, StartReapply) => s.(holder := Converting(s.snapshot, false))
    case (Free, StartReset) => s.(holder := Resetting)
    case (Entered(cfg), SwapProviderConfig) => s.(providerCfg := cfg, holder := Converting(cfg, true))
    case (Resetting, Reset(ok, context, contexts, closed)) =>
      if !ok then s.(holder := Free)
      else s.(managers := ResetManagers(contexts, context, s.providerCfg),
              holder := if closed then Free else Converting(s.snapshot, false), tainted := {})
    case (Converting(cfg, reload), Convert(None)) => s.(holder := if reload then Refused else Free)
    case (Converting(cfg, _), Convert(Some(surface))) => s.(holder := Committing(cfg, surface, 0))
    case (Refused, RollBack) => s.(providerCfg := s.snapshot, holder := Free)
    case (Committing(cfg, surface, done), CommitNext) =>
      if done < KINDS
      then s.(registries := s.registries[done := Committed(s.registries[done], s.enabled[done], surface[done])],
              holder := Committing(cfg, surface, done + 1))
      else s
    case (Committing(cfg, surface, done), Publish) =>
      if done == KINDS
      then s.(managers := PublishedManagers(s.managers, cfg),
              holder := Published(cfg, surface))
      else s
    case (Published(cfg, surface), Store) => s.(snapshot := cfg, holder := Stored(cfg, surface), tainted := {})
    case (Stored(cfg, surface), Finish) =>
      s.(enabled := AllNames(surface),
         surface := surface, holder := Free)
    case (_, Create(context, ok)) =>
      if !ok || (context in s.managers && s.managers[context].Some?) then s
      else s.(managers := s.managers[context := Some(s.providerCfg)],
              tainted := if InWindow(s) then s.tainted + {context} else s.tainted)
    case _ => s
  }

  function Run(s: System, actions: seq<Action>): (r: System)
    requires |s.registries| == KINDS && |s.enabled| == KINDS
    ensures |r.registries| == KINDS && |r.enabled| == KINDS
    decreases |actions|
  {
    if actions == [] then s else Run(Do(s, actions[0]), actions[1..])
  }

  /** A new server: the provider was reset with configuration 0 and nothing is registered. */
  ghost predicate Initial(s: System) {
    && s.providerCfg == s.snapshot == 0 && s.next == 1 && s.holder == Free && s.tainted == {}
    && (forall c :: Live(s, c) ==> s.managers[c].value == 0)
    && s.registries == [map[], map[], map[], map[]] && s.enabled == [[], [], [], []]
    && s.surface == [[], [], [], []]
  }

  // ------------------------------------------------------------------- invariants

  ghost predicate ConfigInv(s: System) {
    && s.snapshot < s.next
    && (forall c :: Live(s, c) ==> s.snapshot <= s.managers[c].value < s.next)
    && match s.holder
       case Free => s.providerCfg == s.snapshot
       case Resetting => s.providerCfg == s.snapshot
       case Entered(cfg) => s.providerCfg == s.snapshot < cfg < s.next
       case Converting(cfg, reload) => s.providerCfg == cfg < s.next && if reload then s.snapshot < cfg else s.snapshot == cfg
       case Refused => s.snapshot < s.providerCfg < s.next
       case Committing(cfg, _, done) => s.providerCfg == cfg < s.next && s.snapshot <= cfg && done <= KINDS
       case Published(cfg, _) => s.providerCfg == cfg < s.next && s.snapshot <= cfg
       case Stored(cfg, _) => s.providerCfg == s.snapshot == cfg
  }

  /** The managers between two publications, and behind one. */
  ghost predicate ManagerInv(s: System) {
    && (forall c :: c in s.tainted ==> Live(s, c))
    && match s.holder
       case Published(cfg, _) => forall c :: Live(s, c) ==> s.managers[c].value == cfg
       case _ => (forall c :: Live(s, c) ==> (s.managers[c].value == s.snapshot <==> c !in s.tainted))
                 && (s.holder.Stored? ==> s.tainted == {})
  }

  /** Which list of items registry k holds at the moment. */
  function Current(s: System, k: nat): seq<Item>
    requires k < KINDS
  {
    match s.holder
    case Committing(_, surface, done) => if k < done then surface[k] else s.surface[k]
    case Published(_, surface) => surface[k]
    case Stored(_, surface) => surface[k]
    case _ => s.surface[k]
  }

  ghost predicate SurfaceInv(s: System) {
    && |s.registries| == KINDS && |s.enabled| == KINDS
    && forall k :: 0 <= k < KINDS ==> s.enabled[k] == Names(s.surface[k]) && Holds(s.registries[k], Current(s, k))
  }

  ghost predicate Inv(s: System) {
    ConfigInv(s) && ManagerInv(s) && SurfaceInv(s)
  }

  lemma InitialInv(s: System)
    requires Initial(s)
    ensures Inv(s)
  {
    assert forall c :: Live(s, c) ==> c !in s.tainted;
  }

  lemma DoKeepsConfig(s: System, a: Action)
    requires Inv(s)
    ensures ConfigInv(Do(s, a))
  {
    match a
    case Create(context, ok) => CreateKeepsConfig(s, context, ok);
    case Reset(ok, context, contexts, closed) => ResetKeepsConfig(s, ok, context, contexts, closed);
    case _ =>
  }

  lemma CreateKeepsConfig(s: System, context: string, ok: bool)
    requires Inv(s)
    ensures ConfigInv(Do(s, Create(context, ok)))
  {
    var t := Do(s, Create(context, ok));
    assert forall c :: Live(t, c) ==> Live(s, c) || t.managers[c] == Some(s.providerCfg);
  }

  lemma ResetKeepsConfig(s: System, ok: bool, context: string, contexts: set<string>, closed: bool)
    requires Inv(s)
    ensures ConfigInv(Do(s, Reset(ok, context, contexts, closed)))
  {
  }

  lemma CreateKeepsManagers(s: System, context: string, ok: bool)
    requires Inv(s)
    ensures ManagerInv(Do(s, Create(context, ok)))
  {
    var t := Do(s, Create(context, ok));
    forall c | Live(t, c)
      ensures Live(s, c) || (c == context && t.managers[c].value == s.providerCfg)
    {
    }
  }

  lemma ResetKeepsManagers(s: System, ok: bool, context: string, contexts: set<string>, closed: bool)
    requires Inv(s)
    ensures ManagerInv(Do(s, Reset(ok, context, contexts, closed)))
  {
  }

  lemma DoKeepsManagers(s: System, a: Action)
    requires Inv(s)
    ensures ManagerInv(Do(s, a))
  {
    match a
    case Create(context, ok) => CreateKeepsManagers(s, context, ok);
    case Reset(ok, context, contexts, closed) => ResetKeepsManagers(s, ok, context, contexts, closed);
    case Publish => PublishKeepsManagers(s);
    case _ => assert Do(s, a).managers == s.managers;
  }

  lemma PublishKeepsManagers(s: System)
    requires Inv(s)
    ensures ManagerInv(Do(s, Publish))
  {
    var t := Do(s, Publish);
    assert forall c :: Live(t, c) <==> Live(s, c);
  }

  ghost predicate SameSurface(s: System, t: System) {
    && t.registries == s.registries && t.enabled == s.enabled && t.surface == s.surface
    && forall k :: 0 <= k < KINDS ==> Current(t, k) == Current(s, k)
  }

  lemma SameSurfaceKeeps(s: System, t: System)
    requires SurfaceInv(s) && SameSurface(s, t)
    ensures SurfaceInv(t)
  {
  }

  /** Only a commit and the end of a reload touch what SurfaceInv speaks of. */
  lemma DoKeepsCurrent(s: System, a: Action)
    requires |s.registries| == KINDS && |s.enabled| == KINDS
    requires !(a.CommitNext? && s.holder.Committing?) && !(a.Finish? && s.holder.Stored?)
    ensures SameSurface(s, Do(s, a))
  {
  }

  lemma FinishKeepsSurface(s: System)
    requires SurfaceInv(s) && s.holder.Stored?
    ensures SurfaceInv(Do(s, Finish))
  {
  }

  /** A commit turns a registry of one list into a registry of the next. */
  lemma CommitTurns(registry: Registry, from: seq<Item>, to: seq<Item>)
    requires Holds(registry, from)
    ensures Holds(Committed(registry, Names(from), to), to)
  {
    HoldsRegisters(registry, from);
    CommitReplaces(registry, Names(from), to);
  }

  lemma CommitKeepsSurface(s: System)
    requires SurfaceInv(s) && s.holder.Committing? && s.holder.done <= KINDS
    ensures SurfaceInv(Do(s, CommitNext))
  {
    var k, t := s.holder.done, Do(s, CommitNext);
    if k < KINDS {
      CommitTurns(s.registries[k], s.surface[k], s.holder.surface[k]);
      assert Holds(t.registries[k], Current(t, k));
      forall j | 0 <= j < KINDS && j != k ensures Holds(t.registries[j], Current(t, j)) {
        assert t.registries[j] == s.registries[j] && Current(t, j) == Current(s, j);
      }
    }
  }

  lemma DoKeepsSurface(s: System, a: Action)
    requires Inv(s)
    ensures SurfaceInv(Do(s, a))
  {
    if a.CommitNext? && s.holder.Committing? {
      CommitKeepsSurface(s);
    } else if a.Finish? && s.holder.Stored? {
      FinishKeepsSurface(s);
    } else {
      DoKeepsCurrent(s, a);
      SameSurfaceKeeps(s, Do(s, a));
    }
  }

  lemma DoKeepsInv(s: System, a: Action)
    requires Inv(s)
    ensures Inv(Do(s, a))
  {
    DoKeepsConfig(s, a);
    DoKeepsManagers(s, a);
    DoKeepsSurface(s, a);
  }

  lemma {:induction false} RunKeepsInv(s: System, actions: seq<Action>)
    requires Inv(s)
    ensures Inv(Run(s, actions))
    decreases |actions|
  {
    if actions != [] {
      DoKeepsInv(s, actions[0]);
      RunKeepsInv(Do(s, actions[0]), actions[1..]);
    }
  }

  // --------------------------------------------------------------------- theorems

  /** Freshness, in every reachable state: no live manager holds a configuration
      older than the published snapshot. When the reload lock is free, a manager
      holds exactly the snapshot's configuration unless it was built while a reload
      that was then rejected had the provider's configuration swapped. */
  lemma Freshness(s: System, actions: seq<Action>)
    requires Initial(s)
    ensures var t := Run(s, actions);
      && (forall c :: Live(t, c) ==> t.snapshot <= t.managers[c].value)
      && (t.holder.Free? ==>
            && t.providerCfg == t.snapshot
            && forall c :: Live(t, c) ==> (t.managers[c].value == t.snapshot <==> c !in t.tainted))
  {
    InitialInv(s);
    RunKeepsInv(s, actions);
  }

  /** The exception is real: this manager keeps the rejected configuration. */
  lemma RejectedConfigSurvives(s: System)
    requires Initial(s) && !Live(s, "b")
    ensures var t := Run(s, [StartReload, SwapProviderConfig, Create("b", true), Convert(None), RollBack]);
      t.holder == Free && t.snapshot == 0 && t.managers["b"] == Some(1)
  {
    var s1 := Do(s, StartReload);
    var s2 := Do(s1, SwapProviderConfig);
    var s3 := Do(s2, Create("b", true));
    var s4 := Do(s3, Convert(None));
    var s5 := Do(s4, RollBack);
    assert s3.managers["b"] == Some(1);
    assert Run(s4, [RollBack]) == Run(s5, []) == s5;
    assert Run(s3, [Convert(None), RollBack]) == Run(s4, [Convert(None), RollBack][1..]);
    assert Run(s2, [Create("b", true), Convert(None), RollBack]) == Run(s3, [Create("b", true), Convert(None), RollBack][1..]);
    var rest := [SwapProviderConfig, Create("b", true), Convert(None), RollBack];
    assert rest[1..] == [Create("b", true), Convert(None), RollBack];
    assert Run(s1, rest) == Run(s2, rest[1..]);
    var all := [StartReload, SwapProviderConfig, Create("b", true), Convert(None), RollBack];
    assert all[1..] == rest;
  }

  ghost predicate AllOnSnapshot(s: System) {
    forall c :: Live(s, c) ==> s.managers[c].value == s.snapshot
  }

  /** Nothing is swapped in that is not accepted, and no reload is under way. */
  ghost predicate Settled(s: System) {
    s.tainted == {} && !InWindow(s) && !s.holder.Entered?
  }

  lemma StaysSettled(s: System, a: Action)
    requires ConfigInv(s) && Settled(s) && !a.StartReload? && |s.registries| == KINDS && |s.enabled| == KINDS
    ensures Settled(Do(s, a)) && Do(s, a).snapshot == s.snapshot
  {
  }

  lemma SettledOnSnapshot(s: System)
    requires Inv(s) && Settled(s)
    ensures AllOnSnapshot(s)
  {
  }

  /** From an accepted reload until the next one starts, whatever re-applies,
      resets and tool calls happen in between, every live manager holds exactly
      the accepted configuration. */
  lemma {:induction false} AcceptedUntilNextReload(s: System, actions: seq<Action>)
    requires Inv(s) && Settled(s) && StartReload !in actions
    ensures AllOnSnapshot(Run(s, actions)) && Run(s, actions).snapshot == s.snapshot
    decreases |actions|
  {
    if actions == [] {
      SettledOnSnapshot(s);
    } else {
      DoKeepsInv(s, actions[0]);
      StaysSettled(s, actions[0]);
      AcceptedUntilNextReload(Do(s, actions[0]), actions[1..]);
    }
  }

  /** Storing an accepted reload establishes what AcceptedUntilNextReload needs. */
  lemma StoreAccepts(s: System, actions: seq<Action>)
    requires Initial(s)
    ensures var t := Run(s, actions);
      t.holder.Published? ==>
        && Inv(Do(t, Store)) && Do(t, Store).snapshot == t.holder.cfg
        && Settled(Do(t, Store))
  {
    InitialInv(s);
    RunKeepsInv(s, actions);
    RunKeepsInv(Run(s, actions), [Store]);
    var t := Run(s, actions);
    assert Run(t, [Store]) == Run(Do(t, Store), [Store][1..]) == Do(t, Store);
  }

  lemma SnapshotStep(s: System, a: Action)
    requires ConfigInv(s) && |s.registries| == KINDS && |s.enabled| == KINDS
    ensures s.snapshot <= Do(s, a).snapshot
  {
  }

  /** The published snapshot never goes back to an older configuration. */
  lemma {:induction false} SnapshotNeverGoesBack(s: System, actions: seq<Action>)
    requires Inv(s)
    ensures s.snapshot <= Run(s, actions).snapshot
    decreases |actions|
  {
    if actions != [] {
      DoKeepsInv(s, actions[0]);
      SnapshotStep(s, actions[0]);
      SnapshotNeverGoesBack(Do(s, actions[0]), actions[1..]);
    }
  }

  /** Over any run, whenever no reload or re-apply is going on, each registry holds
      exactly the names of its enabled list, each with the last item converted
      under that name. */
  lemma SurfaceIsEnabledList(s: System, actions: seq<Action>)
    requires Initial(s)
    ensures var t := Run(s, actions);
      t.holder.Free? ==> forall k :: 0 <= k < KINDS ==>
        && Registers(t.registries[k], t.enabled[k])
        && t.enabled[k] == Names(t.surface[k])
        && Holds(t.registries[k], t.surface[k])
  {
    InitialInv(s);
    RunKeepsInv(s, actions);
    var t := Run(s, actions);
    if t.holder.Free? {
      forall k | 0 <= k < KINDS ensures Registers(t.registries[k], t.enabled[k]) {
        HoldsRegisters(t.registries[k], t.surface[k]);
      }
    }
  }

  // ------------------------------------------------------------ a rejected reload

  /** s and t differ at most in managers that s did not have, and in the number count. */
  ghost predicate Untouched(s: System, t: System) {
    && t.registries == s.registries && t.enabled == s.enabled && t.surface == s.surface
    && t.snapshot == s.snapshot && t.next >= s.next
    && forall c :: Live(s, c) ==> c in t.managers && t.managers[c] == s.managers[c]
  }

  lemma UntouchedTransitive(s: System, t: System, u: System)
    requires Untouched(s, t) && Untouched(t, u)
    ensures Untouched(s, u)
  {
    forall c | Live(s, c) ensures c in u.managers && u.managers[c] == s.managers[c] {
      assert Live(t, c);
    }
  }

  ghost predicate AllCreates(actions: seq<Action>) {
    forall i :: 0 <= i < |actions| ==> actions[i].Create?
  }

  lemma CreateTouchesNothing(s: System, context: string, ok: bool)
    requires |s.registries| == KINDS && |s.enabled| == KINDS
    ensures var t := Do(s, Create(context, ok));
      Untouched(s, t) && t.holder == s.holder && t.providerCfg == s.providerCfg && t.next == s.next
  {
  }

  lemma {:induction false} CreatesTouchNothing(s: System, actions: seq<Action>)
    requires |s.registries| == KINDS && |s.enabled| == KINDS && AllCreates(actions)
    ensures var t := Run(s, actions);
      Untouched(s, t) && t.holder == s.holder && t.providerCfg == s.providerCfg && t.next == s.next
    decreases |actions|
  {
    if actions != [] {
      var t := Do(s, actions[0]);
      CreateTouchesNothing(s, actions[0].context, actions[0].ok);
      CreatesTouchNothing(t, actions[1..]);
      UntouchedTransitive(s, t, Run(t, actions[1..]));
    }
  }

  lemma {:induction false} RunAppend(s: System, xs: seq<Action>, ys: seq<Action>)
    requires |s.registries| == KINDS && |s.enabled| == KINDS
    ensures Run(s, xs + ys) == Run(Run(s, xs), ys)
    decreases |xs|
  {
    if xs == [] {
      assert xs + ys == ys;
    } else {
      RunAppend(Do(s, xs[0]), xs[1..], ys);
      assert (xs + ys)[1..] == xs[1..] + ys;
    }
  }

  /** A rejected reload, with any tool calls between its steps, changes no
      registry, no enabled list, not the snapshot and no manager that existed when
      it started, and it restores the provider's configuration. */
  lemma RejectedReloadIsInvisible(s: System, c1: seq<Action>, c2: seq<Action>, c3: seq<Action>, c4: seq<Action>)
    requires Inv(s) && s.holder == Free
    requires AllCreates(c1) && AllCreates(c2) && AllCreates(c3) && AllCreates(c4)
    ensures var t := Run(s, ([StartReload] + c1) + (([SwapProviderConfig] + c2)
                            + (([Convert(None)] + c3) + ([RollBack] + c4))));
      Untouched(s, t) && t.holder == Free && t.providerCfg == s.providerCfg
  {
    var s1 := RejectedStep(s, StartReload, c1);
    var s2 := RejectedStep(s1, SwapProviderConfig, c2);
    var s3 := RejectedStep(s2, Convert(None), c3);
    var s4 := RejectedStep(s3, RollBack, c4);
    var a1, a2, a3, a4 := [StartReload] + c1, [SwapProviderConfig] + c2, [Convert(None)] + c3, [RollBack] + c4;
    RunAppend(s, a1, a2 + (a3 + a4));
    RunAppend(s1, a2, a3 + a4);
    RunAppend(s2, a3, a4);
  }

  /** The steps of a rejected reload. */
  predicate Rejecting(a: Action) {
    a.StartReload? || a.SwapProviderConfig? || a == Convert(None) || a.RollBack?
  }

  lemma RejectingTouchesNothing(s: System, a: Action)
    requires Inv(s) && Rejecting(a)
    ensures Untouched(s, Do(s, a))
  {
  }

  /** A step of a rejected reload and the tool calls behind it. */
  lemma RejectedStep(s: System, a: Action, creates: seq<Action>) returns (t: System)
    requires Inv(s) && AllCreates(creates) && Rejecting(a)
    ensures t == Run(s, [a] + creates) && Inv(t) && Untouched(s, t)
    ensures t.holder == Do(s, a).holder && t.providerCfg == Do(s, a).providerCfg
  {
    t := Run(s, [a] + creates);
    RunOne(s, a, creates);
    DoKeepsInv(s, a);
    RunKeepsInv(Do(s, a), creates);
    RejectingTouchesNothing(s, a);
    CreatesTouchNothing(Do(s, a), creates);
    UntouchedTransitive(s, Do(s, a), t);
  }

  // ------------------------------------------------- a commit without interference

  /** What applyToolsetsLocked does once all items are converted. */
  const COMMIT: seq<Action> := [CommitNext, CommitNext, CommitNext, CommitNext, Publish, Store, Finish]

  function AfterCommit(s: System, cfg: nat, surface: Surface): System
    requires |s.registries| == KINDS && |s.enabled| == KINDS
  {
    s.(registries := [Committed(s.registries[0], s.enabled[0], surface[0]), Committed(s.registries[1], s.enabled[1], surface[1]),
                      Committed(s.registries[2], s.enabled[2], surface[2]), Committed(s.registries[3], s.enabled[3], surface[3])],
       managers := PublishedManagers(s.managers, cfg), snapshot := cfg, tainted := {},
       enabled := AllNames(surface),
       surface := surface, holder := Free)
  }

  lemma RunOne(s: System, a: Action, rest: seq<Action>)
    requires |s.registries| == KINDS && |s.enabled| == KINDS
    ensures Run(s, [a] + rest) == Run(Do(s, a), rest)
  {
    assert ([a] + rest)[1..] == rest;
  }

  lemma RunCommit(s: System)
    requires |s.registries| == KINDS && |s.enabled| == KINDS
    requires s.holder.Committing? && s.holder.done == 0
    ensures Run(s, COMMIT) == AfterCommit(s, s.holder.cfg, s.holder.surface)
  {
    var s4 := RunCommits(s);
    assert COMMIT == [CommitNext, CommitNext, CommitNext, CommitNext] + [Publish, Store, Finish];
    RunAppend(s, [CommitNext, CommitNext, CommitNext, CommitNext], [Publish, Store, Finish]);
    RunTail(s4);
  }

  lemma RunCommits(s: System) returns (t: System)
    requires |s.registries| == KINDS && |s.enabled| == KINDS
    requires s.holder.Committing? && s.holder.done == 0
    ensures t == Run(s, [CommitNext, CommitNext, CommitNext, CommitNext])
    ensures t == s.(registries := AfterCommit(s, s.holder.cfg, s.holder.surface).registries,
                    holder := Committing(s.holder.cfg, s.holder.surface, KINDS))
  {
    var s1 := Do(s, CommitNext);
    var s2 := Do(s1, CommitNext);
    var s3 := Do(s2, CommitNext);
    t := Do(s3, CommitNext);
    RunFour(s, CommitNext);
    assert t.registries == AfterCommit(s, s.holder.cfg, s.holder.surface).registries;
  }

  lemma RunFour(s: System, a: Action)
    requires |s.registries| == KINDS && |s.enabled| == KINDS
    ensures Run(s, [a, a, a, a]) == Do(Do(Do(Do(s, a), a), a), a)
  {
    assert [a, a, a, a] == [a] + ([a] + ([a] + ([a] + [])));
    RunOne(s, a, [a, a, a]);
    RunOne(Do(s, a), a, [a, a]);
    RunOne(Do(Do(s, a), a), a, [a]);
    RunOne(Do(Do(Do(s, a), a), a), a, []);
  }

  lemma RunTail(s: System)
    requires |s.registries| == KINDS && |s.enabled| == KINDS
    requires s.holder.Committing? && s.holder.done == KINDS
    ensures Run(s, [Publish, Store, Finish])
      == s.(managers := PublishedManagers(s.managers, s.holder.cfg), snapshot := s.holder.cfg, tainted := {},
            enabled := AllNames(s.holder.surface), surface := s.holder.surface, holder := Free)
  {
    var s1 := Do(s, Publish);
    assert s1 == s.(managers := PublishedManagers(s.managers, s.holder.cfg), holder := s1.holder);
    assert s1.holder == Published(s.holder.cfg, s.holder.surface);
    var s2 := Do(s1, Store);
    assert s2 == s1.(snapshot := s.holder.cfg, tainted := {}, holder := Stored(s.holder.cfg, s.holder.surface));
    RunThree(s, Publish, Store, Finish);
  }

  lemma RunThree(s: System, a: Action, b: Action, c: Action)
    requires |s.registries| == KINDS && |s.enabled| == KINDS
    ensures Run(s, [a, b, c]) == Do(Do(Do(s, a), b), c)
  {
    assert [a, b, c] == [a, b, c] + [];
    RunFirstThree(s, a, b, c, []);
  }

  /** The steps of one reload that passed validation. */
  function ReloadSteps(result: Option<Surface>): seq<Action> {
    [StartReload, SwapProviderConfig, Convert(result)] + if result.None? then [RollBack] else COMMIT
  }

  function ReapplySteps(result: Option<Surface>): seq<Action> {
    [StartReapply, Convert(result)] + if result.None? then [] else COMMIT
  }

  /** What the first steps of a reload lead to. */
  lemma DoReload(s: System, result: Option<Surface>)
    requires |s.registries| == KINDS && |s.enabled| == KINDS && s.holder == Free
    ensures Do(Do(Do(s, StartReload), SwapProviderConfig), Convert(result))
      == s.(next := s.next + 1, providerCfg := s.next,
            holder := if result.None? then Refused else Committing(s.next, result.value, 0))
  {
    var s1 := Do(s, StartReload);
    assert s1 == s.(next := s.next + 1, holder := Entered(s.next));
    var s2 := Do(s1, SwapProviderConfig);
    assert s2 == s1.(providerCfg := s.next, holder := Converting(s.next, true));
  }

  lemma RunReload(s: System, result: Option<Surface>)
    requires |s.registries| == KINDS && |s.enabled| == KINDS && s.holder == Free
    ensures Run(s, ReloadSteps(result))
      == match result
         case None => s.(next := s.next + 1, providerCfg := s.snapshot)
         case Some(surface) => AfterCommit(s.(next := s.next + 1, providerCfg := s.next), s.next, surface)
  {
    RunFirstThree(s, StartReload, SwapProviderConfig, Convert(result), if result.None? then [RollBack] else COMMIT);
    DoReload(s, result);
    var t := Do(Do(Do(s, StartReload), SwapProviderConfig), Convert(result));
    if result.None? {
      RunLast(t, RollBack);
    } else {
      RunCommit(t);
    }
  }

  lemma RunLast(s: System, a: Action)
    requires |s.registries| == KINDS && |s.enabled| == KINDS
    ensures Run(s, [a]) == Do(s, a)
  {
    assert [a] == [a] + [];
    RunOne(s, a, []);
  }

  lemma RunFirstThree(s: System, a: Action, b: Action, c: Action, rest: seq<Action>)
    requires |s.registries| == KINDS && |s.enabled| == KINDS
    ensures Run(s, [a, b, c] + rest) == Run(Do(Do(Do(s, a), b), c), rest)
  {
    assert [a, b, c] + rest == [a] + ([b] + ([c] + rest));
    RunOne(s, a, [b] + ([c] + rest));
    RunOne(Do(s, a), b, [c] + rest);
    RunOne(Do(Do(s, a), b), c, rest);
  }

  lemma RunReapply(s: System, result: Option<Surface>)
    requires |s.registries| == KINDS && |s.enabled| == KINDS && s.holder == Free
    ensures Run(s, ReapplySteps(result))
      == match result
         case None => s
         case Some(surface) => AfterCommit(s, s.snapshot, surface)
  {
    var last := if result.None? then [] else COMMIT;
    var s1 := Do(s, StartReapply);
    assert ReapplySteps(result) == [StartReapply] + ([Convert(result)] + last);
    RunOne(s, StartReapply, [Convert(result)] + last);
    RunOne(s1, Convert(result), last);
    if result.Some? {
      RunCommit(Do(s1, Convert(result)));
    }
  }
}
