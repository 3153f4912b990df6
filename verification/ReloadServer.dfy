/** The server and its provider as objects. Each method is proved to be the run
    of ReloadProtocol's critical sections that its thread goes through, so what is
    proved there of all interleavings is proved of this code. */
module ReloadServer {
  import opened ToolSurface
  import opened ReloadProtocol
  import opened Wrappers

  class Provider {
    var cfg: nat
    var defaultContext: string
    var managers: map<string, Option<nat>>

    constructor (cfg: nat)
      ensures this.cfg == cfg && managers == map[]
    {
      this.cfg, defaultContext, managers := cfg, "", map[];
    }

    /** s is a system whose provider this is. */
    ghost predicate In(s: System)
      reads this
    {
      s.providerCfg == cfg && s.managers == managers && |s.registries| == KINDS && |s.enabled| == KINDS
    }

    /** A missing configuration is refused. */
    method ReloadConfig(cfg: Option<nat>) returns (err: bool)
      modifies this`cfg
      ensures err == cfg.None?
      ensures this.cfg == if err then old(this.cfg) else cfg.value
    {
      if cfg.None? {
        return true;
      }
      this.cfg := cfg.value;
      return false;
    }

    /** The contexts of the kubeconfig are read anew. The default one, which is the
        current context or else the only one there is, gets a manager on the provider's
        configuration, and no other does. */
    method ResetLocked(contexts: set<string>, current: string, ok: bool, closed: bool, ghost s: System) returns (done: bool)
      requires In(s) && s.holder == Resetting
      modifies this`managers, this`defaultContext
      ensures done == (ok && !closed) && In(Do(s, Reset(ok, defaultContext, contexts, closed)))
      ensures !ok ==> managers == old(managers) && defaultContext == old(defaultContext)
      ensures ok ==> if current == "" && |contexts| == 1 then contexts == {defaultContext} else defaultContext == current
      ensures ok ==> managers.Keys == contexts + {defaultContext}
      ensures ok ==> forall c :: c in managers ==> managers[c] == if c == defaultContext then Some(cfg) else None
    {
      if !ok {
        return false;
      }
      defaultContext := DefaultContext(contexts, current);
      managers := FreshManagers(contexts, defaultContext, cfg);
      return !closed;
    }

    /** The manager of a context, built on the provider's configuration if there is none. */
    method GetDerivedKubernetes(context: string, ok: bool, ghost s: System) returns (used: Option<nat>)
      requires In(s)
      modifies this`managers
      ensures In(Do(s, Create(context, ok)))
      ensures var was := if context in old(managers) then old(managers)[context] else None;
        if was.Some? then managers == old(managers) && used == was
        else if ok then managers == old(managers)[context := Some(cfg)] && used == Some(cfg)
        else managers == old(managers) && used == None
    {
      if context in managers && managers[context].Some? {
        return managers[context];
      }
      if !ok {
        return None;
      }
      managers := managers[context := Some(cfg)];
      return managers[context];
    }

    method PublishKubernetesConfig(cfg: nat)
      modifies this`managers
      ensures managers == PublishedManagers(old(managers), cfg)
      ensures OnConfig(old(managers), managers, cfg)
    {
      var todo := managers.Keys;
      while todo != {}
        invariant todo <= managers.Keys == old(managers).Keys
        invariant forall c :: c in managers ==>
          managers[c] == if c !in todo && old(managers)[c].Some? then Some(cfg) else old(managers)[c]
        decreases todo
      {
        var c :| c in todo;
        if managers[c].Some? {
          managers := managers[c := Some(cfg)];
        }
        todo := todo - {c};
      }
    }
  }

  /** The current context of the kubeconfig, or the only one there is. */
  method DefaultContext(contexts: set<string>, current: string) returns (context: string)
    ensures if current == "" && |contexts| == 1 then contexts == {context} else context == current
  {
    context := current;
    if current == "" && |contexts| == 1 {
      context :| context in contexts;
      OnlyOne(contexts, context);
    }
  }

  method FreshManagers(contexts: set<string>, context: string, cfg: nat) returns (managers: map<string, Option<nat>>)
    ensures managers == ResetManagers(contexts, context, cfg)
    ensures managers.Keys == contexts + {context}
    ensures forall c :: c in managers ==> managers[c] == if c == context then Some(cfg) else None
  {
    managers := map[context := Some(cfg)];
    var todo := contexts;
    while todo != {}
      invariant todo <= contexts && managers.Keys == contexts - todo + {context}
      invariant forall c :: c in managers ==> managers[c] == if c == context then Some(cfg) else None
      decreases todo
    {
      var name :| name in todo;
      if name != context {
        managers := managers[name := None];
      }
      todo := todo - {name};
    }
    assert contexts - {} + {context} == contexts + {context};
  }

  /** Every manager there was is now on the configuration, and no other was made. */
  ghost predicate OnConfig(before: map<string, Option<nat>>, after: map<string, Option<nat>>, cfg: nat) {
    && after.Keys == before.Keys
    && forall c :: c in before ==> after[c] == if before[c].Some? then Some(cfg) else None
  }

  lemma OnlyOne(s: set<string>, x: string)
    requires x in s && |s| == 1
    ensures s == {x}
  {
    assert |s - {x}| == 0;
  }

  /** The applicable items of each kind, in commit order. */
  type Collection = c: seq<seq<Raw>> | |c| == KINDS witness [[], [], [], []]

  /** Collecting succeeded and every item can be converted. */
  ghost predicate AllConvert(collected: Option<Collection>, convert: Raw -> Option<int>) {
    collected.Some?
    && forall k, i :: 0 <= k < KINDS && 0 <= i < |collected.value[k]| ==> convert(collected.value[k][i]).Some?
  }

  /** The surface of the collected items, None when collecting or any conversion fails. */
  function ConvertedSurface(collected: Option<Collection>, convert: Raw -> Option<int>): Option<Surface> {
    if collected.None? then None
    else if exists k :: 0 <= k < KINDS && ConvertedItems(collected.value[k], convert).None? then None
    else
      var surface: Surface := seq(KINDS, k requires 0 <= k < KINDS => ConvertedItems(collected.value[k], convert).value);
      Some(surface)
  }

  /** After a commit a registry has names of the new list only. */
  lemma CommitTurnsNames(registry: Registry, previous: seq<string>, items: seq<Item>)
    requires forall name :: name in registry ==> name in previous
    ensures forall name :: name in Committed(registry, previous, items) ==> name in Names(items)
  {
    CommitReplaces(registry, previous, items);
    HoldsRegisters(Committed(registry, previous, items), items);
  }

  lemma ConvertedIffAllConvert(collected: Option<Collection>, convert: Raw -> Option<int>)
    ensures ConvertedSurface(collected, convert).Some? <==> AllConvert(collected, convert)
  {
  }

  class Server {
    var configuration: nat
    var enabled: seq<seq<string>>
    const sdk: seq<Sdk>
    const provider: Provider
    ghost var next: nat
    ghost var surface: Surface
    ghost var tainted: set<string>

    /** No registry holds a name that its enabled list does not have. */
    ghost predicate Valid()
      reads this, sdk
    {
      && |sdk| == KINDS && |enabled| == KINDS
      && (forall i, j :: 0 <= i < j < KINDS ==> sdk[i] != sdk[j])
      && forall k, name :: 0 <= k < KINDS && name in sdk[k].items ==> name in enabled[k]
    }

    /** Each registry and each enabled list is what the items of its kind ask for. */
    ghost predicate Installed(collected: Collection, convert: Raw -> Option<int>)
      reads this, sdk
      requires Valid()
    {
      forall k :: 0 <= k < KINDS ==> Registered(collected[k], convert, sdk[k].items, enabled[k])
    }

    /** The system while nobody holds the reload lock. */
    ghost function State(): System
      reads this, provider, sdk
      requires Valid()
    {
      System(provider.cfg, provider.managers, configuration,
             [sdk[0].items, sdk[1].items, sdk[2].items, sdk[3].items], enabled, next, Free, surface, tainted)
    }

    constructor (provider: Provider)
      requires provider.cfg == 0 && forall c :: c in provider.managers && provider.managers[c].Some? ==> provider.managers[c].value == 0
      ensures Valid() && Initial(State()) && this.provider == provider && fresh(sdk)
    {
      var a := new Sdk();
      var b := new Sdk();
      var c := new Sdk();
      var d := new Sdk();
      configuration, enabled, sdk := 0, [[], [], [], []], [a, b, c, d];
      this.provider := provider;
      next, surface, tainted := 1, [[], [], [], []], {};
    }

    /** Converts everything, then commits everything. The caller holds the reload lock. */
    method ApplyToolsetsLocked(cfg: nat, collected: Option<Collection>, convert: Raw -> Option<int>) returns (ok: bool)
      requires Valid()
      modifies this, provider, sdk
      ensures Valid() && ok == ConvertedSurface(collected, convert).Some?
      ensures !ok ==> State() == old(State())
      ensures ok ==> State() == AfterCommit(old(State()), cfg, ConvertedSurface(collected, convert).value)
      ensures ok <==> AllConvert(collected, convert)
      ensures ok ==> Installed(collected.value, convert)
      ensures ok ==> configuration == cfg && OnConfig(old(provider.managers), provider.managers, cfg)
      ensures next == old(next) && provider.cfg == old(provider.cfg)
    {
      ConvertedIffAllConvert(collected, convert);
      if collected.None? {
        return false;
      }
      var tools := ConvertItems(collected.value[2], convert);
      if tools.None? {
        return false;
      }
      var prompts := ConvertItems(collected.value[3], convert);
      if prompts.None? {
        return false;
      }
      var resources := ConvertItems(collected.value[0], convert);
      if resources.None? {
        return false;
      }
      var templates := ConvertItems(collected.value[1], convert);
      if templates.None? {
        return false;
      }
      var converted: Surface := [resources.value, templates.value, tools.value, prompts.value];
      assert converted == ConvertedSurface(collected, convert).value;
      forall k | 0 <= k < KINDS
        ensures Registered(collected.value[k], convert, Committed(sdk[k].items, enabled[k], converted[k]), Names(converted[k]))
      {
        ConvertedRegistered(collected.value[k], convert, sdk[k].items, enabled[k]);
      }
      Commit(cfg, converted);
      return true;
    }

    /** The items of each kind, each to its own registry. */
    method CommitSurface(converted: Surface) returns (names: seq<seq<string>>)
      requires Valid()
      modifies sdk
      ensures names == AllNames(converted)
      ensures forall k :: 0 <= k < KINDS ==> sdk[k].items == Committed(old(sdk[k].items), enabled[k], converted[k])
    {
      var resources := CommitItems(sdk[0], enabled[0], converted[0]);
      var templates := CommitItems(sdk[1], enabled[1], converted[1]);
      var tools := CommitItems(sdk[2], enabled[2], converted[2]);
      var prompts := CommitItems(sdk[3], enabled[3], converted[3]);
      return [resources, templates, tools, prompts];
    }

    method Commit(cfg: nat, converted: Surface)
      requires Valid()
      modifies this, provider, sdk
      ensures Valid() && State() == AfterCommit(old(State()), cfg, converted)
      ensures forall k :: 0 <= k < KINDS ==>
        sdk[k].items == Committed(old(sdk[k].items), old(enabled)[k], converted[k]) && enabled[k] == Names(converted[k])
      ensures configuration == cfg && OnConfig(old(provider.managers), provider.managers, cfg)
    {
      var names := CommitSurface(converted);
      forall k | 0 <= k < KINDS ensures forall name :: name in sdk[k].items ==> name in names[k] {
        CommitTurnsNames(old(sdk[k].items), old(enabled)[k], converted[k]);
      }
      provider.PublishKubernetesConfig(cfg);
      configuration := cfg;
      tainted := {};
      enabled := names;
      surface := converted;
    }

    /** The watcher callback: the published configuration is applied again. */
    method ReapplyToolsets(collected: Option<Collection>, convert: Raw -> Option<int>) returns (ok: bool)
      requires Valid()
      modifies this, provider, sdk
      ensures Valid() && ok == ConvertedSurface(collected, convert).Some?
      ensures State() == Run(old(State()), ReapplySteps(ConvertedSurface(collected, convert)))
      ensures ok <==> AllConvert(collected, convert)
      ensures ok ==> Installed(collected.value, convert)
      ensures configuration == old(configuration)
      ensures ok ==> OnConfig(old(provider.managers), provider.managers, configuration)
    {
      RunReapply(State(), ConvertedSurface(collected, convert));
      ok := ApplyToolsetsLocked(configuration, collected, convert);
    }

    /** `number` is the number of the new configuration, `valid` the outcome of its validation. */
    method ReloadConfiguration(valid: bool, number: nat, collected: Option<Collection>, convert: Raw -> Option<int>)
      returns (ok: bool)
      requires Valid() && number == next
      modifies this, provider, sdk
      ensures Valid() && ok == (valid && ConvertedSurface(collected, convert).Some?)
      ensures !valid ==> State() == old(State())
      ensures valid ==> State() == Run(old(State()), ReloadSteps(ConvertedSurface(collected, convert)))
      ensures ok <==> valid && AllConvert(collected, convert)
      ensures ok ==> Installed(collected.value, convert)
      ensures configuration == if ok then number else old(configuration)
      ensures valid ==> provider.cfg == configuration
      ensures if ok then OnConfig(old(provider.managers), provider.managers, number)
              else provider.managers == old(provider.managers)
    {
      ConvertedIffAllConvert(collected, convert);
      if !valid {
        return false;
      }
      RunReload(State(), ConvertedSurface(collected, convert));
      next := next + 1;
      var err := provider.ReloadConfig(Some(number));
      if err {
        return false;
      }
      ok := ApplyToolsetsLocked(number, collected, convert);
      if !ok {
        var _ := provider.ReloadConfig(Some(configuration));
      }
    }
  }
}
