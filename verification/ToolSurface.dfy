/** The registries of the MCP SDK and the two phases that fill them
    (convertItems and commitItems of pkg/mcp/mcp.go). */
module ToolSurface {
  import opened Wrappers

  /** An item before and after its conversion to the SDK's form. */
  datatype Raw = Raw(name: string, payload: int)
  datatype Item = Item(name: string, handler: int)

  type Registry = map<string, int>

  function Names(items: seq<Item>): (r: seq<string>)
    ensures |r| == |items| && forall i :: 0 <= i < |items| ==> r[i] == items[i].name
  {
    seq(|items|, i requires 0 <= i < |items| => items[i].name)
  }

  /** Items added one after the other; the SDK replaces an item of the same name. */
  function AddAll(registry: Registry, items: seq<Item>): Registry
    decreases |items|
  {
    if items == [] then registry
    else AddAll(registry[items[0].name := items[0].handler], items[1..])
  }

  /** What a registry should hold for a list of items: exactly their names, each
      with the last item of that name. */
  ghost predicate Holds(registry: Registry, items: seq<Item>) {
    && (forall name :: name in registry <==> exists i :: 0 <= i < |items| && items[i].name == name)
    && (forall i :: 0 <= i < |items| && (forall j :: i < j < |items| ==> items[j].name != items[i].name)
          ==> items[i].name in registry && registry[items[i].name] == items[i].handler)
  }

  lemma {:induction false} AddAllSnoc(registry: Registry, items: seq<Item>, item: Item)
    ensures AddAll(registry, items + [item]) == AddAll(registry, items)[item.name := item.handler]
    decreases |items|
  {
    if items == [] {
      assert (items + [item])[1..] == [];
    } else {
      AddAllSnoc(registry[items[0].name := items[0].handler], items[1..], item);
      assert (items + [item])[1..] == items[1..] + [item];
    }
  }

  lemma {:induction false} AddAllHolds(registry: Registry, items: seq<Item>)
    requires forall name :: name in registry ==> exists i :: 0 <= i < |items| && items[i].name == name
    ensures Holds(AddAll(registry, items), items)
    decreases |items|
  {
    AddAllKeys(registry, items);
    forall i | 0 <= i < |items| && (forall j :: i < j < |items| ==> items[j].name != items[i].name)
      ensures items[i].name in AddAll(registry, items)
           && AddAll(registry, items)[items[i].name] == items[i].handler
    {
      AddAllLast(registry, items, i);
    }
  }

  lemma {:induction false} AddAllKeys(registry: Registry, items: seq<Item>)
    ensures forall name :: (name in AddAll(registry, items)
                            <==> name in registry || exists i :: 0 <= i < |items| && items[i].name == name)
    decreases |items|
  {
    if items != [] {
      var next := registry[items[0].name := items[0].handler];
      AddAllKeys(next, items[1..]);
      forall name
        ensures name in AddAll(next, items[1..])
          <==> name in registry || exists i :: 0 <= i < |items| && items[i].name == name
      {
        if i :| 0 <= i < |items| && items[i].name == name {
          assert i > 0 ==> items[1..][i - 1].name == name;
        }
      }
    }
  }

  lemma {:induction false} AddAllLast(registry: Registry, items: seq<Item>, i: nat)
    requires i < |items| && forall j :: i < j < |items| ==> items[j].name != items[i].name
    ensures items[i].name in AddAll(registry, items) && AddAll(registry, items)[items[i].name] == items[i].handler
    decreases |items|
  {
    var next := registry[items[0].name := items[0].handler];
    if i > 0 {
      AddAllLast(next, items[1..], i - 1);
    } else {
      AddAllOther(next, items[1..], items[0].name);
    }
  }

  lemma {:induction false} AddAllOther(registry: Registry, items: seq<Item>, name: string)
    requires name in registry && forall i :: 0 <= i < |items| ==> items[i].name != name
    ensures name in AddAll(registry, items) && AddAll(registry, items)[name] == registry[name]
    decreases |items|
  {
    if items != [] {
      AddAllOther(registry[items[0].name := items[0].handler], items[1..], name);
    }
  }

  /** Removing the names that are no longer wanted and adding the items. */
  function Committed(registry: Registry, previous: seq<string>, items: seq<Item>): Registry {
    AddAll(registry - (set name | name in previous && name !in Names(items)), items)
  }

  /** A commit leaves nothing of the previous items behind, provided the registry
      held no name outside the previous list. */
  lemma CommitReplaces(registry: Registry, previous: seq<string>, items: seq<Item>)
    requires forall name :: name in registry ==> name in previous
    ensures Holds(Committed(registry, previous, items), items)
  {
    var left := registry - (set name | name in previous && name !in Names(items));
    forall name | name in left
      ensures exists i :: 0 <= i < |items| && items[i].name == name
    {
      var i :| 0 <= i < |items| && Names(items)[i] == name;
      assert items[i].name == name;
    }
    AddAllHolds(left, items);
  }

  /** A registry with exactly the names of a list. */
  ghost predicate Registers(registry: Registry, enabled: seq<string>) {
    forall name :: name in registry <==> name in enabled
  }

  lemma HoldsRegisters(registry: Registry, items: seq<Item>)
    requires Holds(registry, items)
    ensures Registers(registry, Names(items))
  {
    forall name
      ensures name in registry <==> name in Names(items)
    {
      if name in Names(items) {
        var i :| 0 <= i < |items| && Names(items)[i] == name;
        assert items[i].name == name;
      }
      if name in registry {
        var i :| 0 <= i < |items| && items[i].name == name;
        assert Names(items)[i] == name;
      }
    }
  }

  // ------------------------------------------------------------------ conversion

  /** All items converted, or none when one of them fails. */
  function ConvertedItems(items: seq<Raw>, convert: Raw -> Option<int>): (r: Option<seq<Item>>)
    ensures r.None? <==> exists i :: 0 <= i < |items| && convert(items[i]).None?
    ensures r.Some? ==> |r.value| == |items|
    ensures r.Some? ==> forall i :: 0 <= i < |items| ==> r.value[i] == Item(items[i].name, convert(items[i]).value)
  {
    if exists i :: 0 <= i < |items| && convert(items[i]).None? then None
    else Some(seq(|items|, i requires 0 <= i < |items| => Item(items[i].name, convert(items[i]).value)))
  }

  method ConvertItems(items: seq<Raw>, convert: Raw -> Option<int>) returns (r: Option<seq<Item>>)
    ensures r == ConvertedItems(items, convert)
  {
    var out: seq<Item> := [];
    for i := 0 to |items|
      invariant |out| == i
      invariant forall j :: 0 <= j < i ==>
        convert(items[j]).Some? && out[j] == Item(items[j].name, convert(items[j]).value)
    {
      match convert(items[i])
      case None => return None;
      case Some(handler) => out := out + [Item(items[i].name, handler)];
    }
    assert out == ConvertedItems(items, convert).value;
    return Some(out);
  }

  /** The registry and the enabled list that a list of items asks for: the names of
      the items, in order, and for each the conversion of the last item of that name. */
  ghost predicate Registered(items: seq<Raw>, convert: Raw -> Option<int>, registry: Registry, enabled: seq<string>) {
    && |enabled| == |items| && (forall i :: 0 <= i < |items| ==> enabled[i] == items[i].name)
    && (forall name :: name in registry <==> exists i :: 0 <= i < |items| && items[i].name == name)
    && (forall i :: 0 <= i < |items| && (forall j :: i < j < |items| ==> items[j].name != items[i].name) ==>
          items[i].name in registry && convert(items[i]) == Some(registry[items[i].name]))
  }

  /** Converting and committing a list of items gives what it asks for. */
  lemma ConvertedRegistered(items: seq<Raw>, convert: Raw -> Option<int>, registry: Registry, previous: seq<string>)
    requires ConvertedItems(items, convert).Some? && forall name :: name in registry ==> name in previous
    ensures var converted := ConvertedItems(items, convert).value;
      Registered(items, convert, Committed(registry, previous, converted), Names(converted))
  {
    var converted := ConvertedItems(items, convert).value;
    var after := Committed(registry, previous, converted);
    CommitReplaces(registry, previous, converted);
    forall name ensures name in after <==> exists i :: 0 <= i < |items| && items[i].name == name {
      if i :| 0 <= i < |items| && items[i].name == name {
        assert converted[i].name == name;
      }
    }
    forall i | 0 <= i < |items| && (forall j :: i < j < |items| ==> items[j].name != items[i].name)
      ensures items[i].name in after && convert(items[i]) == Some(after[items[i].name])
    {
      assert converted[i].name == items[i].name;
    }
  }

  // ---------------------------------------------------------------------- commit

  class Sdk {
    var items: Registry

    constructor ()
      ensures items == map[]
    {
      items := map[];
    }

    method Remove(names: seq<string>)
      modifies this
      ensures items == old(items) - (set name | name in names)
    {
      items := items - (set name | name in names);
    }

    method Add(item: Item)
      modifies this
      ensures items == old(items)[item.name := item.handler]
    {
      items := items[item.name := item.handler];
    }
  }

  method CommitItems(sdk: Sdk, previous: seq<string>, items: seq<Item>) returns (enabled: seq<string>)
    modifies sdk
    ensures enabled == Names(items)
    ensures sdk.items == Committed(old(sdk.items), previous, items)
  {
    enabled := [];
    for i := 0 to |items|
      invariant enabled == Names(items)[..i]
    {
      enabled := enabled + [items[i].name];
    }
    var toRemove: seq<string> := [];
    for i := 0 to |previous|
      invariant forall name :: name in toRemove <==> name in previous[..i] && name !in enabled
    {
      if previous[i] !in enabled {
        toRemove := toRemove + [previous[i]];
      }
    }
    assert previous[..|previous|] == previous;
    sdk.Remove(toRemove);
    ghost var left := sdk.items;
    assert left == old(sdk.items) - (set name | name in previous && name !in Names(items));
    for i := 0 to |items|
      invariant sdk.items == AddAll(left, items[..i])
    {
      sdk.Add(items[i]);
      AddAllSnoc(left, items[..i], items[i]);
      assert items[..i + 1] == items[..i] + [items[i]];
    }
    assert items[..|items|] == items;
  }
}
