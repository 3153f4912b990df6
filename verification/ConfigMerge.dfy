/** Layered configuration: mergeTOMLFiles, deepMerge, recordSources and mapLookup
    of pkg/config/config.go. */
module ConfigMerge {
  import opened Strings
  import opened Wrappers

  /** A decoded document. A leaf is any value that is not a table. */
  datatype Val = Leaf(value: string) | Table(entries: map<string, Val>)

  type Doc = v: Val | v.Table? witness Table(map[])

  // ---------------------------------------------------------------- what is merged

  /** The merge, without an order of keys. */
  function Merge(dst: Val, src: Val): (r: Val)
    requires dst.Table? && src.Table?
    ensures r.Table?
    decreases src
  {
    Table(map k | k in dst.entries.Keys + src.entries.Keys :: MergeKey(dst, src, k))
  }

  function MergeKey(dst: Val, src: Val, k: string): Val
    requires dst.Table? && src.Table? && (k in dst.entries || k in src.entries)
    decreases src, 0
  {
    if k !in src.entries then dst.entries[k]
    else if Both(dst, src, k) then Merge(dst.entries[k], src.entries[k])
    else src.entries[k]
  }

  /** Key k is a table on both sides. */
  predicate Both(dst: Val, src: Val, k: string) {
    && dst.Table? && src.Table? && k in dst.entries && k in src.entries
    && dst.entries[k].Table? && src.entries[k].Table?
  }

  function JoinPath(prefix: string, key: string): string {
    if prefix != "" && key != "" then prefix + "." + key
    else if prefix != "" then prefix
    else key
  }

  /** The dotted paths recordSources writes. */
  function RecordedUnder(path: string, v: Val): set<string>
    decreases v, 1
  {
    (if path != "" then {path} else {}) + if v.Leaf? then {} else RecordedBelow(path, v, v.entries.Keys)
  }

  function RecordedBelow(path: string, v: Val, keys: set<string>): set<string>
    requires v.Table? && keys <= v.entries.Keys
    decreases v, 0
  {
    set k, p | k in keys && p in RecordedUnder(JoinPath(path, k), v.entries[k]) :: p
  }

  /** The dotted paths deepMerge writes for some keys of src. */
  function RecordedKeys(dst: Val, src: Val, prefix: string, keys: set<string>): set<string>
    requires dst.Table? && src.Table? && keys <= src.entries.Keys
    decreases src, 1
  {
    set k, p | k in keys && p in RecordedAt(dst, src, prefix, k) :: p
  }

  function RecordedAt(dst: Val, src: Val, prefix: string, k: string): set<string>
    requires dst.Table? && src.Table? && k in src.entries
    decreases src, 0
  {
    if Both(dst, src, k) then Recorded(dst.entries[k], src.entries[k], JoinPath(prefix, k))
    else RecordedUnder(JoinPath(prefix, k), src.entries[k])
  }

  function Recorded(dst: Val, src: Val, prefix: string): set<string>
    requires dst.Table? && src.Table?
    decreases src, 2
  {
    RecordedKeys(dst, src, prefix, src.entries.Keys)
  }

  function Marked(sources: map<string, string>, paths: set<string>, file: string): map<string, string> {
    sources + map p | p in paths :: file
  }

  lemma MarkedTwice(sources: map<string, string>, a: set<string>, b: set<string>, file: string)
    ensures Marked(Marked(sources, a, file), b, file) == Marked(sources, a + b, file)
  {
  }

  lemma MarkedOne(sources: map<string, string>, path: string, file: string)
    ensures sources[path := file] == Marked(sources, {path}, file)
    ensures Marked(sources, {}, file) == sources
  {
  }

  /** One more key has been visited. */
  lemma BelowGrows(path: string, v: Val, todo: set<string>, k: string)
    requires v.Table? && k in todo && todo <= v.entries.Keys
    ensures var keys := v.entries.Keys;
      RecordedBelow(path, v, keys - (todo - {k}))
      == RecordedBelow(path, v, keys - todo) + RecordedUnder(JoinPath(path, k), v.entries[k])
  {
    assert v.entries.Keys - (todo - {k}) == (v.entries.Keys - todo) + {k};
  }

  lemma KeysGrow(dst: Val, src: Val, prefix: string, todo: set<string>, k: string)
    requires dst.Table? && src.Table? && k in todo && todo <= src.entries.Keys
    ensures var keys := src.entries.Keys;
      RecordedKeys(dst, src, prefix, keys - (todo - {k}))
      == RecordedKeys(dst, src, prefix, keys - todo) + RecordedAt(dst, src, prefix, k)
  {
    assert src.entries.Keys - (todo - {k}) == (src.entries.Keys - todo) + {k};
  }

  /** merged is dst with the keys of src merged in, except those still to do. */
  ghost predicate PartlyMerged(dst: Val, src: Val, todo: set<string>, merged: Val)
    requires dst.Table? && src.Table? && todo <= src.entries.Keys
  {
    && merged.Table?
    && merged.entries.Keys == dst.entries.Keys + (src.entries.Keys - todo)
    && forall k :: k in merged.entries ==>
         merged.entries[k] == if k in todo then dst.entries[k] else MergeKey(dst, src, k)
  }

  lemma PartlyMergedKey(dst: Val, src: Val, todo: set<string>, merged: Val, k: string)
    requires dst.Table? && src.Table? && k in todo && todo <= src.entries.Keys && PartlyMerged(dst, src, todo, merged)
    ensures k in merged.entries <==> k in dst.entries
    ensures k in dst.entries ==> merged.entries[k] == dst.entries[k]
    ensures PartlyMerged(dst, src, todo - {k}, Table(merged.entries[k := MergeKey(dst, src, k)]))
  {
  }

  lemma KeyMarked(sources: map<string, string>, dst: Val, src: Val, prefix: string, todo: set<string>, k: string,
                  file: string)
    requires dst.Table? && src.Table? && k in todo && todo <= src.entries.Keys
    ensures var keys := src.entries.Keys;
      Marked(Marked(sources, RecordedKeys(dst, src, prefix, keys - todo), file), RecordedAt(dst, src, prefix, k), file)
      == Marked(sources, RecordedKeys(dst, src, prefix, keys - (todo - {k})), file)
  {
    MarkedTwice(sources, RecordedKeys(dst, src, prefix, src.entries.Keys - todo), RecordedAt(dst, src, prefix, k), file);
    KeysGrow(dst, src, prefix, todo, k);
  }

  lemma NothingMarked(sources: map<string, string>, dst: Val, src: Val, prefix: string, file: string)
    requires dst.Table? && src.Table?
    ensures sources == Marked(sources, RecordedKeys(dst, src, prefix, src.entries.Keys - src.entries.Keys), file)
    ensures PartlyMerged(dst, src, src.entries.Keys, dst)
  {
    assert RecordedKeys(dst, src, prefix, src.entries.Keys - src.entries.Keys) == {};
  }

  lemma AllMerged(dst: Val, src: Val, prefix: string, merged: Val)
    requires dst.Table? && src.Table? && PartlyMerged(dst, src, {}, merged)
    ensures merged == Merge(dst, src)
    ensures RecordedKeys(dst, src, prefix, src.entries.Keys - {}) == Recorded(dst, src, prefix)
  {
    assert src.entries.Keys - {} == src.entries.Keys;
    assert merged.entries == Merge(dst, src).entries;
  }

  // --------------------------------------------------------------- in place, by loops

  class Sources {
    var origin: map<string, string>

    constructor ()
      ensures origin == map[]
    {
      origin := map[];
    }

    method Record(path: string, v: Val, file: string)
      modifies this
      ensures origin == Marked(old(origin), RecordedUnder(path, v), file)
      decreases v
    {
      ghost var own := if path != "" then {path} else {};
      MarkedOne(origin, path, file);
      if path != "" {
        origin := origin[path := file];
      }
      if v.Leaf? {
        return;
      }
      var todo := v.entries.Keys;
      assert RecordedBelow(path, v, v.entries.Keys - todo) == {} && own + {} == own;
      while todo != {}
        invariant todo <= v.entries.Keys
        invariant origin == Marked(old(origin), own + RecordedBelow(path, v, v.entries.Keys - todo), file)
        decreases todo
      {
        var k :| k in todo;
        ghost var done := RecordedBelow(path, v, v.entries.Keys - todo);
        ghost var below := RecordedUnder(JoinPath(path, k), v.entries[k]);
        Record(JoinPath(path, k), v.entries[k], file);
        MarkedTwice(old(origin), own + done, below, file);
        BelowGrows(path, v, todo, k);
        assert own + done + below == own + (done + below);
        todo := todo - {k};
      }
      assert v.entries.Keys - {} == v.entries.Keys;
    }
  }

  /** Keys are visited in any order. */
  method DeepMerge(dst: Val, src: Val, file: string, sources: Sources, prefix: string) returns (merged: Val)
    requires dst.Table? && src.Table?
    modifies sources
    ensures merged == Merge(dst, src)
    ensures sources.origin == Marked(old(sources.origin), Recorded(dst, src, prefix), file)
    decreases src
  {
    merged := dst;
    var todo := src.entries.Keys;
    NothingMarked(sources.origin, dst, src, prefix, file);
    while todo != {}
      invariant todo <= src.entries.Keys && PartlyMerged(dst, src, todo, merged)
      invariant sources.origin
        == Marked(old(sources.origin), RecordedKeys(dst, src, prefix, src.entries.Keys - todo), file)
      decreases todo
    {
      var key :| key in todo;
      PartlyMergedKey(dst, src, todo, merged, key);
      KeyMarked(old(sources.origin), dst, src, prefix, todo, key, file);
      var path := JoinPath(prefix, key);
      var value := src.entries[key];
      if key in merged.entries && merged.entries[key].Table? && value.Table? {
        var below := DeepMerge(merged.entries[key], value, file, sources, path);
        merged := Table(merged.entries[key := below]);
      } else {
        merged := Table(merged.entries[key := value]);
        sources.Record(path, value, file);
      }
      todo := todo - {key};
    }
    AllMerged(dst, src, prefix, merged);
  }

  /** A file and what decoding it gave. */
  datatype File = File(name: string, doc: Option<Doc>)

  function MergeAll(files: seq<File>): (r: (Doc, map<string, string>))
    requires AllDecoded(files)
    decreases |files|
  {
    if files == [] then (Table(map[]), map[])
    else
      var last := files[|files| - 1];
      var (merged, sources) := MergeAll(files[..|files| - 1]);
      (Merge(merged, last.doc.value), Marked(sources, Recorded(merged, last.doc.value, ""), last.name))
  }

  predicate AllDecoded(files: seq<File>) {
    forall i :: 0 <= i < |files| ==> files[i].doc.Some?
  }

  method MergeTomlFiles(files: seq<File>) returns (r: Option<(Doc, map<string, string>)>)
    ensures r.Some? <==> AllDecoded(files)
    ensures r.Some? ==> r.value == MergeAll(files)
  {
    var merged: Doc := Table(map[]);
    var sources := new Sources();
    for i := 0 to |files|
      invariant AllDecoded(files[..i]) && (merged, sources.origin) == MergeAll(files[..i])
    {
      if files[i].doc.None? {
        return None;
      }
      var next := DeepMerge(merged, files[i].doc.value, files[i].name, sources, "");
      assert files[..i + 1][..i] == files[..i];
      merged := next;
    }
    assert files[..|files|] == files;
    return Some((merged, sources.origin));
  }
}
