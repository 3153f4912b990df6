/** What a merged configuration says and where each of its leaves comes from. */
module ConfigProvenance {
  import opened Strings
  import opened ConfigMerge
  import opened Wrappers

  /** What a document says about a path: nothing (a key on the way is missing), that
      there is a leaf on the way, or a value. */
  datatype Said = Absent | Blocked | Found(value: Val)

  function Says(v: Val, path: seq<string>): Said
    decreases |path|
  {
    if path == [] then Found(v)
    else match v
         case Leaf(_) => Blocked
         case Table(entries) => if path[0] in entries then Says(entries[path[0]], path[1..]) else Absent
  }

  /** The leaf at a path, if that is what is said. */
  function LeafOf(said: Said): Option<string> {
    match said
    case Found(Leaf(value)) => Some(value)
    case _ => None
  }

  /** mapLookup, which walks a dotted path. */
  method MapLookup(m: Doc, dotted: string) returns (r: Option<Val>)
    ensures r == match Says(m, Split(dotted, '.'))
                 case Found(v) => Some(v)
                 case _ => None
  {
    var parts := Split(dotted, '.');
    var cur: Val := m;
    for i := 0 to |parts|
      invariant Says(cur, parts[i..]) == Says(m, parts)
    {
      if cur.Leaf? || parts[i] !in cur.entries {
        return None;
      }
      cur := cur.entries[parts[i]];
    }
    return Some(cur);
  }

  // ------------------------------------------------------------- the merged leaves

  /** One merge: src decides every path it says anything about. */
  lemma {:induction false} MergeSays(dst: Val, src: Val, path: seq<string>)
    requires dst.Table? && src.Table? && path != []
    ensures LeafOf(Says(Merge(dst, src), path))
      == LeafOf(if Says(src, path).Absent? then Says(dst, path) else Says(src, path))
    decreases |path|
  {
    var k := path[0];
    if k in dst.entries && k in src.entries {
      assert Merge(dst, src).entries[k] == MergeKey(dst, src, k);
      if Both(dst, src, k) && path[1..] != [] {
        MergeSays(dst.entries[k], src.entries[k], path[1..]);
      }
    }
  }

  /** The last file that says anything about the path, -1 when none does. */
  function LastSaying(files: seq<File>, path: seq<string>): (i: int)
    requires AllDecoded(files)
    ensures -1 <= i < |files|
    ensures i >= 0 ==> !Says(files[i].doc.value, path).Absent?
    ensures forall j :: i < j < |files| ==> Says(files[j].doc.value, path).Absent?
    decreases |files|
  {
    if files == [] then -1
    else if !Says(files[|files| - 1].doc.value, path).Absent? then |files| - 1
    else LastSaying(files[..|files| - 1], path)
  }

  /** A leaf of the merged configuration is the leaf of the last file that says
      anything about its path; there is none when that file has a table there, or a
      leaf further up. This is all that can be said of a path: the merge itself does
      not associate (MergeIsNotAssociative). */
  lemma {:induction false} MergedLeaf(files: seq<File>, path: seq<string>)
    requires AllDecoded(files) && path != []
    ensures var i := LastSaying(files, path);
      LeafOf(Says(MergeAll(files).0, path)) == if i < 0 then None else LeafOf(Says(files[i].doc.value, path))
    decreases |files|
  {
    if files != [] {
      var before := files[..|files| - 1];
      MergedLeaf(before, path);
      MergeSays(MergeAll(before).0, files[|files| - 1].doc.value, path);
    }
  }

  /** A scalar that replaces a table makes the grouping matter. */
  lemma MergeIsNotAssociative()
    ensures var a := Table(map["x" := Table(map["y" := Leaf("1")])]);
      var b := Table(map["x" := Leaf("2")]);
      var c := Table(map["x" := Table(map["z" := Leaf("3")])]);
      Merge(Merge(a, b), c) != Merge(a, Merge(b, c))
  {
    var a := Table(map["x" := Table(map["y" := Leaf("1")])]);
    var b := Table(map["x" := Leaf("2")]);
    var c := Table(map["x" := Table(map["z" := Leaf("3")])]);
    MergeSays(Merge(a, b), c, ["x", "y"]);
    MergeSays(a, b, ["x", "y"]);
    MergeSays(a, Merge(b, c), ["x", "y"]);
    MergeSays(b, c, ["x", "y"]);
    assert ["x", "y"][1..] == ["y"] && ["y"][1..] == [];
    assert Says(Merge(b, c), ["x", "y"]) == Says(Merge(b, c).entries["x"], ["y"]);
    assert Merge(b, c).entries["x"] == MergeKey(b, c, "x") == c.entries["x"];
    assert LeafOf(Says(a, ["x", "y"])) == Some("1");
  }

  // ------------------------------------------------------------- what sources says

  /** The dotted name under which a path is recorded. */
  function NameFrom(prefix: string, path: seq<string>): string
    decreases |path|
  {
    if path == [] then prefix else NameFrom(JoinPath(prefix, path[0]), path[1..])
  }

  function Name(path: seq<string>): string {
    NameFrom("", path)
  }

  predicate TableAt(said: Said) {
    said.Found? && said.value.Table?
  }

  /** A merge sets a path of src at which src has something, unless that is a table
      that is merged into a table. */
  ghost predicate MergeSets(dst: Val, src: Val, path: seq<string>) {
    Says(src, path).Found? && !(TableAt(Says(src, path)) && TableAt(Says(dst, path)))
  }

  lemma FirstStep(v: Val, key: string, rest: seq<string>)
    requires v.Table?
    ensures Says(v, [key] + rest) == if key in v.entries then Says(v.entries[key], rest) else Absent
    ensures forall prefix :: NameFrom(prefix, [key] + rest) == NameFrom(JoinPath(prefix, key), rest)
  {
    assert ([key] + rest)[1..] == rest;
  }

  /** recordSources records only what the value has, under its name ... */
  lemma {:induction false} RecordedUnderIsSaid(prefix: string, v: Val, name: string) returns (path: seq<string>)
    requires name in RecordedUnder(prefix, v)
    ensures Says(v, path).Found? && NameFrom(prefix, path) == name != ""
    decreases v
  {
    if prefix != "" && name == prefix {
      path := [];
    } else {
      var k :| k in v.entries && name in RecordedUnder(JoinPath(prefix, k), v.entries[k]);
      var rest := RecordedUnderIsSaid(JoinPath(prefix, k), v.entries[k], name);
      path := [k] + rest;
      FirstStep(v, k, rest);
    }
  }

  /** ... and all of it that has a name. */
  lemma {:induction false} SaidIsRecordedUnder(prefix: string, v: Val, path: seq<string>)
    requires Says(v, path).Found? && NameFrom(prefix, path) != ""
    ensures NameFrom(prefix, path) in RecordedUnder(prefix, v)
    decreases |path|
  {
    if path != [] {
      SaidIsRecordedUnder(JoinPath(prefix, path[0]), v.entries[path[0]], path[1..]);
    }
  }

  /** deepMerge records only what it sets ... */
  lemma {:induction false} RecordedIsSet(prefix: string, dst: Val, src: Val, name: string) returns (path: seq<string>)
    requires dst.Table? && src.Table? && name in Recorded(dst, src, prefix)
    ensures path != [] && MergeSets(dst, src, path) && NameFrom(prefix, path) == name != ""
    decreases src
  {
    var k :| k in src.entries && name in RecordedAt(dst, src, prefix, k);
    var rest;
    if Both(dst, src, k) {
      rest := RecordedIsSet(JoinPath(prefix, k), dst.entries[k], src.entries[k], name);
    } else {
      rest := RecordedUnderIsSaid(JoinPath(prefix, k), src.entries[k], name);
    }
    path := [k] + rest;
    FirstStep(src, k, rest);
    FirstStep(dst, k, rest);
    if !Both(dst, src, k) && TableAt(Says(src, path)) {
      TableBelowTables(src.entries[k], rest);
      if k in dst.entries && TableAt(Says(dst.entries[k], rest)) {
        TableBelowTables(dst.entries[k], rest);
      }
    }
  }

  lemma TableBelowTables(v: Val, path: seq<string>)
    requires TableAt(Says(v, path))
    ensures v.Table?
  {
  }

  /** ... and all of it that has a name. */
  lemma {:induction false} SetIsRecorded(prefix: string, dst: Val, src: Val, path: seq<string>)
    requires dst.Table? && src.Table? && path != [] && MergeSets(dst, src, path) && NameFrom(prefix, path) != ""
    ensures NameFrom(prefix, path) in Recorded(dst, src, prefix)
    decreases |path|
  {
    var k := path[0];
    if Both(dst, src, k) {
      SetIsRecorded(JoinPath(prefix, k), dst.entries[k], src.entries[k], path[1..]);
    } else {
      SaidIsRecordedUnder(JoinPath(prefix, k), src.entries[k], path[1..]);
    }
    assert NameFrom(prefix, path) in RecordedAt(dst, src, prefix, k);
  }

  /** One merge: a table is where src has one, or where it says nothing and dst has one. */
  lemma {:induction false} MergeTables(dst: Val, src: Val, path: seq<string>)
    requires dst.Table? && src.Table? && path != []
    ensures TableAt(Says(Merge(dst, src), path))
      <==> TableAt(if Says(src, path).Absent? then Says(dst, path) else Says(src, path))
    decreases |path|
  {
    var k := path[0];
    if k in dst.entries && k in src.entries {
      assert Merge(dst, src).entries[k] == MergeKey(dst, src, k);
      if Both(dst, src, k) && path[1..] != [] {
        MergeTables(dst.entries[k], src.entries[k], path[1..]);
      }
    }
  }

  /** The documents before the n-th have come to a table at the path. */
  ghost predicate TableBefore(files: seq<File>, n: nat, path: seq<string>)
    requires AllDecoded(files) && n <= |files|
  {
    var i := LastSaying(files[..n], path);
    i >= 0 && TableAt(Says(files[i].doc.value, path))
  }

  lemma {:induction false} MergedTable(files: seq<File>, n: nat, path: seq<string>)
    requires AllDecoded(files) && n <= |files| && path != []
    ensures TableAt(Says(MergeAll(files[..n]).0, path)) <==> TableBefore(files, n, path)
    decreases n
  {
    if n > 0 {
      assert files[..n][..n - 1] == files[..n - 1];
      MergedTable(files, n - 1, path);
      MergeTables(MergeAll(files[..n - 1]).0, files[n - 1].doc.value, path);
    }
  }

  /** File n sets a name: at a path of that name it has something that is not a table
      merged into a table. Only the documents are asked. */
  ghost predicate Sets(files: seq<File>, n: nat, name: string)
    requires AllDecoded(files) && n < |files|
  {
    exists path :: SetsAt(files, n, path) && Name(path) == name
  }

  ghost predicate SetsAt(files: seq<File>, n: nat, path: seq<string>)
    requires AllDecoded(files) && n < |files|
  {
    var said := Says(files[n].doc.value, path);
    path != [] && said.Found? && !(TableAt(said) && TableBefore(files, n, path))
  }

  lemma RecordedIffSets(files: seq<File>, n: nat, name: string)
    requires AllDecoded(files) && n < |files|
    ensures name in Recorded(MergeAll(files[..n]).0, files[n].doc.value, "") <==> name != "" && Sets(files, n, name)
  {
    var merged, src := MergeAll(files[..n]).0, files[n].doc.value;
    if name in Recorded(merged, src, "") {
      var path := RecordedIsSet("", merged, src, name);
      MergedTable(files, n, path);
      assert SetsAt(files, n, path);
    } else if name != "" && Sets(files, n, name) {
      var path :| SetsAt(files, n, path) && Name(path) == name;
      MergedTable(files, n, path);
      SetIsRecorded("", merged, src, path);
    }
  }

  /** The last file that sets the name, -1 when none does. */
  ghost function LastSetting(files: seq<File>, name: string, n: nat): (i: int)
    requires AllDecoded(files) && n <= |files|
    ensures -1 <= i < n
    ensures i >= 0 ==> Sets(files, i, name)
    ensures forall j :: i < j < n ==> !Sets(files, j, name)
  {
    if n == 0 then -1 else if Sets(files, n - 1, name) then n - 1 else LastSetting(files, name, n - 1)
  }

  /** `sources` maps every dotted name to the file that last set it, whatever the
      keys of the documents are. Only the empty name is never recorded. */
  lemma {:induction false} SourcesNameLastSetting(files: seq<File>, n: nat, name: string)
    requires AllDecoded(files) && n <= |files| && name != ""
    ensures var sources := MergeAll(files[..n]).1; var i := LastSetting(files, name, n);
      if i < 0 then name !in sources else name in sources && sources[name] == files[i].name
    decreases n
  {
    if n > 0 {
      assert files[..n][..n - 1] == files[..n - 1];
      SourcesNameLastSetting(files, n - 1, name);
      RecordedIffSets(files, n - 1, name);
    }
  }

  lemma {:induction false} EmptyNameIsNotRecorded(files: seq<File>)
    requires AllDecoded(files)
    ensures "" !in MergeAll(files).1
    decreases |files|
  {
    if files != [] {
      var before, last := files[..|files| - 1], files[|files| - 1];
      EmptyNameIsNotRecorded(before);
      if "" in Recorded(MergeAll(before).0, last.doc.value, "") {
        var _ := RecordedIsSet("", MergeAll(before).0, last.doc.value, "");
      }
    }
  }

  // ------------------------------------------------------------------- provenance

  ghost predicate DistinctNames(files: seq<File>) {
    forall i, j :: 0 <= i < j < |files| ==> files[i].name != files[j].name
  }

  /** The file that a leaf of the result comes from has set the leaf's name. */
  lemma LeafIsSet(files: seq<File>, path: seq<string>)
    requires AllDecoded(files) && path != []
    requires LeafOf(Says(MergeAll(files).0, path)).Some?
    ensures var i := LastSaying(files, path);
      && i >= 0 && Says(files[i].doc.value, path) == Says(MergeAll(files).0, path)
      && SetsAt(files, i, path)
  {
    MergedLeaf(files, path);
  }

  /** `sources` says that the leaf at the path comes from that file. */
  ghost predicate Attributed(files: seq<File>, path: seq<string>, file: string)
    requires AllDecoded(files)
  {
    Name(path) in MergeAll(files).1 && MergeAll(files).1[Name(path)] == file
  }

  /** For any documents and any leaf of the merged configuration: `sources` names the
      file whose value it is if and only if the leaf has a name and the last file that
      sets that name is called the same. When the files have names of their own, this
      means that no later file sets the name (at another path: a later file says
      nothing about this one). */
  lemma Provenance(files: seq<File>, path: seq<string>)
    requires AllDecoded(files) && path != []
    requires LeafOf(Says(MergeAll(files).0, path)).Some?
    ensures var i, name := LastSaying(files, path), Name(path); var last := LastSetting(files, name, |files|);
      && 0 <= i <= last && Says(files[i].doc.value, path) == Says(MergeAll(files).0, path)
      && (Attributed(files, path, files[i].name) <==> name != "" && files[last].name == files[i].name)
      && (DistinctNames(files) ==>
            (Attributed(files, path, files[i].name)
             <==> name != "" && forall j :: i < j < |files| ==> !Sets(files, j, name)))
  {
    var i, name := LastSaying(files, path), Name(path);
    LeafIsSet(files, path);
    assert Sets(files, i, name);
    var last := LastSetting(files, name, |files|);
    assert i <= last;
    assert last == i <==> forall j :: i < j < |files| ==> !Sets(files, j, name);
    if name == "" {
      EmptyNameIsNotRecorded(files);
    } else {
      assert files[..|files|] == files;
      SourcesNameLastSetting(files, |files|, name);
    }
  }

  /** A leaf of the last file is the value, and its file is the source if it has a name. */
  lemma LastFileWins(files: seq<File>, path: seq<string>)
    requires AllDecoded(files) && files != [] && path != []
    requires LeafOf(Says(files[|files| - 1].doc.value, path)).Some?
    ensures var last := files[|files| - 1];
      && Says(MergeAll(files).0, path) == Says(last.doc.value, path)
      && (Attributed(files, path, last.name) <==> Name(path) != "")
  {
    var n, name := |files| - 1, Name(path);
    MergedLeaf(files, path);
    assert SetsAt(files, n, path);
    if name == "" {
      EmptyNameIsNotRecorded(files);
    } else {
      assert files[..|files|] == files;
      SourcesNameLastSetting(files, |files|, name);
    }
  }

  // ------------------------------------------------------------------- plain keys

  ghost predicate PlainKey(key: string) {
    key != "" && '.' !in key
  }

  ghost predicate PlainPath(path: seq<string>) {
    forall i :: 0 <= i < |path| ==> PlainKey(path[i])
  }

  /** Every path the document has a value at consists of non-empty keys without dots. */
  ghost predicate PlainKeys(v: Val) {
    forall path :: Says(v, path).Found? ==> PlainPath(path)
  }

  function Dotted(path: seq<string>): string {
    Join(path, '.')
  }

  function NonEmpty(path: seq<string>): seq<string> {
    if path == [] then [] else (if path[0] != "" then [path[0]] else []) + NonEmpty(path[1..])
  }

  lemma {:induction false} NameFromMeans(prefix: string, path: seq<string>)
    ensures NameFrom(prefix, path)
      == if NonEmpty(path) == [] then prefix
         else (if prefix == "" then "" else prefix + ".") + Dotted(NonEmpty(path))
    decreases |path|
  {
    if path != [] {
      var rest := NonEmpty(path[1..]);
      NameFromMeans(JoinPath(prefix, path[0]), path[1..]);
      if path[0] != "" {
        assert ([path[0]] + rest)[1..] == rest;
      } else {
        assert [] + rest == rest;
      }
    }
  }

  /** The name of a path is its keys joined by dots, without the empty ones. */
  lemma NameMeans(path: seq<string>)
    ensures Name(path) == Dotted(NonEmpty(path))
  {
    NameFromMeans("", path);
  }

  lemma {:induction false} PlainIsNonEmpty(path: seq<string>)
    requires PlainPath(path)
    ensures NonEmpty(path) == path
    decreases |path|
  {
    if path != [] {
      assert forall i :: 0 <= i < |path[1..]| ==> path[1..][i] == path[i + 1];
      PlainIsNonEmpty(path[1..]);
    }
  }

  /** The name of a plain path is its segments joined by dots, and tells it from all others. */
  lemma NameOfPlain(p: seq<string>)
    requires PlainPath(p) && p != []
    ensures Name(p) == Dotted(p) != "" && Split(Name(p), '.') == p
  {
    NameMeans(p);
    PlainIsNonEmpty(p);
    SplitJoin(p, '.');
  }

  /** With plain keys no name is shared: `sources` is right about every leaf, whatever
      the files are called. */
  lemma PlainProvenance(files: seq<File>, path: seq<string>)
    requires AllDecoded(files) && path != []
    requires forall i :: 0 <= i < |files| ==> PlainKeys(files[i].doc.value)
    requires LeafOf(Says(MergeAll(files).0, path)).Some?
    ensures var (merged, sources) := MergeAll(files); var i := LastSaying(files, path);
      && i >= 0 && Says(files[i].doc.value, path) == Says(merged, path)
      && Dotted(path) in sources && sources[Dotted(path)] == files[i].name
  {
    var i, name := LastSaying(files, path), Name(path);
    LeafIsSet(files, path);
    NameOfPlain(path);
    forall j | i < j < |files| ensures !Sets(files, j, name) {
      forall other | SetsAt(files, j, other) ensures Name(other) != name {
        NameOfPlain(other);
      }
    }
    assert Sets(files, i, name);
    assert files[..|files|] == files;
    SourcesNameLastSetting(files, |files|, name);
  }

  /** What applyTOML reads for an option: looking up its dotted path gives the leaf. */
  lemma DottedLookup(v: Doc, path: seq<string>)
    requires path != [] && PlainPath(path)
    ensures Says(v, Split(Dotted(path), '.')) == Says(v, path)
  {
    SplitJoin(path, '.');
  }

  /** The condition of Provenance can fail: here the first file's leaf, a quoted key
      with a dot, is attributed to the second file. */
  lemma DottedKeyMisattributed(files: seq<File>)
    requires files == [File("one", Some(Table(map["a.b" := Leaf("1")]))),
                       File("two", Some(Table(map["a" := Table(map["b" := Leaf("2")])])))]
    ensures var (merged, sources) := MergeAll(files);
      LastSaying(files, ["a.b"]) == 0 && LeafOf(Says(merged, ["a.b"])) == Some("1")
      && "a.b" in sources && sources["a.b"] == "two"
  {
    SaysBoth(files[0].doc.value, files[1].doc.value);
    assert files[..1][0] == files[0] && files[..2] == files;
    assert LastSaying(files[..1], ["a.b"]) == 0;
    MergedLeaf(files, ["a.b"]);
    NameOfNested();
    assert SetsAt(files, 1, ["a", "b"]);
    SourcesNameLastSetting(files, 2, "a.b");
  }

  lemma SaysBoth(one: Val, two: Val)
    requires one == Table(map["a.b" := Leaf("1")]) && two == Table(map["a" := Table(map["b" := Leaf("2")])])
    ensures Says(one, ["a.b"]) == Found(Leaf("1")) && Says(two, ["a.b"]) == Absent
    ensures Says(two, ["a", "b"]) == Found(Leaf("2"))
  {
    assert ["a.b"][1..] == [] && ["a", "b"][1..] == ["b"] && ["b"][1..] == [];
  }

  lemma NameOfNested()
    ensures Name(["a", "b"]) == "a.b"
  {
    assert ["a", "b"][1..] == ["b"] && ["b"][1..] == [];
    assert JoinPath("", "a") == "a" && JoinPath("a", "b") == "a.b";
  }
}
