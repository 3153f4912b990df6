/** The CODEOWNERS file of internal/tools/update-codeowners/main.go: a file in
    which the last matching rule decides, generated from areas that add up. */
module Codeowners {
  import opened Strings
  import opened Ownership
  import opened Wrappers

  datatype Line = Comment(text: string) | Rule(path: string, owners: seq<string>)

  // ------------------------------------------------------------- the two readings

  /** Does a pattern match a file? */
  predicate Matches(pattern: string, file: string) {
    pattern == file || Covers(pattern, file)
  }

  /** A pattern matches the file it names, what is below the directory it names, and what
      begins as it does in front of a star. */
  lemma MatchesMeans(pattern: string, file: string)
    requires pattern != ""
    ensures var stem, last := pattern[..|pattern| - 1], pattern[|pattern| - 1];
      Matches(pattern, file) <==> pattern == file || (last == '/' && stem + "/" <= file) || (last == '*' && stem <= file)
  {
    CoversMeans(pattern, file);
  }

  /** Reading of a CODEOWNERS file: the owners of the last rule that matches. */
  function LastMatch(lines: seq<Line>, file: string): seq<string>
    decreases |lines|
  {
    if lines == [] then []
    else
      var last := lines[|lines| - 1];
      if last.Rule? && Matches(last.path, file) then last.owners else LastMatch(lines[..|lines| - 1], file)
  }

  ghost predicate AreaMatches(area: Area, file: string) {
    exists p :: p in area.paths && Matches(p, file)
  }

  /** Reading of the ownership configuration: the defaults and the approvers of all
      areas that match, without regard to case. */
  ghost function UnionOwners(config: Config, file: string): set<string> {
    Keys(config.defaultApprovers)
    + set i, k | 0 <= i < |config.areas| && AreaMatches(config.areas[i], file) && k in Keys(config.areas[i].approvers) :: k
  }

  /** The owners of one pattern: the defaults and the approvers of the areas that list it. */
  ghost function PathOwners(config: Config, path: string): set<string> {
    Keys(config.defaultApprovers) + ListedOwners(config.areas, path)
  }

  ghost function ListedOwners(areas: seq<Area>, path: string): set<string> {
    set i, k | 0 <= i < |areas| && path in areas[i].paths && k in Keys(areas[i].approvers) :: k
  }

  /** The rules of a file, in whatever order and however often: those of the
      configuration's paths and no others. */
  ghost predicate Emits(config: Config, lines: seq<Line>) {
    && (forall i :: 0 <= i < |lines| && lines[i].Rule? ==>
          lines[i].path in AllPaths(config.areas) && Keys(lines[i].owners) == PathOwners(config, lines[i].path))
    && (forall p :: p in AllPaths(config.areas) ==> exists i :: 0 <= i < |lines| && lines[i].Rule? && lines[i].path == p)
  }

  // ------------------------------------------------------------ they mean the same

  /** Two patterns that match one file overlap. */
  lemma MatchingPatternsOverlap(p: string, q: string, file: string)
    requires Matches(p, file) && Matches(q, file) && p != q
    ensures Covers(p, q) || Covers(q, p)
  {
    if p != file && q != file {
      var a := Stem(p);
      var b := Stem(q);
      assert a <= file && b <= file;
      if |a| <= |b| {
        assert a <= b;
        StemCovers(p, q);
      } else {
        assert b <= a;
        StemCovers(q, p);
      }
    }
  }

  /** The prefix a pattern asks for. */
  function Stem(pattern: string): string {
    if HasSuffix(pattern, "/") then pattern else TrimSuffix(pattern, "*")
  }

  lemma StemCovers(p: string, q: string)
    requires Stem(p) <= Stem(q) && (HasSuffix(p, "/") || HasSuffix(p, "*"))
    ensures Covers(p, q)
  {
    assert Stem(q) <= q;
  }

  /** In an accepted configuration at most one pattern matches a file. */
  lemma OnePatternMatches(config: Config, p: string, q: string, file: string)
    requires Accepted(config) && p in AllPaths(config.areas) && q in AllPaths(config.areas)
    requires Matches(p, file) && Matches(q, file)
    ensures p == q
  {
    if p != q {
      MatchingPatternsOverlap(p, q, file);
    }
  }

  lemma StarMatches(file: string)
    ensures Matches("*", file)
  {
    assert TrimSuffix("*", "*") == "";
  }

  lemma LastMatchSnoc(lines: seq<Line>, last: Line, file: string)
    ensures LastMatch(lines + [last], file)
      == if last.Rule? && Matches(last.path, file) then last.owners else LastMatch(lines, file)
  {
    assert (lines + [last])[..|lines|] == lines;
  }

  /** The last match is the default rule or one behind it, i, that matches. */
  lemma {:induction false} LastMatchAmong(header: Line, tail: seq<Line>, file: string) returns (i: int)
    requires header.Rule? && header.path == "*"
    ensures -1 <= i < |tail|
    ensures i >= 0 ==> tail[i].Rule? && Matches(tail[i].path, file) && LastMatch([header] + tail, file) == tail[i].owners
    ensures i < 0 ==> LastMatch([header] + tail, file) == header.owners
    ensures i < 0 ==> forall j :: 0 <= j < |tail| && tail[j].Rule? ==> !Matches(tail[j].path, file)
    decreases |tail|
  {
    if tail == [] {
      i := -1;
      StarMatches(file);
      LastMatchSnoc([], header, file);
      assert [header] + tail == [] + [header];
    } else {
      var front, last := tail[..|tail| - 1], tail[|tail| - 1];
      LastMatchSnoc([header] + front, last, file);
      assert [header] + tail == [header] + front + [last];
      if last.Rule? && Matches(last.path, file) {
        i := |tail| - 1;
      } else {
        i := LastMatchAmong(header, front, file);
      }
    }
  }

  /** The owners of the one matching pattern are the owners of all matching areas. */
  lemma PatternOwnersAreUnion(config: Config, path: string, file: string)
    requires Accepted(config) && path in AllPaths(config.areas) && Matches(path, file)
    ensures PathOwners(config, path) == UnionOwners(config, file)
  {
    forall i | 0 <= i < |config.areas|
      ensures AreaMatches(config.areas[i], file) <==> path in config.areas[i].paths
    {
      if AreaMatches(config.areas[i], file) {
        var p :| p in config.areas[i].paths && Matches(p, file);
        AreaPathsListed(config.areas, i, p);
        OnePatternMatches(config, p, path, file);
      }
    }
  }

  lemma NoPatternNoArea(config: Config, file: string)
    requires forall p :: p in AllPaths(config.areas) ==> !Matches(p, file)
    ensures UnionOwners(config, file) == Keys(config.defaultApprovers)
  {
    forall i | 0 <= i < |config.areas| ensures !AreaMatches(config.areas[i], file) {
      forall p | p in config.areas[i].paths ensures !Matches(p, file) {
        AreaPathsListed(config.areas, i, p);
      }
    }
  }

  /** For an accepted configuration the last match of the file owns exactly what the
      areas add up to, whatever the order of the rules behind the default one. */
  lemma LastMatchIsUnion(config: Config, header: Line, tail: seq<Line>, file: string)
    requires Accepted(config) && Emits(config, tail)
    requires header.Rule? && header.path == "*" && Keys(header.owners) == Keys(config.defaultApprovers)
    ensures Keys(LastMatch([header] + tail, file)) == UnionOwners(config, file)
  {
    var i := LastMatchAmong(header, tail, file);
    if i >= 0 {
      PatternOwnersAreUnion(config, tail[i].path, file);
    } else {
      forall p | p in AllPaths(config.areas) ensures !Matches(p, file) {
        var j :| 0 <= j < |tail| && tail[j].Rule? && tail[j].path == p;
      }
      NoPatternNoArea(config, file);
    }
  }

  /** Overlapping patterns are refused for a reason: here the rule of the last
      section takes the file from the owner of the other area. */
  lemma OverlapLosesOwners()
    ensures var config := Config(["@a"], [], [Area("", ["/x/"], ["@b"], []), Area("", ["/x/y"], ["@c"], [])]);
      var lines := [Rule("*", ["@a"]), Rule("/x/", ["@a", "@b"]), Rule("/x/y", ["@a", "@c"])];
      !Accepted(config) && "@b" in UnionOwners(config, "/x/y") && "@b" !in Keys(LastMatch(lines, "/x/y"))
  {
    var one, two := Area("", ["/x/"], ["@b"], []), Area("", ["/x/y"], ["@c"], []);
    var config := Config(["@a"], [], [one, two]);
    assert config.areas[0] == one && config.areas[1] == two;
    AreaPathsListed(config.areas, 0, "/x/");
    AreaPathsListed(config.areas, 1, "/x/y");
    assert "/x/" <= "/x/y" && HasSuffix("/x/", "/");
    assert Covers("/x/", "/x/y");
    assert AreaMatches(one, "/x/y");
    assert Lower("@b") == "@b" && ["@b"][0] == "@b";
    assert "@b" in Keys(one.approvers);
    var lines := [Rule("*", ["@a"]), Rule("/x/", ["@a", "@b"]), Rule("/x/y", ["@a", "@c"])];
    assert LastMatch(lines, "/x/y") == ["@a", "@c"];
    assert Lower("@a")[1] == 'a' && Lower("@c")[1] == 'c';
  }

  // -------------------------------------------------------------------- generation

  datatype PathRule = PathRule(approvers: seq<string>, areas: seq<string>)

  class RuleBook {
    var byPath: map<string, PathRule>
    var ordered: seq<string>

    constructor ()
      ensures byPath == map[] && ordered == []
    {
      byPath, ordered := map[], [];
    }

    /** One rule per listed path, in order of appearance, with its owners. */
    ghost predicate Collected(paths: seq<string>)
      reads this
    {
      Listed(byPath, ordered, paths)
    }

    /** One more area, `name`, lists the path. */
    method Add(path: string, name: string, defaults: seq<string>, approvers: seq<string>)
      modifies this
      ensures Added(old(byPath), byPath, path, name, defaults, approvers)
      ensures ordered == if path in old(byPath) then old(ordered) else old(ordered) + [path]
    {
      var rule;
      if path in byPath {
        rule := byPath[path];
      } else {
        rule := NewRule(defaults);
        ordered := ordered + [path];
      }
      rule := JoinArea(rule, name, approvers);
      byPath := byPath[path := rule];
    }

    /** Path j of area i, after those before it. */
    method AddPath(config: Config, i: nat, j: nat, name: string)
      requires i < |config.areas| && j < |config.areas[i].paths| && name == AreaIdentifier(config.areas[i], i)
      requires Collected(AllPaths(config.areas[..i]) + config.areas[i].paths[..j]) && OwnedSoFar(config, i, j)
      modifies this
      ensures Collected(AllPaths(config.areas[..i]) + config.areas[i].paths[..j + 1]) && OwnedSoFar(config, i, j + 1)
    {
      var path := config.areas[i].paths[j];
      ghost var before, orderedBefore := byPath, ordered;
      Add(path, name, config.defaultApprovers, config.areas[i].approvers);
      ListedGrows(AllPaths(config.areas[..i]) + config.areas[i].paths[..j], path, name, config.defaultApprovers,
                  config.areas[i].approvers, before, orderedBefore, byPath, ordered);
      NextPath(AllPaths(config.areas[..i]), config.areas[i].paths, j);
      OwnedGrows(config, i, j, name, before, byPath);
      NamedGrows(config, i, j, before, byPath);
    }

    /** All paths of area i, after those of the areas before it. */
    method AddArea(config: Config, i: nat)
      requires i < |config.areas|
      requires Collected(AllPaths(config.areas[..i])) && OwnedSoFar(config, i, 0)
      modifies this
      ensures Collected(AllPaths(config.areas[..i + 1])) && OwnedSoFar(config, i + 1, 0)
    {
      var area := config.areas[i];
      var name := AreaIdentifier(area, i);
      assert AllPaths(config.areas[..i]) + area.paths[..0] == AllPaths(config.areas[..i]);
      for j := 0 to |area.paths|
        invariant Collected(AllPaths(config.areas[..i]) + area.paths[..j]) && OwnedSoFar(config, i, j)
      {
        AddPath(config, i, j, name);
      }
      assert area.paths[..|area.paths|] == area.paths;
      assert config.areas[..i + 1][..i] == config.areas[..i];
      forall p ensures OwnersSoFar(config, i, |area.paths|, p) == OwnersSoFar(config, i + 1, 0, p) {
        ListedOwnersGrow(config.areas, i, p);
      }
      forall p ensures NamesSoFar(config, i, |area.paths|, p) == NamesSoFar(config, i + 1, 0, p) {
        NextArea(config, i, p);
      }
    }

    ghost predicate OwnedSoFar(config: Config, i: nat, j: nat)
      requires i <= |config.areas| && (j > 0 ==> i < |config.areas| && j <= |config.areas[i].paths|)
      reads this
    {
      Owned(byPath, config, i, j) && Named(byPath, config, i, j)
    }
  }

  /** `after` is `before` with the area joined to the rule of the path. */
  ghost predicate Added(before: map<string, PathRule>, after: map<string, PathRule>,
                        path: string, name: string, defaults: seq<string>, approvers: seq<string>) {
    && after.Keys == before.Keys + {path}
    && (forall p :: p in before && p != path ==> after[p] == before[p])
    && Joined(if path in before then before[path] else PathRule(defaults, []), name, approvers, after[path])
  }

  ghost predicate Listed(byPath: map<string, PathRule>, ordered: seq<string>, paths: seq<string>) {
    && (forall p :: p in byPath <==> p in paths)
    && (forall p :: p in ordered <==> p in paths)
    && (forall p :: p in byPath ==> byPath[p].areas != [])
    && Distinct(ordered)
  }

  ghost predicate Distinct(s: seq<string>) {
    forall i, j :: 0 <= i < j < |s| ==> s[i] != s[j]
  }

  ghost function Elements(s: seq<string>): set<string> {
    set x | x in s
  }

  /** Each rule has the identifiers of the areas that list its path, each once. */
  ghost predicate Named(byPath: map<string, PathRule>, config: Config, i: nat, j: nat)
    requires i <= |config.areas| && (j > 0 ==> i < |config.areas| && j <= |config.areas[i].paths|)
  {
    forall p :: p in byPath ==>
      Elements(byPath[p].areas) == NamesSoFar(config, i, j, p) && Distinct(byPath[p].areas)
  }

  ghost function NamesSoFar(config: Config, i: nat, j: nat, path: string): set<string>
    requires i <= |config.areas| && (j > 0 ==> i < |config.areas| && j <= |config.areas[i].paths|)
  {
    AreasListing(config, i, path)
    + if j > 0 && path in config.areas[i].paths[..j] then {AreaIdentifier(config.areas[i], i)} else {}
  }

  /** The identifiers of the first i areas that list the path. */
  ghost function AreasListing(config: Config, i: nat, path: string): set<string>
    requires i <= |config.areas|
  {
    set k | 0 <= k < i && path in config.areas[k].paths :: AreaIdentifier(config.areas[k], k)
  }

  lemma NextArea(config: Config, i: nat, path: string)
    requires i < |config.areas|
    ensures NamesSoFar(config, i, |config.areas[i].paths|, path) == NamesSoFar(config, i + 1, 0, path)
  {
    var paths := config.areas[i].paths;
    assert paths[..|paths|] == paths;
  }

  lemma JoinedElements(names: seq<string>, name: string)
    requires Distinct(names)
    ensures var joined := if name in names then names else names + [name];
      Elements(joined) == Elements(names) + {name} && Distinct(joined)
  {
  }

  lemma NamedGrows(config: Config, i: nat, j: nat, before: map<string, PathRule>, after: map<string, PathRule>)
    requires i < |config.areas| && j < |config.areas[i].paths| && Named(before, config, i, j)
    requires forall p :: p in before <==> p in AllPaths(config.areas[..i]) + config.areas[i].paths[..j]
    requires Added(before, after, config.areas[i].paths[j], AreaIdentifier(config.areas[i], i), config.defaultApprovers,
                   config.areas[i].approvers)
    ensures Named(after, config, i, j + 1)
  {
    var path := config.areas[i].paths[j];
    forall p | p in after
      ensures Elements(after[p].areas) == NamesSoFar(config, i, j + 1, p) && Distinct(after[p].areas)
    {
      NamesSoFarGrow(config, i, j, p);
      if p == path {
        if p !in before {
          NotNamed(config, i, p);
          assert NamesSoFar(config, i, j, p) == {} == Elements([]);
        }
        JoinedElements(if p in before then before[p].areas else [], AreaIdentifier(config.areas[i], i));
      } else {
        assert after[p] == before[p];
      }
    }
  }

  lemma NamesSoFarGrow(config: Config, i: nat, j: nat, path: string)
    requires i < |config.areas| && j < |config.areas[i].paths|
    ensures NamesSoFar(config, i, j + 1, path)
      == NamesSoFar(config, i, j, path) + if path == config.areas[i].paths[j] then {AreaIdentifier(config.areas[i], i)} else {}
  {
    var paths := config.areas[i].paths;
    assert paths[..j + 1] == paths[..j] + [paths[j]];
  }

  lemma NotNamed(config: Config, i: nat, path: string)
    requires i <= |config.areas| && path !in AllPaths(config.areas[..i])
    ensures AreasListing(config, i, path) == {}
  {
    forall k | 0 <= k < i ensures path !in config.areas[k].paths {
      if path in config.areas[k].paths {
        AreaPathsListed(config.areas[..i], k, path);
      }
    }
  }

  ghost predicate Owned(byPath: map<string, PathRule>, config: Config, i: nat, j: nat)
    requires i <= |config.areas| && (j > 0 ==> i < |config.areas| && j <= |config.areas[i].paths|)
  {
    forall p :: p in byPath ==> Keys(byPath[p].approvers) == OwnersSoFar(config, i, j, p)
  }

  /** `after` is `before` with one more area. */
  ghost predicate Joined(before: PathRule, name: string, approvers: seq<string>, after: PathRule) {
    && Keys(after.approvers) == Keys(before.approvers) + Keys(approvers)
    && after.areas == if name in before.areas then before.areas else before.areas + [name]
  }

  method NewRule(defaults: seq<string>) returns (rule: PathRule)
    ensures Keys(rule.approvers) == Keys(defaults) && rule.areas == []
  {
    var owners := Unique([defaults]);
    assert Flat([defaults]) == Flat([]) + defaults == defaults;
    return PathRule(owners, []);
  }

  method JoinArea(rule: PathRule, name: string, approvers: seq<string>) returns (r: PathRule)
    ensures Joined(rule, name, approvers, r)
  {
    var both := [rule.approvers, approvers];
    var owners := Unique(both);
    assert both[..1] == [rule.approvers] && both[..1][..0] == [];
    assert Flat(both[..1]) == Flat([]) + rule.approvers == rule.approvers;
    assert Flat(both) == rule.approvers + approvers;
    KeysAppend(rule.approvers, approvers);
    return PathRule(owners, if name in rule.areas then rule.areas else rule.areas + [name]);
  }

  function Digits(n: nat): string {
    if n < 10 then [('0' as int + n) as char] else Digits(n / 10) + [('0' as int + n % 10) as char]
  }

  function AreaIdentifier(area: Area, index: nat): string {
    if area.toolset != "" then area.toolset else "area " + Digits(index + 1)
  }

  /** The owners of `path` once the first areas, and the first paths of the next one, were visited. */
  ghost function OwnersSoFar(config: Config, i: nat, j: nat, path: string): set<string>
    requires i <= |config.areas| && (j > 0 ==> i < |config.areas| && j <= |config.areas[i].paths|)
  {
    Keys(config.defaultApprovers) + ListedOwners(config.areas[..i], path)
    + if j > 0 && path in config.areas[i].paths[..j] then Keys(config.areas[i].approvers) else {}
  }

  method CollectOwnershipPaths(config: Config) returns (rules: RuleBook)
    ensures fresh(rules) && rules.Collected(AllPaths(config.areas))
    ensures forall p :: p in rules.byPath ==> Keys(rules.byPath[p].approvers) == PathOwners(config, p)
    ensures forall p :: p in rules.byPath ==>
      Elements(rules.byPath[p].areas) == AreasListing(config, |config.areas|, p) && Distinct(rules.byPath[p].areas)
  {
    rules := new RuleBook();
    for i := 0 to |config.areas|
      invariant fresh(rules) && rules.Collected(AllPaths(config.areas[..i])) && rules.OwnedSoFar(config, i, 0)
    {
      rules.AddArea(config, i);
    }
    assert config.areas[..|config.areas|] == config.areas;
  }

  lemma OwnersSoFarGrow(config: Config, i: nat, j: nat, path: string)
    requires i < |config.areas| && j < |config.areas[i].paths|
    ensures OwnersSoFar(config, i, j + 1, path)
      == OwnersSoFar(config, i, j, path) + if path == config.areas[i].paths[j] then Keys(config.areas[i].approvers) else {}
  {
    var paths := config.areas[i].paths;
    assert paths[..j + 1] == paths[..j] + [paths[j]];
  }

  lemma OwnedGrows(config: Config, i: nat, j: nat, name: string,
                   before: map<string, PathRule>, after: map<string, PathRule>)
    requires i < |config.areas| && j < |config.areas[i].paths| && Owned(before, config, i, j)
    requires forall p :: p in before <==> p in AllPaths(config.areas[..i]) + config.areas[i].paths[..j]
    requires Added(before, after, config.areas[i].paths[j], name, config.defaultApprovers, config.areas[i].approvers)
    ensures Owned(after, config, i, j + 1)
  {
    var path := config.areas[i].paths[j];
    if path !in before {
      NotListed(config.areas[..i], path);
      assert OwnersSoFar(config, i, j, path) == Keys(config.defaultApprovers);
    }
    forall p | p in after ensures Keys(after[p].approvers) == OwnersSoFar(config, i, j + 1, p) {
      OwnersSoFarGrow(config, i, j, p);
    }
  }

  lemma ListedGrows(listed: seq<string>, path: string, name: string, defaults: seq<string>, approvers: seq<string>,
                    before: map<string, PathRule>, orderedBefore: seq<string>,
                    after: map<string, PathRule>, ordered: seq<string>)
    requires Listed(before, orderedBefore, listed)
    requires Added(before, after, path, name, defaults, approvers)
    requires ordered == if path in before then orderedBefore else orderedBefore + [path]
    ensures Listed(after, ordered, listed + [path])
  {
    forall p | p in after ensures after[p].areas != [] {
      assert p == path || p in before;
    }
    assert path in orderedBefore <==> path in before;
    if path !in before {
      DistinctSnoc(orderedBefore, path);
      MembersSnoc(orderedBefore, path);
    }
    MembersSnoc(listed, path);
  }

  lemma MembersSnoc(s: seq<string>, x: string)
    ensures forall p :: p in s + [x] <==> p in s || p == x
  {
  }

  lemma DistinctSnoc(s: seq<string>, x: string)
    requires Distinct(s)
    ensures x !in s ==> Distinct(s + [x])
  {
  }

  lemma NextPath(listed: seq<string>, paths: seq<string>, j: nat)
    requires j < |paths|
    ensures listed + paths[..j + 1] == listed + paths[..j] + [paths[j]]
  {
  }

  lemma NotListed(areas: seq<Area>, path: string)
    requires path !in AllPaths(areas)
    ensures ListedOwners(areas, path) == {}
  {
    forall i | 0 <= i < |areas| ensures path !in areas[i].paths {
      if path in areas[i].paths {
        AreaPathsListed(areas, i, path);
      }
    }
  }

  lemma ListedOwnersGrow(areas: seq<Area>, i: nat, path: string)
    requires i < |areas|
    ensures ListedOwners(areas[..i + 1], path)
      == ListedOwners(areas[..i], path) + if path in areas[i].paths then Keys(areas[i].approvers) else {}
  {
    var more := areas[..i + 1];
    forall k | k in ListedOwners(areas[..i], path) ensures k in ListedOwners(more, path) {
      var a :| 0 <= a < i && path in areas[..i][a].paths && k in Keys(areas[..i][a].approvers);
      assert more[a] == areas[..i][a];
    }
    assert more[i] == areas[i];
    forall k | k in ListedOwners(more, path)
      ensures k in ListedOwners(areas[..i], path) || (path in areas[i].paths && k in Keys(areas[i].approvers))
    {
      var a :| 0 <= a < i + 1 && path in more[a].paths && k in Keys(more[a].approvers);
      if a < i {
        assert more[a] == areas[..i][a];
      }
    }
  }

  /** Lines that repeat collected rules. */
  ghost predicate Repeats(lines: seq<Line>, byPath: map<string, PathRule>) {
    forall i :: 0 <= i < |lines| && lines[i].Rule? ==>
      lines[i].path in byPath && lines[i].owners == byPath[lines[i].path].approvers
  }

  ghost predicate HasRule(lines: seq<Line>, path: string) {
    exists i :: 0 <= i < |lines| && lines[i].Rule? && lines[i].path == path
  }

  lemma HasRuleAppend(a: seq<Line>, b: seq<Line>, path: string)
    ensures HasRule(a, path) || HasRule(b, path) ==> HasRule(a + b, path)
  {
    if HasRule(a, path) {
      var i :| 0 <= i < |a| && a[i].Rule? && a[i].path == path;
      assert (a + b)[i] == a[i];
    } else if HasRule(b, path) {
      var i :| 0 <= i < |b| && b[i].Rule? && b[i].path == path;
      assert (a + b)[|a| + i] == b[i];
    }
  }

  /** Paths of a single area, under the heading of that area. */
  method WriteExclusivePathSections(areas: seq<Area>, rules: RuleBook) returns (lines: seq<Line>)
    requires forall p :: p in AllPaths(areas) ==> p in rules.byPath
    ensures Repeats(lines, rules.byPath)
    ensures forall p :: p in AllPaths(areas) && |rules.byPath[p].areas| == 1 ==> HasRule(lines, p)
    ensures Exclusive(lines, rules.byPath)
  {
    lines := [];
    for i := 0 to |areas|
      invariant Repeats(lines, rules.byPath) && Exclusive(lines, rules.byPath)
      invariant forall p :: p in AllPaths(areas[..i]) && p in rules.byPath && |rules.byPath[p].areas| == 1 ==> HasRule(lines, p)
    {
      var heading := if areas[i].toolset != "" then "toolset: " + areas[i].toolset else AreaIdentifier(areas[i], i);
      ghost var before := lines;
      lines := lines + [Comment(heading)];
      forall p ensures HasRule(before, p) ==> HasRule(lines, p) {
        HasRuleAppend(before, [Comment(heading)], p);
      }
      assert areas[..i + 1][..i] == areas[..i];
      var paths := areas[i].paths;
      for j := 0 to |paths|
        invariant Repeats(lines, rules.byPath) && Exclusive(lines, rules.byPath)
        invariant forall p :: HasRule(before, p) ==> HasRule(lines, p)
        invariant forall k :: 0 <= k < j && paths[k] in rules.byPath && |rules.byPath[paths[k]].areas| == 1 ==> HasRule(lines, paths[k])
      {
        AreaPathsListed(areas, i, paths[j]);
        var rule := rules.byPath[paths[j]];
        if |rule.areas| == 1 {
          var line := Rule(paths[j], rule.approvers);
          forall p ensures HasRule(lines, p) ==> HasRule(lines + [line], p) {
            HasRuleAppend(lines, [line], p);
          }
          lines := lines + [line];
          assert lines[|lines| - 1] == line;
        }
      }
    }
    assert areas[..|areas|] == areas;
  }

  function JoinNames(names: seq<string>): string {
    if names == [] then "" else if |names| == 1 then names[0] else names[0] + ", " + JoinNames(names[1..])
  }

  /** Paths of several areas, grouped by the areas that share them. */
  method WriteOverlappingPathSections(rules: RuleBook) returns (lines: seq<Line>)
    requires (forall p :: p in rules.ordered ==> p in rules.byPath) && Distinct(rules.ordered)
    ensures Repeats(lines, rules.byPath)
    ensures forall p :: p in rules.ordered && |rules.byPath[p].areas| >= 2 ==> HasRule(lines, p)
    ensures Shared(lines, rules.byPath) && NoRepeat(lines)
  {
    var shared: map<string, seq<string>> := map[];
    var overlaps: seq<string> := [];
    for i := 0 to |rules.ordered|
      invariant Grouped(rules.byPath, rules.ordered[..i], overlaps, shared)
    {
      var path := rules.ordered[i];
      var rule := rules.byPath[path];
      assert rules.ordered[..i + 1] == rules.ordered[..i] + [path] && path !in rules.ordered[..i];
      if |rule.areas| >= 2 {
        var key := JoinNames(rule.areas);
        GroupGrows(rules.byPath, rules.ordered[..i], overlaps, shared, path);
        if key !in shared {
          overlaps := overlaps + [key];
        }
        shared := shared[key := (if key in shared then shared[key] else []) + [path]];
      }
    }
    assert rules.ordered[..|rules.ordered|] == rules.ordered;
    lines := WriteGroups(overlaps, shared, rules);
    forall p | p in rules.ordered && |rules.byPath[p].areas| >= 2 ensures HasRule(lines, p) {
      assert p in shared[JoinNames(rules.byPath[p].areas)];
    }
  }

  /** The paths of several areas among the first ones, each in the group of its areas. */
  ghost predicate Grouped(byPath: map<string, PathRule>, paths: seq<string>,
                          overlaps: seq<string>, shared: map<string, seq<string>>) {
    && (forall key :: key in overlaps <==> key in shared) && Distinct(overlaps)
    && (forall key, p :: key in shared && p in shared[key] ==>
          p in paths && p in byPath && |byPath[p].areas| >= 2 && JoinNames(byPath[p].areas) == key)
    && (forall key :: key in shared ==> Distinct(shared[key]))
    && (forall p :: p in paths && p in byPath && |byPath[p].areas| >= 2 ==>
          JoinNames(byPath[p].areas) in shared && p in shared[JoinNames(byPath[p].areas)])
  }

  lemma GroupGrows(byPath: map<string, PathRule>, paths: seq<string>, overlaps: seq<string>,
                   shared: map<string, seq<string>>, path: string)
    requires Grouped(byPath, paths, overlaps, shared)
    requires path !in paths && path in byPath && |byPath[path].areas| >= 2
    ensures var key := JoinNames(byPath[path].areas); var group := if key in shared then shared[key] else [];
      Grouped(byPath, paths + [path], if key in shared then overlaps else overlaps + [key], shared[key := group + [path]])
  {
  }

  /** No path has two rules. */
  ghost predicate NoRepeat(lines: seq<Line>) {
    forall i, j :: 0 <= i < j < |lines| && lines[i].Rule? && lines[j].Rule? ==> lines[i].path != lines[j].path
  }

  ghost predicate Exclusive(lines: seq<Line>, byPath: map<string, PathRule>) {
    forall i :: 0 <= i < |lines| && lines[i].Rule? ==> lines[i].path in byPath && |byPath[lines[i].path].areas| == 1
  }

  ghost predicate Shared(lines: seq<Line>, byPath: map<string, PathRule>) {
    forall i :: 0 <= i < |lines| && lines[i].Rule? ==> lines[i].path in byPath && |byPath[lines[i].path].areas| >= 2
  }

  /** The rules of the lines are those of the groups. */
  ghost predicate FromGroups(lines: seq<Line>, keys: seq<string>, shared: map<string, seq<string>>)
    requires forall key :: key in keys ==> key in shared
  {
    forall i :: 0 <= i < |lines| && lines[i].Rule? ==> exists key :: key in keys && lines[i].path in shared[key]
  }

  method WriteGroups(overlaps: seq<string>, shared: map<string, seq<string>>, rules: RuleBook) returns (lines: seq<Line>)
    requires Grouped(rules.byPath, rules.ordered, overlaps, shared)
    ensures Repeats(lines, rules.byPath)
    ensures forall key, p :: key in shared && p in shared[key] ==> HasRule(lines, p)
    ensures Shared(lines, rules.byPath) && NoRepeat(lines)
  {
    lines := [];
    for i := 0 to |overlaps|
      invariant Repeats(lines, rules.byPath) && Shared(lines, rules.byPath) && NoRepeat(lines)
      invariant FromGroups(lines, overlaps[..i], shared)
      invariant forall k, p :: 0 <= k < i && p in shared[overlaps[k]] ==> HasRule(lines, p)
    {
      var group := WriteGroup(overlaps[i], shared[overlaps[i]], rules);
      forall p ensures HasRule(lines, p) || HasRule(group, p) ==> HasRule(lines + group, p) {
        HasRuleAppend(lines, group, p);
      }
      NextGroup(rules.byPath, rules.ordered, overlaps, shared, lines, group, i);
      lines := lines + group;
    }
  }

  lemma NextGroup(byPath: map<string, PathRule>, ordered: seq<string>, overlaps: seq<string>,
                  shared: map<string, seq<string>>, lines: seq<Line>, group: seq<Line>, i: nat)
    requires Grouped(byPath, ordered, overlaps, shared) && i < |overlaps|
    requires NoRepeat(lines) && NoRepeat(group) && FromGroups(lines, overlaps[..i], shared)
    requires forall k :: 0 <= k < |group| && group[k].Rule? ==> group[k].path in shared[overlaps[i]]
    ensures NoRepeat(lines + group) && FromGroups(lines + group, overlaps[..i + 1], shared)
    ensures Shared(lines, byPath) ==> Shared(lines + group, byPath)
  {
    assert overlaps[..i + 1] == overlaps[..i] + [overlaps[i]];
    forall k, l | 0 <= k < |lines| && 0 <= l < |group| && lines[k].Rule? && group[l].Rule?
      ensures lines[k].path != group[l].path
    {
      var key :| key in overlaps[..i] && lines[k].path in shared[key];
      var j :| 0 <= j < i && overlaps[j] == key;
      assert overlaps[j] != overlaps[i];
      assert JoinNames(byPath[lines[k].path].areas) == key;
      assert overlaps[i] in shared && group[l].path in shared[overlaps[i]];
      assert JoinNames(byPath[group[l].path].areas) == overlaps[i];
    }
  }

  method WriteGroup(overlap: string, paths: seq<string>, rules: RuleBook) returns (lines: seq<Line>)
    requires (forall p :: p in paths ==> p in rules.byPath) && Distinct(paths)
    ensures Repeats(lines, rules.byPath)
    ensures forall p :: p in paths ==> HasRule(lines, p)
    ensures NoRepeat(lines) && forall k :: 0 <= k < |lines| && lines[k].Rule? ==> lines[k].path in paths
  {
    lines := [Comment("shared: " + overlap)];
    for i := 0 to |paths|
      invariant Repeats(lines, rules.byPath) && NoRepeat(lines)
      invariant forall k :: 0 <= k < |lines| && lines[k].Rule? ==> lines[k].path in paths[..i]
      invariant forall k :: 0 <= k < i ==> HasRule(lines, paths[k])
    {
      var line := Rule(paths[i], rules.byPath[paths[i]].approvers);
      forall p ensures HasRule(lines, p) ==> HasRule(lines + [line], p) {
        HasRuleAppend(lines, [line], p);
      }
      assert paths[..i + 1] == paths[..i] + [paths[i]];
      lines := lines + [line];
      assert lines[|lines| - 1] == line;
    }
  }

  // ------------------------------------------------------------------- shared paths

  function Value(digits: string): int {
    if digits == "" then 0 else Value(digits[..|digits| - 1]) * 10 + (digits[|digits| - 1] as int - '0' as int)
  }

  lemma {:induction false} DigitsTell(n: nat)
    ensures Value(Digits(n)) == n
  {
    if n >= 10 {
      DigitsTell(n / 10);
      assert Digits(n)[..|Digits(n)| - 1] == Digits(n / 10);
    } else {
      assert Digits(n)[..0] == "";
    }
  }

  lemma ToolsetHasNoBlank(toolset: string)
    requires IsToolset(toolset)
    ensures ' ' !in toolset
  {
    ToolsetMeans(toolset);
    JoinOfTwo(toolset);
  }

  /** Different areas have different identifiers. */
  lemma AreaIdentifiersDiffer(config: Config, k: nat, l: nat)
    requires Accepted(config) && k < l < |config.areas|
    ensures AreaIdentifier(config.areas[k], k) != AreaIdentifier(config.areas[l], l)
  {
    var a, b := config.areas[k], config.areas[l];
    assert GoodArea(a) && GoodArea(b);
    if a.toolset == "" && b.toolset == "" {
      NumbersDiffer(k + 1, l + 1);
    } else if a.toolset == "" {
      NumberIsNoToolset(b.toolset, k + 1);
    } else if b.toolset == "" {
      NumberIsNoToolset(a.toolset, l + 1);
    }
  }

  lemma NumbersDiffer(m: nat, n: nat)
    requires m != n
    ensures "area " + Digits(m) != "area " + Digits(n)
  {
    DigitsTell(m);
    DigitsTell(n);
    assert ("area " + Digits(m))[5..] == Digits(m) && ("area " + Digits(n))[5..] == Digits(n);
  }

  lemma NumberIsNoToolset(toolset: string, n: nat)
    requires IsToolset(toolset)
    ensures "area " + Digits(n) != toolset
  {
    ToolsetHasNoBlank(toolset);
    assert ("area " + Digits(n))[4] == ' ';
  }

  /** How many rules the lines have for a path. */
  function Rules(lines: seq<Line>, path: string): nat {
    if lines == [] then 0 else (if lines[0].Rule? && lines[0].path == path then 1 else 0) + Rules(lines[1..], path)
  }

  lemma {:induction false} RulesAppend(a: seq<Line>, b: seq<Line>, path: string)
    ensures Rules(a + b, path) == Rules(a, path) + Rules(b, path)
    decreases |a|
  {
    if a == [] {
      assert a + b == b;
    } else {
      assert (a + b)[1..] == a[1..] + b;
      RulesAppend(a[1..], b, path);
    }
  }

  lemma {:induction false} NoRules(lines: seq<Line>, path: string)
    requires !HasRule(lines, path)
    ensures Rules(lines, path) == 0
    decreases |lines|
  {
    if lines != [] {
      assert forall i :: 0 <= i < |lines[1..]| ==> lines[1..][i] == lines[i + 1];
      NoRules(lines[1..], path);
    }
  }

  lemma {:induction false} OneRule(lines: seq<Line>, path: string)
    requires HasRule(lines, path) && NoRepeat(lines)
    ensures Rules(lines, path) == 1
    decreases |lines|
  {
    var rest := lines[1..];
    assert forall i :: 0 <= i < |rest| ==> rest[i] == lines[i + 1];
    if lines[0].Rule? && lines[0].path == path {
      assert !HasRule(rest, path);
      NoRules(rest, path);
    } else {
      var i :| 0 <= i < |lines| && lines[i].Rule? && lines[i].path == path;
      assert rest[i - 1] == lines[i];
      OneRule(rest, path);
    }
  }

  /** A path that two areas list is written once, for all of them. */
  ghost predicate SharedOnce(config: Config, lines: seq<Line>) {
    forall p, k, l :: 0 <= k < l < |config.areas| && p in config.areas[k].paths && p in config.areas[l].paths ==>
      Rules(lines, p) == 1
  }

  lemma TwoNames(names: seq<string>, a: string, b: string)
    requires a in names && b in names && a != b
    ensures |names| >= 2
  {
  }

  lemma SharedAreWrittenOnce(config: Config, byPath: map<string, PathRule>, header: Line,
                             exclusive: seq<Line>, overlapping: seq<Line>)
    requires Accepted(config) && header.Rule? && header.path == "*"
    requires forall p :: p in byPath <==> p in AllPaths(config.areas)
    requires forall p :: p in byPath ==> Elements(byPath[p].areas) == AreasListing(config, |config.areas|, p)
    requires Exclusive(exclusive, byPath) && Shared(overlapping, byPath) && NoRepeat(overlapping)
    requires forall p :: p in byPath && |byPath[p].areas| >= 2 ==> HasRule(overlapping, p)
    ensures SharedOnce(config, [header] + (exclusive + overlapping))
  {
    forall p, k, l | 0 <= k < l < |config.areas| && p in config.areas[k].paths && p in config.areas[l].paths
      ensures Rules([header] + (exclusive + overlapping), p) == 1
    {
      AreaPathsListed(config.areas, k, p);
      AreaIdentifiersDiffer(config, k, l);
      assert AreaIdentifier(config.areas[k], k) in AreasListing(config, |config.areas|, p);
      assert AreaIdentifier(config.areas[l], l) in AreasListing(config, |config.areas|, p);
      TwoNames(byPath[p].areas, AreaIdentifier(config.areas[k], k), AreaIdentifier(config.areas[l], l));
      assert GoodArea(config.areas[k]) && IsPath(p);
      OneRule(overlapping, p);
      NoRules(exclusive, p);
      RulesAppend(exclusive, overlapping, p);
      RulesAppend([header], exclusive + overlapping, p);
    }
  }

  // ------------------------------------------------------------------------ the file

  /** Reading `lines` gives what the configuration's areas add up to, for every file
      and whatever the order of the rules behind the first line. */
  ghost predicate MeansUnion(config: Config, lines: seq<Line>) {
    && lines != []
    && (forall file: string :: Keys(LastMatch(lines, file)) == UnionOwners(config, file))
    && forall tail: seq<Line>, file: string :: multiset(tail) == multiset(lines[1..]) ==>
         Keys(LastMatch([lines[0]] + tail, file)) == UnionOwners(config, file)
  }

  /** The generated file: the default rule and, behind it, the rules of the
      configuration's paths. */
  method Render(config: Config) returns (r: Result<seq<Line>>)
    ensures r.Ok? <==> Accepted(config)
    ensures r.Ok? ==> MeansUnion(config, r.value) && Emits(config, r.value[1..]) && SharedOnce(config, r.value)
  {
    var accepted := Validate(config);
    if !accepted {
      return Rejected;
    }
    var rules := CollectOwnershipPaths(config);
    var header := NewRule(config.defaultApprovers);
    var exclusive := WriteExclusivePathSections(config.areas, rules);
    var overlapping := WriteOverlappingPathSections(rules);
    SectionsEmit(config, rules.byPath, exclusive, overlapping);
    SharedAreWrittenOnce(config, rules.byPath, Rule("*", header.approvers), exclusive, overlapping);
    RulesMeanUnion(config, Rule("*", header.approvers), exclusive + overlapping);
    return Ok([Rule("*", header.approvers)] + (exclusive + overlapping));
  }

  lemma SectionsEmit(config: Config, byPath: map<string, PathRule>, exclusive: seq<Line>, overlapping: seq<Line>)
    requires forall p :: p in byPath <==> p in AllPaths(config.areas)
    requires forall p :: p in byPath ==> Keys(byPath[p].approvers) == PathOwners(config, p)
    requires Repeats(exclusive, byPath) && Repeats(overlapping, byPath)
    requires forall p :: p in byPath ==> HasRule(exclusive, p) || HasRule(overlapping, p)
    ensures Emits(config, exclusive + overlapping)
  {
    var lines := exclusive + overlapping;
    forall p | p in AllPaths(config.areas)
      ensures exists i :: 0 <= i < |lines| && lines[i].Rule? && lines[i].path == p
    {
      HasRuleAppend(exclusive, overlapping, p);
      assert HasRule(lines, p);
    }
  }

  lemma RulesMeanUnion(config: Config, header: Line, tail: seq<Line>)
    requires Accepted(config) && Emits(config, tail)
    requires header.Rule? && header.path == "*" && Keys(header.owners) == Keys(config.defaultApprovers)
    ensures MeansUnion(config, [header] + tail) && ([header] + tail)[1..] == tail
  {
    var lines := [header] + tail;
    assert lines[1..] == tail && lines[0] == header;
    forall other: seq<Line>, file: string | multiset(other) == multiset(tail)
      ensures Keys(LastMatch([header] + other, file)) == UnionOwners(config, file)
    {
      EmitsReordered(config, tail, other);
      LastMatchIsUnion(config, header, other, file);
    }
  }

  lemma EmitsReordered(config: Config, lines: seq<Line>, other: seq<Line>)
    requires Emits(config, lines) && multiset(other) == multiset(lines)
    ensures Emits(config, other)
  {
    forall i | 0 <= i < |other| && other[i].Rule?
      ensures other[i].path in AllPaths(config.areas) && Keys(other[i].owners) == PathOwners(config, other[i].path)
    {
      assert other[i] in multiset(other);
      assert other[i] in multiset(lines);
    }
    forall p | p in AllPaths(config.areas)
      ensures exists i :: 0 <= i < |other| && other[i].Rule? && other[i].path == p
    {
      var i :| 0 <= i < |lines| && lines[i].Rule? && lines[i].path == p;
      assert lines[i] in multiset(lines);
      assert lines[i] in multiset(other);
    }
  }
}
