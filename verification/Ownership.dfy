/** The ownership rules of internal/tools/ownership/ownership.go. */
module Ownership {
  import opened Strings

  datatype Area = Area(toolset: string, paths: seq<string>, approvers: seq<string>, reviewers: seq<string>)

  datatype Config = Config(defaultApprovers: seq<string>, defaultReviewers: seq<string>, areas: seq<Area>)

  // ------------------------------------------------------------- what is well-formed

  ghost predicate Spelled(s: string, first: string, others: string) {
    s != "" && s[0] in first && forall i :: 0 < i < |s| ==> s[i] in others
  }

  /** @organization or @organization/team. */
  ghost predicate IsUser(user: string) {
    exists org :: IsOrg(org) && (user == "@" + org || exists team :: IsTeam(team) && user == "@" + org + "/" + team)
  }

  ghost predicate IsOrg(s: string) {
    Spelled(s, UPPER + LOWER + DIGITS, UPPER + LOWER + DIGITS + "-")
  }

  ghost predicate IsTeam(s: string) {
    Spelled(s, UPPER + LOWER + DIGITS, UPPER + LOWER + DIGITS + "_-")
  }

  /** A name of one part or of two. */
  ghost predicate IsToolset(s: string) {
    exists first :: IsToolsetPart(first)
      && (s == first || exists second :: IsToolsetPart(second) && s == first + "/" + second)
  }

  ghost predicate IsToolsetPart(s: string) {
    Spelled(s, LOWER + DIGITS + "_-", LOWER + DIGITS + "_-")
  }

  /** An absolute path without blanks and comments, and with no star but a last one. */
  ghost predicate IsPath(path: string) {
    && path != "" && path[0] == '/'
    && (forall c :: c in path ==> c !in [' ', '\t', '\r', '\n', '#'])
    && '*' !in path[..|path| - 1]
  }

  ghost predicate AllUsers(users: seq<string>) {
    forall u :: u in users ==> IsUser(u)
  }

  // ---------------------------------------------------------------- how it is matched

  predicate Alphanumeric(c: char) { Digit(c) || LowerLetter(c) || UpperLetter(c) }

  /** ^[a-z0-9_-]+(/[a-z0-9_-]+)?$ */
  predicate ToolsetName(s: string) {
    var parts := Split(s, '/');
    |parts| <= 2 && forall i :: 0 <= i < |parts| ==> ToolsetPart(parts[i])
  }

  predicate ToolsetPart(s: string) {
    s != "" && forall j :: 0 <= j < |s| ==> Digit(s[j]) || LowerLetter(s[j]) || s[j] in "_-"
  }

  /** ^@[A-Za-z0-9][A-Za-z0-9-]*(/[A-Za-z0-9][A-Za-z0-9_-]*)?$ */
  predicate GithubUser(s: string) {
    && s != "" && s[0] == '@'
    && var parts := Split(s[1..], '/');
       |parts| <= 2 && GithubName(parts[0], false) && (|parts| == 2 ==> GithubName(parts[1], true))
  }

  predicate GithubName(s: string, team: bool) {
    && s != "" && Alphanumeric(s[0])
    && forall j :: 0 <= j < |s| ==> Alphanumeric(s[j]) || s[j] == '-' || (team && s[j] == '_')
  }

  predicate Users(users: seq<string>) {
    forall i :: 0 <= i < |users| ==> GithubUser(users[i])
  }

  function Count(s: string, c: char): nat {
    if s == "" then 0 else (if s[0] == c then 1 else 0) + Count(s[1..], c)
  }

  predicate GoodPath(path: string) {
    && HasPrefix(path, "/")
    && (forall i :: 0 <= i < |path| ==> path[i] !in " \t\r\n#")
    && !('*' in path && (!HasSuffix(path, "*") || Count(path, '*') != 1))
  }

  // -------------------------------------------------------- matched is what is well-formed

  lemma AlphanumericMeans(c: char)
    ensures Alphanumeric(c) <==> c in UPPER + LOWER + DIGITS
    ensures Digit(c) || LowerLetter(c) <==> c in LOWER + DIGITS
  {
    LowerLetters(c);
    UpperLetters(c);
    Digits(c);
  }

  lemma GithubNameMeans(s: string)
    ensures GithubName(s, false) <==> IsOrg(s)
    ensures GithubName(s, true) <==> IsTeam(s)
    ensures IsOrg(s) || IsTeam(s) ==> '/' !in s
  {
    forall i | 0 <= i < |s| ensures Alphanumeric(s[i]) <==> s[i] in UPPER + LOWER + DIGITS {
      AlphanumericMeans(s[i]);
    }
    NamesHaveNoSlash(s);
  }

  lemma NamesHaveNoSlash(s: string)
    requires forall i :: 0 <= i < |s| ==> (Alphanumeric(s[i]) <==> s[i] in UPPER + LOWER + DIGITS)
    ensures IsOrg(s) || IsTeam(s) ==> '/' !in s
  {
    assert !Alphanumeric('/');
  }

  lemma ToolsetPartMeans(s: string)
    ensures ToolsetPart(s) <==> IsToolsetPart(s)
    ensures ToolsetPart(s) ==> '/' !in s
  {
    forall i | 0 <= i < |s| ensures Digit(s[i]) || LowerLetter(s[i]) <==> s[i] in LOWER + DIGITS {
      AlphanumericMeans(s[i]);
    }
  }

  /** One part, or two around a slash. */
  lemma SplitInTwo(a: string, b: string)
    requires '/' !in a && '/' !in b
    ensures Split(a, '/') == [a] && Split(a + "/" + b, '/') == [a, b]
  {
    SplitWithout(a, '/');
    SplitWithout(b, '/');
    SplitAtFirst(a, b, '/');
  }

  lemma JoinOfTwo(s: string)
    ensures var parts := Split(s, '/');
      && (|parts| == 1 ==> s == parts[0])
      && (|parts| == 2 ==> s == parts[0] + "/" + parts[1])
  {
    JoinSplit(s, '/');
  }

  lemma OrgIsMatched(org: string)
    requires IsOrg(org)
    ensures GithubUser("@" + org)
  {
    GithubNameMeans(org);
    SplitInTwo(org, "");
    assert ("@" + org)[1..] == org;
  }

  lemma TeamIsMatched(org: string, team: string)
    requires IsOrg(org) && IsTeam(team)
    ensures GithubUser("@" + org + "/" + team)
  {
    GithubNameMeans(org);
    GithubNameMeans(team);
    SplitInTwo(org, team);
    BehindAt(org, team);
    MatchedInTwo("@" + org + "/" + team, org, team);
  }

  lemma BehindAt(org: string, team: string)
    ensures var user := "@" + org + "/" + team;
      user[0] == '@' && user[1..] == org + "/" + team
  {
  }

  lemma MatchedInTwo(user: string, org: string, team: string)
    requires user != "" && user[0] == '@' && Split(user[1..], '/') == [org, team]
    requires GithubName(org, false) && GithubName(team, true)
    ensures GithubUser(user)
  {
  }

  lemma SpelledUser(user: string, org: string)
    requires GithubName(org, false) && user == "@" + org
    ensures IsUser(user)
  {
    GithubNameMeans(org);
  }

  lemma SpelledTeam(user: string, org: string, team: string)
    requires GithubName(org, false) && GithubName(team, true) && user == "@" + org + "/" + team
    ensures IsUser(user)
  {
    GithubNameMeans(org);
    GithubNameMeans(team);
  }

  lemma MatchedIsUser(user: string)
    requires GithubUser(user)
    ensures IsUser(user)
  {
    var parts := Split(user[1..], '/');
    JoinOfTwo(user[1..]);
    assert user == "@" + user[1..];
    if |parts| == 1 {
      SpelledUser(user, parts[0]);
    } else {
      assert user == "@" + parts[0] + "/" + parts[1];
      SpelledTeam(user, parts[0], parts[1]);
    }
  }

  lemma UserIsMatched(user: string)
    requires IsUser(user)
    ensures GithubUser(user)
  {
    var org :| IsOrg(org) && (user == "@" + org || exists team :: IsTeam(team) && user == "@" + org + "/" + team);
    if user == "@" + org {
      OrgIsMatched(org);
    } else {
      var team :| IsTeam(team) && user == "@" + org + "/" + team;
      TeamIsMatched(org, team);
    }
  }

  lemma UserMeans(user: string)
    ensures GithubUser(user) <==> IsUser(user)
  {
    if GithubUser(user) {
      MatchedIsUser(user);
    }
    if IsUser(user) {
      UserIsMatched(user);
    }
  }

  lemma ToolsetIsMatched(first: string, second: string)
    requires IsToolsetPart(first)
    ensures ToolsetName(first)
    ensures IsToolsetPart(second) ==> ToolsetName(first + "/" + second)
  {
    ToolsetPartMeans(first);
    ToolsetPartMeans(second);
    SplitInTwo(first, "");
    if IsToolsetPart(second) {
      SplitInTwo(first, second);
    }
  }

  lemma ToolsetMeans(s: string)
    ensures ToolsetName(s) <==> IsToolset(s)
  {
    if ToolsetName(s) {
      var parts := Split(s, '/');
      JoinOfTwo(s);
      ToolsetPartMeans(parts[0]);
      if |parts| == 2 {
        ToolsetPartMeans(parts[1]);
      }
    }
    if IsToolset(s) {
      var first :| IsToolsetPart(first) && (s == first || exists second :: IsToolsetPart(second) && s == first + "/" + second);
      if s == first {
        ToolsetIsMatched(first, "");
      } else {
        var second :| IsToolsetPart(second) && s == first + "/" + second;
        ToolsetIsMatched(first, second);
      }
    }
  }

  lemma {:induction false} CountLast(s: string, c: char)
    requires s != "" && s[|s| - 1] == c
    ensures Count(s, c) == 1 <==> c !in s[..|s| - 1]
    ensures Count(s, c) >= 1
  {
    if |s| > 1 {
      CountLast(s[1..], c);
      assert s[..|s| - 1] == [s[0]] + s[1..][..|s| - 2];
    }
  }

  lemma PathMeans(path: string)
    ensures GoodPath(path) <==> IsPath(path)
  {
    if path != "" && path[|path| - 1] == '*' {
      CountLast(path, '*');
    } else if path != "" {
      assert path == path[..|path| - 1] + [path[|path| - 1]];
    }
    assert HasPrefix(path, "/") <==> path != "" && path[0] == '/';
    assert HasSuffix(path, "*") <==> path != "" && path[|path| - 1] == '*';
  }

  lemma UsersMean(users: seq<string>)
    ensures Users(users) <==> AllUsers(users)
  {
    forall i | 0 <= i < |users| ensures GithubUser(users[i]) <==> IsUser(users[i]) {
      UserMeans(users[i]);
    }
  }

  // ---------------------------------------------------------------- what is accepted

  predicate Covers(pattern: string, path: string) {
    if HasSuffix(pattern, "/") then HasPrefix(path, pattern)
    else if HasSuffix(pattern, "*") then HasPrefix(path, TrimSuffix(pattern, "*"))
    else false
  }

  /** The paths of all areas, in order. */
  function AllPaths(areas: seq<Area>): seq<string>
    decreases |areas|
  {
    if areas == [] then [] else AllPaths(areas[..|areas| - 1]) + areas[|areas| - 1].paths
  }

  ghost predicate NoOverlap(paths: seq<string>) {
    forall p, q :: p in paths && q in paths && p != q ==> !Covers(p, q)
  }

  ghost predicate GoodArea(area: Area) {
    && GoodHeading(area)
    && forall i :: 0 <= i < |area.paths| ==> IsPath(area.paths[i])
  }

  ghost predicate AllGood(areas: seq<Area>) {
    forall i :: 0 <= i < |areas| ==> GoodArea(areas[i])
  }

  ghost predicate DistinctToolsets(areas: seq<Area>) {
    forall i, j :: 0 <= i < j < |areas| && areas[i].toolset != "" ==> areas[i].toolset != areas[j].toolset
  }

  /** The configurations Validate accepts; the order of areas and paths plays no part. */
  ghost predicate Accepted(config: Config) {
    && config.defaultApprovers != [] && AllUsers(config.defaultApprovers) && AllUsers(config.defaultReviewers)
    && AcceptedAreas(config.areas)
  }

  ghost predicate AcceptedAreas(areas: seq<Area>) {
    && AllGood(areas)
    && DistinctToolsets(areas)
    && NoOverlap(AllPaths(areas))
  }

  lemma {:induction false} AreaPathsListed(areas: seq<Area>, i: nat, p: string)
    requires i < |areas| && p in areas[i].paths
    ensures p in AllPaths(areas)
    decreases |areas|
  {
    if i < |areas| - 1 {
      AreaPathsListed(areas[..|areas| - 1], i, p);
    }
  }

  lemma {:induction false} ListedPathHasArea(areas: seq<Area>, p: string) returns (i: nat)
    requires p in AllPaths(areas)
    ensures i < |areas| && p in areas[i].paths
    decreases |areas|
  {
    if p in areas[|areas| - 1].paths {
      i := |areas| - 1;
    } else {
      i := ListedPathHasArea(areas[..|areas| - 1], p);
    }
  }

  /** Which paths a pattern covers: those below a directory, or those that begin as
      the pattern does in front of its star. */
  lemma CoversMeans(pattern: string, path: string)
    ensures pattern == "" ==> !Covers(pattern, path)
    ensures pattern != "" ==>
      var stem, last := pattern[..|pattern| - 1], pattern[|pattern| - 1];
      Covers(pattern, path) <==> (last == '/' && stem + "/" <= path) || (last == '*' && stem <= path)
  {
    if pattern != "" {
      var stem := pattern[..|pattern| - 1];
      assert pattern == stem + [pattern[|pattern| - 1]];
      assert HasSuffix(pattern, "/") <==> pattern[|pattern| - 1] == '/';
      assert HasSuffix(pattern, "*") <==> pattern[|pattern| - 1] == '*';
    }
  }

  /** A configuration that is accepted. */
  lemma AcceptedExample()
    ensures var users := ["@Cali0707", "@containers/mcp-team_1"];
      Accepted(Config(users, [], [Area("observability/logs", ["/docs/", "/pkg/mcp/kiali*"], users, [])]))
  {
    UserExample();
    TeamExample();
    ToolsetExample();
    PathExamples();
    TwoPathsAccepted("@Cali0707", "@containers/mcp-team_1", "observability/logs", "/docs/", "/pkg/mcp/kiali*");
  }

  lemma TwoPathsAccepted(user: string, team: string, toolset: string, p: string, q: string)
    requires IsUser(user) && IsUser(team) && IsToolset(toolset) && IsPath(p) && IsPath(q)
    requires !Covers(p, q) && !Covers(q, p)
    ensures Accepted(Config([user, team], [], [Area(toolset, [p, q], [user, team], [])]))
  {
    var area := Area(toolset, [p, q], [user, team], []);
    assert [user, team][0] == user && [p, q][0] == p;
    assert [area][..0] == [] && AllPaths([]) == [];
    assert AllPaths([area]) == AllPaths([area][..0]) + [p, q] == [p, q];
    assert GoodArea(area);
  }

  lemma UserExample()
    ensures IsUser("@Cali0707")
  {
    SpelledUser("@Cali0707", "Cali0707");
  }

  lemma TeamExample()
    ensures IsUser("@containers/mcp-team_1")
  {
    SpelledTeam("@containers/mcp-team_1", "containers", "mcp-team_1");
  }

  lemma ToolsetExample()
    ensures IsToolset("observability/logs")
  {
    ToolsetPartMeans("observability");
    ToolsetPartMeans("logs");
    assert "observability" + "/" + "logs" == "observability/logs";
  }

  lemma PathExamples()
    ensures IsPath("/docs/") && IsPath("/pkg/mcp/kiali*")
    ensures !Covers("/docs/", "/pkg/mcp/kiali*") && !Covers("/pkg/mcp/kiali*", "/docs/")
  {
    assert "/docs/"[1] == 'd' && "/pkg/mcp/kiali*"[1] == 'p';
    CoversMeans("/docs/", "/pkg/mcp/kiali*");
    CoversMeans("/pkg/mcp/kiali*", "/docs/");
  }

  // -------------------------------------------------------------------- validation

  method CheckPath(path: string, paths: seq<string>) returns (ok: bool)
    ensures ok <==> IsPath(path) && forall i :: 0 <= i < |paths| ==>
      paths[i] != path ==> !Covers(paths[i], path) && !Covers(path, paths[i])
  {
    PathMeans(path);
    if !GoodPath(path) {
      return false;
    }
    for i := 0 to |paths|
      invariant forall k :: 0 <= k < i && paths[k] != path ==> !Covers(paths[k], path) && !Covers(path, paths[k])
    {
      if paths[i] != path && (Covers(paths[i], path) || Covers(path, paths[i])) {
        return false;
      }
    }
    return true;
  }

  /** The paths of one more area. */
  method AppendPaths(paths: seq<string>, more: seq<string>) returns (ok: bool, all: seq<string>)
    requires NoOverlap(paths)
    ensures ok <==> (forall i :: 0 <= i < |more| ==> IsPath(more[i])) && NoOverlap(paths + more)
    ensures ok ==> all == paths + more
  {
    all := paths;
    for j := 0 to |more|
      invariant forall k :: 0 <= k < j ==> IsPath(more[k])
      invariant all == paths + more[..j] && NoOverlap(all)
    {
      var path := more[j];
      var good := CheckPath(path, all);
      assert forall p :: p in all ==> p in paths + more;
      assert path in paths + more;
      if !good {
        return false, all;
      }
      all := all + [path];
    }
    assert more[..|more|] == more;
    return true, all;
  }

  /** Everything about one area but its paths. */
  ghost predicate GoodHeading(area: Area) {
    && area.paths != []
    && (area.toolset == "" || IsToolset(area.toolset))
    && AllUsers(area.approvers) && AllUsers(area.reviewers)
  }

  method CheckHeading(area: Area, seenToolsets: set<string>) returns (ok: bool)
    ensures ok <==> GoodHeading(area) && (area.toolset == "" || area.toolset !in seenToolsets)
  {
    ToolsetMeans(area.toolset);
    UsersMean(area.approvers);
    UsersMean(area.reviewers);
    if |area.paths| == 0 {
      return false;
    }
    if area.toolset != "" && (!ToolsetName(area.toolset) || area.toolset in seenToolsets) {
      return false;
    }
    return Users(area.approvers) && Users(area.reviewers);
  }

  ghost predicate Seen(areas: seq<Area>, n: nat, toolsets: set<string>)
    requires n <= |areas|
  {
    && (forall t :: t in toolsets ==> exists k :: 0 <= k < n && areas[k].toolset == t)
    && (forall k :: 0 <= k < n && areas[k].toolset != "" ==> areas[k].toolset in toolsets)
  }

  method Validate(config: Config) returns (ok: bool)
    ensures ok <==> Accepted(config)
  {
    UsersMean(config.defaultApprovers);
    UsersMean(config.defaultReviewers);
    if |config.defaultApprovers| == 0 || !Users(config.defaultApprovers) || !Users(config.defaultReviewers) {
      return false;
    }
    ok := ValidateAreas(config.areas);
  }

  method ValidateAreas(areas: seq<Area>) returns (ok: bool)
    ensures ok <==> AcceptedAreas(areas)
  {
    var seenToolsets: set<string> := {};
    var paths: seq<string> := [];
    for i := 0 to |areas|
      invariant Seen(areas, i, seenToolsets) && "" !in seenToolsets
      invariant paths == AllPaths(areas[..i]) && AcceptedAreas(areas[..i])
    {
      var good := CheckHeading(areas[i], seenToolsets);
      if !good {
        BadHeading(areas, i, seenToolsets);
        return false;
      }
      ghost var before, seenBefore := paths, seenToolsets;
      if areas[i].toolset != "" {
        seenToolsets := seenToolsets + {areas[i].toolset};
      }
      good, paths := AppendPaths(paths, areas[i].paths);
      if !good {
        BadPaths(areas, i, before);
        return false;
      }
      OneMoreArea(areas, i, seenBefore, seenToolsets);
    }
    assert areas[..|areas|] == areas;
    return true;
  }

  lemma BadPaths(areas: seq<Area>, i: nat, before: seq<string>)
    requires i < |areas| && before == AllPaths(areas[..i])
    requires !((forall k :: 0 <= k < |areas[i].paths| ==> IsPath(areas[i].paths[k])) && NoOverlap(before + areas[i].paths))
    ensures !AcceptedAreas(areas)
  {
    if AcceptedAreas(areas) {
      assert GoodArea(areas[i]);
      assert areas[..i + 1][..i] == areas[..i];
      PathsOfPrefix(areas, i + 1);
    }
  }

  lemma BadHeading(areas: seq<Area>, i: nat, toolsets: set<string>)
    requires i < |areas| && Seen(areas, i, toolsets)
    requires !GoodHeading(areas[i]) || (areas[i].toolset != "" && areas[i].toolset in toolsets)
    ensures !AcceptedAreas(areas)
  {
    if GoodHeading(areas[i]) {
      var k :| 0 <= k < i && areas[k].toolset == areas[i].toolset;
    } else {
      assert !GoodArea(areas[i]);
    }
  }

  lemma OneMoreArea(areas: seq<Area>, i: nat, before: set<string>, after: set<string>)
    requires i < |areas| && AcceptedAreas(areas[..i]) && Seen(areas, i, before)
    requires GoodHeading(areas[i]) && (areas[i].toolset == "" || areas[i].toolset !in before)
    requires forall k :: 0 <= k < |areas[i].paths| ==> IsPath(areas[i].paths[k])
    requires NoOverlap(AllPaths(areas[..i]) + areas[i].paths)
    requires after == if areas[i].toolset != "" then before + {areas[i].toolset} else before
    ensures AllPaths(areas[..i + 1]) == AllPaths(areas[..i]) + areas[i].paths
    ensures AcceptedAreas(areas[..i + 1]) && Seen(areas, i + 1, after)
  {
    var more := areas[..i + 1];
    assert more[..i] == areas[..i];
    assert GoodArea(areas[i]) && more == areas[..i] + [areas[i]];
    GoodAreasGrow(areas[..i], areas[i]);
    forall k, l | 0 <= k < l < |more| && more[k].toolset != "" ensures more[k].toolset != more[l].toolset {
      assert more[k] == areas[..i][k] && more[k].toolset in before;
      assert l < i ==> more[l] == areas[..i][l];
    }
  }

  lemma GoodAreasGrow(areas: seq<Area>, area: Area)
    requires AllGood(areas) && GoodArea(area)
    ensures AllGood(areas + [area])
  {
  }

  lemma {:induction false} PathsOfPrefix(areas: seq<Area>, n: nat)
    requires n <= |areas|
    ensures forall p :: p in AllPaths(areas[..n]) ==> p in AllPaths(areas)
    decreases |areas|
  {
    if n == |areas| {
      assert areas[..n] == areas;
    } else {
      PathsOfPrefix(areas[..|areas| - 1], n);
      assert areas[..|areas| - 1][..n] == areas[..n];
    }
  }

  // ------------------------------------------------------------------------- users

  /** The users, without regard to case. */
  function Keys(users: seq<string>): set<string> {
    set i | 0 <= i < |users| :: Lower(users[i])
  }

  lemma KeysAppend(a: seq<string>, b: seq<string>)
    ensures Keys(a + b) == Keys(a) + Keys(b)
  {
    forall k | k in Keys(a) + Keys(b) ensures k in Keys(a + b) {
      if k in Keys(a) {
        var i :| 0 <= i < |a| && Lower(a[i]) == k;
        assert (a + b)[i] == a[i];
      } else {
        var i :| 0 <= i < |b| && Lower(b[i]) == k;
        assert (a + b)[|a| + i] == b[i];
      }
    }
  }

  /** The first spelling of each user. */
  function UniqueFrom(users: seq<string>, seen: set<string>): seq<string> {
    if users == [] then []
    else if Lower(users[0]) in seen then UniqueFrom(users[1..], seen)
    else [users[0]] + UniqueFrom(users[1..], seen + {Lower(users[0])})
  }

  /** Dropping repeated users keeps everyone, once. */
  lemma {:induction false} UniqueKeepsUsers(users: seq<string>, seen: set<string>)
    ensures var r := UniqueFrom(users, seen);
      && Keys(r) == Keys(users) - seen
      && |Keys(r)| == |r|
  {
    if users == [] {
    } else {
      var key := Lower(users[0]);
      KeysAppend([users[0]], users[1..]);
      assert Keys([users[0]]) == {key} by {
        assert [users[0]][0] == users[0];
      }
      assert users == [users[0]] + users[1..];
      UniqueKeepsUsers(users[1..], if key in seen then seen else seen + {key});
      if key !in seen {
        var rest := UniqueFrom(users[1..], seen + {key});
        KeysAppend([users[0]], rest);
        assert key !in Keys(rest);
      }
    }
  }

  lemma {:induction false} UniqueFromAppend(a: seq<string>, b: seq<string>, seen: set<string>)
    ensures UniqueFrom(a + b, seen) == UniqueFrom(a, seen) + UniqueFrom(b, seen + Keys(a))
    decreases |a|
  {
    if a == [] {
      assert a + b == b && seen + Keys(a) == seen;
    } else {
      assert (a + b)[1..] == a[1..] + b;
      KeysAppend([a[0]], a[1..]);
      assert a == [a[0]] + a[1..];
      assert [a[0]][0] == a[0] && Keys([a[0]]) == {Lower(a[0])};
      var next := if Lower(a[0]) in seen then seen else seen + {Lower(a[0])};
      assert next + Keys(a[1..]) == seen + Keys(a);
      UniqueFromAppend(a[1..], b, next);
    }
  }

  function Flat(groups: seq<seq<string>>): seq<string>
    decreases |groups|
  {
    if groups == [] then [] else Flat(groups[..|groups| - 1]) + groups[|groups| - 1]
  }

  /** One more user: what UniqueFrom and Keys become. */
  lemma OneMoreUser(users: seq<string>, user: string)
    ensures UniqueFrom(users + [user], {})
      == UniqueFrom(users, {}) + if Lower(user) in Keys(users) then [] else [user]
    ensures Keys(users + [user]) == Keys(users) + {Lower(user)}
  {
    UniqueFromAppend(users, [user], {});
    KeysAppend(users, [user]);
    assert [user][0] == user && [user][1..] == [] && Keys([user]) == {Lower(user)};
    assert {} + Keys(users) == Keys(users);
  }

  lemma FlatSteps(groups: seq<seq<string>>, i: nat, j: nat)
    requires i < |groups| && j < |groups[i]|
    ensures Flat(groups[..i]) + groups[i][..j + 1] == Flat(groups[..i]) + groups[i][..j] + [groups[i][j]]
  {
  }

  lemma FlatGroups(groups: seq<seq<string>>, i: nat)
    requires i < |groups|
    ensures Flat(groups[..i]) + groups[i][..0] == Flat(groups[..i])
    ensures Flat(groups[..i]) + groups[i][..|groups[i]|] == Flat(groups[..i + 1])
  {
    assert groups[..i + 1][..i] == groups[..i] && groups[i][..|groups[i]|] == groups[i];
  }

  method Unique(groups: seq<seq<string>>) returns (unique: seq<string>)
    ensures unique == UniqueFrom(Flat(groups), {})
    ensures Keys(unique) == Keys(Flat(groups)) && |Keys(unique)| == |unique|
  {
    unique := [];
    var seen: set<string> := {};
    for i := 0 to |groups|
      invariant unique == UniqueFrom(Flat(groups[..i]), {}) && seen == Keys(Flat(groups[..i]))
    {
      FlatGroups(groups, i);
      for j := 0 to |groups[i]|
        invariant unique == UniqueFrom(Flat(groups[..i]) + groups[i][..j], {})
        invariant seen == Keys(Flat(groups[..i]) + groups[i][..j])
      {
        FlatSteps(groups, i, j);
        OneMoreUser(Flat(groups[..i]) + groups[i][..j], groups[i][j]);
        var user := groups[i][j];
        var key := Lower(user);
        if key !in seen {
          unique := unique + [user];
          seen := seen + {key};
        }
      }
    }
    assert groups[..|groups|] == groups;
    UniqueKeepsUsers(Flat(groups), {});
  }
}
