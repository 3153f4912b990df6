/** Workspace discovery and workspace URLs of pkg/kcp/workspace.go. */
module Workspaces {
  import opened Strings
  import opened Wrappers

  /** What listing a workspace gives: the names of its children, or a failure of the
      client or of the list call. */
  type Listing = string -> Option<seq<string>>

  /** A failed listing has no children, and an empty name is none. */
  ghost predicate IsChild(list: Listing, parent: string, w: string) {
    && list(parent).Some?
    && exists k :: 0 <= k < |list(parent).value| && list(parent).value[k] != "" && w == parent + ":" + list(parent).value[k]
  }

  /** Closed under the children of its members. */
  ghost predicate Closed(list: Listing, s: set<string>) {
    forall w, child :: w in s && IsChild(list, w, child) ==> child in s
  }

  /** The least closed set with the root. */
  ghost predicate Least(list: Listing, root: string, s: set<string>) {
    && root in s && Closed(list, s)
    && forall t: set<string> :: root in t && Closed(list, t) ==> s <= t
  }

  /** w is in every closed set that has the root. */
  ghost predicate Needed(list: Listing, root: string, w: string) {
    forall t: set<string> :: root in t && Closed(list, t) ==> w in t
  }

  lemma ChildIsNeeded(list: Listing, root: string, parent: string, child: string)
    requires Needed(list, root, parent) && IsChild(list, parent, child)
    ensures Needed(list, root, child)
  {
    forall t: set<string> | root in t && Closed(list, t) ensures child in t {
      assert parent in t;
    }
  }

  /** Closed but for some workspaces whose children are still being visited. */
  ghost predicate ClosedExcept(list: Listing, s: set<string>, busy: set<string>) {
    forall w, child :: w in s && w !in busy && IsChild(list, w, child) ==> child in s
  }

  /** The list has the elements of the set, each once. */
  ghost predicate Once(listed: seq<string>, s: set<string>) {
    multiset(listed) == multiset(s)
  }

  lemma OnceMore(listed: seq<string>, s: set<string>, w: string)
    requires w in s && Once(listed, s - {w})
    ensures Once(listed + [w], s)
  {
    assert s == (s - {w}) + {w};
  }

  lemma NamedChild(list: Listing, parent: string, k: nat)
    requires list(parent).Some? && k < |list(parent).value| && list(parent).value[k] != ""
    ensures IsChild(list, parent, parent + ":" + list(parent).value[k])
  {
  }

  lemma NoChildren(list: Listing, s: set<string>, busy: set<string>, w: string)
    requires ClosedExcept(list, s, busy + {w}) && list(w).None?
    ensures ClosedExcept(list, s, busy)
  {
  }

  lemma AllChildrenFound(list: Listing, s: set<string>, busy: set<string>, w: string)
    requires ClosedExcept(list, s, busy + {w}) && list(w).Some?
    requires forall k :: 0 <= k < |list(w).value| && list(w).value[k] != "" ==> w + ":" + list(w).value[k] in s
    ensures ClosedExcept(list, s, busy)
  {
  }

  // --------------------------------------------------------------------- discovery

  class Discovery {
    const list: Listing
    ghost const root: string
    var discovered: set<string>
    var listed: seq<string>  // the workspaces listed so far

    constructor (list: Listing, root: string)
      ensures this.list == list && this.root == root && discovered == {root} && listed == []
    {
      this.list, this.root, discovered, listed := list, root, {root}, [];
    }

    /** Everything discovered is needed. */
    ghost predicate Sound(all: set<string>)
      reads this
    {
      discovered <= all && Closed(list, all) && forall w :: w in discovered ==> Needed(list, root, w)
    }

    /** `busy` are the ancestors whose children are being visited. `all` is any finite
        closed set around what is discovered; that there is one is what makes the
        recursion end. */
    method DiscoverWorkspacesRecursive(parent: string, ghost busy: set<string>, ghost all: set<string>)
      requires parent in discovered && Sound(all)
      requires ClosedExcept(list, discovered, busy + {parent}) && Once(listed, discovered - {parent})
      modifies this
      ensures old(discovered) <= discovered && Sound(all)
      ensures ClosedExcept(list, discovered, busy) && Once(listed, discovered)
      decreases all - discovered, 2
    {
      OnceMore(listed, discovered, parent);
      listed := listed + [parent];
      if list(parent).None? {
        NoChildren(list, discovered, busy, parent);
        return;
      }
      VisitChildren(parent, list(parent).value, busy + {parent}, all);
      AllChildrenFound(list, discovered, busy, parent);
    }

    method VisitChildren(parent: string, names: seq<string>, ghost busy: set<string>, ghost all: set<string>)
      requires parent in discovered && Sound(all) && list(parent) == Some(names)
      requires ClosedExcept(list, discovered, busy) && Once(listed, discovered)
      modifies this
      ensures old(discovered) <= discovered && Sound(all)
      ensures ClosedExcept(list, discovered, busy) && Once(listed, discovered)
      ensures forall k :: 0 <= k < |names| && names[k] != "" ==> parent + ":" + names[k] in discovered
      decreases all - discovered, 1
    {
      for i := 0 to |names|
        invariant old(discovered) <= discovered && Sound(all)
        invariant ClosedExcept(list, discovered, busy) && Once(listed, discovered)
        invariant forall k :: 0 <= k < i && names[k] != "" ==> parent + ":" + names[k] in discovered
      {
        if names[i] != "" {
          var fullPath := parent + ":" + names[i];
          NamedChild(list, parent, i);
          if fullPath !in discovered {
            Visit(parent, fullPath, busy, all);
          }
        }
      }
    }

    method Visit(parent: string, child: string, ghost busy: set<string>, ghost all: set<string>)
      requires parent in discovered && Sound(all) && IsChild(list, parent, child) && child !in discovered
      requires ClosedExcept(list, discovered, busy) && Once(listed, discovered)
      modifies this
      ensures old(discovered) + {child} <= discovered && Sound(all)
      ensures ClosedExcept(list, discovered, busy) && Once(listed, discovered)
      decreases all - discovered, 0
    {
      ChildIsNeeded(list, root, parent, child);
      assert discovered + {child} - {child} == discovered;
      discovered := discovered + {child};
      DiscoverWorkspacesRecursive(child, busy, all);
    }
  }

  /** What the workspaces are called: besides the root, exactly what a workspace's name,
      a colon, and a name that is listed under it make together. */
  ghost predicate CalledAfterParents(list: Listing, root: string, s: set<string>) {
    && root in s
    && (forall p, k :: p in s && list(p).Some? && 0 <= k < |list(p).value| && list(p).value[k] != "" ==>
          p + ":" + list(p).value[k] in s)
    && (forall w :: w in s && w != root ==> exists p :: p in s && list(p).Some? && ListedUnder(list(p).value, p, w))
  }

  ghost predicate ListedUnder(names: seq<string>, p: string, w: string) {
    exists k :: 0 <= k < |names| && names[k] != "" && w == p + ":" + names[k]
  }

  lemma LeastIsCalledAfterParents(list: Listing, root: string, s: set<string>)
    requires Least(list, root, s)
    ensures CalledAfterParents(list, root, s)
  {
    forall p, k | p in s && list(p).Some? && 0 <= k < |list(p).value| && list(p).value[k] != ""
      ensures p + ":" + list(p).value[k] in s
    {
      NamedChild(list, p, k);
    }
    var t := set w | w in s && (w == root || exists p :: p in s && IsChild(list, p, w));
    assert Closed(list, t);
    forall w | w in s && w != root ensures exists p :: p in s && IsChild(list, p, w) {
      assert w in t;
    }
  }

  /** w begins with the root, and each further part of it is listed under those before it. */
  ghost predicate Addressed(list: Listing, root: string, w: string) {
    var parts := Split(w, ':');
    && parts[0] == root
    && forall i :: 0 < i < |parts| ==> parts[i] != "" && list(Join(parts[..i], ':')).Some?
                                       && parts[i] in list(Join(parts[..i], ':')).value
  }

  lemma ChildIsAddressed(list: Listing, root: string, p: string, name: string)
    requires Addressed(list, root, p) && list(p).Some? && name in list(p).value && name != "" && ':' !in name
    ensures Addressed(list, root, p + ":" + name)
  {
    var front, parts := Split(p, ':'), Split(p + ":" + name, ':');
    SplitAtLast(p, name, ':');
    JoinSplit(p, ':');
    assert parts[..|front|] == front;
    forall i | 0 < i < |front| ensures parts[..i] == front[..i] && parts[i] == front[i] {
    }
  }

  /** When no name has a colon of its own, splitting a workspace at colons gives the
      root and the names along a chain of listings that leads to it. */
  lemma WorkspacesAreAddresses(list: Listing, root: string, s: set<string>)
    requires Least(list, root, s) && ':' !in root
    requires forall p, k :: p in s && list(p).Some? && 0 <= k < |list(p).value| ==> ':' !in list(p).value[k]
    ensures forall w :: w in s ==> Addressed(list, root, w)
  {
    var t := set w | w in s && Addressed(list, root, w);
    SplitWithout(root, ':');
    assert root in t;
    forall p, child | p in t && IsChild(list, p, child) ensures child in t {
      var k :| 0 <= k < |list(p).value| && list(p).value[k] != "" && child == p + ":" + list(p).value[k];
      ChildIsAddressed(list, root, p, list(p).value[k]);
      assert child in s;
    }
    assert Closed(list, t);
    forall w | w in s ensures Addressed(list, root, w) {
      assert w in t;
    }
  }

  /** All workspaces below the root: exactly those the children of children lead to,
      each of them listed once. */
  method DiscoverAllWorkspaces(list: Listing, root: string, ghost all: set<string>)
    returns (workspaces: set<string>, listed: seq<string>)
    requires root in all && Closed(list, all)
    ensures Least(list, root, workspaces) && CalledAfterParents(list, root, workspaces) && Once(listed, workspaces)
  {
    var d := new Discovery(list, root);
    assert {root} - {root} == {};
    d.DiscoverWorkspacesRecursive(root, {}, all);
    assert Least(list, root, d.discovered);
    LeastIsCalledAfterParents(list, root, d.discovered);
    return d.discovered, d.listed;
  }

  // --------------------------------------------------------------- failed listings

  /** A chain of children from the root to its last element. */
  ghost predicate Chain(list: Listing, root: string, path: seq<string>) {
    && path != [] && path[0] == root
    && forall i :: 0 <= i < |path| - 1 ==> IsChild(list, path[i], path[i + 1])
  }

  lemma {:induction false} ChainStays(list: Listing, root: string, path: seq<string>, s: set<string>)
    requires Chain(list, root, path) && root in s && Closed(list, s)
    ensures forall i :: 0 <= i < |path| ==> path[i] in s
    decreases |path|
  {
    if |path| > 1 {
      var front := path[..|path| - 1];
      assert forall i :: 0 <= i < |front| - 1 ==> IsChild(list, path[i], path[i + 1]);
      ChainStays(list, root, front, s);
      assert front[|front| - 1] == path[|path| - 2];
      assert IsChild(list, path[|path| - 2], path[|path| - 2 + 1]);
      forall i | 0 <= i < |path| ensures path[i] in s {
        assert i < |front| ==> path[i] == front[i];
      }
    }
  }

  /** The listing with some of the workspaces failing. */
  function Failing(list: Listing, failed: set<string>): Listing {
    w => if w in failed then None else list(w)
  }

  /** Failed listings drop only what is reached through them alone: whatever can be
      reached without passing one is still discovered, and nothing else is. */
  lemma FailedListingDropsOnlyItsOwn(list: Listing, failed: set<string>, root: string, all: set<string>, found: set<string>)
    requires Least(list, root, all) && Least(Failing(list, failed), root, found)
    ensures found <= all
    ensures forall path :: Chain(list, root, path) && (forall i :: 0 <= i < |path| - 1 ==> path[i] !in failed)
              ==> path[|path| - 1] in found
  {
    var failing := Failing(list, failed);
    assert Closed(failing, all) by {
      forall w, child | w in all && IsChild(failing, w, child) ensures child in all {
        assert IsChild(list, w, child);
      }
    }
    forall path | Chain(list, root, path) && (forall i :: 0 <= i < |path| - 1 ==> path[i] !in failed)
      ensures path[|path| - 1] in found
    {
      forall i | 0 <= i < |path| - 1 ensures IsChild(failing, path[i], path[i + 1]) {
        assert IsChild(list, path[i], path[i + 1]);
        assert failing(path[i]) == list(path[i]);
      }
      ChainStays(failing, root, path, found);
    }
  }

  // -------------------------------------------------------------------------- URLs

  const MARKER := "/clusters/"

  predicate OccursAt(s: string, sub: string, j: int) {
    0 <= j && j + |sub| <= |s| && s[j..j + |sub|] == sub
  }

  lemma OccursBehindFirst(s: string, sub: string, j: int)
    requires |s| > 0 && j > 0
    ensures OccursAt(s, sub, j) <==> OccursAt(s[1..], sub, j - 1)
  {
    if j + |sub| <= |s| {
      assert s[1..][j - 1..j - 1 + |sub|] == s[j..j + |sub|];
    }
  }

  /** The first occurrence of a substring, -1 when there is none. */
  function Index(s: string, sub: string): (i: int)
    ensures i >= -1 && (i >= 0 ==> i + |sub| <= |s|)
    decreases |s|
  {
    if OccursAt(s, sub, 0) then 0
    else if s == "" then -1
    else
      var rest := Index(s[1..], sub);
      if rest < 0 then -1 else rest + 1
  }

  lemma {:induction false} IndexIsFirst(s: string, sub: string)
    ensures Index(s, sub) >= 0 ==> OccursAt(s, sub, Index(s, sub))
    ensures forall j :: OccursAt(s, sub, j) ==> 0 <= Index(s, sub) <= j
    decreases |s|
  {
    if !OccursAt(s, sub, 0) && s != "" {
      IndexIsFirst(s[1..], sub);
      var rest := Index(s[1..], sub);
      if rest >= 0 {
        OccursBehindFirst(s, sub, rest + 1);
      }
      forall j | OccursAt(s, sub, j) ensures 0 <= rest < j {
        OccursBehindFirst(s, sub, j);
      }
    }
  }

  /** A prefix decides what occurs within it. */
  lemma OccursInPrefix(s: string, t: string, n: nat, sub: string, j: int)
    requires n <= |s| && n <= |t| && s[..n] == t[..n] && j + |sub| <= n
    ensures OccursAt(s, sub, j) <==> OccursAt(t, sub, j)
  {
    if 0 <= j {
      assert s[j..j + |sub|] == s[..n][j..j + |sub|];
      assert t[j..j + |sub|] == t[..n][j..j + |sub|];
    }
  }

  function ParseServerURL(url: string): (string, string) {
    var i := Index(url, MARKER);
    if i < 0 then (url, "") else (url[..i], TrimSuffix(url[i + |MARKER|..], "/"))
  }

  function ConstructWorkspaceURL(base: string, workspace: string): string {
    base + MARKER + workspace
  }

  /** A constructed URL is parsed back exactly when the base does not run into a
      marker of its own and the workspace does not end in a slash. */
  lemma WorkspaceURLRoundTrip(base: string, workspace: string)
    ensures ConstructWorkspaceURL(base, workspace) == base + "/clusters/" + workspace
    ensures ParseServerURL(ConstructWorkspaceURL(base, workspace)) == (base, workspace)
      <==> Index(base + "/clusters", MARKER) < 0 && !HasSuffix(workspace, "/")
  {
    var url := ConstructWorkspaceURL(base, workspace);
    IndexIsFirst(url, MARKER);
    IndexIsFirst(base + "/clusters", MARKER);
    var i, early := Index(url, MARKER), Index(base + "/clusters", MARKER);
    var n := |base| + |MARKER| - 1;
    assert OccursAt(url, MARKER, |base|);
    assert url[..n] == (base + "/clusters")[..n];
    if i < |base| {
      OccursInPrefix(url, base + "/clusters", n, MARKER, i);
      assert url[..i] != base;
    } else {
      assert url[..i] == base && url[i + |MARKER|..] == workspace;
      if early >= 0 {
        OccursInPrefix(url, base + "/clusters", n, MARKER, early);
      }
    }
  }

  /** One slash behind the workspace is dropped, and a URL without a marker is all base. */
  lemma ParsedElsewhere(base: string, workspace: string)
    ensures Index(base, MARKER) < 0 ==> ParseServerURL(base) == (base, "")
    ensures Index(base + "/clusters", MARKER) < 0 ==>
      ParseServerURL(base + "/clusters/" + workspace + "/") == (base, workspace)
  {
    if Index(base + "/clusters", MARKER) < 0 {
      var more := workspace + "/";
      var url := ConstructWorkspaceURL(base, more);
      assert url == base + "/clusters/" + workspace + "/";
      MarkerBehindBase(base, more);
      assert url[..|base|] == base && url[|base| + |MARKER|..] == more;
      assert more[..|workspace|] == workspace && more[|more| - 1..] == "/";
    }
  }

  lemma MarkerBehindBase(base: string, behind: string)
    requires Index(base + "/clusters", MARKER) < 0
    ensures Index(ConstructWorkspaceURL(base, behind), MARKER) == |base|
  {
    assert MARKER[..|MARKER| - 1] == "/clusters";
    IndexIsFirst(base + "/clusters", MARKER);
    FirstBehind(base, MARKER, behind, base + "/clusters");
  }

  /** A string that is not in `base`, nor runs into it from behind, is first found behind it. */
  lemma FirstBehind(base: string, sub: string, behind: string, front: string)
    requires sub != "" && front == base + sub[..|sub| - 1] && forall j :: !OccursAt(front, sub, j)
    ensures Index(base + sub + behind, sub) == |base|
  {
    var s := base + sub + behind;
    IndexIsFirst(s, sub);
    assert s[|base|..|base| + |sub|] == sub;
    assert OccursAt(s, sub, |base|);
    assert s[..|front|] == front;
    assert front[..|front|] == front;
    if Index(s, sub) < |base| {
      OccursInPrefix(s, front, |front|, sub, Index(s, sub));
    }
  }

  lemma FirstMarkerStays(base: string, tail: string, other: string)
    requires Index(base + MARKER + tail, MARKER) == |base|
    ensures Index(base + MARKER + other, MARKER) == |base|
  {
    var url, again := base + MARKER + tail, base + MARKER + other;
    IndexIsFirst(again, MARKER);
    IndexIsFirst(url, MARKER);
    var i := Index(again, MARKER);
    assert OccursAt(again, MARKER, |base|);
    if i < |base| {
      assert url[..|base + MARKER|] == again[..|base + MARKER|];
      OccursInPrefix(again, url, |base + MARKER|, MARKER, i);
    }
  }

  lemma SplitAround(s: string, sub: string, at: int)
    requires OccursAt(s, sub, at)
    ensures s == s[..at] + sub + s[at + |sub|..]
  {
  }

  lemma ParsedBase(base: string, tail: string)
    requires Index(base + MARKER + tail, MARKER) == |base|
    ensures ParseServerURL(base + MARKER + tail).0 == base
  {
    assert (base + MARKER + tail)[..|base|] == base;
  }

  /** The base of a workspace URL stays the base of every URL constructed from it. */
  lemma ParsedBaseIsStable(url: string, workspace: string)
    requires Index(url, MARKER) >= 0
    ensures ParseServerURL(ConstructWorkspaceURL(ParseServerURL(url).0, workspace)).0 == ParseServerURL(url).0
  {
    IndexIsFirst(url, MARKER);
    var at := Index(url, MARKER);
    var base, tail := url[..at], url[at + |MARKER|..];
    SplitAround(url, MARKER, at);
    FirstMarkerStays(base, tail, workspace);
    ParsedBase(base, workspace);
  }
}
