/** Parsing of Kubernetes API paths (pkg/kubernetes/accesscontrol_round_tripper.go). */
module ApiPath {
  import opened Strings
  import opened Wrappers

  datatype Gvr = Gvr(group: string, version: string, resource: string)

  const MARKER := "namespaces"

  // ----------------------------------------------------------------------- parsing

  function TrimSlashes(s: string): string {
    if s == "" then ""
    else if s[0] == '/' then TrimSlashes(s[1..])
    else TrimRight(s)
  }

  function TrimRight(s: string): string {
    if s != "" && s[|s| - 1] == '/' then TrimRight(s[..|s| - 1]) else s
  }

  function Parts(path: string): (parts: seq<string>)
    ensures |parts| > 0
  {
    Split(TrimSlashes(path), '/')
  }

  function ParseURLToGVR(path: string): Option<Gvr> {
    var parts := Parts(path);
    if parts[0] == "api" then
      if |parts| < 3 then None
      else Some(Gvr("", parts[1], if parts[2] == MARKER && |parts| > 4 then parts[4] else parts[2]))
    else if parts[0] == "apis" then
      if |parts| < 4 then None
      else Some(Gvr(parts[1], parts[2], if parts[3] == MARKER && |parts| > 5 then parts[5] else parts[3]))
    else None
  }

  function FindResourceTypeIndex(parts: seq<string>): (i: int)
    ensures -1 <= i < |parts|
  {
    if |parts| == 0 then -1
    else if parts[0] == "api" then
      if |parts| < 3 then -1 else if parts[2] == MARKER && |parts| > 4 then 4 else 2
    else if parts[0] == "apis" then
      if |parts| < 4 then -1 else if parts[3] == MARKER && |parts| > 5 then 5 else 3
    else -1
  }

  /** The segment behind the first marker that has one behind it. */
  method ParseURLToNamespaceAndName(path: string) returns (namespace: string, name: string)
    ensures namespace == BehindMarker(Parts(path)) && name == NameOf(path)
  {
    var parts := Parts(path);
    namespace, name := "", "";
    var i := 0;
    while i < |parts|
      invariant 0 <= i <= |parts| && namespace == ""
      invariant BehindMarker(parts[i..]) == BehindMarker(parts)
    {
      if parts[i] == MARKER && i + 1 < |parts| {
        namespace := parts[i + 1];
        break;
      }
      i := i + 1;
    }
    var resourceIdx := FindResourceTypeIndex(parts);
    if resourceIdx >= 0 && resourceIdx + 1 < |parts| {
      name := parts[resourceIdx + 1];
    }
  }

  function BehindMarker(parts: seq<string>): string {
    if |parts| < 2 then ""
    else if parts[0] == MARKER then parts[1]
    else BehindMarker(parts[1..])
  }

  /** The n-th segment behind the resource, "" when there is none. */
  function BehindResource(path: string, n: nat): string {
    var parts := Parts(path);
    var i := FindResourceTypeIndex(parts);
    if i >= 0 && i + n < |parts| then parts[i + n] else ""
  }

  function NameOf(path: string): string {
    BehindResource(path, 1)
  }

  function ParseSubresource(path: string): string {
    BehindResource(path, 2)
  }

  predicate IsCollectionPath(path: string) {
    FindResourceTypeIndex(Parts(path)) == |Parts(path)| - 1
  }

  function StripAPIPathPrefix(path: string, prefix: string): string {
    var p := TrimSuffix(prefix, "/");
    if p == "" then path
    else if path == p then "/"
    else if HasPrefix(path, p + "/") then path[|p|..]
    else path
  }

  function HttpMethodToVerb(verb: string, path: string): string {
    if verb == "GET" then (if IsCollectionPath(path) then "list" else "get")
    else if verb == "POST" then "create"
    else if verb == "PUT" then "update"
    else if verb == "PATCH" then "patch"
    else if verb == "DELETE" then (if IsCollectionPath(path) then "deletecollection" else "delete")
    else Lower(verb)
  }

  // ---------------------------------------------------------------------- printing

  /** What a request is about. The core group is "". */
  datatype Request = Request(group: string, version: string, namespace: Option<string>, resource: string,
                             name: Option<string>, subresource: Option<string>)

  ghost predicate Segment(s: string) {
    s != "" && '/' !in s
  }

  ghost predicate SegmentIfAny(s: Option<string>) {
    s.Some? ==> Segment(s.value)
  }

  /** Requests that have a path: segments are not empty and have no slash. */
  ghost predicate Printable(r: Request) {
    && (r.group == "" || Segment(r.group)) && Segment(r.version) && Segment(r.resource)
    && SegmentIfAny(r.namespace) && SegmentIfAny(r.name) && SegmentIfAny(r.subresource)
    && (r.subresource.Some? ==> r.name.Some?)
  }

  function OptionalSegment(s: Option<string>): seq<string> {
    if s.Some? then [s.value] else []
  }

  function Segments(r: Request): (parts: seq<string>)
    ensures |parts| > 0
  {
    (if r.group == "" then ["api", r.version] else ["apis", r.group, r.version])
    + (if r.namespace.Some? then [MARKER, r.namespace.value] else [])
    + [r.resource] + OptionalSegment(r.name) + OptionalSegment(r.subresource)
  }

  function Print(r: Request): string {
    "/" + Join(Segments(r), '/')
  }

  function OrEmpty(s: Option<string>): string {
    if s.Some? then s.value else ""
  }

  lemma {:induction false} JoinEnds(parts: seq<string>)
    requires parts != [] && forall i :: 0 <= i < |parts| ==> Segment(parts[i])
    ensures var s := Join(parts, '/'); s != "" && s[0] != '/' && s[|s| - 1] != '/'
  {
    if |parts| > 1 {
      JoinEnds(parts[1..]);
    }
  }

  /** Splitting a printed path gives its segments. */
  lemma PartsOfPrinted(r: Request)
    requires Printable(r)
    ensures Parts(Print(r)) == Segments(r)
  {
    var parts := Segments(r);
    assert forall i :: 0 <= i < |parts| ==> Segment(parts[i]);
    JoinEnds(parts);
    var joined := Join(parts, '/');
    assert Print(r)[1..] == joined;
    assert TrimSlashes(Print(r)) == TrimSlashes(joined) == TrimRight(joined) == joined;
    SplitJoin(parts, '/');
  }

  /** What a printed path reads. */
  lemma PrintReads(r: Request)
    ensures Print(r) == "/" + ((if r.group == "" then "api/" + r.version else "apis/" + r.group + "/" + r.version)
                               + (if r.namespace.Some? then "/namespaces/" + r.namespace.value else "")
                               + "/" + r.resource
                               + (if r.name.Some? then "/" + r.name.value else "")
                               + (if r.subresource.Some? then "/" + r.subresource.value else ""))
  {
    var front := if r.group == "" then ["api", r.version] else ["apis", r.group, r.version];
    var space := if r.namespace.Some? then [MARKER, r.namespace.value] else [];
    FrontReads(r);
    SpaceReads(front, r.namespace);
    JoinSnoc(front + space, r.resource, '/');
    OptionalReads(front + space + [r.resource], r.name);
    OptionalReads(front + space + [r.resource] + OptionalSegment(r.name), r.subresource);
  }

  lemma FrontReads(r: Request)
    ensures Join(if r.group == "" then ["api", r.version] else ["apis", r.group, r.version], '/')
      == if r.group == "" then "api/" + r.version else "apis/" + r.group + "/" + r.version
  {
    if r.group == "" {
      JoinSnoc(["api"], r.version, '/');
      assert ["api"] + [r.version] == ["api", r.version] && "api" + "/" == "api/";
    } else {
      JoinSnoc(["apis"], r.group, '/');
      JoinSnoc(["apis", r.group], r.version, '/');
      assert ["apis"] + [r.group] == ["apis", r.group] && ["apis", r.group] + [r.version] == ["apis", r.group, r.version];
      assert "apis" + "/" == "apis/";
    }
  }

  lemma SpaceReads(front: seq<string>, namespace: Option<string>)
    requires front != []
    ensures Join(front + (if namespace.Some? then [MARKER, namespace.value] else []), '/')
      == Join(front, '/') + (if namespace.Some? then "/namespaces/" + namespace.value else "")
  {
    if namespace.Some? {
      JoinSnoc(front, MARKER, '/');
      JoinSnoc(front + [MARKER], namespace.value, '/');
      assert front + [MARKER] + [namespace.value] == front + [MARKER, namespace.value];
      AroundMarker(Join(front, '/'), MARKER, namespace.value);
      assert "/" + MARKER + "/" == "/namespaces/";
    } else {
      assert front + [] == front;
    }
  }

  lemma AroundMarker(front: string, marker: string, behind: string)
    ensures front + "/" + marker + "/" + behind == front + ("/" + marker + "/" + behind)
  {
  }

  lemma OptionalReads(front: seq<string>, s: Option<string>)
    requires front != []
    ensures Join(front + OptionalSegment(s), '/') == Join(front, '/') + (if s.Some? then "/" + s.value else "")
  {
    if s.Some? {
      JoinSnoc(front, s.value, '/');
    } else {
      assert front + [] == front;
    }
  }

  /** Slashes around a path do not matter. */
  lemma SlashesAround(path: string)
    ensures Parts("/" + path) == Parts(path) && Parts(path + "/") == Parts(path)
  {
    assert ("/" + path)[1..] == path;
    SlashBehind(path);
  }

  lemma {:induction false} SlashBehind(path: string)
    ensures TrimSlashes(path + "/") == TrimSlashes(path)
    decreases |path|
  {
    var s := path + "/";
    if path == "" {
      assert s[1..] == "";
    } else if path[0] == '/' {
      assert s[1..] == path[1..] + "/";
      SlashBehind(path[1..]);
    } else {
      assert s[..|s| - 1] == path;
    }
  }

  // --------------------------------------------------------------------- theorems

  /** For every path, the resource is parsed exactly when its segment is found, and
      it is that segment. */
  lemma SameResourceSegment(path: string)
    ensures var i := FindResourceTypeIndex(Parts(path)); var gvr := ParseURLToGVR(path);
      && (gvr.Some? <==> i >= 0)
      && (gvr.Some? ==> gvr.value.resource == Parts(path)[i])
  {
  }

  /** A printed path is parsed to the same group, version, resource, name,
      subresource and collection flag, except for one kind of request: a subresource
      of a cluster-wide resource that is called "namespaces". */
  lemma ResourceRoundTrip(r: Request)
    requires Printable(r)
    ensures var path := Print(r);
      && ParseURLToGVR(path) == Some(Gvr(r.group, r.version, r.resource))
      && NameOf(path) == OrEmpty(r.name)
      && ParseSubresource(path) == OrEmpty(r.subresource)
      && (IsCollectionPath(path) <==> r.name.None?)
      <==> !(r.namespace.None? && r.resource == MARKER && r.subresource.Some?)
  {
    PartsOfPrinted(r);
  }

  /** The namespace a request is checked against: its own, or, for the resource
      "namespaces", the namespace it names. */
  function NamespaceOf(r: Request): string {
    if r.namespace.Some? then r.namespace.value
    else if r.resource == MARKER then OrEmpty(r.name)
    else ""
  }

  /** What is parsed as the namespace when group and version are not called "namespaces". */
  lemma NamespaceOfPlain(r: Request)
    requires Printable(r) && r.group != MARKER && r.version != MARKER
    ensures BehindMarker(Segments(r))
      == if r.namespace.None? && r.resource != MARKER && r.name == Some(MARKER) then OrEmpty(r.subresource)
         else NamespaceOf(r)
  {
    var parts := Segments(r);
    var front := if r.group == "" then 2 else 3;
    SkipToMarker(parts, front);
    var rest := parts[front..];
    if r.namespace.Some? {
      assert rest[0] == MARKER && rest[1] == r.namespace.value;
    } else if r.name.None? {
      assert rest == [r.resource];
    } else if r.subresource.None? {
      assert rest == [r.resource, r.name.value];
      assert rest[1..] == [r.name.value];
    } else {
      assert rest == [r.resource, r.name.value, r.subresource.value];
      BehindMarkerOfThree(r.resource, r.name.value, r.subresource.value);
    }
  }

  lemma BehindMarkerOfThree(a: string, b: string, c: string)
    ensures BehindMarker([a, b, c]) == if a == MARKER then b else if b == MARKER then c else ""
  {
    assert [a, b, c][1..] == [b, c] && [b, c][1..] == [c] && BehindMarker([c]) == "";
  }

  lemma NamespaceOfMarkedFront(r: Request)
    requires Printable(r) && (r.group == MARKER || r.version == MARKER)
    ensures BehindMarker(Segments(r))
      == if r.group == MARKER then r.version else if r.namespace.Some? then MARKER else r.resource
  {
    var parts := Segments(r);
    var at := if r.group == "" || r.group == MARKER then 1 else 2;
    SkipToMarker(parts, at);
    assert parts[at..][0] == MARKER && parts[at..][1] == parts[at + 1];
  }

  /** The namespace is parsed back as well, with two exceptions. A cluster-wide object
      called "namespaces" has its subresource taken for one. And a group or version
      called "namespaces" is itself taken for the marker, so that what stands behind it
      is parsed, which is the right namespace only by coincidence. */
  lemma NamespaceRoundTrip(r: Request)
    requires Printable(r)
    ensures BehindMarker(Parts(Print(r))) == NamespaceOf(r) <==>
      if r.group == MARKER then r.version == NamespaceOf(r)
      else if r.version == MARKER then
        (if r.namespace.Some? then r.namespace.value == MARKER else r.resource == MARKER && r.name == Some(MARKER))
      else !(r.namespace.None? && r.resource != MARKER && r.name == Some(MARKER) && r.subresource.Some?)
  {
    PartsOfPrinted(r);
    if r.group == MARKER || r.version == MARKER {
      NamespaceOfMarkedFront(r);
    } else {
      NamespaceOfPlain(r);
    }
  }

  lemma {:induction false} SkipToMarker(parts: seq<string>, n: nat)
    requires n < |parts| && forall i :: 0 <= i < n ==> parts[i] != MARKER
    ensures BehindMarker(parts) == BehindMarker(parts[n..])
    decreases n
  {
    if n == 0 {
      assert parts[0..] == parts;
    } else {
      SkipToMarker(parts[1..], n - 1);
      assert parts[1..][n - 1..] == parts[n..];
    }
  }

  /** Kinds the two theorems exclude, with what is parsed instead: the status of the
      namespace prod, and the proxy of a node called "namespaces". */
  lemma MisparsedRequests()
    ensures Print(STATUS) == "/api/v1/namespaces/prod/status"
    ensures ParseURLToGVR(Print(STATUS)) == Some(Gvr("", "v1", "status")) && IsCollectionPath(Print(STATUS))
    ensures Print(NODE) == "/api/v1/nodes/namespaces/proxy"
    ensures BehindMarker(Parts(Print(NODE))) == "proxy"
  {
    PrintReads(STATUS);
    PrintReads(NODE);
    StatusLiteral();
    NodeLiteral();
    MisparsedStatus();
    MisparsedNode();
  }

  const STATUS := Request("", "v1", None, "namespaces", Some("prod"), Some("status"))
  const NODE := Request("", "v1", None, "nodes", Some("namespaces"), Some("proxy"))

  lemma StatusLiteral()
    ensures "/" + ("api/" + "v1" + "" + "/" + "namespaces" + ("/" + "prod") + ("/" + "status")) == "/api/v1/namespaces/prod/status"
  {
  }

  lemma NodeLiteral()
    ensures "/" + ("api/" + "v1" + "" + "/" + "nodes" + ("/" + "namespaces") + ("/" + "proxy")) == "/api/v1/nodes/namespaces/proxy"
  {
  }

  lemma MisparsedStatus()
    ensures ParseURLToGVR(Print(STATUS)) == Some(Gvr("", "v1", "status")) && IsCollectionPath(Print(STATUS))
  {
    PartsOfPrinted(STATUS);
    assert Segments(STATUS) == ["api", "v1", "namespaces", "prod", "status"];
  }

  lemma MisparsedNode()
    ensures BehindMarker(Parts(Print(NODE))) == "proxy"
  {
    PartsOfPrinted(NODE);
    assert Segments(NODE) == ["api", "v1"] + ["nodes", "namespaces", "proxy"];
    SkipToMarker(Segments(NODE), 2);
    assert Segments(NODE)[2..] == ["nodes", "namespaces", "proxy"];
    BehindMarkerOfThree("nodes", "namespaces", "proxy");
  }

  /** Behind a host prefix, a path is parsed as without it. */
  lemma PrefixedPath(prefix: string, path: string)
    requires HasPrefix(path, "/")
    ensures StripAPIPathPrefix(TrimSuffix(prefix, "/") + path, prefix) == path
  {
    var p := TrimSuffix(prefix, "/");
    assert (p + path)[|p|..] == path;
    assert p + "/" <= p + path;
  }

  /** Nothing but the prefix is stripped, and only in front of a slash or nothing; a path
      that is the prefix becomes the root. */
  lemma OnlyPrefixIsStripped(prefix: string, path: string)
    ensures var p, r := TrimSuffix(prefix, "/"), StripAPIPathPrefix(path, prefix);
      if p == "" then r == path
      else if p == path then r == "/"
      else if p + "/" <= path then p + r == path
      else r == path
  {
  }

  /** Reads and deletes of a printed request are told apart by its name. */
  lemma VerbOfPrinted(r: Request)
    requires Printable(r) && !(r.namespace.None? && r.resource == MARKER && r.subresource.Some?)
    ensures HttpMethodToVerb("GET", Print(r)) == if r.name.None? then "list" else "get"
    ensures HttpMethodToVerb("DELETE", Print(r)) == if r.name.None? then "deletecollection" else "delete"
  {
    ResourceRoundTrip(r);
    PartsOfPrinted(r);
  }

  /** Writes go by their method alone; a method without a verb is its own, in lower case. */
  lemma VerbOfWrite(path: string)
    ensures HttpMethodToVerb("POST", path) == "create" && HttpMethodToVerb("PUT", path) == "update"
    ensures HttpMethodToVerb("PATCH", path) == "patch"
    ensures forall verb :: verb !in {"GET", "POST", "PUT", "PATCH", "DELETE"} ==> HttpMethodToVerb(verb, path) == Lower(verb)
  {
  }
}
