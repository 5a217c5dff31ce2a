/** The strict resolver of the supported Docker API surface, and the printing it inverts. */
module Operation {
  import opened Basics

  type Query = map<string, seq<string>>

  datatype Operation = Operation(Resource: string, Action: string, ID: string, Version: string, Query: Query)

  /** A request URI after url.ParseRequestURI and url.ParseQuery: the raw path before the first `?`,
      and the decoded query, None when the query text is malformed or holds a forbidden character. */
  datatype Uri = Uri(path: string, query: Option<Query>)

  const SERVICE := "service"
  const SECRET := "secret"
  const TASK := "task"
  const NODE := "node"
  const LIST := "list"
  const INSPECT := "inspect"
  const CREATE := "create"
  const UPDATE := "update"
  const DELETE := "delete"

  predicate Supports(resource: string, action: string) {
    if resource == SERVICE then
      action == LIST || action == INSPECT || action == CREATE || action == UPDATE || action == DELETE
    else if resource == SECRET then
      action == LIST || action == INSPECT || action == CREATE || action == DELETE
    else if resource == TASK || resource == NODE then
      action == LIST || action == INSPECT
    else false
  }

  predicate IsDigit(c: char) {
    '0' <= c <= '9'
  }

  predicate IsAlnum(c: char) {
    IsDigit(c) || 'a' <= c <= 'z' || 'A' <= c <= 'Z'
  }

  predicate IsIdChar(c: char) {
    IsAlnum(c) || c == '_' || c == '.' || c == '-'
  }

  /** `^[a-zA-Z0-9][a-zA-Z0-9_.-]*$` */
  predicate IsIdentifier(s: string) {
    |s| > 0 && IsAlnum(s[0]) && forall i :: 0 <= i < |s| ==> IsIdChar(s[i])
  }

  /** `^v[1-9][0-9]*\.[0-9]+$` */
  predicate IsApiVersion(s: string) {
    && |s| > 3 && s[0] == 'v' && s[1] != '0'
    && exists dot :: 2 <= dot < |s| - 1 && s[dot] == '.' && forall i :: 1 <= i < |s| && i != dot ==> IsDigit(s[i])
  }

  // ---------------------------------------------------------------- splitting and joining paths

  /** strings.Split(s, "/"): always at least one part. */
  function Split(s: string): (parts: seq<string>)
    ensures |parts| > 0
  {
    if s == "" then [""]
    else
      var rest := Split(s[1..]);
      if s[0] == '/' then [""] + rest else [[s[0]] + rest[0]] + rest[1..]
  }

  function Join(parts: seq<string>): string
    requires |parts| > 0
  {
    if |parts| == 1 then parts[0] else parts[0] + "/" + Join(parts[1..])
  }

  lemma {:induction false} JoinSplit(s: string)
    ensures Join(Split(s)) == s
  {
    if s != "" {
      JoinSplit(s[1..]);
      var rest := Split(s[1..]);
      if s[0] == '/' {
        assert ([""] + rest)[1..] == rest;
        assert s == "/" + s[1..];
      } else {
        assert s == [s[0]] + s[1..];
        if |rest| > 1 {
          var parts := [[s[0]] + rest[0]] + rest[1..];
          assert parts[1..] == rest[1..];
          assert [s[0]] + (rest[0] + "/" + Join(rest[1..])) == [s[0]] + rest[0] + "/" + Join(rest[1..]);
        }
      }
    }
  }

  lemma {:induction false} SplitJoin(parts: seq<string>)
    requires |parts| > 0 && forall p :: p in parts ==> '/' !in p
    ensures Split(Join(parts)) == parts
    decreases |parts|, |parts[0]|
  {
    if parts[0] != "" {
      var shorter := [parts[0][1..]] + parts[1..];
      assert shorter[1..] == parts[1..];
      assert parts[0] in parts && parts[0][0] in parts[0];
      assert forall p :: p in shorter ==> p == shorter[0] || p in parts;
      SplitJoin(shorter);
      assert Join(parts) == [parts[0][0]] + Join(shorter);
      assert [parts[0][0]] + shorter[0] == parts[0];
      assert parts == [parts[0]] + shorter[1..];
    } else if |parts| > 1 {
      SplitJoin(parts[1..]);
      assert Join(parts) == "/" + Join(parts[1..]);
      assert parts == [""] + parts[1..];
    }
  }

  // ---------------------------------------------------------------- printing

  predicate WellFormed(op: Operation) {
    && Supports(op.Resource, op.Action)
    && (op.Version == "" || IsApiVersion("v" + op.Version))
    && (if op.Action == LIST || op.Action == CREATE then op.ID == "" else IsIdentifier(op.ID))
  }

  function MethodOf(action: string): string {
    if action == LIST || action == INSPECT then "GET"
    else if action == DELETE then "DELETE"
    else "POST"
  }

  function VersionParts(op: Operation): seq<string> {
    if op.Version == "" then [] else ["v" + op.Version]
  }

  function RouteParts(op: Operation): seq<string> {
    [op.Resource + "s"] +
    (if op.Action == LIST then []
     else if op.Action == CREATE then ["create"]
     else if op.Action == UPDATE then [op.ID, "update"]
     else [op.ID])
  }

  /** The one path that names an operation. */
  function Print(op: Operation): string {
    "/" + Join(VersionParts(op) + RouteParts(op))
  }

  /** The declarative meaning of a request line. */
  ghost predicate Denotes(verb: string, uri: Uri, op: Operation) {
    && WellFormed(op)
    && verb == MethodOf(op.Action)
    && uri == Uri(Print(op), Some(op.Query))
  }

  /** The operation a request line denotes, if any. */
  ghost function Resolution(verb: string, uri: Uri): (r: Option<Operation>)
    ensures r.Some? ==> Denotes(verb, uri, r.value)
    ensures r.None? ==> forall op :: !Denotes(verb, uri, op)
  {
    if op :| Denotes(verb, uri, op) then Some(op) else None
  }

  // ---------------------------------------------------------------- resolving

  predicate Forbidden(c: char) {
    c in {'#', '\\', '\r', '\n', '\t', ' ', '%'}
  }

  function SingularOf(plural: string): Option<string> {
    if plural == "services" then Some(SERVICE)
    else if plural == "secrets" then Some(SECRET)
    else if plural == "tasks" then Some(TASK)
    else if plural == "nodes" then Some(NODE)
    else None
  }

  predicate Plain(s: string) {
    |s| > 0 && forall i :: 0 <= i < |s| ==> IsIdChar(s[i])
  }

  lemma PluralsArePlain(resource: string)
    requires resource == SERVICE || resource == SECRET || resource == TASK || resource == NODE
    ensures Plain(resource + "s") && (resource + "s")[0] != 'v'
    ensures SingularOf(resource + "s") == Some(resource)
  {
    if resource == SERVICE {
      assert resource + "s" == "services";
    } else if resource == SECRET {
      assert resource + "s" == "secrets";
    } else if resource == TASK {
      assert resource + "s" == "tasks";
    } else {
      assert resource + "s" == "nodes";
    }
  }

  lemma PartsArePlain(op: Operation)
    requires WellFormed(op)
    ensures forall p :: p in VersionParts(op) + RouteParts(op) ==> Plain(p)
  {
    PluralsArePlain(op.Resource);
    assert Plain("create") && Plain("update");
    if op.Version != "" {
      assert Plain("v" + op.Version);
    }
  }

  lemma {:induction false} JoinIsSafe(parts: seq<string>)
    requires |parts| > 0 && forall p :: p in parts ==> Plain(p)
    ensures Plain(parts[0]) && |Join(parts)| > 0 && Join(parts)[0] == parts[0][0]
    ensures forall i :: 0 <= i < |Join(parts)| ==> !Forbidden(Join(parts)[i])
  {
    assert parts[0] in parts;
    if |parts| > 1 {
      JoinIsSafe(parts[1..]);
    }
  }

  /** The printed path passes every textual check and splits into the parts it was printed from. */
  lemma PrintedPathSplits(op: Operation)
    requires WellFormed(op)
    ensures |Print(op)| > 1 && Print(op)[0] == '/' && Print(op)[1] != '/'
    ensures forall i :: 0 <= i < |Print(op)| ==> !Forbidden(Print(op)[i])
    ensures Split(Print(op)[1..]) == VersionParts(op) + RouteParts(op)
    ensures IsApiVersion((VersionParts(op) + RouteParts(op))[0]) <==> op.Version != ""
    ensures SingularOf(op.Resource + "s") == Some(op.Resource)
  {
    var parts := VersionParts(op) + RouteParts(op);
    PartsArePlain(op);
    PluralsArePlain(op.Resource);
    JoinIsSafe(parts);
    assert Plain(parts[0]);
    assert IsIdChar(parts[0][0]);
    forall p | p in parts ensures '/' !in p {
      assert forall i :: 0 <= i < |p| ==> IsIdChar(p[i]);
    }
    SplitJoin(parts);
    assert Print(op)[1..] == Join(parts);
  }

  lemma SingularSound(plural: string)
    requires SingularOf(plural).Some?
    ensures plural == SingularOf(plural).value + "s"
  {
  }

  /** The source's cascade over the parts left once a version is stripped. */
  function Route(verb: string, parts: seq<string>): Option<(string, string)> {
    if |parts| == 1 && verb == "GET" then Some((LIST, ""))
    else if |parts| == 2 && parts[1] == "create" && verb == "POST" then Some((CREATE, ""))
    else if |parts| == 2 && verb == "GET" then Some((INSPECT, parts[1]))
    else if |parts| == 2 && verb == "DELETE" then Some((DELETE, parts[1]))
    else if |parts| == 3 && parts[2] == "update" && verb == "POST" then Some((UPDATE, parts[1]))
    else None
  }

  lemma RouteOfPrinted(op: Operation)
    requires WellFormed(op)
    ensures Route(MethodOf(op.Action), RouteParts(op)) == Some((op.Action, op.ID))
  {
  }

  lemma RouteSound(verb: string, parts: seq<string>, op: Operation)
    requires |parts| > 0 && SingularOf(parts[0]) == Some(op.Resource) && Route(verb, parts) == Some((op.Action, op.ID))
    ensures verb == MethodOf(op.Action) && parts == RouteParts(op)
  {
    SingularSound(parts[0]);
  }

  lemma WellFormedFacts(op: Operation)
    requires WellFormed(op)
    ensures Supports(op.Resource, op.Action) && 0 < |RouteParts(op)| <= 3 && RouteParts(op)[0] == op.Resource + "s"
    ensures op.Action != LIST && op.Action != CREATE ==> IsIdentifier(op.ID)
  {
  }

  lemma VersionStripped(all: seq<string>, denoted: Option<Operation>, version: string, parts: seq<string>)
    requires |all| > 0 && (denoted.Some? ==> all == VersionParts(denoted.value) + RouteParts(denoted.value))
    requires denoted.Some? ==> (IsApiVersion(all[0]) <==> denoted.value.Version != "")
    requires if IsApiVersion(all[0]) then version == all[0][1..] && parts == all[1..] else version == "" && parts == all
    ensures denoted.Some? ==> version == denoted.value.Version && parts == RouteParts(denoted.value)
  {
    hide RouteParts, IsApiVersion;
    if denoted.Some? && denoted.value.Version != "" {
      assert all[0] == "v" + denoted.value.Version;
    }
  }

  lemma ResolvedIsDenoted(verb: string, uri: Uri, all: seq<string>, op: Operation)
    requires |uri.path| > 0 && uri.path[0] == '/' && all == Split(uri.path[1..]) && uri.query == Some(op.Query)
    requires if IsApiVersion(all[0]) then op.Version == all[0][1..] && RouteParts(op) == all[1..] else op.Version == "" && RouteParts(op) == all
    requires verb == MethodOf(op.Action) && Supports(op.Resource, op.Action)
    requires if op.Action == LIST || op.Action == CREATE then op.ID == "" else IsIdentifier(op.ID)
    ensures Denotes(verb, uri, op)
  {
    hide RouteParts, Supports, IsIdentifier;
    if IsApiVersion(all[0]) {
      assert "v" + op.Version == all[0];
      assert VersionParts(op) + RouteParts(op) == all;
    } else {
      assert VersionParts(op) + RouteParts(op) == all;
    }
    JoinSplit(uri.path[1..]);
    assert uri.path == "/" + uri.path[1..];
  }

  /** Resolve, step by step as the source does it. */
  method Resolve(verb: string, uri: Uri) returns (r: Option<Operation>)
    ensures r == Resolution(verb, uri)
  {
    hide WellFormed, RouteParts, IsIdentifier, Join, Split, Print, SingularOf, Supports;
    ghost var denoted := Resolution(verb, uri);
    if denoted.Some? {
      assert WellFormed(denoted.value);
      PrintedPathSplits(denoted.value);
      RouteOfPrinted(denoted.value);
      WellFormedFacts(denoted.value);
    }
    var path := uri.path;
    if |path| == 0 || path[0] != '/' || (|path| > 1 && path[1] == '/')
      || (exists i :: 0 <= i < |path| && Forbidden(path[i])) || uri.query.None? {
      return None;
    }
    var parts := Split(path[1..]);
    ghost var allParts := parts;
    var op := Operation("", "", "", "", uri.query.value);
    if |parts| > 0 && IsApiVersion(parts[0]) {
      op := op.(Version := parts[0][1..]);
      parts := parts[1..];
    }
    VersionStripped(allParts, denoted, op.Version, parts);
    if |parts| < 1 || |parts| > 3 {
      return None;
    }
    var resource := SingularOf(parts[0]);
    if resource.None? {
      return None;
    }
    op := op.(Resource := resource.value);
    if |parts| == 1 && verb == "GET" {
      op := op.(Action := LIST);
    } else if |parts| == 2 && parts[1] == "create" && verb == "POST" {
      op := op.(Action := CREATE);
    } else if |parts| == 2 && verb == "GET" {
      op := op.(Action := INSPECT, ID := parts[1]);
    } else if |parts| == 2 && verb == "DELETE" {
      op := op.(Action := DELETE, ID := parts[1]);
    } else if |parts| == 3 && parts[2] == "update" && verb == "POST" {
      op := op.(Action := UPDATE, ID := parts[1]);
    } else {
      return None;
    }
    assert Route(verb, parts) == Some((op.Action, op.ID));
    if !Supports(op.Resource, op.Action) || (op.Action != LIST && op.Action != CREATE && !IsIdentifier(op.ID)) {
      return None;
    }
    RouteSound(verb, parts, op);
    ResolvedIsDenoted(verb, uri, allParts, op);
    return Some(op);
  }

  /** Parsing undoes printing, for every well-formed operation. */
  lemma PrintResolves(op: Operation)
    requires WellFormed(op)
    ensures Resolution(MethodOf(op.Action), Uri(Print(op), Some(op.Query))) == Some(op)
  {
    var uri := Uri(Print(op), Some(op.Query));
    assert Denotes(MethodOf(op.Action), uri, op);
    DenotesUnique(MethodOf(op.Action), uri, op, Resolution(MethodOf(op.Action), uri).value);
  }

  /** No request line is ambiguous. */
  lemma DenotesUnique(verb: string, uri: Uri, op: Operation, op': Operation)
    requires Denotes(verb, uri, op) && Denotes(verb, uri, op')
    ensures op == op'
  {
    hide RouteParts, IsApiVersion, Join, Split, Supports, IsIdentifier, Print, SingularOf;
    PrintedPathSplits(op);
    PrintedPathSplits(op');
    RouteOfPrinted(op);
    RouteOfPrinted(op');
    WellFormedFacts(op);
    WellFormedFacts(op');
    var all := VersionParts(op) + RouteParts(op);
    var parts := if IsApiVersion(all[0]) then all[1..] else all;
    var version := if IsApiVersion(all[0]) then all[0][1..] else "";
    VersionStripped(all, Some(op), version, parts);
    VersionStripped(all, Some(op'), version, parts);
    assert op.Resource + "s" == op'.Resource + "s";
    assert op.Resource == (op.Resource + "s")[..|op.Resource + "s"| - 1];
  }

  /** So resolving is the inverse of printing: a request line resolves to an operation exactly when
      the operation is well formed and the line is its method, its printing and its query. */
  lemma ResolvedPathIsCanonical(verb: string, uri: Uri, op: Operation)
    ensures Resolution(verb, uri) == Some(op) <==>
      WellFormed(op) && verb == MethodOf(op.Action) && uri == Uri(Print(op), Some(op.Query))
  {
    hide Print, WellFormed;
    if WellFormed(op) {
      PrintResolves(op);
    }
  }

  /** The path Inspect builds. */
  function InspectPath(op: Operation): string {
    (if op.Version != "" then "/v" + op.Version else "") + "/" + op.Resource + "s/" + op.ID
  }

  /** For an operation the resolver accepted, the path Inspect builds resolves under GET to an
      inspection of the same resource, ID and version with an empty query exactly when the
      operation names an individual resource; for a list or a create it does not resolve at all. */
  lemma InspectPathResolves(op: Operation)
    requires WellFormed(op)
    ensures Resolution("GET", Uri(InspectPath(op), Some(map[]))) ==
            if op.ID != "" then Some(op.(Action := INSPECT, Query := map[])) else None
  {
    var uri := Uri(InspectPath(op), Some(map[]));
    var target := op.(Action := INSPECT, Query := map[]);
    InspectPathIsPrinted(op);
    if op.ID != "" {
      assert WellFormed(target);
      hide WellFormed, Print, InspectPath;
      PrintResolves(target);
    } else {
      EmptyIdUnresolvable(op, uri, target);
    }
  }

  lemma InspectPathIsPrinted(op: Operation)
    ensures Print(op.(Action := INSPECT, Query := map[])) == InspectPath(op)
  {
    var target := op.(Action := INSPECT, Query := map[]);
    var plural := op.Resource + "s";
    assert RouteParts(target) == [plural, op.ID];
    assert [plural, op.ID][1..] == [op.ID];
    assert Join([plural, op.ID]) == plural + "/" + op.ID;
    if op.Version != "" {
      var parts := ["v" + op.Version, plural, op.ID];
      assert VersionParts(target) + RouteParts(target) == parts && parts[1..] == [plural, op.ID];
      assert "/" + ("v" + op.Version + "/" + (plural + "/" + op.ID)) == InspectPath(op);
    } else {
      assert VersionParts(target) + RouteParts(target) == [plural, op.ID];
    }
  }

  lemma EmptyIdUnresolvable(op: Operation, uri: Uri, target: Operation)
    requires WellFormed(op) && op.ID == "" && target == op.(Action := INSPECT, Query := map[])
    requires uri.path == Print(target)
    ensures Resolution("GET", uri).None?
  {
    PartsArePlain(op);
    var parts := VersionParts(target) + RouteParts(target);
    forall p | p in parts ensures '/' !in p {
      assert p == "" || p in VersionParts(op) + RouteParts(op);
      assert p != "" ==> forall i :: 0 <= i < |p| ==> IsIdChar(p[i]);
    }
    SplitJoin(parts);
    assert Print(target)[1..] == Join(parts);
    assert "" in parts;
    var got := Resolution("GET", uri);
    if got.Some? {
      PrintedPathSplits(got.value);
      PartsArePlain(got.value);
      assert false;
    }
  }
}
