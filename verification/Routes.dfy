/** The supported Docker API surface as a table of methods and paths. */
module Routes {
  import opened Alphabet
  import opened Basics
  import opened Operation

  predicate LetterOrDigit(c: char) {
    c in LOWER || c in UPPER || c in DIGITS
  }

  /** An ID or name: letters, digits, `_`, `.` and `-`, the first a letter or digit. */
  predicate Identifier(s: string) {
    && |s| > 0 && LetterOrDigit(s[0])
    && forall c :: c in s ==> LetterOrDigit(c) || c == '_' || c == '.' || c == '-'
  }

  predicate Digits(s: string) {
    |s| > 0 && forall c :: c in s ==> c in DIGITS
  }

  /** A number without leading zero, a point, a number. */
  ghost predicate VersionNumber(version: string) {
    exists major, minor :: version == major + "." + minor && Digits(major) && major[0] != '0' && Digits(minor)
  }

  /** An optional API version before the route. */
  ghost predicate VersionPrefix(prefix: string, version: string) {
    || (prefix == "" && version == "")
    || (prefix == "/v" + version && VersionNumber(version))
  }

  /** The thirteen supported pairs. */
  predicate Documented(resource: string, action: string) {
    || (resource == "service" && action in {"list", "inspect", "create", "update", "delete"})
    || (resource == "secret" && action in {"list", "inspect", "create", "delete"})
    || (resource == "task" && action in {"list", "inspect"})
    || (resource == "node" && action in {"list", "inspect"})
  }

  function Collection(resource: string): string {
    match resource
    case "service" => "/services"
    case "secret" => "/secrets"
    case "task" => "/tasks"
    case "node" => "/nodes"
    case _ => ""
  }

  /** The method and the route of each. */
  predicate Listed(verb: string, route: string, op: Operation) {
    && Documented(op.Resource, op.Action)
    && match op.Action
      case "list" => verb == "GET" && op.ID == "" && route == Collection(op.Resource)
      case "create" => verb == "POST" && op.ID == "" && route == Collection(op.Resource) + "/create"
      case "inspect" => verb == "GET" && Identifier(op.ID) && route == Collection(op.Resource) + "/" + op.ID
      case "delete" => verb == "DELETE" && Identifier(op.ID) && route == Collection(op.Resource) + "/" + op.ID
      case _ => verb == "POST" && Identifier(op.ID) && route == Collection(op.Resource) + "/" + op.ID + "/update"
  }

  lemma LetterOrDigitIs(c: char)
    ensures LetterOrDigit(c) <==> IsAlnum(c)
  {
    DigitsAre(c);
    LowerAre(c);
    UpperAre(c);
  }

  lemma IdentifierIs(s: string)
    ensures Identifier(s) <==> IsIdentifier(s)
  {
    if |s| > 0 {
      LetterOrDigitIs(s[0]);
    }
    forall c ensures LetterOrDigit(c) <==> IsAlnum(c) {
      LetterOrDigitIs(c);
    }
    hide LetterOrDigit, IsAlnum;
    if Identifier(s) {
      forall i | 0 <= i < |s| ensures IsIdChar(s[i]) {
        assert s[i] in s;
      }
    }
  }

  lemma DigitsIs(s: string)
    ensures Digits(s) <==> |s| > 0 && forall i :: 0 <= i < |s| ==> IsDigit(s[i])
  {
    forall c ensures c in DIGITS <==> IsDigit(c) {
      DigitsAre(c);
    }
    if Digits(s) {
      forall i | 0 <= i < |s| ensures IsDigit(s[i]) {
        assert s[i] in s;
      }
    }
  }

  lemma VersionIs(version: string)
    ensures IsApiVersion("v" + version) <==> VersionNumber(version)
  {
    var s := "v" + version;
    if IsApiVersion(s) {
      var dot :| 2 <= dot < |s| - 1 && s[dot] == '.' && forall i :: 1 <= i < |s| && i != dot ==> IsDigit(s[i]);
      var major, minor := s[1..dot], s[dot + 1..];
      DigitsIs(major);
      DigitsIs(minor);
      assert version == major + "." + minor;
    }
    if major, minor :| version == major + "." + minor && Digits(major) && major[0] != '0' && Digits(minor) {
      DigitsIs(major);
      DigitsIs(minor);
      var dot := 1 + |major|;
      assert s[dot] == '.';
      forall i | 1 <= i < |s| && i != dot ensures IsDigit(s[i]) {
        assert s[i] == if i < dot then major[i - 1] else minor[i - dot - 1];
      }
    }
  }

  // ---------------------------------------------------------------- the resolver's table

  lemma DocumentedIs(resource: string, action: string)
    ensures Documented(resource, action) <==> Supports(resource, action)
    ensures Documented(resource, action) ==> Collection(resource) == "/" + resource + "s"
  {
  }

  lemma JoinOne(a: string)
    ensures Join([a]) == a
  {
  }

  lemma JoinTwo(a: string, b: string)
    ensures Join([a, b]) == a + "/" + b
  {
    assert [a, b][1..] == [b];
  }

  lemma JoinThree(a: string, b: string, c: string)
    ensures Join([a, b, c]) == a + "/" + b + "/" + c
  {
    assert [a, b, c][1..] == [b, c];
    JoinTwo(b, c);
    assert a + "/" + (b + "/" + c) == a + "/" + b + "/" + c;
  }

  /** What follows the collection in a printed route. */
  function Rest(op: Operation): string {
    if op.Action == "list" then "" else if op.Action == "create" then "/create"
    else if op.Action == "update" then "/" + op.ID + "/update" else "/" + op.ID
  }

  lemma RouteJoins(op: Operation)
    ensures Join(RouteParts(op)) == op.Resource + "s" + Rest(op)
  {
    var name := op.Resource + "s";
    hide Join;
    if op.Action == "list" {
      JoinOne(name);
      assert RouteParts(op) == [name] && name + "" == name;
    } else if op.Action == "create" {
      JoinTwo(name, "create");
      assert RouteParts(op) == [name, "create"];
      assert name + "/" + "create" == name + "/create";
    } else if op.Action == "update" {
      JoinThree(name, op.ID, "update");
      assert RouteParts(op) == [name, op.ID, "update"];
      assert name + "/" + op.ID + "/" + "update" == name + ("/" + op.ID + "/update");
    } else {
      JoinTwo(name, op.ID);
      assert RouteParts(op) == [name, op.ID];
      assert name + "/" + op.ID == name + ("/" + op.ID);
    }
  }

  lemma JoinAfter(v: string, parts: seq<string>)
    requires |parts| > 0
    ensures Join([v] + parts) == v + "/" + Join(parts)
  {
    assert ([v] + parts)[1..] == parts;
  }

  lemma Prefixed(version: string, route: string)
    ensures "/" + ("v" + version + "/" + route) == "/v" + version + ("/" + route)
  {
  }

  lemma PrintedRoute(op: Operation)
    ensures Print(op) == (if op.Version == "" then "" else "/v" + op.Version) + ("/" + op.Resource + "s" + Rest(op))
  {
    var parts, route := RouteParts(op), op.Resource + "s" + Rest(op);
    assert |parts| > 0;
    RouteJoins(op);
    assert "/" + route == "/" + op.Resource + "s" + Rest(op);
    hide RouteParts, Rest, Join;
    if op.Version == "" {
      assert [] + parts == parts;
    } else {
      JoinAfter("v" + op.Version, parts);
      Prefixed(op.Version, route);
    }
  }

  lemma ListedIffRoute(verb: string, route: string, op: Operation)
    ensures Listed(verb, route, op) <==>
      && Supports(op.Resource, op.Action)
      && verb == MethodOf(op.Action)
      && (if op.Action == "list" || op.Action == "create" then op.ID == "" else IsIdentifier(op.ID))
      && route == "/" + op.Resource + "s" + Rest(op)
  {
    DocumentedIs(op.Resource, op.Action);
    IdentifierIs(op.ID);
    OnlyFiveActions(op.Resource, op.Action);
    hide Documented, Supports, Collection, Identifier, IsIdentifier;
    var c := "/" + op.Resource + "s";
    assert c + "" == c && c + "/" + op.ID == c + ("/" + op.ID) && c + "/" + op.ID + "/update" == c + ("/" + op.ID + "/update");
  }

  lemma OnlyFiveActions(resource: string, action: string)
    ensures Supports(resource, action) ==> action in {"list", "inspect", "create", "update", "delete"}
  {
  }

  lemma PrefixIs(prefix: string, version: string)
    ensures VersionPrefix(prefix, version) <==>
      (version == "" || IsApiVersion("v" + version)) && prefix == if version == "" then "" else "/v" + version
  {
    VersionIs(version);
    NoEmptyVersion();
    hide VersionNumber, IsApiVersion;
  }

  lemma NoEmptyVersion()
    ensures !VersionNumber("")
  {
  }

  /** A request line resolves to an operation exactly when its path is a version prefix and a listed
      route for the method, and its query is the operation's. */
  lemma ResolvesAsListed(verb: string, uri: Uri, op: Operation)
    ensures Resolution(verb, uri) == Some(op) <==>
      && uri.query == Some(op.Query)
      && exists prefix, route :: uri.path == prefix + route && VersionPrefix(prefix, op.Version) && Listed(verb, route, op)
  {
    var prefix, route := if op.Version == "" then "" else "/v" + op.Version, "/" + op.Resource + "s" + Rest(op);
    ResolvedPathIsCanonical(verb, uri, op);
    PrintedRoute(op);
    PrefixIs(prefix, op.Version);
    ListedIffRoute(verb, route, op);
    hide Resolution, Supports, IsApiVersion, IsIdentifier, VersionPrefix, Listed, Rest, Print, MethodOf;
    if p, r :| uri.path == p + r && VersionPrefix(p, op.Version) && Listed(verb, r, op) {
      PrefixIs(p, op.Version);
      ListedIffRoute(verb, r, op);
    }
    if Resolution(verb, uri) == Some(op) {
      assert uri.path == prefix + route && VersionPrefix(prefix, op.Version) && Listed(verb, route, op);
    }
  }
}
