/** The configuration document as its documentation describes it: which entries and which telemetry
    settings are accepted, written out. */
module ConfigTable {
  import opened Alphabet
  import opened Basics
  import opened Operation
  import opened Config
  import opened Routes
  import Telemetry

  /** The resources and actions an entry can be made for. */
  predicate Enterable(resource: string, action: string) {
    Documented(resource, action) || (resource == "*" && action in {"list", "inspect", "create", "update", "delete"})
  }

  /** An acceptable entry: for every action, no constraint at all; for one action, only the constraints
      it can be judged on, each of them nonempty, mutation fields documented and not repeated. */
  ghost predicate AcceptableEntry(resource: string, action: string, p: Permission) {
    if action == "*" then p == Permission(None, None, None)
    else
      && Enterable(resource, action)
      && (p.Selector.Some? ==> action in {"inspect", "update", "delete"} && |p.Selector.value| > 0)
      && (p.Request.Some? ==> action in {"create", "update"} && |p.Request.value| > 0)
      && (p.Mutation.Some? ==>
        && action == "update"
        && 0 < |p.Mutation.value| == |set f | f in p.Mutation.value|
        && forall f :: f in p.Mutation.value ==> f in {"container.secrets", "container.image", "replicas"})
  }

  lemma EntriesInFull(resource: string, action: string, p: Permission)
    ensures ValidEntry(resource, action, p) <==> AcceptableEntry(resource, action, p)
  {
    if action != "*" {
      CoverageInFull(resource, action);
      ConstraintsInFull(p);
      hide NonemptyConstraints, Supports, Documented;
      if ValidEntry(resource, action, p) {
        var actual :| Covers(resource, action, actual);
        assert FitsResource(p, actual, action);
      }
    }
  }

  ghost predicate Coverable(resource: string, action: string) {
    && (exists actual :: Covers(resource, action, actual))
    && forall actual :: Covers(resource, action, actual) ==> Supports(actual, action)
  }

  lemma CoverageInFull(resource: string, action: string)
    ensures Coverable(resource, action) <==> Enterable(resource, action)
    ensures action == "update" && Enterable(resource, action) ==> forall actual :: Covers(resource, action, actual) ==> actual == "service"
  {
    if Enterable(resource, action) {
      assert Covers(resource, action, if resource == "*" then "service" else resource);
    }
  }

  lemma ConstraintsInFull(p: Permission)
    ensures NonemptyConstraints(p) <==>
      && (p.Selector.Some? ==> |p.Selector.value| > 0)
      && (p.Request.Some? ==> |p.Request.value| > 0)
      && (p.Mutation.Some? ==>
        && 0 < |p.Mutation.value| == |set f | f in p.Mutation.value|
        && forall f :: f in p.Mutation.value ==> f in {"container.secrets", "container.image", "replicas"})
  {
    if p.Mutation.Some? {
      DistinctByCount(p.Mutation.value);
    }
  }

  /** No element repeats exactly when the elements are as many as the places. */
  lemma {:induction false} DistinctByCount(s: seq<string>)
    ensures Distinct(s) <==> |set x | x in s| == |s|
    ensures |set x | x in s| <= |s|
  {
    if s != [] {
      var last, rest := s[|s| - 1], s[..|s| - 1];
      DistinctByCount(rest);
      assert (set x | x in s) == (set x | x in rest) + {last};
      assert Distinct(s) <==> Distinct(rest) && last !in rest;
    }
  }

  // ---------------------------------------------------------------- clients

  /** The characters with the Unicode White_Space property. */
  const WHITE_SPACE := "\t\n\U{000B}\U{000C}\r \U{0085}\U{00A0}\U{1680}" +
    "\U{2000}\U{2001}\U{2002}\U{2003}\U{2004}\U{2005}\U{2006}\U{2007}\U{2008}\U{2009}\U{200A}" +
    "\U{2028}\U{2029}\U{202F}\U{205F}\U{3000}"

  lemma SpaceIs(c: char)
    ensures IsSpace(c) <==> c in WHITE_SPACE
  {
    if '\t' <= c <= '\r' {
      assert c == '\t' || c == '\n' || c == '\U{000B}' || c == '\U{000C}' || c == '\r';
    }
  }

  lemma BlankInFull(s: string)
    ensures Blank(s) <==> forall c :: c in s ==> c in WHITE_SPACE
  {
    forall c ensures IsSpace(c) <==> c in WHITE_SPACE {
      SpaceIs(c);
    }
    hide IsSpace;
    if forall c :: c in s ==> c in WHITE_SPACE {
      forall i | 0 <= i < |s| ensures IsSpace(s[i]) {
        assert s[i] in s;
      }
    }
  }

  /** Some character is no white space. */
  predicate Nonblank(s: string) {
    exists c :: c in s && c !in WHITE_SPACE
  }

  ghost predicate AcceptableClient(name: string, c: Client) {
    && Nonblank(name) && Nonblank(c.CommonName)
    && name != "unknown" && name != "unidentified" && name != "internal"
    && forall r, a :: r in c.Permissions && a in c.Permissions[r] ==> AcceptableEntry(r, a, c.Permissions[r][a])
  }

  ghost predicate KnownResources(c: Client) {
    forall r :: r in c.Permissions ==> r in {"service", "secret", "task", "node", "*"}
  }

  lemma ClientsInFull(name: string, c: Client)
    ensures ValidClient(name, c) <==> AcceptableClient(name, c) && KnownResources(c)
  {
    BlankInFull(name);
    BlankInFull(c.CommonName);
    forall r, a, p ensures ValidEntry(r, a, p) <==> AcceptableEntry(r, a, p) {
      EntriesInFull(r, a, p);
    }
    forall r ensures r == ANY || Supports(r, INSPECT) <==> r in {"service", "secret", "task", "node", "*"} {
    }
    hide ValidEntry, AcceptableEntry, Blank, Supports;
    if ValidClient(name, c) {
      forall r | r in c.Permissions ensures r in {"service", "secret", "task", "node", "*"} {
        assert ValidActions(r, c.Permissions[r]);
      }
      forall r, a | r in c.Permissions && a in c.Permissions[r] ensures AcceptableEntry(r, a, c.Permissions[r][a]) {
        assert ValidActions(r, c.Permissions[r]);
      }
    }
  }

  /** The whole policy: a decision for the unidentified, acceptable clients, and no two with one name. */
  lemma PolicyInFull(c: Config)
    ensures ValidPolicy(c) <==>
      && (c.Unidentified == "allow" || c.Unidentified == "deny")
      && (forall name :: name in c.Clients ==> AcceptableClient(name, c.Clients[name]) && KnownResources(c.Clients[name]))
      && forall n, m :: n in c.Clients && m in c.Clients && n != m ==> c.Clients[n].CommonName != c.Clients[m].CommonName
  {
    forall name | name in c.Clients
      ensures ValidClient(name, c.Clients[name]) <==> AcceptableClient(name, c.Clients[name]) && KnownResources(c.Clients[name])
    {
      ClientsInFull(name, c.Clients[name]);
    }
    hide ValidClient, AcceptableClient, KnownResources;
  }

  // ---------------------------------------------------------------- telemetry

  predicate AcceptableHeader(key: string, value: string) {
    && key != ""
    && (forall c :: c in key ==> c in "abcdefghijklmnopqrstuvwxyz0123456789-_.")
    && forall c :: c in value ==> 32 <= c as int <= 126
  }

  lemma HeaderInFull(key: string, value: string)
    ensures Telemetry.HeaderOk(key, value) <==> AcceptableHeader(key, value)
  {
    forall c ensures Telemetry.HeaderNameChar(c) <==> c in "abcdefghijklmnopqrstuvwxyz0123456789-_." {
      NameCharIs(c);
    }
    hide Telemetry.HeaderNameChar;
    if AcceptableHeader(key, value) {
      forall i | 0 <= i < |key| ensures Telemetry.HeaderNameChar(key[i]) {
        assert key[i] in key;
      }
      forall i | 0 <= i < |value| ensures ' ' <= value[i] <= '~' {
        assert value[i] in value;
      }
    }
  }

  lemma NameCharIs(c: char)
    ensures Telemetry.HeaderNameChar(c) <==> c in "abcdefghijklmnopqrstuvwxyz0123456789-_."
  {
    LowerAre(c);
    DigitsAre(c);
    assert "abcdefghijklmnopqrstuvwxyz0123456789-_." == LOWER + DIGITS + "-_.";
  }

  ghost predicate AcceptableEndpoint(lib: Telemetry.Library, endpoint: string) {
    exists host, port, n: int ::
      && lib.splitHostPort(endpoint) == Some((host, port)) && host != "" && lib.atoi(port) == Some(n)
      && 1 <= n <= 65535
      && forall c :: c in "/@?# \r\n\t" ==> c !in host
  }

  lemma EndpointInFull(lib: Telemetry.Library, endpoint: string)
    ensures Telemetry.EndpointOk(lib, endpoint) <==> AcceptableEndpoint(lib, endpoint)
  {
    if lib.splitHostPort(endpoint).Some? {
      var (host, port) := lib.splitHostPort(endpoint).value;
      if Telemetry.EndpointOk(lib, endpoint) {
        var n := lib.atoi(port).value;
        assert forall c :: c in "/@?# \r\n\t" ==> c !in host;
        assert lib.splitHostPort(endpoint) == Some((host, port)) && lib.atoi(port) == Some(n);
      }
      if AcceptableEndpoint(lib, endpoint) {
        forall i | 0 <= i < |host| ensures host[i] !in {'/', '@', '?', '#', ' ', '\r', '\n', '\t'} {
          assert host[i] in host;
          assert "/@?# \r\n\t" == ['/', '@', '?', '#', ' ', '\r', '\n', '\t'];
        }
      }
    }
  }

  /** Telemetry is accepted exactly when these hold, the defaults being 1.0 and 30s. */
  lemma TelemetryInFull(lib: Telemetry.Library, t: Telemetry.Settings)
    ensures Telemetry.Acceptable(lib, Telemetry.Completed(t)) <==>
      && "service.name" !in t.Resource && "service.version" !in t.Resource
      && (t.SampleRatio.Some? ==> t.SampleRatio.value.Finite? && 0.0 <= t.SampleRatio.value.r <= 1.0)
      && (var interval := lib.parseDuration(if t.ExportInterval == "" then "30s" else t.ExportInterval);
          interval.Some? && interval.value > 0)
      && (t.Protocol == "" || t.Protocol == "grpc" || t.Protocol == "http")
      && (t.TracesEnabled || t.MetricsEnabled ==> t.Endpoint != "" && t.Protocol != "")
      && (t.Endpoint != "" ==> AcceptableEndpoint(lib, t.Endpoint))
      && forall k :: k in t.Headers ==> AcceptableHeader(k, t.Headers[k])
  {
    EndpointInFull(lib, t.Endpoint);
    forall k | k in t.Headers ensures Telemetry.HeaderOk(k, t.Headers[k]) <==> AcceptableHeader(k, t.Headers[k]) {
      HeaderInFull(k, t.Headers[k]);
    }
    hide Telemetry.HeaderOk, AcceptableHeader, Telemetry.EndpointOk, AcceptableEndpoint;
  }

  /** The defaults a validation writes, accepted or not: the service name always, the ratio unless the
      resource tries to override the service, the interval only if the ratio is good too. */
  lemma DefaultsInFull(t: Telemetry.Settings)
    ensures var w := Telemetry.Written(t);
      var overriding := "service.name" in t.Resource || "service.version" in t.Resource;
      var badRatio := t.SampleRatio.Some? && !(t.SampleRatio.value.Finite? && 0.0 <= t.SampleRatio.value.r <= 1.0);
      && w.ServiceName == (if t.ServiceName == "" then "dockauthz" else t.ServiceName)
      && w.SampleRatio == (if t.SampleRatio.None? && !overriding then Some(Telemetry.Finite(1.0)) else t.SampleRatio)
      && w.ExportInterval == (if t.ExportInterval == "" && !overriding && !badRatio then "30s" else t.ExportInterval)
      && w == t.(ServiceName := w.ServiceName, SampleRatio := w.SampleRatio, ExportInterval := w.ExportInterval)
  {
  }
}
