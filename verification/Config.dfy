/** The administrative policy document and its validation. */
module Config {
  import opened Basics
  import opened Operation
  import Mutation
  import Telemetry

  /** Absent constraints are None; Go's nil and empty label maps behave alike and are one map here. */
  datatype Permission = Permission(
    Selector: Option<map<string, string>>, Request: Option<map<string, string>>, Mutation: Option<seq<string>>)
  {
    predicate Unconditional() {
      Selector.None? && Request.None? && Mutation.None?
    }
  }

  type Actions = map<string, Permission>
  type Permissions = map<string, Actions>

  datatype Client = Client(CommonName: string, Permissions: Permissions)

  datatype Config = Config(Unidentified: string, Clients: map<string, Client>, Telemetry: Telemetry.Section?)

  const ANY := "*"

  /** unicode.IsSpace, as strings.TrimSpace uses it. */
  predicate IsSpace(c: char) {
    || '\t' <= c <= '\r' || c == ' ' || c == '\U{0085}' || c == '\U{00A0}' || c == '\U{1680}'
    || '\U{2000}' <= c <= '\U{200A}' || c == '\U{2028}' || c == '\U{2029}' || c == '\U{202F}' || c == '\U{205F}' || c == '\U{3000}'
  }

  predicate Blank(s: string) {
    forall i :: 0 <= i < |s| ==> IsSpace(s[i])
  }

  predicate Reserved(name: string) {
    name in {"unknown", "unidentified", "internal"}
  }

  // ---------------------------------------------------------------- what a valid document is

  /** The concrete resources an entry under this resource key can be matched for. */
  predicate Covers(resource: string, action: string, actual: string) {
    if resource == ANY then Supports(actual, action) else actual == resource
  }

  predicate FitsResource(p: Permission, actual: string, action: string) {
    && Supports(actual, action)
    && (p.Selector.Some? ==> action == INSPECT || action == UPDATE || action == DELETE)
    && (p.Request.Some? ==> action == CREATE || action == UPDATE)
    && (p.Mutation.Some? ==> actual == SERVICE && action == UPDATE)
  }

  predicate Distinct(only: seq<string>) {
    forall i, j :: 0 <= i < j < |only| ==> only[i] != only[j]
  }

  predicate ValidOnly(only: seq<string>) {
    |only| > 0 && (forall f :: f in only ==> Mutation.Supported(f)) && Distinct(only)
  }

  predicate NonemptyConstraints(p: Permission) {
    && (p.Selector.Some? ==> p.Selector.value != map[])
    && (p.Request.Some? ==> p.Request.value != map[])
    && (p.Mutation.Some? ==> ValidOnly(p.Mutation.value))
  }

  ghost predicate ValidEntry(resource: string, action: string, p: Permission) {
    if action == ANY then p.Unconditional()
    else
      && (exists actual :: Covers(resource, action, actual))
      && (forall actual :: Covers(resource, action, actual) ==> FitsResource(p, actual, action))
      && NonemptyConstraints(p)
  }

  ghost predicate ValidActions(resource: string, actions: Actions) {
    && (resource == ANY || Supports(resource, INSPECT))
    && forall action :: action in actions ==> ValidEntry(resource, action, actions[action])
  }

  ghost predicate ValidClient(name: string, c: Client) {
    && !Blank(name) && !Blank(c.CommonName) && !Reserved(name)
    && forall resource :: resource in c.Permissions ==> ValidActions(resource, c.Permissions[resource])
  }

  ghost predicate ValidPolicy(c: Config) {
    && c.Unidentified in {"allow", "deny"}
    && (forall name :: name in c.Clients ==> ValidClient(name, c.Clients[name]))
    && UniqueCommonNames(c)
  }

  ghost predicate UniqueCommonNames(c: Config) {
    forall n, m :: n in c.Clients && m in c.Clients && c.Clients[n].CommonName == c.Clients[m].CommonName ==> n == m
  }

  // ---------------------------------------------------------------- validation

  /** Config.Validate: the verdict does not depend on the order in which any map is ranged over. A
      rejected policy leaves the telemetry section alone. */
  method Validate(c: Config, lib: Telemetry.Library) returns (ok: bool)
    modifies c.Telemetry
    ensures ok <==> Accepted(c, lib, if c.Telemetry == null then None else Some(old(c.Telemetry.View())))
    ensures c.Telemetry != null && ValidPolicy(c) ==> c.Telemetry.View() == Telemetry.Written(old(c.Telemetry.View()))
    ensures c.Telemetry != null && !ValidPolicy(c) ==> c.Telemetry.View() == old(c.Telemetry.View())
  {
    hide ValidPolicy, Telemetry.Acceptable, Telemetry.Written, Telemetry.Completed;
    ok := ValidatePolicy(c);
    if !ok {
      return;
    }
    if c.Telemetry != null {
      ok := c.Telemetry.Validate(lib);
    }
  }

  ghost predicate Accepted(c: Config, lib: Telemetry.Library, telemetry: Option<Telemetry.Settings>) {
    ValidPolicy(c) && (telemetry.Some? ==> Telemetry.Acceptable(lib, Telemetry.Completed(telemetry.value)))
  }

  /** The authorization part of Validate. */
  method ValidatePolicy(c: Config) returns (ok: bool)
    ensures ok <==> ValidPolicy(c)
  {
    hide ValidClient;
    if c.Unidentified != "allow" && c.Unidentified != "deny" {
      return false;
    }
    var cns: set<string> := {};
    var rest := c.Clients.Keys;
    while rest != {}
      invariant rest <= c.Clients.Keys
      invariant forall n :: n in c.Clients && n !in rest ==> ValidClient(n, c.Clients[n]) && c.Clients[n].CommonName in cns
      invariant forall cn :: cn in cns ==> exists n :: n in c.Clients && n !in rest && c.Clients[n].CommonName == cn
      invariant forall n, m :: n in c.Clients && m in c.Clients && n !in rest && m !in rest && c.Clients[n].CommonName == c.Clients[m].CommonName ==> n == m
      decreases rest
    {
      var name :| name in rest;
      var client := c.Clients[name];
      if client.CommonName in cns {
        return false;
      }
      var valid := ValidateClient(name, client);
      if !valid {
        return false;
      }
      cns := cns + {client.CommonName};
      rest := rest - {name};
    }
    return true;
  }

  method ValidateClient(name: string, c: Client) returns (ok: bool)
    ensures ok <==> ValidClient(name, c)
  {
    hide ValidActions, Reserved, Blank;
    if Blank(name) || Blank(c.CommonName) || Reserved(name) {
      return false;
    }
    var rest := c.Permissions.Keys;
    while rest != {}
      invariant rest <= c.Permissions.Keys
      invariant forall r :: r in c.Permissions && r !in rest ==> ValidActions(r, c.Permissions[r])
      decreases rest
    {
      var resource :| resource in rest;
      var valid := ValidateActions(resource, c.Permissions[resource]);
      if !valid {
        return false;
      }
      rest := rest - {resource};
    }
    return true;
  }

  method ValidateActions(resource: string, actions: Actions) returns (ok: bool)
    ensures ok <==> ValidActions(resource, actions)
  {
    hide ValidEntry, Supports;
    if resource != ANY && !Supports(resource, INSPECT) {
      return false;
    }
    var rest := actions.Keys;
    while rest != {}
      invariant rest <= actions.Keys
      invariant forall a :: a in actions && a !in rest ==> ValidEntry(resource, a, actions[a])
      decreases rest
    {
      var action :| action in rest;
      var valid := ValidateEntry(resource, action, actions[action]);
      if !valid {
        return false;
      }
      rest := rest - {action};
    }
    return true;
  }

  method ValidateEntry(resource: string, action: string, p: Permission) returns (ok: bool)
    ensures ok <==> ValidEntry(resource, action, p)
  {
    hide Supports, FitsResource, NonemptyConstraints;
    if action == ANY {
      return p.Unconditional();
    }
    var resources := [resource];
    if resource == ANY {
      resources := [];
      var candidates := [SERVICE, SECRET, TASK, NODE];
      for i := 0 to |candidates|
        invariant forall r :: r in resources <==> r in candidates[..i] && Supports(r, action)
      {
        if Supports(candidates[i], action) {
          resources := resources + [candidates[i]];
        }
      }
      SupportedAreCandidates(candidates, action);
    }
    assert forall r :: r in resources <==> Covers(resource, action, r);
    if |resources| == 0 {
      return false;
    }
    assert Covers(resource, action, resources[0]);
    for i := 0 to |resources|
      invariant forall r :: r in resources[..i] ==> FitsResource(p, r, action)
    {
      var fits := CheckFits(p, resources[i], action);
      if !fits {
        assert resources[i] in resources;
        return false;
      }
    }
    assert resources[..|resources|] == resources;
    ok := CheckConstraints(p);
  }

  lemma SupportedAreCandidates(candidates: seq<string>, action: string)
    requires candidates == [SERVICE, SECRET, TASK, NODE]
    ensures forall r :: Supports(r, action) ==> r in candidates
    ensures candidates[..|candidates|] == candidates
  {
  }

  method CheckFits(p: Permission, actual: string, action: string) returns (ok: bool)
    ensures ok <==> FitsResource(p, actual, action)
  {
    hide Supports;
    if !Supports(actual, action) {
      return false;
    }
    if p.Selector != None && action != INSPECT && action != UPDATE && action != DELETE {
      return false;
    }
    if p.Request != None && action != CREATE && action != UPDATE {
      return false;
    }
    if p.Mutation != None && (actual != SERVICE || action != UPDATE) {
      return false;
    }
    return true;
  }

  method CheckConstraints(p: Permission) returns (ok: bool)
    ensures ok <==> NonemptyConstraints(p)
  {
    if p.Selector.Some? && |p.Selector.value| == 0 {
      return false;
    }
    if p.Request.Some? && |p.Request.value| == 0 {
      return false;
    }
    if p.Mutation.None? {
      return true;
    }
    var only := p.Mutation.value;
    if |only| == 0 {
      return false;
    }
    var seen: set<string> := {};
    for i := 0 to |only|
      invariant seen == set f | f in only[..i]
      invariant forall f :: f in only[..i] ==> Mutation.Supported(f)
      invariant forall j, k :: 0 <= j < k < i ==> only[j] != only[k]
    {
      if !Mutation.Supported(only[i]) || only[i] in seen {
        assert only[i] in only;
        return false;
      }
      seen := seen + {only[i]};
    }
    assert only[..|only|] == only;
    return true;
  }

  /** Validation is idempotent: it accepts again what it accepted, and changes nothing more. */
  method ValidateAgain(c: Config, lib: Telemetry.Library) returns (first: bool, second: bool)
    modifies c.Telemetry
    ensures first == second
    ensures first <==> Accepted(c, lib, if c.Telemetry == null then None else Some(old(c.Telemetry.View())))
    ensures c.Telemetry != null && ValidPolicy(c) ==> c.Telemetry.View() == Telemetry.Written(old(c.Telemetry.View()))
  {
    hide ValidPolicy, Telemetry.Acceptable, Telemetry.Written, Telemetry.Completed;
    if c.Telemetry != null {
      Telemetry.ValidateTwice(lib, c.Telemetry.View());
    }
    first := Validate(c, lib);
    second := Validate(c, lib);
  }
}
