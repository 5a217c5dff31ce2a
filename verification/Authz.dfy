/** The authorization callback: token, identity, administrator shortcut, permission matching, and
    the inspect calls that come back as further callbacks. */
module Authz {
  import opened Basics
  import opened Operation
  import opened Config
  import opened Identity
  import opened Policy
  import opened DockerApi
  import Token
  import Mutation
  import Telemetry
  import SwarmSpec

  datatype Indexed = Indexed(name: string, permissions: Permissions)

  datatype Plugin = Plugin(unidentified: string, clients: map<string, Indexed>, token: string)

  datatype Outcome =
    | InternalInspect
    | InvalidInternalRequest
    | InvalidIdentity
    | UnidentifiedPolicy
    | UnknownClient
    | FullAdministrator
    | UnknownOperation
    | Evaluated(reason: Reason)

  datatype Response = Response(Allow: bool, Msg: Outcome)

  // ---------------------------------------------------------------- construction

  /** The index has one entry per configured client, and looking a common name up in it is a linear
      search of the clients. */
  ghost predicate Indexes(clients: map<string, Indexed>, c: Config) {
    && |clients| == |c.Clients|
    && (forall n :: n in c.Clients ==> c.Clients[n].CommonName in clients)
    && (forall cn :: cn in clients ==>
      && clients[cn].name in c.Clients
      && c.Clients[clients[cn].name].CommonName == cn
      && clients[cn].permissions == c.Clients[clients[cn].name].Permissions)
  }

  /** New: whatever the iteration order of the clients, since validation rejects duplicate names. */
  method New(c: Config, lib: Telemetry.Library, token: string) returns (p: Option<Plugin>)
    modifies c.Telemetry
    ensures p.Some? <==> Accepted(c, lib, if c.Telemetry == null then None else Some(old(c.Telemetry.View())))
    ensures p.Some? ==> p.value.unidentified == c.Unidentified && p.value.token == token && Indexes(p.value.clients, c)
  {
    var ok := Validate(c, lib);
    if !ok {
      return None;
    }
    var clients := IndexByCommonName(c);
    return Some(Plugin(c.Unidentified, clients, token));
  }

  method IndexByCommonName(c: Config) returns (clients: map<string, Indexed>)
    requires UniqueCommonNames(c)
    ensures Indexes(clients, c)
  {
    clients := map[];
    var rest := c.Clients.Keys;
    while rest != {}
      invariant rest <= c.Clients.Keys
      invariant |clients| + |rest| == |c.Clients|
      invariant forall n :: n in c.Clients && n !in rest ==> c.Clients[n].CommonName in clients
      invariant forall cn :: cn in clients ==>
        && clients[cn].name in c.Clients && clients[cn].name !in rest
        && c.Clients[clients[cn].name].CommonName == cn
        && clients[cn].permissions == c.Clients[clients[cn].name].Permissions
      decreases rest
    {
      var name :| name in rest;
      var client := c.Clients[name];
      assert client.CommonName !in clients;
      clients := clients[client.CommonName := Indexed(name, client.Permissions)];
      rest := rest - {name};
    }
  }

  // ---------------------------------------------------------------- specification

  function Entry(perms: Permissions, resource: string, action: string): seq<Permission> {
    if resource in perms && action in perms[resource] then [perms[resource][action]] else []
  }

  /** The permissions an operation is matched against, most specific first. */
  function Matching(perms: Permissions, op: Operation): seq<Permission> {
    Entry(perms, op.Resource, op.Action) + Entry(perms, op.Resource, ANY) +
    Entry(perms, ANY, op.Action) + Entry(perms, ANY, ANY)
  }

  predicate FullAdmin(perms: Permissions) {
    ANY in perms && ANY in perms[ANY] && perms[ANY][ANY].Unconditional()
  }

  /** The response to a request and the number of inspections made for it. `replies(n)` is what the
      daemon would answer to the n-th of them; it is only heard if the daemon's own authorization
      request for that inspection, which comes back here, is allowed. */
  ghost function Serve(p: Plugin, req: Request, replies: nat -> Reply): (Response, nat)
    decreases if Token.Present(req.headers) then 0 else 1, 0
  {
    if Token.Present(req.headers) then
      var op := Resolution(req.verb, req.uri);
      if Token.Valid(req.headers, p.token) && op.Some? && op.value.Action == INSPECT && op.value.Query == map[] then
        (Response(true, InternalInspect), 0)
      else (Response(false, InvalidInternalRequest), 0)
    else match CommonName(req)
      case Ambiguous => (Response(false, InvalidIdentity), 0)
      case Anonymous => (Response(p.unidentified == "allow", UnidentifiedPolicy), 0)
      case Named(cn) =>
        if cn !in p.clients then (Response(false, UnknownClient), 0)
        else
          var perms := p.clients[cn].permissions;
          if FullAdmin(perms) then (Response(true, FullAdministrator), 0)
          else match Resolution(req.verb, req.uri)
            case None => (Response(false, UnknownOperation), 0)
            case Some(op) =>
              var r := Policy.Evaluate(Matching(perms, op), op, req.body, req.headers, Reader(p, op, replies), 0);
              (Response(r.0.Allow, Evaluated(r.0.Reason)), r.1)
  }

  ghost function Reader(p: Plugin, op: Operation, replies: nat -> Reply): nat -> Answer
    decreases 0, 2
  {
    (n: nat) => Lookup(p, op, replies(n))
  }

  /** Inspect: build the path, check that it resolves to an inspection, and let the daemon ask. */
  ghost function Lookup(p: Plugin, op: Operation, reply: Reply): Answer
    decreases 0, 1
  {
    CallbackCarriesToken(op, p.token);
    var resolved := Resolution("GET", InspectUri(op));
    if resolved.None? || resolved.value.Action != INSPECT then LookupError
    else if !Serve(p, Callback(op, p.token), _ => Failed).0.Allow then LookupError
    else Snapshot(op.Resource, reply)
  }

  // ---------------------------------------------------------------- the code

  method MatchPermissions(perms: Permissions, op: Operation) returns (matching: seq<Permission>)
    ensures matching == Matching(perms, op)
  {
    matching := [];
    var resources, actions := [op.Resource, ANY], [op.Action, ANY];
    for i := 0 to 2
      invariant i == 0 ==> matching == []
      invariant i == 1 ==> matching == Entry(perms, op.Resource, op.Action) + Entry(perms, op.Resource, ANY)
      invariant i == 2 ==> matching == Matching(perms, op)
    {
      ghost var before := matching;
      for j := 0 to 2
        invariant j == 0 ==> matching == before
        invariant j == 1 ==> matching == before + Entry(perms, resources[i], actions[0])
        invariant j == 2 ==> matching == before + Entry(perms, resources[i], actions[0]) + Entry(perms, resources[i], actions[1])
      {
        if resources[i] in perms && actions[j] in perms[resources[i]] {
          matching := matching + [perms[resources[i]][actions[j]]];
        }
      }
    }
  }

  method Authorize(p: Plugin, req: Request, replies: nat -> Reply) returns (resp: Response, inspections: nat)
    ensures (resp, inspections) == Serve(p, req, replies)
    decreases if Token.Present(req.headers) then 0 else 1, 3, 0
  {
    var result := Response(false, UnknownOperation);
    var present, valid := Token.Check(req.headers, p.token);
    if present {
      var resolved := Resolve(req.verb, req.uri);
      if valid && resolved.Some? && resolved.value.Action == INSPECT && |resolved.value.Query| == 0 {
        result := Response(true, InternalInspect);
      } else {
        result := Response(false, InvalidInternalRequest);
      }
      return result, 0;
    }
    var id := CommonName(req);
    if id.Ambiguous? {
      return Response(false, InvalidIdentity), 0;
    }
    if id.Anonymous? {
      return Response(p.unidentified == "allow", UnidentifiedPolicy), 0;
    }
    if id.cn !in p.clients {
      return Response(false, UnknownClient), 0;
    }
    var perms := p.clients[id.cn].permissions;
    if FullAdmin(perms) {
      return Response(true, FullAdministrator), 0;
    }
    var resolved := Resolve(req.verb, req.uri);
    if resolved.None? {
      return Response(false, UnknownOperation), 0;
    }
    var matching := MatchPermissions(perms, resolved.value);
    var r;
    r, inspections := EvaluateAll(p, matching, resolved.value, req, replies);
    resp := Response(r.Allow, Evaluated(r.Reason));
  }

  /** Evaluate's loop. */
  method EvaluateAll(p: Plugin, perms: seq<Permission>, op: Operation, req: Request, replies: nat -> Reply)
    returns (result: Result, used: nat)
    ensures (result, used) == Policy.Evaluate(perms, op, req.body, req.headers, Reader(p, op, replies), 0)
    decreases 1, 2, 0
  {
    result := Result(false, NoMatchingPermission);
    used := 0;
    ghost var whole := Policy.Evaluate(perms, op, req.body, req.headers, Reader(p, op, replies), 0);
    for i := 0 to |perms|
      invariant i < |perms| ==> Policy.Evaluate(perms[i..], op, req.body, req.headers, Reader(p, op, replies), used) == whole
      invariant i == |perms| ==> (result, used) == whole
    {
      var called;
      assert perms[i..][1..] == perms[i + 1..];
      result, called := EvaluateOne(p, perms[i], op, req, replies(used));
      if called {
        used := used + 1;
      }
      if result.Allow {
        return;
      }
    }
  }

  /** permission: inspects only once the gates before it have passed. */
  method EvaluateOne(p: Plugin, perm: Permission, op: Operation, req: Request, reply: Reply)
    returns (result: Result, called: bool)
    ensures result == Permit(perm, op, req.body, req.headers, Lookup(p, op, reply))
    ensures called == Inspects(perm, op, req.headers)
    decreases 1, 1, 0
  {
    if perm.Unconditional() {
      return Result(true, PermissionGranted), false;
    }
    if IsUpdate(op) {
      var safe := SafeUpdate(op, perm, req.headers);
      if !safe {
        return Result(false, UnsafeUpdateOptions), false;
      }
    }
    var state := LookupError;
    called := perm.Selector != None || perm.Mutation != None;
    if called {
      state := Inspect(p, op, reply);
      if state.LookupError? {
        return Result(false, CannotInspect), true;
      }
      if state.ID != op.ID {
        return Result(false, NotCanonicalID), true;
      }
      if IsUpdate(op) {
        var version := ParseUint(Get(op.Query, VERSION));
        if version == None || version.value != state.Version {
          return Result(false, VersionMismatch), true;
        }
      }
    }
    result := CheckConstraints(perm, op, req, state);
  }

  /** The selector, request and mutation checks, once the snapshot is known to be the right one. */
  method CheckConstraints(perm: Permission, op: Operation, req: Request, state: Answer) returns (result: Result)
    requires !perm.Unconditional() && (IsUpdate(op) ==> OptionsAllowed(op.Query) && CredentialsAllowed(perm, req.headers))
    requires perm.Selector.Some? || perm.Mutation.Some? ==> Anchored(op, state)
    ensures result == Permit(perm, op, req.body, req.headers, state)
  {
    if perm.Selector.Some? {
      var fits := Matches(state.Labels, perm.Selector.value);
      if !fits {
        return Result(false, SelectorMismatch);
      }
    }
    if perm.Request.Some? {
      if op.Resource != SERVICE && op.Resource != SECRET {
        return Result(false, UnsupportedRequest);
      }
      var labels := RequestLabels(op, req.body);
      if labels.None? {
        return Result(false, UndecodableRequest);
      }
      var fits := Matches(labels.value, perm.Request.value);
      if !fits {
        return Result(false, RequestMismatch);
      }
    }
    if perm.Mutation.Some? {
      if state.Spec.None? {
        return Result(false, MissingServiceSpec);
      }
      var current := SwarmSpec.Allocate(state.Spec.value);
      var err := Mutation.Validate(current, req.body, perm.Mutation.value);
      if err != Mutation.Ok {
        return Result(false, MutationRejected(err));
      }
    }
    return Result(true, ConstraintsSatisfied);
  }

  /** Inspect, including the authorization callback the daemon makes before answering. The callback
      carries the token, so it is answered without inspecting anything: the recursion is bounded. */
  method Inspect(p: Plugin, op: Operation, reply: Reply) returns (answer: Answer)
    ensures answer == Lookup(p, op, reply)
    decreases 1, 0, 0
  {
    var resolved := Resolve("GET", InspectUri(op));
    if resolved.None? || resolved.value.Action != INSPECT {
      return LookupError;
    }
    CallbackCarriesToken(op, p.token);
    var daemon, nested := Authorize(p, Callback(op, p.token), _ => Failed);
    assert nested == 0;
    if !daemon.Allow {
      return LookupError;
    }
    return Snapshot(op.Resource, reply);
  }
}
