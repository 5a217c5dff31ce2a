/** What authorization decides, stated over the configuration document. */
module Decisions {
  import opened Basics
  import opened Operation
  import opened Config
  import opened Identity
  import opened Policy
  import opened DockerApi
  import opened Authz
  import opened SwarmSpec
  import Token
  import Mutation

  // ---------------------------------------------------------------- the callback

  /** A request that carries the token exactly once and asks for what Inspect's path names is
      allowed without inspecting anything, whatever else it carries; any other method on that path,
      and any query, is refused. */
  lemma CallbackIsSelfAuthorizing(p: Plugin, req: Request, op: Operation, replies: nat -> Reply)
    requires WellFormed(op) && op.ID != "" && Token.Valid(req.headers, p.token) && req.uri.path == InspectPath(op)
    ensures Serve(p, req, replies).0.Allow <==> req.verb == "GET" && req.uri.query == Some(map[])
    ensures Serve(p, req, replies).1 == 0
  {
    var header :| header in req.headers && Token.Spellings(req.headers, Token.INTERNAL_HEADER) == {header};
    assert Token.Present(req.headers);
    InspectPathResolves(op);
    var got := Resolution(req.verb, req.uri);
    if got.Some? && got.value.Action == INSPECT && got.value.Query == map[] {
      assert req.uri == Uri(Print(got.value), Some(map[]));
    }
  }

  /** So an inspection of an accepted operation is always heard, and one without an individual
      resource never is. */
  lemma LookupIsHeard(p: Plugin, op: Operation, reply: Reply)
    requires WellFormed(op)
    ensures Lookup(p, op, reply) == if op.ID != "" then Snapshot(op.Resource, reply) else LookupError
  {
    InspectPathResolves(op);
    if op.ID != "" {
      CallbackCarriesToken(op, p.token);
      CallbackIsSelfAuthorizing(p, Callback(op, p.token), op, _ => Failed);
    }
  }

  /** The snapshot a permission is judged by when the recursion is left out of the picture. */
  function Observed(op: Operation, reply: Reply): Answer {
    if op.ID != "" then Snapshot(op.Resource, reply) else LookupError
  }

  function Observations(op: Operation, replies: nat -> Reply): nat -> Answer {
    (n: nat) => Observed(op, replies(n))
  }

  lemma {:induction false} EvaluateSameReader(
      perms: seq<Permission>, op: Operation, body: Mutation.Body, headers: map<string, string>,
      r: nat -> Answer, s: nat -> Answer, used: nat)
    requires forall n :: r(n) == s(n)
    ensures Policy.Evaluate(perms, op, body, headers, r, used) == Policy.Evaluate(perms, op, body, headers, s, used)
  {
    hide Permit, Inspects;
    if perms != [] {
      EvaluateSameReader(perms[1..], op, body, headers, r, s, used + Step(perms[0], op, headers));
    }
  }

  // ---------------------------------------------------------------- the decision

  /** The four places a permission for an operation can be entered at, most specific first. */
  function Place(op: Operation, i: nat): (string, string)
    requires i < 4
  {
    [(op.Resource, op.Action), (op.Resource, "*"), ("*", op.Action), ("*", "*")][i]
  }

  predicate Entered(perms: Permissions, op: Operation, i: nat) {
    i < 4 && Place(op, i).0 in perms && Place(op, i).1 in perms[Place(op, i).0]
  }

  function EnteredAt(perms: Permissions, op: Operation, i: nat): Permission
    requires Entered(perms, op, i)
  {
    perms[Place(op, i).0][Place(op, i).1]
  }

  /** 1 if a permission is entered there and deciding it takes an inspection. */
  function Asks(perms: Permissions, op: Operation, headers: map<string, string>, i: nat): nat {
    if Entered(perms, op, i) && Inspects(EnteredAt(perms, op, i), op, headers) then 1 else 0
  }

  /** The inspections made before place i is decided. */
  function AskedBefore(perms: Permissions, op: Operation, headers: map<string, string>, i: nat): nat {
    (if i > 0 then Asks(perms, op, headers, 0) else 0) +
    (if i > 1 then Asks(perms, op, headers, 1) else 0) +
    (if i > 2 then Asks(perms, op, headers, 2) else 0) +
    (if i > 3 then Asks(perms, op, headers, 3) else 0)
  }

  /** The permission entered at place i grants the operation, against what the daemon replies to the
      inspection made for it. */
  ghost predicate PlaceGrants(perms: Permissions, op: Operation, req: Request, reader: nat -> Answer, i: nat) {
    Entered(perms, op, i) &&
    Grants(EnteredAt(perms, op, i), op, req.body, req.headers, reader(AskedBefore(perms, op, req.headers, i)))
  }

  /** Some single permission entered for the operation's resource or any, and its action or any,
      grants it. */
  ghost predicate PermissionGrants(perms: Permissions, op: Operation, req: Request, replies: nat -> Reply) {
    exists i :: PlaceGrants(perms, op, req, Observations(op, replies), i)
  }

  /** An unconstrained permission for everything. */
  predicate Administrator(perms: Permissions) {
    && "*" in perms && "*" in perms["*"]
    && perms["*"]["*"].Selector == None && perms["*"]["*"].Request == None && perms["*"]["*"].Mutation == None
  }

  ghost predicate ClientAllowed(perms: Permissions, req: Request, replies: nat -> Reply) {
    Administrator(perms) || exists op :: Denotes(req.verb, req.uri, op) && PermissionGrants(perms, op, req, replies)
  }

  /** Who may do what, read off the configuration. */
  ghost predicate Allowed(c: Config, token: string, req: Request, replies: nat -> Reply) {
    if Token.Present(req.headers) then
      && Token.Valid(req.headers, token)
      && exists op :: Denotes(req.verb, req.uri, op) && op.Action == "inspect" && op.Query == map[]
    else match CommonName(req)
      case Ambiguous => false
      case Anonymous => c.Unidentified == "allow"
      case Named(cn) => exists n :: n in c.Clients && c.Clients[n].CommonName == cn && ClientAllowed(c.Clients[n].Permissions, req, replies)
  }

  // ---------------------------------------------------------------- the matching permissions

  /** What is entered at each place, if anything. */
  function Slot(perms: Permissions, op: Operation, i: nat): seq<Permission> {
    if Entered(perms, op, i) then [EnteredAt(perms, op, i)] else []
  }

  lemma MatchingBySlots(perms: Permissions, op: Operation)
    ensures Matching(perms, op) == Slot(perms, op, 0) + Slot(perms, op, 1) + Slot(perms, op, 2) + Slot(perms, op, 3)
  {
  }

  /** A permission is matched exactly when it is entered for the operation's resource or any, and for
      its action or any. */
  lemma MatchingIff(perms: Permissions, op: Operation, p: Permission)
    ensures p in Matching(perms, op) <==>
      exists r, a :: (r == op.Resource || r == "*") && (a == op.Action || a == "*") && r in perms && a in perms[r] && perms[r][a] == p
  {
    MatchingBySlots(perms, op);
    var matching := Matching(perms, op);
    if r, a :| (r == op.Resource || r == "*") && (a == op.Action || a == "*") && r in perms && a in perms[r] && perms[r][a] == p {
      var i := if r == op.Resource then if a == op.Action then 0 else 1 else if a == op.Action then 2 else 3;
      assert Entered(perms, op, i) && EnteredAt(perms, op, i) == p;
      assert p in Slot(perms, op, i);
    }
    if p in matching {
      var i: nat :| i < 4 && p in Slot(perms, op, i);
      assert Place(op, i).0 in perms && Place(op, i).1 in perms[Place(op, i).0];
    }
  }

  /** A more specific entry is matched before a less specific one. */
  lemma MatchingOrder(perms: Permissions, op: Operation, i: nat, j: nat)
    requires i < j < 4 && Entered(perms, op, i) && Entered(perms, op, j)
    ensures exists k, l ::
      && 0 <= k < l < |Matching(perms, op)|
      && Matching(perms, op)[k] == EnteredAt(perms, op, i) && Matching(perms, op)[l] == EnteredAt(perms, op, j)
  {
    MatchingBySlots(perms, op);
    hide Matching;
    var s0, s1, s2, s3 := Slot(perms, op, 0), Slot(perms, op, 1), Slot(perms, op, 2), Slot(perms, op, 3);
    var starts := [0, |s0|, |s0| + |s1|, |s0| + |s1| + |s2|];
    assert Matching(perms, op)[starts[i]] == EnteredAt(perms, op, i);
    assert Matching(perms, op)[starts[j]] == EnteredAt(perms, op, j);
  }

  /** Evaluating what is left of the places from i on. */
  lemma EvaluateSlots(perms: Permissions, op: Operation, req: Request, reader: nat -> Answer, i: nat, rest: seq<Permission>)
    requires i < 4
    ensures Policy.Evaluate(Slot(perms, op, i) + rest, op, req.body, req.headers, reader, AskedBefore(perms, op, req.headers, i)).0.Allow <==>
      || PlaceGrants(perms, op, req, reader, i)
      || Policy.Evaluate(rest, op, req.body, req.headers, reader, AskedBefore(perms, op, req.headers, i + 1)).0.Allow
  {
    hide Grants, Permit, Inspects, Entered;
    assert AskedBefore(perms, op, req.headers, i + 1) == AskedBefore(perms, op, req.headers, i) + Asks(perms, op, req.headers, i);
    hide AskedBefore;
    if Entered(perms, op, i) {
      var p := EnteredAt(perms, op, i);
      PermitIffGrants(p, op, req.body, req.headers, reader(AskedBefore(perms, op, req.headers, i)));
      assert ([p] + rest)[1..] == rest;
    } else {
      assert Slot(perms, op, i) + rest == rest;
    }
  }

  lemma EvaluatePlaces(perms: Permissions, op: Operation, req: Request, reader: nat -> Answer)
    ensures Policy.Evaluate(Matching(perms, op), op, req.body, req.headers, reader, 0).0.Allow <==>
      exists i :: PlaceGrants(perms, op, req, reader, i)
  {
    var s0, s1, s2, s3 := Slot(perms, op, 0), Slot(perms, op, 1), Slot(perms, op, 2), Slot(perms, op, 3);
    assert AskedBefore(perms, op, req.headers, 0) == 0;
    assert !Policy.Evaluate([], op, req.body, req.headers, reader, AskedBefore(perms, op, req.headers, 4)).0.Allow;
    hide Matching, Slot, Policy.Evaluate, AskedBefore, PlaceGrants;
    MatchingBySlots(perms, op);
    assert Matching(perms, op) == s0 + (s1 + (s2 + (s3 + [])));
    FourPlaces(perms, op, req, reader);
    EvaluateSlots(perms, op, req, reader, 0, s1 + (s2 + (s3 + [])));
    EvaluateSlots(perms, op, req, reader, 1, s2 + (s3 + []));
    EvaluateSlots(perms, op, req, reader, 2, s3 + []);
    EvaluateSlots(perms, op, req, reader, 3, []);
  }

  lemma FourPlaces(perms: Permissions, op: Operation, req: Request, reader: nat -> Answer)
    ensures (exists i :: PlaceGrants(perms, op, req, reader, i)) <==>
      || PlaceGrants(perms, op, req, reader, 0) || PlaceGrants(perms, op, req, reader, 1)
      || PlaceGrants(perms, op, req, reader, 2) || PlaceGrants(perms, op, req, reader, 3)
  {
    hide Grants, AskedBefore;
  }

  lemma EvaluateIffGranted(p: Plugin, perms: Permissions, op: Operation, req: Request, replies: nat -> Reply)
    requires WellFormed(op)
    ensures Policy.Evaluate(Matching(perms, op), op, req.body, req.headers, Reader(p, op, replies), 0).0.Allow <==>
            PermissionGrants(perms, op, req, replies)
  {
    hide PlaceGrants, Matching, Lookup, Observed, Policy.Evaluate;
    var observed := Observations(op, replies);
    forall n: nat ensures Reader(p, op, replies)(n) == observed(n) {
      LookupIsHeard(p, op, replies(n));
      ObservedIs(op, replies(n));
    }
    EvaluateSameReader(Matching(perms, op), op, req.body, req.headers, Reader(p, op, replies), observed, 0);
    EvaluatePlaces(perms, op, req, observed);
  }

  lemma ObservedIs(op: Operation, reply: Reply)
    ensures Observed(op, reply) == if op.ID != "" then Snapshot(op.Resource, reply) else LookupError
  {
  }

  /** Authorize decides exactly the declarative relation. */
  lemma ServeDecidesAllowed(c: Config, p: Plugin, req: Request, replies: nat -> Reply)
    requires ValidPolicy(c) && Indexes(p.clients, c) && p.unidentified == c.Unidentified
    ensures Serve(p, req, replies).0.Allow <==> Allowed(c, p.token, req, replies)
  {
    hide PermissionGrants, ValidClient, Matching, WellFormed, MethodOf, Print;
    var resolved := Resolution(req.verb, req.uri);
    if resolved.Some? {
      forall op | Denotes(req.verb, req.uri, op) ensures op == resolved.value {
        DenotesUnique(req.verb, req.uri, op, resolved.value);
      }
    }
    if !Token.Present(req.headers) && CommonName(req).Named? {
      var cn := CommonName(req).cn;
      if cn in p.clients && resolved.Some? {
        EvaluateIffGranted(p, p.clients[cn].permissions, resolved.value, req, replies);
      }
      if cn in p.clients {
        assert forall n :: n in c.Clients && c.Clients[n].CommonName == cn ==> n == p.clients[cn].name;
      }
    }
  }

  /** What the response says, by who asks for what. */
  lemma MessagesByRequest(p: Plugin, req: Request, replies: nat -> Reply)
    ensures Token.Present(req.headers) ==>
      Serve(p, req, replies).0.Msg == if Serve(p, req, replies).0.Allow then InternalInspect else InvalidInternalRequest
    ensures !Token.Present(req.headers) ==>
      match CommonName(req)
      case Ambiguous => Serve(p, req, replies).0 == Response(false, InvalidIdentity)
      case Anonymous => Serve(p, req, replies).0 == Response(p.unidentified == "allow", UnidentifiedPolicy)
      case Named(cn) =>
        var msg := Serve(p, req, replies).0.Msg;
        && (cn !in p.clients <==> msg == UnknownClient)
        && (cn in p.clients && Administrator(p.clients[cn].permissions) <==> msg == FullAdministrator)
        && (cn in p.clients && !Administrator(p.clients[cn].permissions) && (forall op :: !Denotes(req.verb, req.uri, op)) <==>
            msg == UnknownOperation)
        && (cn in p.clients && !Administrator(p.clients[cn].permissions) && (exists op :: Denotes(req.verb, req.uri, op)) <==>
            msg.Evaluated?)
  {
    hide Denotes, Policy.Evaluate, Matching, Token.Valid;
    var resolved := Resolution(req.verb, req.uri);
    assert resolved.Some? ==> Denotes(req.verb, req.uri, resolved.value);
  }

  /** For an operation the resolver knows, the administrator shortcut and the ordinary matching
      loops agree: evaluation would have allowed it too, whatever the daemon answers. */
  lemma AdminShortcutAgrees(p: Plugin, perms: Permissions, op: Operation, req: Request, reader: nat -> Answer)
    requires FullAdmin(perms)
    ensures Policy.Evaluate(Matching(perms, op), op, req.body, req.headers, reader, 0).0.Allow
  {
    var all := Matching(perms, op);
    var last := |all| - 1;
    assert all[last] == perms[ANY][ANY];
    NoMerging(all, op, req.body, req.headers, reader, 0);
    assert GrantAt(all, last, op, req.body, req.headers, reader, 0);
  }

  // ---------------------------------------------------------------- validated configurations

  ghost predicate MatchedBy(perms: Permissions, op: Operation, p: Permission) {
    p in Matching(perms, op)
  }

  /** What validation means for a permission matched to an operation: it is unconditional, or it
      was entered for the operation's own action with constraints that fit the resource. */
  lemma MatchedPermissionFits(c: Config, n: string, op: Operation, p: Permission)
    requires ValidPolicy(c) && n in c.Clients && WellFormed(op) && MatchedBy(c.Clients[n].Permissions, op, p)
    ensures p.Unconditional() || (FitsResource(p, op.Resource, op.Action) && NonemptyConstraints(p))
  {
    var perms := c.Clients[n].Permissions;
    assert ValidClient(n, c.Clients[n]);
    hide Supports, FitsResource, NonemptyConstraints, ValidClient;
    var resource, action := MatchedEntry(perms, op, p);
    assert ValidEntry(resource, action, p) by { EntryIsValid(c, n, resource, action); }
    WellFormedFacts(op);
    if action != ANY {
      assert Covers(resource, action, op.Resource);
    }
  }

  lemma EntryIsValid(c: Config, n: string, resource: string, action: string)
    requires ValidPolicy(c) && n in c.Clients
    requires resource in c.Clients[n].Permissions && action in c.Clients[n].Permissions[resource]
    ensures ValidEntry(resource, action, c.Clients[n].Permissions[resource][action])
  {
    hide ValidEntry;
    assert ValidClient(n, c.Clients[n]);
    assert ValidActions(resource, c.Clients[n].Permissions[resource]);
  }

  lemma MatchedEntry(perms: Permissions, op: Operation, p: Permission) returns (resource: string, action: string)
    requires MatchedBy(perms, op, p)
    ensures resource in {op.Resource, ANY} && action in {op.Action, ANY}
    ensures resource in perms && action in perms[resource] && p == perms[resource][action]
  {
    if p in Entry(perms, op.Resource, op.Action) {
      resource, action := op.Resource, op.Action;
    } else if p in Entry(perms, op.Resource, ANY) {
      resource, action := op.Resource, ANY;
    } else if p in Entry(perms, ANY, op.Action) {
      resource, action := ANY, op.Action;
    } else {
      resource, action := ANY, ANY;
    }
  }

  /** Inspect's contract: a snapshot of a service comes with its spec. */
  predicate InspectContract(op: Operation, answer: Answer) {
    answer.Found? && op.Resource == SERVICE ==> answer.Spec.Some?
  }

  lemma ObservedKeepsContract(op: Operation, reply: Reply)
    ensures InspectContract(op, Observed(op, reply))
  {
  }

  /** A validated configuration never drives the evaluator into its defensive branches: no
      unsupported request constraint, no missing spec, no empty or unsupported mutation field, and
      no inspection of an operation without an individual resource. */
  lemma ValidatedConfigsAvoidDefensiveBranches(
      c: Config, n: string, op: Operation, p: Permission, body: Mutation.Body, headers: map<string, string>, answer: Answer)
    requires ValidPolicy(c) && n in c.Clients && WellFormed(op) && MatchedBy(c.Clients[n].Permissions, op, p)
    requires InspectContract(op, answer)
    ensures Permit(p, op, body, headers, answer).Reason !in
      {UnsupportedRequest, MissingServiceSpec, MutationRejected(Mutation.EmptyFieldSet), MutationRejected(Mutation.UnsupportedField)}
    ensures Inspects(p, op, headers) ==> op.ID != ""
  {
    MatchedPermissionFits(c, n, op, p);
    WellFormedFacts(op);
    ReasonSources(p, op, body, headers, answer);
    IndividualResource(op);
    hide ValidPolicy, MatchedBy, Permit, Supports, WellFormed, OptionsAllowed, CredentialsAllowed, ValidOnly;
    if p.Mutation.Some? && answer.Found? && answer.Spec.Some? {
      ValidOnlyNeverUnsupported(answer.Spec.value, body.service, p.Mutation.value);
    }
    if p.Request.Some? {
      RequestFits(op);
    }
  }

  /** The gate each defensive reason comes from. */
  lemma ReasonSources(p: Permission, op: Operation, body: Mutation.Body, headers: map<string, string>, answer: Answer)
    ensures var reason := Permit(p, op, body, headers, answer).Reason;
      && (reason == UnsupportedRequest ==> p.Request.Some? && op.Resource != SERVICE && op.Resource != SECRET)
      && (reason == MissingServiceSpec ==> p.Mutation.Some? && answer.Found? && answer.Spec.None?)
      && (reason.MutationRejected? ==> p.Mutation.Some? && answer.Found? && answer.Spec.Some?)
      && (reason.MutationRejected? ==> reason.verdict == Mutation.Decide(answer.Spec.value, body.service, p.Mutation.value))
  {
    hide Labelled, OptionsAllowed, CredentialsAllowed, ParseUint, Mutation.Decide;
  }

  lemma IndividualResource(op: Operation)
    requires WellFormed(op)
    ensures op.Action == INSPECT || op.Action == UPDATE || op.Action == DELETE ==> op.ID != ""
  {
  }

  lemma RequestFits(op: Operation)
    requires Supports(op.Resource, op.Action) && (op.Action == CREATE || op.Action == UPDATE)
    ensures op.Resource == SERVICE || op.Resource == SECRET
  {
  }

  lemma {:induction false} NoUnsupported(allowed: seq<string>, cur: SpecView, next: SpecView)
    requires forall f :: f in allowed ==> Mutation.Supported(f)
    ensures Mutation.LoopError(allowed, cur, next) !in {Mutation.UnsupportedField, Mutation.EmptyFieldSet}
  {
    hide Mutation.SideCondition;
    if allowed != [] {
      NoUnsupported(allowed[1..], cur, next);
    }
  }

  lemma ValidOnlyNeverUnsupported(cur: SpecView, requested: Option<SpecView>, only: seq<string>)
    requires ValidOnly(only)
    ensures Mutation.Decide(cur, requested, only) !in {Mutation.EmptyFieldSet, Mutation.UnsupportedField}
  {
    hide Mutation.LoopError, Mutation.Overwrite;
    if requested.Some? {
      NoUnsupported(only, cur, requested.value);
    }
  }

  /** Evaluate's result is that of one of the permissions, on one of the answers. */
  ghost predicate DecidedByOne(
      result: Result, perms: seq<Permission>, op: Operation, body: Mutation.Body, headers: map<string, string>, reader: nat -> Answer)
  {
    exists p, n: nat :: p in perms && result == Permit(p, op, body, headers, reader(n))
  }

  lemma {:induction false} EvaluateIsOnePermits(
      perms: seq<Permission>, op: Operation, body: Mutation.Body, headers: map<string, string>, reader: nat -> Answer, used: nat)
    ensures perms == [] ==> Policy.Evaluate(perms, op, body, headers, reader, used).0.Reason == NoMatchingPermission
    ensures perms != [] ==> DecidedByOne(Policy.Evaluate(perms, op, body, headers, reader, used).0, perms, op, body, headers, reader)
  {
    hide Permit, Inspects;
    if perms != [] {
      var r, used' := Permit(perms[0], op, body, headers, reader(used)), used + Step(perms[0], op, headers);
      if r.Allow || |perms| == 1 {
        assert perms[0] in perms;
      } else {
        EvaluateIsOnePermits(perms[1..], op, body, headers, reader, used');
        var result := Policy.Evaluate(perms[1..], op, body, headers, reader, used').0;
        var p, n: nat :| p in perms[1..] && result == Permit(p, op, body, headers, reader(n));
        assert p in perms;
      }
    }
  }

  /** Under a validated configuration no response ever reports one of the evaluator's defensive
      branches, whatever is asked and whatever the daemon replies. */
  lemma ServeAvoidsDefensiveBranches(c: Config, p: Plugin, req: Request, replies: nat -> Reply)
    requires ValidPolicy(c) && Indexes(p.clients, c)
    ensures Serve(p, req, replies).0.Msg !in {
      Evaluated(UnsupportedRequest), Evaluated(MissingServiceSpec),
      Evaluated(MutationRejected(Mutation.EmptyFieldSet)), Evaluated(MutationRejected(Mutation.UnsupportedField))}
  {
    hide ValidPolicy, Matching, Policy.Evaluate, WellFormed, Token.Valid;
    var resolved := Resolution(req.verb, req.uri);
    if !Token.Present(req.headers) && CommonName(req).Named? && CommonName(req).cn in p.clients && resolved.Some? {
      var n := p.clients[CommonName(req).cn].name;
      EvaluationAvoidsDefensiveBranches(c, n, p, resolved.value, req, replies);
    }
  }

  lemma EvaluationAvoidsDefensiveBranches(c: Config, n: string, p: Plugin, op: Operation, req: Request, replies: nat -> Reply)
    requires ValidPolicy(c) && n in c.Clients && WellFormed(op)
    ensures Policy.Evaluate(Matching(c.Clients[n].Permissions, op), op, req.body, req.headers, Reader(p, op, replies), 0).0.Reason !in
      {UnsupportedRequest, MissingServiceSpec, MutationRejected(Mutation.EmptyFieldSet), MutationRejected(Mutation.UnsupportedField)}
  {
    var perms, reader := Matching(c.Clients[n].Permissions, op), Reader(p, op, replies);
    var result := Policy.Evaluate(perms, op, req.body, req.headers, reader, 0).0;
    EvaluateIsOnePermits(perms, op, req.body, req.headers, reader, 0);
    hide ValidPolicy, Matching, Policy.Evaluate, WellFormed, Permit, Lookup, Observed, InspectContract;
    if perms != [] {
      var q, i: nat :| q in perms && result == Permit(q, op, req.body, req.headers, reader(i));
      LookupIsHeard(p, op, replies(i));
      ObservedIs(op, replies(i));
      ObservedKeepsContract(op, replies(i));
      assert reader(i) == Observed(op, replies(i));
      assert MatchedBy(c.Clients[n].Permissions, op, q);
      ValidatedConfigsAvoidDefensiveBranches(c, n, op, q, req.body, req.headers, reader(i));
    }
  }

  /** Under a validated configuration one external request causes at most two inspections, and a
      request that carries the token causes none: the callbacks cannot multiply. */
  lemma AtMostTwoInspections(c: Config, p: Plugin, req: Request, replies: nat -> Reply)
    requires ValidPolicy(c) && Indexes(p.clients, c)
    ensures Serve(p, req, replies).1 <= 2
    ensures Token.Present(req.headers) ==> Serve(p, req, replies).1 == 0
  {
    hide ValidPolicy, Matching, Policy.Evaluate, Inspections, Token.Valid, Denotes;
    var resolved := Resolution(req.verb, req.uri);
    if !Token.Present(req.headers) && CommonName(req).Named? && CommonName(req).cn in p.clients && resolved.Some? {
      var n := p.clients[CommonName(req).cn].name;
      var op := resolved.value;
      var perms := c.Clients[n].Permissions;
      NoMerging(Matching(perms, op), op, req.body, req.headers, Reader(p, op, replies), 0);
      AtMostTwoMatchedInspect(c, n, op, req.headers);
    }
  }

  lemma {:induction false} InspectionsAppend(a: seq<Permission>, b: seq<Permission>, op: Operation, headers: map<string, string>)
    ensures Inspections(a + b, op, headers) == Inspections(a, op, headers) + Inspections(b, op, headers)
  {
    if a == [] {
      assert a + b == b;
    } else {
      assert (a + b)[1..] == a[1..] + b;
      InspectionsAppend(a[1..], b, op, headers);
    }
  }

  lemma WildcardActionsNeverInspect(c: Config, n: string, resource: string, op: Operation, headers: map<string, string>)
    requires ValidPolicy(c) && n in c.Clients
    ensures Inspections(Entry(c.Clients[n].Permissions, resource, ANY), op, headers) == 0
  {
    var perms := c.Clients[n].Permissions;
    if resource in perms && ANY in perms[resource] {
      EntryIsValid(c, n, resource, ANY);
    }
  }

  lemma AtMostTwoMatchedInspect(c: Config, n: string, op: Operation, headers: map<string, string>)
    requires ValidPolicy(c) && n in c.Clients
    ensures Inspections(Matching(c.Clients[n].Permissions, op), op, headers) <= 2
  {
    hide ValidPolicy, Inspects;
    var perms := c.Clients[n].Permissions;
    var e1, e2 := Entry(perms, op.Resource, op.Action), Entry(perms, op.Resource, ANY);
    var e3, e4 := Entry(perms, ANY, op.Action), Entry(perms, ANY, ANY);
    InspectionsAppend(e1 + e2 + e3, e4, op, headers);
    InspectionsAppend(e1 + e2, e3, op, headers);
    InspectionsAppend(e1, e2, op, headers);
    WildcardActionsNeverInspect(c, n, op.Resource, op, headers);
    WildcardActionsNeverInspect(c, n, ANY, op, headers);
  }
}
