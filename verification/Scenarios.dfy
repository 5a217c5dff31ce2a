/** What the callback answers for the documented kinds of permission, from the request down to labels. */
module Scenarios {
  import opened Basics
  import opened Operation
  import opened Config
  import opened Identity
  import opened Policy
  import opened DockerApi
  import opened Authz
  import opened Decisions
  import opened Numerals
  import opened SwarmSpec
  import Token
  import Mutation

  /** Every required pair is among the labels. */
  ghost predicate Carries(labels: StringMap, required: map<string, string>) {
    forall pair :: pair in required.Items ==> labels.MapOf? && pair in labels.entries.Items
  }

  lemma LabelledIsCarries(labels: StringMap, required: map<string, string>)
    ensures Labelled(labels, required) <==> Carries(labels, required)
  {
    if Carries(labels, required) {
      forall k | k in required ensures labels.MapOf? && k in labels.entries && labels.entries[k] == required[k] {
        assert (k, required[k]) in required.Items;
      }
    }
    if Labelled(labels, required) {
      forall pair | pair in required.Items ensures labels.MapOf? && pair in labels.entries.Items {
        assert pair.0 in labels.entries && labels.entries[pair.0] == pair.1;
      }
    }
  }

  /** The callback of a client whose only permission is entered for one resource and action. */
  ghost predicate OnlyPermission(p: Plugin, req: Request, op: Operation, permission: Permission) {
    && !Token.Present(req.headers)
    && CommonName(req).Named? && CommonName(req).cn in p.clients
    && p.clients[CommonName(req).cn].permissions == map[op.Resource := map[op.Action := permission]]
    && Denotes(req.verb, req.uri, op)
  }

  lemma OnePermissionDecides(p: Plugin, req: Request, op: Operation, permission: Permission, replies: nat -> Reply)
    requires OnlyPermission(p, req, op, permission)
    ensures Serve(p, req, replies).0.Allow <==> Grants(permission, op, req.body, req.headers, Observed(op, replies(0)))
  {
    var perms := p.clients[CommonName(req).cn].permissions;
    var resolved := Resolution(req.verb, req.uri);
    DenotesUnique(req.verb, req.uri, op, resolved.value);
    NotWild(op);
    hide Grants, Observed, Matching, Denotes;
    EvaluateIffGranted(p, perms, op, req, replies);
    OnlyPlace(perms, op, permission, req, Observations(op, replies));
  }

  lemma NotWild(op: Operation)
    requires WellFormed(op)
    ensures op.Resource != "*" && op.Action != "*"
  {
  }

  lemma OnlyPlace(perms: Permissions, op: Operation, permission: Permission, req: Request, reader: nat -> Answer)
    requires perms == map[op.Resource := map[op.Action := permission]] && op.Resource != "*" && op.Action != "*"
    ensures (exists i :: PlaceGrants(perms, op, req, reader, i)) <==> Grants(permission, op, req.body, req.headers, reader(0))
  {
    hide Grants;
    assert forall i :: Entered(perms, op, i) <==> i == 0;
    if Grants(permission, op, req.body, req.headers, reader(0)) {
      assert PlaceGrants(perms, op, req, reader, 0);
    }
  }

  /** A selector for inspecting or deleting one kind of resource: the request is allowed exactly when the
      daemon's reply is the object with the very ID asked for and its labels, read as that kind of
      object, carry the selector. */
  lemma SelectorDecides(p: Plugin, req: Request, op: Operation, selector: map<string, string>, replies: nat -> Reply)
    requires OnlyPermission(p, req, op, Permission(Some(selector), None, None)) && (op.Action == "inspect" || op.Action == "delete")
    ensures Serve(p, req, replies).0.Allow <==>
      && replies(0).Object? && replies(0).ID == op.ID
      && exists labels :: ReadsAs(op.Resource, replies(0), labels) && Carries(labels, selector)
  {
    var permission, reply := Permission(Some(selector), None, None), replies(0);
    OnePermissionDecides(p, req, op, permission, replies);
    IndividualResource(op);
    ObservedIs(op, reply);
    SnapshotByKind(op.Resource, reply);
    hide OnlyPermission, Serve, Snapshot, Observed, ReadsAs, Labelled, Carries;
    var answer := Observed(op, reply);
    assert Grants(permission, op, req.body, req.headers, answer) <==>
      answer.Found? && answer.ID == op.ID && Labelled(answer.Labels, selector);
    if answer.Found? {
      LabelledIsCarries(answer.Labels, selector);
    }
  }

  /** The labels a request body carries when it is read as an object of the given kind. */
  ghost predicate BodyReadsAs(resource: string, body: Mutation.Body, labels: StringMap) {
    || (resource == "service" && body.service.Some? && labels == body.service.value.Labels)
    || (resource == "secret" && body.secretLabels == Some(labels))
  }

  lemma BodyByKind(op: Operation, body: Mutation.Body)
    ensures RequestLabels(op, body).Some? <==> exists labels :: BodyReadsAs(op.Resource, body, labels)
    ensures forall labels :: BodyReadsAs(op.Resource, body, labels) ==> RequestLabels(op, body) == Some(labels)
  {
    if op.Resource == "service" && body.service.Some? {
      assert BodyReadsAs(op.Resource, body, body.service.value.Labels);
    } else if op.Resource == "secret" && body.secretLabels.Some? {
      assert BodyReadsAs(op.Resource, body, body.secretLabels.value);
    }
  }

  /** A request constraint on creation: allowed exactly when the body, read as the kind of object to be
      created, carries the required labels; the daemon is not asked. */
  lemma RequestDecidesCreation(p: Plugin, req: Request, op: Operation, required: map<string, string>, replies: nat -> Reply)
    requires OnlyPermission(p, req, op, Permission(None, Some(required), None)) && op.Action == "create"
    ensures Serve(p, req, replies).0.Allow <==>
      exists labels :: BodyReadsAs(op.Resource, req.body, labels) && Carries(labels, required)
  {
    OnePermissionDecides(p, req, op, Permission(None, Some(required), None), replies);
    BodyByKind(op, req.body);
    hide OnlyPermission, Serve, BodyReadsAs, RequestLabels, Labelled, Carries, Observed;
    if RequestLabels(op, req.body).Some? {
      LabelledIsCarries(RequestLabels(op, req.body).value, required);
    }
  }

  /** The daemon's reply is the service asked for, at the version the options name. */
  ghost predicate CurrentService(op: Operation, version: string, reply: Reply) {
    && reply.Object? && reply.ID == op.ID && reply.service.Some?
    && reply.Version < LIMIT && NumeralOf(version, reply.Version)
  }

  /** A constrained update, decided in full. */
  ghost predicate UpdateAllowed(op: Operation, version: string, req: Request, permission: Permission, reply: Reply) {
    && SafeOptions(op.Query, version)
    && (permission.Mutation.Some? && "container.image" !in permission.Mutation.value ==>
      forall k :: k in req.headers ==> !Token.Spells(k, "X-Registry-Auth"))
    && (permission.Selector.Some? || permission.Mutation.Some? ==> CurrentService(op, version, reply))
    && (permission.Selector.Some? ==> Carries(reply.service.value.Labels, permission.Selector.value))
    && (permission.Request.Some? ==> req.body.service.Some? && Carries(req.body.service.value.Labels, permission.Request.value))
    && (permission.Mutation.Some? ==>
      Mutation.Decide(reply.service.value, req.body.service, permission.Mutation.value) == Mutation.Ok)
  }

  /** A service update under one constrained permission is allowed exactly when its options are safe, it
      carries no credential unless the image may change, the daemon's reply is the service with the ID
      and version asked for, and the labels and the mutation are as demanded. */
  lemma UpdateDecided(p: Plugin, req: Request, op: Operation, permission: Permission, replies: nat -> Reply)
    requires OnlyPermission(p, req, op, permission) && op.Action == "update" && permission != Permission(None, None, None)
    ensures Serve(p, req, replies).0.Allow <==> exists version :: UpdateAllowed(op, version, req, permission, replies(0))
  {
    OnePermissionDecides(p, req, op, permission, replies);
    UpdatesServices(op);
    hide OnlyPermission, Serve, WellFormed;
    IndividualResource(op);
    ObservedIs(op, replies(0));
    UpdateGranted(op, req, permission, replies(0));
  }

  lemma UpdatesServices(op: Operation)
    requires WellFormed(op) && op.Action == "update"
    ensures op.Resource == "service" && op.ID != ""
  {
  }

  lemma UpdateGranted(op: Operation, req: Request, permission: Permission, reply: Reply)
    requires op.Resource == "service" && op.Action == "update" && op.ID != "" && permission != Permission(None, None, None)
    ensures Grants(permission, op, req.body, req.headers, Snapshot(op.Resource, reply)) <==>
      exists version :: UpdateAllowed(op, version, req, permission, reply)
  {
    var version := Get(op.Query, VERSION);
    OptionsInFull(op.Query);
    if SafeOptions(op.Query, version) {
      GrantedIffAllowed(op, version, req, permission, reply);
    }
    hide Snapshot, Get, OptionsAllowed, SafeOptions, CurrentService, Carries;
    assert !permission.Unconditional();
    if v :| UpdateAllowed(op, v, req, permission, reply) {
      assert v == version;
    }
  }

  lemma GrantedIffAllowed(op: Operation, version: string, req: Request, permission: Permission, reply: Reply)
    requires op.Resource == "service" && op.Action == "update" && op.ID != "" && permission != Permission(None, None, None)
    requires SafeOptions(op.Query, version)
    ensures Grants(permission, op, req.body, req.headers, Snapshot(op.Resource, reply)) <==>
      UpdateAllowed(op, version, req, permission, reply)
  {
    var answer := Snapshot(op.Resource, reply);
    OptionsInFull(op.Query);
    Token.HeadersSpeltOut(req.headers, "");
    ConstraintsByReply(op, req, permission, reply);
    AnchoredByReply(op, version, reply);
    assert CurrentService(op, version, reply) ==> reply.Object? && reply.ID != "" && reply.service.Some?;
    assert !permission.Unconditional();
    hide Snapshot, Labelled, Carries, OptionsAllowed, SafeOptions, Token.Spells, Token.Spellings, Mutation.Decide, CurrentService, Anchored;
    hide MutationGrants, RequestLabels;
  }

  lemma AnchoredByReply(op: Operation, version: string, reply: Reply)
    requires op.Resource == "service" && op.Action == "update" && op.ID != "" && SafeOptions(op.Query, version)
    ensures Anchored(op, Snapshot(op.Resource, reply)) <==> CurrentService(op, version, reply)
  {
    OptionsInFull(op.Query);
    if reply.Object? {
      ReadExactly(version, reply.Version);
    }
    hide ParseUint, NumeralOf, SafeOptions, OptionsAllowed;
  }

  lemma ConstraintsByReply(op: Operation, req: Request, permission: Permission, reply: Reply)
    requires op.Resource == "service"
    ensures permission.Request.Some? ==>
      (RequestLabels(op, req.body).Some? && Labelled(RequestLabels(op, req.body).value, permission.Request.value) <==>
       req.body.service.Some? && Carries(req.body.service.value.Labels, permission.Request.value))
    ensures reply.Object? && reply.ID != "" && reply.service.Some? ==>
      var answer := Snapshot(op.Resource, reply);
      && answer.Found? && answer.Spec == reply.service
      && (permission.Selector.Some? ==>
        (Labelled(answer.Labels, permission.Selector.value) <==> Carries(reply.service.value.Labels, permission.Selector.value)))
      && (permission.Mutation.Some? ==>
        (MutationGrants(permission.Mutation.value, reply.service.value, req.body) <==>
         Mutation.Decide(reply.service.value, req.body.service, permission.Mutation.value) == Mutation.Ok))
  {
    hide Labelled, Carries, Mutation.Decide, Mutation.AgreeOutside, Mutation.SideCondition, Mutation.Supported;
    if permission.Request.Some? && req.body.service.Some? {
      LabelledIsCarries(req.body.service.value.Labels, permission.Request.value);
    }
    if reply.Object? && reply.service.Some? {
      if permission.Selector.Some? {
        LabelledIsCarries(reply.service.value.Labels, permission.Selector.value);
      }
      if permission.Mutation.Some? {
        Mutation.AcceptedIff(reply.service.value, req.body.service, permission.Mutation.value);
      }
    }
  }
}
