/** Authorized service updates as a protocol: a request is judged against inspected snapshots, and
    executed later, while other clients keep creating, changing, renaming and deleting services.

    What is assumed of the Docker daemon:
      - an update takes effect only if its version parameter is the service's current version;
      - IDs are never reused, and an ID in use denotes its service; names (and abbreviations) may
        come to denote another service at any time;
      - one of two ways of numbering versions, chosen for a whole run. Cluster-wide (as Swarm does):
        every change of any service gets a version above all versions given out before, and a name
        may be spelt like the ID of a deleted service. Per service: every change of a service
        increases its own version, and a reference ever issued as an ID denotes that service or
        nothing;
      - an update whose only options are version and registryAuthFrom=spec replaces the whole spec
        by the submitted one and, without an X-Registry-Auth header, keeps the stored registry
        credential; with any other option, or a body that does not decode, anything may be
        installed. */
module Protocol {
  import opened Basics
  import opened Operation
  import opened Config
  import opened SwarmSpec
  import opened Policy
  import Mutation
  import Token

  datatype Service = Service(version: nat, spec: SpecView, credential: string)

  datatype Submission = Submission(op: Operation, body: Mutation.Body, headers: map<string, string>)

  datatype Phase =
    | Judging(remaining: seq<Permission>)
    | Authorized(grant: Permission, answer: Answer)
    | Refused
    | Executed

  /** `seen` logs the answers to the inspections made so far for the request. */
  datatype Ticket = Ticket(request: Submission, permissions: seq<Permission>, seen: seq<Answer>, phase: Phase)

  /** `origin` remembers each service as it was created, `clock` the latest version given out. */
  datatype State = State(
    clusterWide: bool, clock: nat,
    services: map<string, Service>, origin: map<string, Service>, names: map<string, string>, tickets: map<nat, Ticket>)

  datatype Event =
    | Create(id: string, service: Service)
    | OtherUpdate(id: string, service: Service)
    | Delete(id: string)
    | Rename(name: string, id: string)
    | Submit(ticket: nat, request: Submission, permissions: seq<Permission>)
    | Judge(ticket: nat, lookupFails: bool)
    | Execute(ticket: nat, version: nat, whim: Service)

  function Initial(clusterWide: bool): State {
    State(clusterWide, 0, map[], map[], map[], map[])
  }

  // ---------------------------------------------------------------- the daemon

  /** What a reference denotes now. */
  function Denoted(s: State, ref: string): Option<string> {
    if ref in s.services then Some(ref)
    else if (s.clusterWide || ref !in s.origin) && ref in s.names && s.names[ref] in s.services then Some(s.names[ref])
    else None
  }

  function Inspected(s: State, ref: string): Answer {
    match Denoted(s, ref)
    case None => LookupError
    case Some(id) => Found(id, s.services[id].version, s.services[id].spec.Labels, Some(s.services[id].spec))
  }

  /** The service an update would change now, if its version is still current. */
  function Target(s: State, r: Submission): Option<string> {
    match Denoted(s, r.op.ID)
    case None => None
    case Some(id) => if ParseUint(Get(r.op.Query, VERSION)) == Some(s.services[id].version) then Some(id) else None
  }

  /** A version the daemon may give to a change of a service that is at version `current`. */
  predicate Newer(s: State, version: nat, current: nat) {
    version > if s.clusterWide then s.clock else current
  }

  function ServiceAfter(r: Submission, current: Service, version: nat, whim: Service): Service {
    Service(
      version,
      if OptionsAllowed(r.op.Query) && r.body.service.Some? then r.body.service.value else whim.spec,
      if OptionsAllowed(r.op.Query) && Token.Spellings(r.headers, Token.REGISTRY_AUTH) == {} then current.credential
      else whim.credential)
  }

  // ---------------------------------------------------------------- steps

  /** One turn of Evaluate's loop. */
  function JudgeNext(r: Submission, remaining: seq<Permission>, answer: Answer): Phase {
    if remaining == [] then Refused
    else if Permit(remaining[0], r.op, r.body, r.headers, answer).Allow then Authorized(remaining[0], answer)
    else Judging(remaining[1..])
  }

  /** The log after one more turn: only some permissions need the current service read. */
  function LogNext(r: Submission, remaining: seq<Permission>, answer: Answer): seq<Answer> {
    if remaining != [] && Inspects(remaining[0], r.op, r.headers) then [answer] else []
  }

  ghost predicate Enabled(s: State, e: Event) {
    match e
    case Create(id, service) => id != "" && id !in s.origin && (s.clusterWide ==> service.version > s.clock)
    case OtherUpdate(id, service) => id in s.services && Newer(s, service.version, s.services[id].version)
    case Delete(id) => id in s.services
    case Rename(name, id) => (s.clusterWide || name !in s.origin) && id in s.services
    case Submit(t, r, _) => t !in s.tickets && WellFormed(r.op) && IsUpdate(r.op)
    case Judge(t, _) => t in s.tickets && s.tickets[t].phase.Judging?
    case Execute(t, version, _) =>
      && t in s.tickets && s.tickets[t].phase.Authorized?
      && (Target(s, s.tickets[t].request).Some? ==> Newer(s, version, s.services[Target(s, s.tickets[t].request).value].version))
  }

  ghost function Apply(s: State, e: Event): State
    requires Enabled(s, e)
  {
    match e
    case Create(id, service) =>
      s.(services := s.services[id := service], origin := s.origin[id := service], clock := service.version)
    case OtherUpdate(id, service) => s.(services := s.services[id := service], clock := service.version)
    case Delete(id) => s.(services := s.services - {id})
    case Rename(name, id) => s.(names := s.names[name := id])
    case Submit(t, r, permissions) => s.(tickets := s.tickets[t := Ticket(r, permissions, [], Judging(permissions))])
    case Judge(t, lookupFails) =>
      var ticket := s.tickets[t];
      var answer := if lookupFails then LookupError else Inspected(s, ticket.request.op.ID);
      s.(tickets := s.tickets[t := Judged(ticket, answer)])
    case Execute(t, version, whim) =>
      var ticket := s.tickets[t];
      var done := s.(tickets := s.tickets[t := ticket.(phase := Phase.Executed)]);
      match Target(s, ticket.request)
      case None => done
      case Some(id) =>
        done.(services := s.services[id := ServiceAfter(ticket.request, s.services[id], version, whim)], clock := version)
  }

  function Judged(ticket: Ticket, answer: Answer): Ticket
    requires ticket.phase.Judging?
  {
    ticket.(
      seen := ticket.seen + LogNext(ticket.request, ticket.phase.remaining, answer),
      phase := JudgeNext(ticket.request, ticket.phase.remaining, answer))
  }

  ghost predicate Possible(clusterWide: bool, events: seq<Event>)
    decreases |events|, 0
  {
    events == [] ||
    (Possible(clusterWide, events[..|events| - 1]) && Enabled(After(clusterWide, events[..|events| - 1]), events[|events| - 1]))
  }

  ghost function After(clusterWide: bool, events: seq<Event>): State
    requires Possible(clusterWide, events)
    decreases |events|, 1
  {
    if events == [] then Initial(clusterWide) else Apply(After(clusterWide, events[..|events| - 1]), events[|events| - 1])
  }

  // ---------------------------------------------------------------- what every step keeps

  /** A snapshot is either overtaken or still true: while the version is the one it saw, so is the spec. */
  ghost predicate StillTrue(s: State, answer: Answer) {
    answer.Found? ==>
      && answer.ID in s.origin
      && answer.Spec.Some? && answer.Labels == answer.Spec.value.Labels
      && (answer.ID in s.services ==>
        && answer.Version <= s.services[answer.ID].version
        && (answer.Version == s.services[answer.ID].version ==> answer.Spec.value == s.services[answer.ID].spec))
      && (s.clusterWide ==> answer.Version <= s.clock && OnlyAt(s, answer.Version, answer.ID))
  }

  /** No other service is at this version. */
  predicate OnlyAt(s: State, version: nat, id: string) {
    forall other :: other in s.services && s.services[other].version == version ==> other == id
  }

  ghost predicate TicketOk(s: State, ticket: Ticket) {
    && WellFormed(ticket.request.op) && IsUpdate(ticket.request.op)
    && (ticket.phase.Authorized? ==>
      && StillTrue(s, ticket.phase.answer)
      && Permit(ticket.phase.grant, ticket.request.op, ticket.request.body, ticket.request.headers, ticket.phase.answer).Allow)
  }

  ghost predicate Inv(s: State) {
    && s.services.Keys <= s.origin.Keys
    && (forall name :: name in s.names ==> s.names[name] in s.origin)
    && (s.clusterWide ==> Numbered(s))
    && forall t :: t in s.tickets ==> TicketOk(s, s.tickets[t])
  }

  predicate Numbered(s: State) {
    forall id :: id in s.services ==> s.services[id].version <= s.clock && OnlyAt(s, s.services[id].version, id)
  }

  lemma SnapshotIsTrue(s: State, ref: string)
    requires Inv(s)
    ensures StillTrue(s, Inspected(s, ref))
  {
  }

  /** No step makes a version go back or a used ID available again. */
  lemma StepKeepsSnapshots(s: State, e: Event, answer: Answer)
    requires Inv(s) && Enabled(s, e) && StillTrue(s, answer)
    ensures StillTrue(Apply(s, e), answer)
  {
    hide WellFormed, TicketOk, JudgeNext, Inspected;
  }

  lemma NewestIsNumbered(s: State, id: string, service: Service)
    requires Numbered(s) && service.version > s.clock
    ensures Numbered(s.(services := s.services[id := service], clock := service.version))
  {
    var s' := s.(services := s.services[id := service], clock := service.version);
    forall x | x in s'.services ensures s'.services[x].version <= s'.clock && OnlyAt(s', s'.services[x].version, x) {
      if x != id {
        assert OnlyAt(s, s.services[x].version, x);
      }
    }
  }

  lemma StepKeepsNumbers(s: State, e: Event)
    requires Numbered(s) && s.clusterWide && Enabled(s, e)
    ensures Numbered(Apply(s, e))
  {
    hide OptionsAllowed, WellFormed, Inspected, ParseUint, Permit;
    match e {
      case Create(id, service) =>
        NewestIsNumbered(s, id, service);
      case OtherUpdate(id, service) =>
        NewestIsNumbered(s, id, service);
      case Execute(t, version, whim) =>
        var target := Target(s, s.tickets[t].request);
        if target.Some? {
          NewestIsNumbered(s, target.value, ServiceAfter(s.tickets[t].request, s.services[target.value], version, whim));
        }
      case _ =>
    }
  }

  lemma StepKeepsTicket(s: State, e: Event, ticket: Ticket)
    requires Inv(s) && Enabled(s, e) && TicketOk(s, ticket)
    ensures TicketOk(Apply(s, e), ticket)
  {
    hide Inv, Apply, StillTrue, WellFormed, Permit;
    if ticket.phase.Authorized? {
      StepKeepsSnapshots(s, e, ticket.phase.answer);
    }
  }

  lemma JudgedTicketOk(s: State, e: Event)
    requires Inv(s) && Enabled(s, e) && e.Judge?
    ensures e.ticket in Apply(s, e).tickets && TicketOk(Apply(s, e), Apply(s, e).tickets[e.ticket])
  {
    var ticket := Apply(s, e).tickets[e.ticket];
    assert TicketOk(s, s.tickets[e.ticket]);
    hide Inv, StillTrue, WellFormed, Permit, Inspected;
    if ticket.phase.Authorized? {
      SnapshotIsTrue(s, ticket.request.op.ID);
      StepKeepsSnapshots(s, e, ticket.phase.answer);
    }
  }

  lemma StepKeepsOrigins(s: State, e: Event)
    requires s.services.Keys <= s.origin.Keys && (forall name :: name in s.names ==> s.names[name] in s.origin) && Enabled(s, e)
    ensures Apply(s, e).services.Keys <= Apply(s, e).origin.Keys
    ensures forall name :: name in Apply(s, e).names ==> Apply(s, e).names[name] in Apply(s, e).origin
    ensures Apply(s, e).clusterWide == s.clusterWide
  {
    hide WellFormed, Inspected, ServiceAfter, Judged, ParseUint, IsUpdate;
  }

  lemma StepKeepsInv(s: State, e: Event)
    requires Inv(s) && Enabled(s, e)
    ensures Inv(Apply(s, e))
  {
    var s' := Apply(s, e);
    StepKeepsOrigins(s, e);
    if s.clusterWide {
      StepKeepsNumbers(s, e);
    }
    forall t | t in s'.tickets ensures TicketOk(s', s'.tickets[t]) {
      StepKeepsTickets(s, e, t);
    }
    hide Apply, Enabled, TicketOk, Numbered;
  }

  lemma StepKeepsTickets(s: State, e: Event, t: nat)
    requires Inv(s) && Enabled(s, e) && t in Apply(s, e).tickets
    ensures TicketOk(Apply(s, e), Apply(s, e).tickets[t])
  {
    hide Numbered, StillTrue, WellFormed, Permit, Inspected, ServiceAfter;
    if t in s.tickets && s.tickets[t] == Apply(s, e).tickets[t] {
      StepKeepsTicket(s, e, s.tickets[t]);
    } else if e.Judge? {
      JudgedTicketOk(s, e);
    }
  }

  lemma {:induction false} RunKeepsInv(clusterWide: bool, events: seq<Event>)
    requires Possible(clusterWide, events)
    ensures Inv(After(clusterWide, events))
    decreases |events|
  {
    if events != [] {
      RunKeepsInv(clusterWide, events[..|events| - 1]);
      StepKeepsInv(After(clusterWide, events[..|events| - 1]), events[|events| - 1]);
    }
  }

  // ---------------------------------------------------------------- safety

  /** What executing an authorized update does to the state current at that moment: only the
      service its canonical ID names changes; whatever the grant demanded of the existing labels is
      true now, and of the requested labels is true afterwards; and under a mutation grant only the
      granted subtrees change, the credential only if the image may. */
  ghost predicate Confined(s: State, s': State, r: Submission, grant: Permission) {
    && (forall id :: id in s.services && id != r.op.ID ==> id in s'.services && s'.services[id] == s.services[id])
    && s'.services.Keys == s.services.Keys
    && (r.op.ID in s.services ==>
      var before, after := s.services[r.op.ID], s'.services[r.op.ID];
      after == before ||
      (&& after.version > before.version
       && (grant.Selector.Some? ==> Labelled(before.spec.Labels, grant.Selector.value))
       && (grant.Request.Some? ==> Labelled(after.spec.Labels, grant.Request.value))
       && (grant.Mutation.Some? ==>
         && Mutation.AgreeOutside(Mutation.Fields(grant.Mutation.value), before.spec, after.spec)
         && (Mutation.IMAGE !in grant.Mutation.value ==> after.credential == before.credential))))
  }

  lemma AuthorizedExecutionIsConfined(s: State, e: Event)
    requires Inv(s) && Enabled(s, e) && e.Execute?
    requires s.tickets[e.ticket].phase.grant.Selector.Some? || s.tickets[e.ticket].phase.grant.Mutation.Some?
    ensures Confined(s, Apply(s, e), s.tickets[e.ticket].request, s.tickets[e.ticket].phase.grant)
  {
    hide Mutation.AgreeOutside, Mutation.SideCondition, Labelled, ParseUint, OptionsAllowed, WellFormed;
    var ticket := s.tickets[e.ticket];
    var r, grant, answer := ticket.request, ticket.phase.grant, ticket.phase.answer;
    assert TicketOk(s, ticket);
    PermitIffGrants(grant, r.op, r.body, r.headers, answer);
    assert Anchored(r.op, answer);
    var target := Target(s, r);
    if target.Some? {
      assert target.value == r.op.ID;
      assert answer.Spec.value == s.services[r.op.ID].spec;
      if grant.Mutation.Some? {
        assert MutationGrants(grant.Mutation.value, answer.Spec.value, r.body);
      }
    }
  }

  lemma {:induction false} PrefixPossible(clusterWide: bool, events: seq<Event>, i: nat)
    requires Possible(clusterWide, events) && i < |events|
    ensures Possible(clusterWide, events[..i]) && Enabled(After(clusterWide, events[..i]), events[i])
  {
    if i < |events| - 1 {
      var shorter := events[..|events| - 1];
      PrefixPossible(clusterWide, shorter, i);
      assert shorter[..i] == events[..i];
    }
  }

  /** The grant event i is executed under, None for any other event. */
  ghost function GrantOf(s: State, e: Event): Option<Permission> {
    if e.Execute? && e.ticket in s.tickets && s.tickets[e.ticket].phase.Authorized? then Some(s.tickets[e.ticket].phase.grant)
    else None
  }

  /** Whole-run safety: in every interleaving, every execution of an update that was authorized by a
      selector or mutation grant is confined by that one grant. */
  lemma EveryExecutionIsConfined(clusterWide: bool, events: seq<Event>, i: nat)
    requires Possible(clusterWide, events) && i < |events|
    ensures Possible(clusterWide, events[..i]) && Enabled(After(clusterWide, events[..i]), events[i])
    ensures
      var s := After(clusterWide, events[..i]);
      var grant := GrantOf(s, events[i]);
      grant.Some? && (grant.value.Selector.Some? || grant.value.Mutation.Some?) ==>
        Confined(s, Apply(s, events[i]), s.tickets[events[i].ticket].request, grant.value)
  {
    hide Confined;
    PrefixPossible(clusterWide, events, i);
    RunKeepsInv(clusterWide, events[..i]);
    var s := After(clusterWide, events[..i]);
    var grant := GrantOf(s, events[i]);
    if grant.Some? && (grant.value.Selector.Some? || grant.value.Mutation.Some?) {
      AuthorizedExecutionIsConfined(s, events[i]);
    }
  }

  // ---------------------------------------------------------------- history

  /** Every permission the phase may still use is a mutation grant drawn from F. */
  ghost predicate DrawnFrom(F: set<string>, phase: Phase) {
    match phase
    case Judging(remaining) => forall p :: p in remaining ==> MutationWithin(F, p)
    case Authorized(grant, _) => MutationWithin(F, grant)
    case _ => true
  }

  ghost predicate MutationWithin(F: set<string>, p: Permission) {
    p.Mutation.Some? && Mutation.Fields(p.Mutation.value) <= F
  }

  /** Runs in which services change only by executing requests of clients whose update grants are
      mutation grants drawn from F. */
  ghost predicate OnlyMutations(F: set<string>, events: seq<Event>) {
    forall e :: e in events ==> !e.OtherUpdate? && (e.Submit? ==> forall p :: p in e.permissions ==> MutationWithin(F, p))
  }

  ghost predicate Framed(F: set<string>, origin: Service, service: Service) {
    && Mutation.AgreeOutside(F, origin.spec, service.spec)
    && (Mutation.IMAGE !in F ==> service.credential == origin.credential)
  }

  ghost predicate FramedBy(F: set<string>, s: State) {
    && (forall t :: t in s.tickets ==> DrawnFrom(F, s.tickets[t].phase))
    && forall id :: id in s.services ==> id in s.origin && Framed(F, s.origin[id], s.services[id])
  }

  lemma SameSpecAgrees(F: set<string>)
    ensures forall v: SpecView :: Mutation.AgreeOutside(F, v, v)
    ensures forall u: SpecView, v: SpecView, w: SpecView ::
      Mutation.AgreeOutside(F, u, v) && Mutation.AgreeOutside(F, v, w) ==> Mutation.AgreeOutside(F, u, w)
  {
  }

  lemma ExecutionKeepsFrame(F: set<string>, s: State, e: Event, id: string)
    requires Inv(s) && Enabled(s, e) && FramedBy(F, s) && e.Execute? && id in Apply(s, e).services
    ensures id in s.origin && Framed(F, s.origin[id], Apply(s, e).services[id])
  {
    hide Mutation.AgreeOutside, WellFormed, Permit, Labelled, StillTrue, Numbered, TicketOk, Target, ServiceAfter;
    var grant := s.tickets[e.ticket].phase.grant;
    assert MutationWithin(F, grant);
    AuthorizedExecutionIsConfined(s, e);
    hide Apply;
    SameSpecAgrees(F);
    var before, after := s.services[id], Apply(s, e).services[id];
    if after != before {
      Mutation.AgreeOutsideMore(Mutation.Fields(grant.Mutation.value), F, before.spec, after.spec);
    }
  }

  lemma StepKeepsFrame(F: set<string>, s: State, e: Event)
    requires Inv(s) && Enabled(s, e) && FramedBy(F, s) && OnlyMutations(F, [e])
    ensures FramedBy(F, Apply(s, e))
  {
    hide Mutation.AgreeOutside, WellFormed, Permit, Inspected, ServiceAfter, Inv, Target;
    assert e in [e];
    var s' := Apply(s, e);
    SameSpecAgrees(F);
    if e.Execute? {
      forall id | id in s'.services ensures id in s'.origin && Framed(F, s'.origin[id], s'.services[id]) {
        ExecutionKeepsFrame(F, s, e, id);
      }
    }
  }

  /** History frame: over any such run everything outside F in a service's spec, and the credential
      unless F has the image, is still what it was when the service was created. */
  lemma {:induction false} HistoryFrame(clusterWide: bool, F: set<string>, events: seq<Event>)
    requires Possible(clusterWide, events) && OnlyMutations(F, events)
    ensures FramedBy(F, After(clusterWide, events))
    decreases |events|
  {
    if events != [] {
      var before, last := events[..|events| - 1], events[|events| - 1];
      HistoryFrame(clusterWide, F, before);
      RunKeepsInv(clusterWide, before);
      assert OnlyMutations(F, [last]);
      StepKeepsFrame(F, After(clusterWide, before), last);
    }
  }

  // ---------------------------------------------------------------- judging is evaluation

  ghost predicate ExtendsLog(reader: nat -> Answer, seen: seq<Answer>) {
    forall n :: 0 <= n < |seen| ==> reader(n) == seen[n]
  }

  function EvaluateFor(ticket: Ticket, perms: seq<Permission>, reader: nat -> Answer, used: nat): (Result, nat) {
    Evaluate(perms, ticket.request.op, ticket.request.body, ticket.request.headers, reader, used)
  }

  /** Where a ticket stands, against Evaluate run on its permissions with the snapshots it read. */
  ghost predicate Follows(ticket: Ticket, reader: nat -> Answer) {
    var whole := EvaluateFor(ticket, ticket.permissions, reader, 0);
    match ticket.phase
    case Judging(remaining) =>
      var rest := EvaluateFor(ticket, remaining, reader, |ticket.seen|);
      whole.0.Allow == rest.0.Allow && whole.1 == rest.1
    case Refused => !whole.0.Allow && whole.1 == |ticket.seen|
    case _ => whole.0.Allow && whole.1 == |ticket.seen|
  }

  ghost predicate FollowsEvaluate(ticket: Ticket) {
    forall reader: nat -> Answer :: ExtendsLog(reader, ticket.seen) ==> Follows(ticket, reader)
  }

  /** What an inspection in a run can answer. */
  predicate Answerable(answer: Answer) {
    answer.Found? ==> answer.ID != "" && answer.Spec.Some? && answer.Labels == answer.Spec.value.Labels
  }

  ghost predicate Logged(ticket: Ticket) {
    FollowsEvaluate(ticket) && forall n :: 0 <= n < |ticket.seen| ==> Answerable(ticket.seen[n])
  }

  /** A permission that does not inspect is decided without the snapshot. */
  lemma UnreadAnswer(p: Permission, r: Submission, a: Answer, b: Answer)
    requires !Inspects(p, r.op, r.headers)
    ensures Permit(p, r.op, r.body, r.headers, a) == Permit(p, r.op, r.body, r.headers, b)
  {
    hide OptionsAllowed, CredentialsAllowed, Labelled, ParseUint;
  }

  lemma JudgedFollows(ticket: Ticket, answer: Answer, reader: nat -> Answer)
    requires ticket.phase.Judging? && FollowsEvaluate(ticket) && ExtendsLog(reader, Judged(ticket, answer).seen)
    ensures Follows(Judged(ticket, answer), reader)
  {
    var r, remaining, n := ticket.request, ticket.phase.remaining, |ticket.seen|;
    var seen' := Judged(ticket, answer).seen;
    assert forall i :: 0 <= i < n ==> seen'[i] == ticket.seen[i];
    assert ExtendsLog(reader, ticket.seen);
    assert Follows(ticket, reader);
    hide FollowsEvaluate, Permit, Inspects;
    if remaining != [] {
      if Inspects(remaining[0], r.op, r.headers) {
        assert seen'[n] == answer && reader(n) == answer;
      } else {
        UnreadAnswer(remaining[0], r, answer, reader(n));
      }
      if |remaining| == 1 {
        assert remaining[1..] == [];
      }
    }
  }

  lemma JudgedIsLogged(s: State, ticket: Ticket, lookupFails: bool)
    requires ticket.phase.Judging? && Logged(ticket) && "" !in s.services
    ensures Logged(Judged(ticket, if lookupFails then LookupError else Inspected(s, ticket.request.op.ID)))
  {
    var answer := if lookupFails then LookupError else Inspected(s, ticket.request.op.ID);
    assert Answerable(answer);
    hide Follows, JudgeNext, Inspects, Inspected, ExtendsLog, Answerable;
    forall reader: nat -> Answer | ExtendsLog(reader, Judged(ticket, answer).seen) ensures Follows(Judged(ticket, answer), reader) {
      JudgedFollows(ticket, answer, reader);
    }
  }

  ghost predicate LogOk(s: State) {
    && s.services.Keys <= s.origin.Keys && "" !in s.origin
    && forall t :: t in s.tickets ==> Logged(s.tickets[t])
  }

  lemma StepKeepsLog(s: State, e: Event)
    requires LogOk(s) && Enabled(s, e)
    ensures LogOk(Apply(s, e))
  {
    hide WellFormed, Evaluate, Inspected, Judged, ServiceAfter;
    if e.Judge? {
      JudgedIsLogged(s, s.tickets[e.ticket], e.lookupFails);
    }
  }

  /** In every reachable state every ticket stands where Evaluate, run on its permissions with the
      logged snapshots as the answers to its inspections, stands after that many inspections. */
  lemma {:induction false} RunKeepsLog(clusterWide: bool, events: seq<Event>)
    requires Possible(clusterWide, events)
    ensures LogOk(After(clusterWide, events))
    decreases |events|
  {
    if events != [] {
      RunKeepsLog(clusterWide, events[..|events| - 1]);
      StepKeepsLog(After(clusterWide, events[..|events| - 1]), events[|events| - 1]);
    }
  }

  // ---------------------------------------------------------------- why the gates are there

  /** With versions numbered across the cluster the version alone identifies the service: whatever
      was found at it under any reference, nothing else is ever at that version. */
  lemma {:induction false} VersionsIdentify(events: seq<Event>, later: seq<Event>, ref: string, r: Submission)
    requires Possible(true, events) && Possible(true, events + later)
    ensures var answer, s := Inspected(After(true, events), ref), After(true, events + later);
      answer.Found? && ParseUint(Get(r.op.Query, VERSION)) == Some(answer.Version) && Target(s, r).Some? ==>
        Target(s, r) == Some(answer.ID) && answer.Spec == Some(s.services[answer.ID].spec)
  {
    RunKeepsInv(true, events);
    SnapshotIsTrue(After(true, events), ref);
    LaterKeepsSnapshot(true, events, later, Inspected(After(true, events), ref));
  }

  lemma {:induction false} LaterKeepsSnapshot(clusterWide: bool, events: seq<Event>, later: seq<Event>, answer: Answer)
    requires Possible(clusterWide, events) && Possible(clusterWide, events + later)
    requires StillTrue(After(clusterWide, events), answer)
    ensures StillTrue(After(clusterWide, events + later), answer)
    ensures After(clusterWide, events + later).clusterWide == clusterWide
    decreases |later|
  {
    hide StillTrue;
    ModeIsFixed(clusterWide, events + later);
    if later == [] {
      assert events + later == events;
    } else {
      var before, last := later[..|later| - 1], later[|later| - 1];
      assert (events + later)[..|events + later| - 1] == events + before;
      LaterKeepsSnapshot(clusterWide, events, before, answer);
      RunKeepsInv(clusterWide, events + before);
      StepKeepsSnapshots(After(clusterWide, events + before), last, answer);
    }
  }

  lemma {:induction false} ModeIsFixed(clusterWide: bool, events: seq<Event>)
    requires Possible(clusterWide, events)
    ensures After(clusterWide, events).clusterWide == clusterWide
    decreases |events|
  {
    hide Apply, Enabled;
    if events != [] {
      var before := events[..|events| - 1];
      ModeIsFixed(clusterWide, before);
      RunKeepsInv(clusterWide, before);
      hide TicketOk, Numbered;
      StepKeepsOrigins(After(clusterWide, before), events[|events| - 1]);
    }
  }

  const ANY_IMAGE := Permission(None, None, Some([Mutation.IMAGE]))

  /** With versions numbered per service the ID gate is needed: every other gate can accept an image
      update of one service by name, while its execution renames another one. */
  lemma NamesCanMove(spec: SpecView, op: Operation, version: nat, whim: Service)
    requires WellFormed(op) && IsUpdate(op) && op.ID == "web" && op.Query == map[VERSION := ["1"]]
    requires spec.Container.Some? && spec.Name == "a"
    ensures exists events: seq<Event>, later: seq<Event> ::
      && Possible(false, events) && Possible(false, events + later)
      && UngatedGrant(After(false, events), Submission(op, Mutation.Body(Some(spec), None), map[]), ANY_IMAGE)
      && Escapes(After(false, events + later), Submission(op, Mutation.Body(Some(spec), None), map[]), ANY_IMAGE, version, whim)
  {
    hide WellFormed, UngatedGrant, Escapes;
    var r := Submission(op, Mutation.Body(Some(spec), None), map[]);
    var other := spec.(Name := "b");
    var none: seq<Event> := [];
    var one := Extend(none, Create("a", Service(1, spec, "")));
    var two := Extend(one, Create("b", Service(1, other, "")));
    var named := Extend(two, Rename("web", "a"));
    var moved := Extend(named, Rename("web", "b"));
    AcceptedForA(After(false, named), r, spec);
    HitsB(After(false, moved), r, spec, version, whim);
    assert moved == named + [Rename("web", "b")];
  }

  /** A per-service state in which the name "web" denotes service `id`, at version 1. */
  predicate WebIs(s: State, id: string, spec: SpecView) {
    && !s.clusterWide
    && "web" !in s.origin && "web" !in s.services && "web" in s.names && s.names["web"] == id
    && id in s.services && s.services[id].version == 1 && s.services[id].spec == spec
  }

  predicate AsksWeb(r: Submission, spec: SpecView) {
    && IsUpdate(r.op) && r.op.ID == "web" && r.op.Query == map[VERSION := ["1"]]
    && r.body == Mutation.Body(Some(spec), None) && r.headers == map[]
  }

  lemma AcceptedForA(s: State, r: Submission, spec: SpecView)
    requires WebIs(s, "a", spec) && AsksWeb(r, spec) && spec.Container.Some?
    ensures UngatedGrant(s, r, ANY_IMAGE)
  {
    VersionOne(r.op.Query);
    hide OptionsAllowed, ParseUint;
    assert Inspected(s, "web") == Found("a", 1, spec.Labels, Some(spec));
  }

  lemma HitsB(s: State, r: Submission, spec: SpecView, version: nat, whim: Service)
    requires WebIs(s, "b", spec.(Name := "b")) && AsksWeb(r, spec) && spec.Name == "a"
    ensures Escapes(s, r, ANY_IMAGE, version, whim)
  {
    VersionOne(r.op.Query);
    hide OptionsAllowed, ParseUint;
    assert Target(s, r) == Some("b");
  }

  lemma VersionOne(q: Query)
    requires q == map[VERSION := ["1"]]
    ensures OptionsAllowed(q) && ParseUint(Get(q, VERSION)) == Some(1)
  {
    assert Decimal("1") == 10 * Decimal("") + 1;
  }

  /** Every gate but the one that compares the inspected ID with the requested reference. */
  ghost predicate UngatedGrant(s: State, r: Submission, p: Permission) {
    var answer := Inspected(s, r.op.ID);
    answer.Found? && Grants(p, r.op.(ID := answer.ID), r.body, r.headers, answer)
  }

  /** Executing the request now would change a service beyond the fields the permission allows. */
  ghost predicate Escapes(s: State, r: Submission, p: Permission, version: nat, whim: Service) {
    && Target(s, r).Some? && p.Mutation.Some?
    && var before := s.services[Target(s, r).value];
      !Mutation.AgreeOutside(Mutation.Fields(p.Mutation.value), before.spec, ServiceAfter(r, before, version, whim).spec)
  }

  lemma Extend(events: seq<Event>, e: Event) returns (longer: seq<Event>)
    requires Possible(false, events) && Enabled(After(false, events), e)
    ensures longer == events + [e] && Possible(false, longer) && After(false, longer) == Apply(After(false, events), e)
  {
    longer := events + [e];
    assert longer[..|longer| - 1] == events;
  }
}
