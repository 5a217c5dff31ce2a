/** A request judged turn by turn in the protocol is decided as the authorization callback decides it. */
module Rounds {
  import opened Basics
  import opened Operation
  import opened Identity
  import opened Policy
  import opened Protocol
  import DockerApi
  import Authz
  import Decisions
  import Token

  /** The callback for the request of a ticket, from a client whose matching permissions it carries. */
  ghost predicate CallbackFor(p: Authz.Plugin, req: Request, ticket: Ticket) {
    && !Token.Present(req.headers)
    && CommonName(req).Named?
    && CommonName(req).cn in p.clients
    && Resolution(req.verb, req.uri) == Some(ticket.request.op)
    && req.body == ticket.request.body && req.headers == ticket.request.headers
    && ticket.permissions == Authz.Matching(p.clients[CommonName(req).cn].permissions, ticket.request.op)
  }

  /** The daemon's replies to the callback's inspections are the ones the ticket logged. */
  ghost predicate RepliesAre(ticket: Ticket, replies: nat -> DockerApi.Reply) {
    forall n :: 0 <= n < |ticket.seen| ==> DockerApi.Snapshot(SERVICE, replies(n)) == ticket.seen[n]
  }

  /** A settled ticket of any run is authorized (or already executed) exactly when Serve allows its
      request given the same replies; unless an administrator's shortcut makes them unnecessary, Serve
      made exactly the logged inspections. */
  lemma SettledAsServed(
      clusterWide: bool, events: seq<Event>, t: nat, p: Authz.Plugin, req: Request, replies: nat -> DockerApi.Reply)
    requires Possible(clusterWide, events) && t in After(clusterWide, events).tickets
    requires !After(clusterWide, events).tickets[t].phase.Judging?
    requires CallbackFor(p, req, After(clusterWide, events).tickets[t]) && RepliesAre(After(clusterWide, events).tickets[t], replies)
    ensures var ticket := After(clusterWide, events).tickets[t];
      && (Authz.Serve(p, req, replies).0.Allow <==> ticket.phase.Authorized? || ticket.phase.Executed?)
      && (!Authz.FullAdmin(p.clients[CommonName(req).cn].permissions) ==> Authz.Serve(p, req, replies).1 == |ticket.seen|)
  {
    var s := After(clusterWide, events);
    var ticket := s.tickets[t];
    var op, perms := ticket.request.op, p.clients[CommonName(req).cn].permissions;
    RunKeepsLog(clusterWide, events);
    RunKeepsInv(clusterWide, events);
    assert TicketOk(s, ticket);
    assert Logged(ticket);
    ReaderExtendsLog(p, ticket, replies);
    var reader := Authz.Reader(p, op, replies);
    assert Follows(ticket, reader);
    hide Possible, After, Inv, Evaluate, Authz.Matching;
    if Authz.FullAdmin(perms) {
      Decisions.AdminShortcutAgrees(p, perms, op, req, reader);
    }
  }

  lemma ReaderExtendsLog(p: Authz.Plugin, ticket: Ticket, replies: nat -> DockerApi.Reply)
    requires WellFormed(ticket.request.op) && IsUpdate(ticket.request.op) && RepliesAre(ticket, replies)
    ensures ExtendsLog(Authz.Reader(p, ticket.request.op, replies), ticket.seen)
  {
    var op := ticket.request.op;
    Decisions.IndividualResource(op);
    hide WellFormed, Authz.Lookup;
    forall n | 0 <= n < |ticket.seen| ensures Authz.Reader(p, op, replies)(n) == ticket.seen[n] {
      Decisions.LookupIsHeard(p, op, replies(n));
    }
  }

  /** Such replies exist for every ticket of every run: everything a run can log, the daemon can answer. */
  lemma RepliesExist(clusterWide: bool, events: seq<Event>, t: nat)
    requires Possible(clusterWide, events) && t in After(clusterWide, events).tickets
    ensures exists replies :: RepliesAre(After(clusterWide, events).tickets[t], replies)
  {
    RunKeepsLog(clusterWide, events);
    var ticket := After(clusterWide, events).tickets[t];
    assert Logged(ticket);
    var replies := (n: nat) => if n < |ticket.seen| then ReplyFor(ticket.seen[n]) else DockerApi.Failed;
    assert RepliesAre(ticket, replies);
  }

  function ReplyFor(answer: Answer): (reply: DockerApi.Reply)
    ensures Answerable(answer) ==> DockerApi.Snapshot(SERVICE, reply) == answer
  {
    if answer.LookupError? then DockerApi.Failed
    else DockerApi.Object(answer.ID, answer.Version, answer.Spec, None, None, None)
  }
}
