/** Inspection of one current resource through the daemon. */
module DockerApi {
  import opened Basics
  import opened Operation
  import opened SwarmSpec
  import opened Identity
  import Policy
  import Token
  import Mutation

  /** The daemon's answer to an authorised inspect: a failure, or an object with its ID, its version
      and, per kind of resource, the result of strictly decoding it as that kind. */
  datatype Reply =
    | Failed
    | Object(ID: string, Version: nat, service: Option<SpecView>,
             secretLabels: Option<StringMap>, nodeLabels: Option<StringMap>, taskLabels: Option<StringMap>)

  /** The snapshot Inspect fills in from a reply, per resource. */
  function Snapshot(resource: string, reply: Reply): Policy.Answer {
    if reply.Failed? || reply.ID == "" then Policy.LookupError
    else if resource == SERVICE then
      if reply.service.None? then Policy.LookupError
      else Policy.Found(reply.ID, reply.Version, reply.service.value.Labels, reply.service)
    else
      var labels :=
        if resource == SECRET then reply.secretLabels
        else if resource == NODE then reply.nodeLabels
        else if resource == TASK then reply.taskLabels
        else None;
      if labels.None? then Policy.LookupError else Policy.Found(reply.ID, reply.Version, labels.value, None)
  }

  function InspectUri(op: Operation): Uri {
    Uri(InspectPath(op), Some(map[]))
  }

  /** The daemon's own authorization request for the plugin's inspect call: it arrives on the local
      socket, so it carries no identity, only the token header. */
  function Callback(op: Operation, token: string): Request {
    Request("", "", [], "GET", InspectUri(op), map[Token.INTERNAL_HEADER := token], Mutation.Body(None, None))
  }

  /** The callback carries exactly one spelling of the header, with the token. */
  lemma CallbackCarriesToken(op: Operation, token: string)
    ensures Token.Present(Callback(op, token).headers) && Token.Valid(Callback(op, token).headers, token)
  {
    var headers := Callback(op, token).headers;
    assert Token.INTERNAL_HEADER in headers && Token.EqualFold(Token.INTERNAL_HEADER, Token.INTERNAL_HEADER);
    assert Token.Spellings(headers, Token.INTERNAL_HEADER) == {Token.INTERNAL_HEADER};
  }

  /** The labels a reply carries when it is read as an object of the given kind. */
  ghost predicate ReadsAs(resource: string, reply: Reply, labels: StringMap) {
    && reply.Object?
    && (|| (resource == "service" && reply.service.Some? && labels == reply.service.value.Labels)
        || (resource == "secret" && reply.secretLabels == Some(labels))
        || (resource == "node" && reply.nodeLabels == Some(labels))
        || (resource == "task" && reply.taskLabels == Some(labels)))
  }

  /** Each resource is read as its own kind: there is an answer exactly when the reply is an identified
      object that decodes as that kind, with the reply's ID and version, the labels of that decode, and
      a spec for services only. */
  lemma SnapshotByKind(resource: string, reply: Reply)
    ensures Snapshot(resource, reply).Found? <==>
      reply.Object? && reply.ID != "" && exists labels :: ReadsAs(resource, reply, labels)
    ensures forall labels :: ReadsAs(resource, reply, labels) && reply.ID != "" ==>
      Snapshot(resource, reply) ==
        Policy.Found(reply.ID, reply.Version, labels, if resource == "service" then reply.service else None)
  {
    if reply.Object? && resource == "service" && reply.service.Some? {
      assert ReadsAs(resource, reply, reply.service.value.Labels);
    } else if reply.Object? && resource == "secret" && reply.secretLabels.Some? {
      assert ReadsAs(resource, reply, reply.secretLabels.value);
    } else if reply.Object? && resource == "node" && reply.nodeLabels.Some? {
      assert ReadsAs(resource, reply, reply.nodeLabels.value);
    } else if reply.Object? && resource == "task" && reply.taskLabels.Some? {
      assert ReadsAs(resource, reply, reply.taskLabels.value);
    }
  }
}
