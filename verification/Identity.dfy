/** Identity as Docker authenticated it; headers never contribute. */
module Identity {
  import opened Basics
  import Operation
  import Mutation

  /** An authorization request; `peers` holds the certificates' common names, leaf first, None for
      a nil certificate. */
  datatype Request = Request(
    user: string, authn: string, peers: seq<Option<string>>,
    verb: string, uri: Operation.Uri, headers: map<string, string>, body: Mutation.Body)

  datatype Identity = Anonymous | Named(cn: string) | Ambiguous

  /** CommonName. Only a complete absence of authentication context is anonymous; a name is only
      taken from a TLS leaf certificate that does not contradict Docker's user. */
  function CommonName(req: Request): (id: Identity)
    ensures id == Anonymous <==> req.authn == "" && req.user == "" && req.peers == []
    ensures forall cn :: id == Named(cn) <==>
      && req.authn == "TLS" && |req.peers| > 0 && req.peers[0] == Some(cn)
      && cn != "" && req.user in {"", cn}
  {
    if req.authn == "" && req.user == "" && |req.peers| == 0 then Anonymous
    else if req.authn != "TLS" || |req.peers| == 0 || req.peers[0] == None then Ambiguous
    else if req.peers[0].value == "" || (req.user != "" && req.user != req.peers[0].value) then Ambiguous
    else Named(req.peers[0].value)
  }
}
