/** Evaluation of each permission as a complete, independent grant. */
module Policy {
  import opened Basics
  import opened Operation
  import opened Config
  import opened SwarmSpec
  import Mutation
  import Token

  /** What one inspection of the current resource answered. */
  datatype Answer =
    | LookupError
    | Found(ID: string, Version: nat, Labels: StringMap, Spec: Option<SpecView>)

  datatype Reason =
    | NoMatchingPermission
    | PermissionGranted
    | ConstraintsSatisfied
    | UnsafeUpdateOptions
    | CannotInspect
    | NotCanonicalID
    | VersionMismatch
    | SelectorMismatch
    | UndecodableRequest
    | UnsupportedRequest
    | RequestMismatch
    | MissingServiceSpec
    | MutationRejected(verdict: Mutation.Verdict)

  datatype Result = Result(Allow: bool, Reason: Reason)

  const VERSION := "version"
  const REGISTRY_AUTH_FROM := "registryAuthFrom"

  // ---------------------------------------------------------------- gates

  predicate Labelled(actual: StringMap, required: map<string, string>) {
    forall k :: k in required ==> actual.MapOf? && k in actual.entries && actual.entries[k] == required[k]
  }

  /** matches, for any iteration order of the required labels. */
  method Matches(actual: StringMap, required: map<string, string>) returns (r: bool)
    ensures r <==> Labelled(actual, required)
  {
    var rest := required.Keys;
    while rest != {}
      invariant rest <= required.Keys
      invariant forall k :: k in required && k !in rest ==> actual.MapOf? && k in actual.entries && actual.entries[k] == required[k]
      decreases rest
    {
      var key :| key in rest;
      if actual.NilMap? || key !in actual.entries || actual.entries[key] != required[key] {
        return false;
      }
      rest := rest - {key};
    }
    return true;
  }

  predicate AllDigits(s: string) {
    forall i :: 0 <= i < |s| ==> IsDigit(s[i])
  }

  function Decimal(s: string): nat
    requires AllDigits(s)
  {
    if s == "" then 0 else 10 * Decimal(s[..|s| - 1]) + (s[|s| - 1] as int - '0' as int)
  }

  /** strconv.ParseUint(s, 10, 64) */
  function ParseUint(s: string): Option<nat> {
    if s != "" && AllDigits(s) && Decimal(s) < 0x1_0000_0000_0000_0000 then Some(Decimal(s)) else None
  }

  /** url.Values.Get */
  function Get(q: Query, key: string): string {
    if key in q && |q[key]| > 0 then q[key][0] else ""
  }

  predicate IsUpdate(op: Operation) {
    op.Resource == SERVICE && op.Action == UPDATE
  }

  /** The only options that may accompany a constrained update: one numeric version and an
      explicit registryAuthFrom=spec. */
  predicate OptionsAllowed(q: Query) {
    && VERSION in q && |q[VERSION]| == 1 && q[VERSION][0] != "" && AllDigits(q[VERSION][0])
    && forall k :: k in q && k != VERSION ==> k == REGISTRY_AUTH_FROM && q[k] == ["spec"]
  }

  predicate CredentialsAllowed(p: Permission, headers: map<string, string>) {
    p.Mutation.Some? && Mutation.IMAGE !in p.Mutation.value ==> Token.Spellings(headers, Token.REGISTRY_AUTH) == {}
  }

  method SafeUpdate(op: Operation, p: Permission, headers: map<string, string>) returns (safe: bool)
    ensures safe <==> OptionsAllowed(op.Query) && CredentialsAllowed(p, headers)
  {
    if VERSION !in op.Query || |op.Query[VERSION]| != 1 || op.Query[VERSION][0] == "" {
      return false;
    }
    var version := op.Query[VERSION][0];
    for i := 0 to |version|
      invariant forall j :: 0 <= j < i ==> IsDigit(version[j])
    {
      if version[i] < '0' || version[i] > '9' {
        return false;
      }
    }
    var rest := op.Query.Keys;
    while rest != {}
      invariant rest <= op.Query.Keys
      invariant forall k :: k in op.Query && k !in rest && k != VERSION ==> k == REGISTRY_AUTH_FROM && op.Query[k] == ["spec"]
      decreases rest
    {
      var key :| key in rest;
      rest := rest - {key};
      if key == VERSION {
        continue;
      }
      var values := op.Query[key];
      if key != REGISTRY_AUTH_FROM || |values| != 1 || values[0] != "spec" {
        return false;
      }
    }
    if p.Mutation.Some? {
      var imageAllowed := ImageAllowed(p.Mutation.value);
      if !imageAllowed {
        safe := NoCredentials(headers);
        return;
      }
    }
    return true;
  }

  method ImageAllowed(only: seq<string>) returns (imageAllowed: bool)
    ensures imageAllowed <==> Mutation.IMAGE in only
  {
    imageAllowed := false;
    for i := 0 to |only|
      invariant imageAllowed <==> Mutation.IMAGE in only[..i]
    {
      if only[i] == Mutation.IMAGE {
        imageAllowed := true;
      }
    }
    assert only[..|only|] == only;
  }

  method NoCredentials(headers: map<string, string>) returns (none: bool)
    ensures none <==> Token.Spellings(headers, Token.REGISTRY_AUTH) == {}
  {
    var rest := headers.Keys;
    while rest != {}
      invariant rest <= headers.Keys
      invariant forall k :: k in headers && k !in rest ==> !Token.EqualFold(k, Token.REGISTRY_AUTH)
      decreases rest
    {
      var key :| key in rest;
      if Token.EqualFold(key, Token.REGISTRY_AUTH) {
        assert key in Token.Spellings(headers, Token.REGISTRY_AUTH);
        return false;
      }
      rest := rest - {key};
    }
    return true;
  }

  // ---------------------------------------------------------------- one permission

  /** Whether deciding this permission reads the current resource. */
  predicate Inspects(p: Permission, op: Operation, headers: map<string, string>) {
    && (p.Selector.Some? || p.Mutation.Some?)
    && (IsUpdate(op) ==> OptionsAllowed(op.Query) && CredentialsAllowed(p, headers))
  }

  function RequestLabels(op: Operation, body: Mutation.Body): Option<StringMap> {
    if op.Resource == SERVICE then
      if body.service.Some? then Some(body.service.value.Labels) else None
    else if op.Resource == SECRET then body.secretLabels
    else None
  }

  /** permission: the first failing gate, or the grant. */
  function Permit(p: Permission, op: Operation, body: Mutation.Body, headers: map<string, string>, answer: Answer): Result {
    if p.Unconditional() then Result(true, PermissionGranted)
    else if IsUpdate(op) && !(OptionsAllowed(op.Query) && CredentialsAllowed(p, headers)) then
      Result(false, UnsafeUpdateOptions)
    else if Inspects(p, op, headers) && answer.LookupError? then Result(false, CannotInspect)
    else if Inspects(p, op, headers) && answer.ID != op.ID then Result(false, NotCanonicalID)
    else if Inspects(p, op, headers) && IsUpdate(op) && ParseUint(Get(op.Query, VERSION)) != Some(answer.Version) then
      Result(false, VersionMismatch)
    else if p.Selector.Some? && !Labelled(answer.Labels, p.Selector.value) then Result(false, SelectorMismatch)
    else if p.Request.Some? && op.Resource != SERVICE && op.Resource != SECRET then Result(false, UnsupportedRequest)
    else if p.Request.Some? && RequestLabels(op, body).None? then Result(false, UndecodableRequest)
    else if p.Request.Some? && !Labelled(RequestLabels(op, body).value, p.Request.value) then Result(false, RequestMismatch)
    else if p.Mutation.Some? && answer.Spec.None? then Result(false, MissingServiceSpec)
    else if p.Mutation.Some? && Mutation.Decide(answer.Spec.value, body.service, p.Mutation.value) != Mutation.Ok then
      Result(false, MutationRejected(Mutation.Decide(answer.Spec.value, body.service, p.Mutation.value)))
    else Result(true, ConstraintsSatisfied)
  }

  /** The declarative grant: every constraint of this one permission holds, against one snapshot. */
  ghost predicate Grants(p: Permission, op: Operation, body: Mutation.Body, headers: map<string, string>, answer: Answer) {
    || p.Unconditional()
    || (&& (IsUpdate(op) ==> OptionsAllowed(op.Query) && CredentialsAllowed(p, headers))
        && (p.Selector.Some? || p.Mutation.Some? ==> Anchored(op, answer))
        && (p.Selector.Some? ==> Labelled(answer.Labels, p.Selector.value))
        && (p.Request.Some? ==> RequestLabels(op, body).Some? && Labelled(RequestLabels(op, body).value, p.Request.value))
        && (p.Mutation.Some? ==> answer.Spec.Some? && MutationGrants(p.Mutation.value, answer.Spec.value, body)))
  }

  /** The snapshot is of the very object, and for updates the very version, the request names. */
  predicate Anchored(op: Operation, answer: Answer) {
    && answer.Found? && answer.ID == op.ID
    && (IsUpdate(op) ==> ParseUint(Get(op.Query, VERSION)) == Some(answer.Version))
  }

  ghost predicate MutationGrants(only: seq<string>, cur: SpecView, body: Mutation.Body) {
    && body.service.Some?
    && only != []
    && (forall f :: f in only ==> Mutation.Supported(f) && Mutation.SideCondition(f, cur, body.service.value))
    && Mutation.AgreeOutside(Mutation.Fields(only), cur, body.service.value)
  }

  lemma PermitIffGrants(p: Permission, op: Operation, body: Mutation.Body, headers: map<string, string>, answer: Answer)
    ensures Permit(p, op, body, headers, answer).Allow <==> Grants(p, op, body, headers, answer)
  {
    hide Mutation.AgreeOutside, Mutation.Decide, Mutation.SideCondition, Mutation.Supported, Labelled, OptionsAllowed, CredentialsAllowed, ParseUint;
    if p.Mutation.Some? && answer.Found? && answer.Spec.Some? {
      Mutation.AcceptedIff(answer.Spec.value, body.service, p.Mutation.value);
    }
  }

  /** The gates in the order they are passed, each by how it fails. */
  predicate Fails(
      gate: nat, p: Permission, op: Operation, body: Mutation.Body, headers: map<string, string>, answer: Answer)
  {
    var asks := p.Selector.Some? || p.Mutation.Some?;
    var labels := RequestLabels(op, body);
    match gate
    case 0 => IsUpdate(op) && !(OptionsAllowed(op.Query) && CredentialsAllowed(p, headers))
    case 1 => asks && answer == LookupError
    case 2 => asks && answer.Found? && answer.ID != op.ID
    case 3 => asks && answer.Found? && IsUpdate(op) && ParseUint(Get(op.Query, "version")) != Some(answer.Version)
    case 4 => p.Selector.Some? && answer.Found? && !Labelled(answer.Labels, p.Selector.value)
    case 5 => p.Request.Some? && op.Resource != "service" && op.Resource != "secret"
    case 6 => p.Request.Some? && labels.None?
    case 7 => p.Request.Some? && labels.Some? && !Labelled(labels.value, p.Request.value)
    case 8 => p.Mutation.Some? && answer.Found? && answer.Spec.None?
    case 9 => p.Mutation.Some? && answer.Found? && answer.Spec.Some?
      && Mutation.Decide(answer.Spec.value, body.service, p.Mutation.value) != Mutation.Ok
    case _ => false
  }

  /** Only a selector or a mutation takes an inspection, and only once the first gate is passed. */
  lemma InspectsAfterFirstGate(p: Permission, op: Operation, body: Mutation.Body, headers: map<string, string>, answer: Answer)
    ensures Inspects(p, op, headers) <==> (p.Selector != None || p.Mutation != None) && !Fails(0, p, op, body, headers, answer)
  {
    hide OptionsAllowed, CredentialsAllowed;
  }

  predicate FailsFirst(
      gate: nat, p: Permission, op: Operation, body: Mutation.Body, headers: map<string, string>, answer: Answer)
  {
    Fails(gate, p, op, body, headers, answer) && forall earlier: nat :: earlier < gate ==> !Fails(earlier, p, op, body, headers, answer)
  }

  const REASONS := [
    UnsafeUpdateOptions, CannotInspect, NotCanonicalID, VersionMismatch, SelectorMismatch,
    UnsupportedRequest, UndecodableRequest, RequestMismatch, MissingServiceSpec]

  /** What is reported for each gate. */
  function ReasonFor(gate: nat, p: Permission, body: Mutation.Body, answer: Answer): Reason {
    if gate < 9 then REASONS[gate]
    else if gate == 9 && p.Mutation.Some? && answer.Found? && answer.Spec.Some? then
      MutationRejected(Mutation.Decide(answer.Spec.value, body.service, p.Mutation.value))
    else ConstraintsSatisfied
  }

  /** Passing the gates below n and failing gate n, or none if n is 10. */
  lemma ReasonAt(n: nat, p: Permission, op: Operation, body: Mutation.Body, headers: map<string, string>, answer: Answer)
    requires p != Permission(None, None, None) && n <= 10 && (n < 10 ==> Fails(n, p, op, body, headers, answer))
    requires forall gate: nat :: gate < n ==> !Fails(gate, p, op, body, headers, answer)
    ensures Permit(p, op, body, headers, answer).Reason == ReasonFor(n, p, body, answer)
  {
    hide Labelled, OptionsAllowed, CredentialsAllowed, ParseUint, Mutation.Decide, RequestLabels;
    assert !p.Unconditional();
    assert n > 0 ==> !Fails(0, p, op, body, headers, answer);
    assert n > 1 ==> !Fails(1, p, op, body, headers, answer);
    assert n > 2 ==> !Fails(2, p, op, body, headers, answer);
    assert n > 3 ==> !Fails(3, p, op, body, headers, answer);
    assert n > 4 ==> !Fails(4, p, op, body, headers, answer);
    assert n > 5 ==> !Fails(5, p, op, body, headers, answer);
    assert n > 6 ==> !Fails(6, p, op, body, headers, answer);
    assert n > 7 ==> !Fails(7, p, op, body, headers, answer);
    assert n > 8 ==> !Fails(8, p, op, body, headers, answer);
    assert n > 9 ==> !Fails(9, p, op, body, headers, answer);
  }

  /** The reason reported is that of the first gate not passed. */
  lemma ReasonIsFirstFailure(p: Permission, op: Operation, body: Mutation.Body, headers: map<string, string>, answer: Answer)
    ensures var reason := Permit(p, op, body, headers, answer).Reason;
      if p == Permission(None, None, None) then reason == PermissionGranted
      else
        && (forall gate: nat :: gate < 10 && FailsFirst(gate, p, op, body, headers, answer) ==> reason == ReasonFor(gate, p, body, answer))
        && ((forall gate: nat :: !FailsFirst(gate, p, op, body, headers, answer)) ==> reason == ConstraintsSatisfied)
  {
    hide Fails;
    if p == Permission(None, None, None) {
      assert p.Unconditional();
    } else {
      hide Permit;
      forall gate: nat | gate < 10 && FailsFirst(gate, p, op, body, headers, answer)
        ensures Permit(p, op, body, headers, answer).Reason == ReasonFor(gate, p, body, answer)
      {
        ReasonAt(gate, p, op, body, headers, answer);
      }
      if forall gate: nat :: !FailsFirst(gate, p, op, body, headers, answer) {
        NoneFails(p, op, body, headers, answer, 10);
        ReasonAt(10, p, op, body, headers, answer);
      }
    }
  }

  lemma {:induction false} NoneFails(
      p: Permission, op: Operation, body: Mutation.Body, headers: map<string, string>, answer: Answer, n: nat)
    requires forall gate: nat :: !FailsFirst(gate, p, op, body, headers, answer)
    ensures forall gate: nat :: gate < n ==> !Fails(gate, p, op, body, headers, answer)
  {
    hide Fails;
    if n > 0 {
      NoneFails(p, op, body, headers, answer, n - 1);
      assert !FailsFirst(n - 1, p, op, body, headers, answer);
    }
  }

  // ---------------------------------------------------------------- all permissions

  function Step(p: Permission, op: Operation, headers: map<string, string>): nat {
    if Inspects(p, op, headers) then 1 else 0
  }

  /** The number of permissions whose decision reads the current resource. */
  function Inspections(perms: seq<Permission>, op: Operation, headers: map<string, string>): nat {
    if perms == [] then 0 else Step(perms[0], op, headers) + Inspections(perms[1..], op, headers)
  }

  /** Evaluate: `reader(n)` is the answer to the n-th inspection, so answers may differ from call to
      call; the second result counts the inspections made. */
  function Evaluate(
      perms: seq<Permission>, op: Operation, body: Mutation.Body, headers: map<string, string>,
      reader: nat -> Answer, used: nat): (Result, nat)
  {
    if perms == [] then (Result(false, NoMatchingPermission), used)
    else
      var r := Permit(perms[0], op, body, headers, reader(used));
      var used' := used + Step(perms[0], op, headers);
      if r.Allow || |perms| == 1 then (r, used') else Evaluate(perms[1..], op, body, headers, reader, used')
  }

  /** The snapshot permission i is judged by. */
  function AnswerFor(
      perms: seq<Permission>, i: nat, op: Operation, headers: map<string, string>, reader: nat -> Answer, used: nat): Answer
    requires i < |perms|
  {
    reader(used + Inspections(perms[..i], op, headers))
  }

  /** Permission i grants the request on its own, against the snapshot read for it. */
  ghost predicate GrantAt(
      perms: seq<Permission>, i: nat, op: Operation, body: Mutation.Body, headers: map<string, string>, reader: nat -> Answer, used: nat)
  {
    i < |perms| && Grants(perms[i], op, body, headers, AnswerFor(perms, i, op, headers, reader, used))
  }

  lemma GrantAtHead(
      p: Permission, rest: seq<Permission>, op: Operation, body: Mutation.Body, headers: map<string, string>, reader: nat -> Answer, used: nat)
    ensures GrantAt([p] + rest, 0, op, body, headers, reader, used) == Permit(p, op, body, headers, reader(used)).Allow
  {
    hide Grants, Permit, Inspects;
    assert ([p] + rest)[..0] == [];
    PermitIffGrants(p, op, body, headers, reader(used));
  }

  lemma GrantAtTail(
      p: Permission, rest: seq<Permission>, i: nat, op: Operation, body: Mutation.Body, headers: map<string, string>, reader: nat -> Answer, used: nat)
    ensures GrantAt([p] + rest, i + 1, op, body, headers, reader, used) == GrantAt(rest, i, op, body, headers, reader, used + Step(p, op, headers))
  {
    hide Grants, Inspects;
    if i < |rest| {
      assert ([p] + rest)[..i + 1][1..] == rest[..i];
    }
  }

  /** Grants are never merged: a request is allowed exactly when some single permission satisfies
      all its own constraints against the one snapshot read for it, even if the answers vary. */
  lemma {:induction false} NoMerging(
      perms: seq<Permission>, op: Operation, body: Mutation.Body, headers: map<string, string>, reader: nat -> Answer, used: nat)
    ensures Evaluate(perms, op, body, headers, reader, used).0.Allow <==>
            exists i :: GrantAt(perms, i, op, body, headers, reader, used)
    ensures used <= Evaluate(perms, op, body, headers, reader, used).1 <= used + Inspections(perms, op, headers)
  {
    hide GrantAt, Permit, Inspects;
    if perms == [] {
      assert forall i :: !GrantAt(perms, i, op, body, headers, reader, used) by { NothingGranted(op, body, headers, reader, used); }
    } else {
      var p, rest := perms[0], perms[1..];
      assert perms == [p] + rest;
      var used' := used + Step(p, op, headers);
      GrantAtHead(p, rest, op, body, headers, reader, used);
      NoMerging(rest, op, body, headers, reader, used');
      assert Evaluate(perms, op, body, headers, reader, used).0.Allow <==>
             Permit(p, op, body, headers, reader(used)).Allow || Evaluate(rest, op, body, headers, reader, used').0.Allow;
      if i: nat :| GrantAt(rest, i, op, body, headers, reader, used') {
        GrantAtTail(p, rest, i, op, body, headers, reader, used);
        assert GrantAt(perms, i + 1, op, body, headers, reader, used);
      }
      if i: nat :| GrantAt(perms, i, op, body, headers, reader, used) {
        if i > 0 {
          GrantAtTail(p, rest, i - 1, op, body, headers, reader, used);
        }
      } else {
        assert !GrantAt(perms, 0, op, body, headers, reader, used);
      }
    }
  }

  /** Permission i decides: none before it grants, it grants or is the last, and the inspections are
      those made up to it. */
  ghost predicate Decides(
      outcome: (Result, nat), perms: seq<Permission>, i: int, op: Operation, body: Mutation.Body, headers: map<string, string>,
      reader: nat -> Answer, used: nat)
  {
    && 0 <= i < |perms|
    && outcome.0 == Permit(perms[i], op, body, headers, AnswerFor(perms, i, op, headers, reader, used))
    && (forall j :: 0 <= j < i ==> !Permit(perms[j], op, body, headers, AnswerFor(perms, j, op, headers, reader, used)).Allow)
    && (outcome.0.Allow || i == |perms| - 1)
    && outcome.1 == used + Inspections(perms[..i + 1], op, headers)
  }

  /** The result is the first grant, or else the last refusal. */
  lemma {:induction false} FirstGrantOrLastRefusal(
      perms: seq<Permission>, op: Operation, body: Mutation.Body, headers: map<string, string>, reader: nat -> Answer, used: nat)
    ensures perms == [] ==> Evaluate(perms, op, body, headers, reader, used) == (Result(false, NoMatchingPermission), used)
    ensures perms != [] ==> exists i ::
      Decides(Evaluate(perms, op, body, headers, reader, used), perms, i, op, body, headers, reader, used)
  {
    hide Permit, Inspects;
    if perms != [] {
      var p, rest := perms[0], perms[1..];
      var outcome := Evaluate(perms, op, body, headers, reader, used);
      assert perms[..0] == [] && perms[..1] == [p];
      if Permit(p, op, body, headers, reader(used)).Allow || |perms| == 1 {
        OneInspection(p, op, headers);
        assert Decides(outcome, perms, 0, op, body, headers, reader, used);
      } else {
        FirstGrantOrLastRefusal(rest, op, body, headers, reader, used + Step(p, op, headers));
        hide Decides;
        var i :| Decides(outcome, rest, i, op, body, headers, reader, used + Step(p, op, headers));
        LaterDecides(outcome, perms, i, op, body, headers, reader, used);
      }
    }
  }

  lemma OneInspection(p: Permission, op: Operation, headers: map<string, string>)
    ensures Inspections([p], op, headers) == Step(p, op, headers)
  {
    assert [p][1..] == [];
  }

  lemma LaterAnswer(perms: seq<Permission>, j: nat, op: Operation, headers: map<string, string>, reader: nat -> Answer, used: nat)
    requires 0 < j <= |perms|
    ensures Inspections(perms[..j], op, headers) == Step(perms[0], op, headers) + Inspections(perms[1..][..j - 1], op, headers)
    ensures j < |perms| ==>
      AnswerFor(perms, j, op, headers, reader, used) ==
      AnswerFor(perms[1..], j - 1, op, headers, reader, used + Step(perms[0], op, headers))
  {
    hide Inspects;
    assert perms[..j][1..] == perms[1..][..j - 1];
  }

  lemma LaterDecides(
      outcome: (Result, nat), perms: seq<Permission>, i: int, op: Operation, body: Mutation.Body, headers: map<string, string>,
      reader: nat -> Answer, used: nat)
    requires |perms| > 1 && Decides(outcome, perms[1..], i, op, body, headers, reader, used + Step(perms[0], op, headers))
    requires !Permit(perms[0], op, body, headers, reader(used)).Allow
    ensures Decides(outcome, perms, i + 1, op, body, headers, reader, used)
  {
    hide Permit, Inspects;
    LaterAnswer(perms, i + 1, op, headers, reader, used);
    LaterAnswer(perms, i + 2, op, headers, reader, used);
    assert perms[..0] == [];
    forall j | 0 <= j < i + 1 ensures !Permit(perms[j], op, body, headers, AnswerFor(perms, j, op, headers, reader, used)).Allow {
      if j > 0 {
        LaterAnswer(perms, j, op, headers, reader, used);
        assert perms[j] == perms[1..][j - 1];
      }
    }
  }

  lemma NothingGranted(op: Operation, body: Mutation.Body, headers: map<string, string>, reader: nat -> Answer, used: nat)
    ensures forall i :: !GrantAt([], i, op, body, headers, reader, used)
  {
  }

  /** With one fixed answer the verdict depends only on which permissions are listed: it is
      invariant under reordering and repetition, and more permissions never allow less. */
  lemma MorePermissionsAllowMore(
      perms: seq<Permission>, more: seq<Permission>, op: Operation, body: Mutation.Body, headers: map<string, string>, answer: Answer)
    requires forall p :: p in perms ==> p in more
    ensures Evaluate(perms, op, body, headers, _ => answer, 0).0.Allow ==> Evaluate(more, op, body, headers, _ => answer, 0).0.Allow
    ensures (forall p :: p in more ==> p in perms) ==>
      Evaluate(perms, op, body, headers, _ => answer, 0).0.Allow == Evaluate(more, op, body, headers, _ => answer, 0).0.Allow
  {
    FixedReader(perms, op, body, headers, answer);
    FixedReader(more, op, body, headers, answer);
  }

  lemma FixedReader(perms: seq<Permission>, op: Operation, body: Mutation.Body, headers: map<string, string>, answer: Answer)
    ensures Evaluate(perms, op, body, headers, _ => answer, 0).0.Allow <==>
            exists p :: p in perms && Grants(p, op, body, headers, answer)
  {
    hide Grants, Evaluate, Inspections;
    var reader: nat -> Answer := _ => answer;
    NoMerging(perms, op, body, headers, reader, 0);
    if p :| p in perms && Grants(p, op, body, headers, answer) {
      var i: nat :| i < |perms| && perms[i] == p;
      assert GrantAt(perms, i, op, body, headers, reader, 0);
    }
  }
}
