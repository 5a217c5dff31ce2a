/** Mutation validation: permitted subtrees of a fresh decode are overwritten through pointers,
    then whole specs are compared. */
module Mutation {
  import opened Basics
  import opened SwarmSpec
  import EqualGenerated

  const SECRETS := "container.secrets"
  const IMAGE := "container.image"
  const REPLICAS := "replicas"

  /** How strict decoding reads one request body, as a service spec and as a secret spec's labels. */
  datatype Body = Body(service: Option<SpecView>, secretLabels: Option<StringMap>)

  datatype Verdict =
    | Ok
    | DecodeError
    | EmptyFieldSet
    | NeedsContainerSpecs
    | NeedsReplicatedMode
    | UnsupportedField
    | OutsideAllowedSet

  predicate Supported(field: string) {
    field == SECRETS || field == IMAGE || field == REPLICAS
  }

  predicate OnlyReplicated(m: ModeView) {
    m.Replicated.Some? && !m.Global && m.ReplicatedJob.None? && !m.GlobalJob
  }

  /** What a supported field needs of the two specs before its subtree can be substituted. */
  predicate SideCondition(field: string, cur: SpecView, next: SpecView) {
    if field == REPLICAS then OnlyReplicated(cur.Mode) && OnlyReplicated(next.Mode)
    else cur.Container.Some? && next.Container.Some?
  }

  /** `v` with the subtrees named in F taken from `from`, where both have the parent object. */
  function Overwrite(F: set<string>, v: SpecView, from: SpecView): SpecView {
    var container :=
      if v.Container.Some? && from.Container.Some? then
        Some(v.Container.value.(
          Image := if IMAGE in F then from.Container.value.Image else v.Container.value.Image,
          Secrets := if SECRETS in F then from.Container.value.Secrets else v.Container.value.Secrets))
      else v.Container;
    var replicated :=
      if v.Mode.Replicated.Some? && from.Mode.Replicated.Some? && REPLICAS in F then from.Mode.Replicated
      else v.Mode.Replicated;
    v.(Container := container, Mode := v.Mode.(Replicated := replicated))
  }

  /** What a spec still says once the subtrees named in F are erased. */
  function Erase(F: set<string>, v: SpecView): SpecView {
    v.(
      Container :=
        if v.Container.Some? then
          Some(v.Container.value.(
            Image := if IMAGE in F then "" else v.Container.value.Image,
            Secrets := if SECRETS in F then None else v.Container.value.Secrets))
        else None,
      Mode := v.Mode.(Replicated := if v.Mode.Replicated.Some? && REPLICAS in F then Some(None) else v.Mode.Replicated))
  }

  /** The two specs differ at most inside the subtrees named in F. */
  predicate AgreeOutside(F: set<string>, a: SpecView, b: SpecView) {
    Erase(F, a) == Erase(F, b)
  }

  function Fields(allowed: seq<string>): set<string> {
    set f | f in allowed
  }

  /** The error Validate's loop stops at, if any. */
  function LoopError(allowed: seq<string>, cur: SpecView, next: SpecView): Verdict {
    if allowed == [] then Ok
    else if !Supported(allowed[0]) then UnsupportedField
    else if !SideCondition(allowed[0], cur, next) then
      if allowed[0] == REPLICAS then NeedsReplicatedMode else NeedsContainerSpecs
    else LoopError(allowed[1..], cur, next)
  }

  function Decide(cur: SpecView, requested: Option<SpecView>, allowed: seq<string>): Verdict {
    if requested.None? then DecodeError
    else if allowed == [] then EmptyFieldSet
    else if LoopError(allowed, cur, requested.value) != Ok then LoopError(allowed, cur, requested.value)
    else if Overwrite(Fields(allowed), requested.value, cur) != cur then OutsideAllowedSet
    else Ok
  }

  /** One turn of Validate's loop: the named subtree of `next` becomes current's. */
  method Substitute(current: ServiceSpec, next: ServiceSpec, field: string) returns (err: Verdict)
    requires next.TaskTemplate.ContainerSpec != null ==> next.TaskTemplate.ContainerSpec != current.TaskTemplate.ContainerSpec
    requires next.Mode.Replicated != null ==> next.Mode.Replicated != current.Mode.Replicated
    modifies next.TaskTemplate.ContainerSpec, next.Mode.Replicated
    ensures ViewOf(current) == old(ViewOf(current))
    ensures err == LoopError([field], ViewOf(current), old(ViewOf(next)))
    ensures err == Ok ==> ViewOf(next) == Overwrite({field}, old(ViewOf(next)), ViewOf(current))
  {
    if field == SECRETS || field == IMAGE {
      err := SubstituteContainer(current, next, field);
    } else if field == REPLICAS {
      err := SubstituteReplicas(current, next);
    } else {
      err := UnsupportedField;
    }
  }

  method SubstituteContainer(current: ServiceSpec, next: ServiceSpec, field: string) returns (err: Verdict)
    requires next.TaskTemplate.ContainerSpec != null ==> next.TaskTemplate.ContainerSpec != current.TaskTemplate.ContainerSpec
    requires field == SECRETS || field == IMAGE
    modifies next.TaskTemplate.ContainerSpec
    ensures ViewOf(current) == old(ViewOf(current))
    ensures err == if SideCondition(field, ViewOf(current), old(ViewOf(next))) then Ok else NeedsContainerSpecs
    ensures err == Ok ==> ViewOf(next) == Overwrite({field}, old(ViewOf(next)), ViewOf(current))
  {
    var before, after := current.TaskTemplate.ContainerSpec, next.TaskTemplate.ContainerSpec;
    if before == null || after == null {
      return NeedsContainerSpecs;
    }
    if field == SECRETS {
      after.Secrets := before.Secrets;
    } else {
      after.Image := before.Image;
    }
    return Ok;
  }

  method SubstituteReplicas(current: ServiceSpec, next: ServiceSpec) returns (err: Verdict)
    requires next.Mode.Replicated != null ==> next.Mode.Replicated != current.Mode.Replicated
    modifies next.Mode.Replicated
    ensures ViewOf(current) == old(ViewOf(current))
    ensures err == if SideCondition(REPLICAS, ViewOf(current), old(ViewOf(next))) then Ok else NeedsReplicatedMode
    ensures err == Ok ==> ViewOf(next) == Overwrite({REPLICAS}, old(ViewOf(next)), ViewOf(current))
  {
    var before, after := current.Mode.Replicated, next.Mode.Replicated;
    if before == null || after == null
      || current.Mode.Global != null || current.Mode.ReplicatedJob != null || current.Mode.GlobalJob != null
      || next.Mode.Global != null || next.Mode.ReplicatedJob != null || next.Mode.GlobalJob != null {
      return NeedsReplicatedMode;
    }
    after.Replicas := before.Replicas;
    return Ok;
  }

  /** Validate. It may modify nothing that existed before the call, so `current` and everything it
      points to is untouched although the substitution shares its slices and cells with the request. */
  method Validate(current: ServiceSpec, requested: Body, allowed: seq<string>) returns (err: Verdict)
    ensures err == Decide(ViewOf(current), requested.service, allowed)
  {
    hide Overwrite, LoopError;
    if requested.service.None? {
      return DecodeError;
    }
    var next := Allocate(requested.service.value);
    ghost var cur, req := ViewOf(current), requested.service.value;
    if |allowed| == 0 {
      return EmptyFieldSet;
    }
    assert allowed[0..] == allowed;
    OverwriteNothing(req, cur);
    for i := 0 to |allowed|
      invariant next.TaskTemplate.ContainerSpec != null ==> fresh(next.TaskTemplate.ContainerSpec)
      invariant next.Mode.Replicated != null ==> fresh(next.Mode.Replicated)
      invariant ViewOf(current) == cur
      invariant ViewOf(next) == Overwrite(Fields(allowed[..i]), req, cur)
      invariant LoopError(allowed, cur, req) == LoopError(allowed[i..], cur, req)
    {
      LoopStep(allowed, i, req, cur);
      err := Substitute(current, next, allowed[i]);
      if err != Ok {
        return;
      }
    }
    LoopEnd(allowed, req, cur);
    ghost var substituted := Overwrite(Fields(allowed), req, cur);
    assert ViewOf(next) == substituted;
    var same := EqualGenerated.EqualSpec(current, next);
    assert same <==> cur == substituted;
    if !same {
      return OutsideAllowedSet;
    }
    return Ok;
  }

  lemma LoopEnd(allowed: seq<string>, req: SpecView, cur: SpecView)
    ensures allowed[..|allowed|] == allowed
    ensures LoopError(allowed[|allowed|..], cur, req) == Ok
  {
  }

  lemma LoopStep(allowed: seq<string>, i: nat, req: SpecView, cur: SpecView)
    requires i < |allowed|
    ensures var soFar := Overwrite(Fields(allowed[..i]), req, cur);
      && LoopError([allowed[i]], cur, soFar) == LoopError([allowed[i]], cur, req)
      && (LoopError([allowed[i]], cur, req) != Ok ==> LoopError(allowed[i..], cur, req) == LoopError([allowed[i]], cur, req))
      && (LoopError([allowed[i]], cur, req) == Ok ==> LoopError(allowed[i..], cur, req) == LoopError(allowed[i + 1..], cur, req))
      && Overwrite({allowed[i]}, soFar, cur) == Overwrite(Fields(allowed[..i + 1]), req, cur)
  {
    FieldsGrow(allowed, i);
    assert allowed[i..][1..] == allowed[i + 1..];
    OverwriteAgain(Fields(allowed[..i]), allowed[i], req, cur);
  }

  lemma OverwriteAgain(F: set<string>, f: string, v: SpecView, from: SpecView)
    ensures Overwrite({f}, Overwrite(F, v, from), from) == Overwrite(F + {f}, v, from)
  {
  }

  lemma OverwriteNothing(v: SpecView, from: SpecView)
    ensures Overwrite(Fields([]), v, from) == v
  {
  }

  lemma FieldsGrow(allowed: seq<string>, i: nat)
    requires i < |allowed|
    ensures Fields(allowed[..i + 1]) == Fields(allowed[..i]) + {allowed[i]}
  {
    assert allowed[..i + 1] == allowed[..i] + [allowed[i]];
  }

  // ---------------------------------------------------------------- what acceptance means

  /** Substituting current values into the request yields the current spec exactly when
      substituting requested values into the current spec yields the request, and exactly when the
      two agree outside F. */
  lemma OverwriteIsAgreement(F: set<string>, cur: SpecView, next: SpecView)
    ensures Overwrite(F, next, cur) == cur <==> AgreeOutside(F, cur, next)
    ensures Overwrite(F, cur, next) == next <==> AgreeOutside(F, cur, next)
  {
  }

  lemma {:induction false} LoopErrorIsFirstBadField(allowed: seq<string>, cur: SpecView, next: SpecView)
    ensures LoopError(allowed, cur, next) == Ok <==>
            forall f :: f in allowed ==> Supported(f) && SideCondition(f, cur, next)
    ensures LoopError(allowed, cur, next) !in {DecodeError, EmptyFieldSet, OutsideAllowedSet}
  {
    if allowed != [] {
      LoopErrorIsFirstBadField(allowed[1..], cur, next);
      assert allowed == [allowed[0]] + allowed[1..];
    }
  }

  /** Validate succeeds exactly when the body decodes, the field set is nonempty and supported, the
      structural conditions hold on both sides, and nothing outside the allowed subtrees differs. */
  lemma AcceptedIff(cur: SpecView, requested: Option<SpecView>, allowed: seq<string>)
    ensures Decide(cur, requested, allowed) == Ok <==>
      && requested.Some?
      && allowed != []
      && (forall f :: f in allowed ==> Supported(f) && SideCondition(f, cur, requested.value))
      && AgreeOutside(Fields(allowed), cur, requested.value)
  {
    if requested.Some? {
      LoopErrorIsFirstBadField(allowed, cur, requested.value);
      OverwriteIsAgreement(Fields(allowed), cur, requested.value);
    }
  }

  /** Acceptance depends on which fields are allowed, not on their order or repetition. */
  lemma OrderIsIrrelevant(cur: SpecView, requested: Option<SpecView>, allowed: seq<string>, shuffled: seq<string>)
    requires Fields(allowed) == Fields(shuffled)
    ensures Decide(cur, requested, allowed) == Ok <==> Decide(cur, requested, shuffled) == Ok
  {
    AcceptedIff(cur, requested, allowed);
    AcceptedIff(cur, requested, shuffled);
    assert forall f :: f in allowed <==> f in Fields(allowed);
    assert forall f :: f in shuffled <==> f in Fields(shuffled);
    assert allowed != [] ==> allowed[0] in Fields(allowed);
    assert shuffled != [] ==> shuffled[0] in Fields(shuffled);
  }

  lemma AgreeOutsideMore(F: set<string>, F': set<string>, a: SpecView, b: SpecView)
    requires F <= F' && AgreeOutside(F, a, b)
    ensures AgreeOutside(F', a, b)
  {
    hide AgreeOutside;
    OverwriteIsAgreement(F, a, b);
    OverwriteIsAgreement(F', a, b);
  }

  /** Allowing one more field keeps an accepted request accepted exactly when the new field is
      supported and its structural condition holds. */
  lemma EnlargingKeepsAcceptance(cur: SpecView, requested: Option<SpecView>, allowed: seq<string>, field: string)
    requires Decide(cur, requested, allowed) == Ok
    ensures Decide(cur, requested, allowed + [field]) == Ok <==> Supported(field) && SideCondition(field, cur, requested.value)
  {
    AcceptedIff(cur, requested, allowed);
    AcceptedIff(cur, requested, allowed + [field]);
    AgreeOutsideMore(Fields(allowed), Fields(allowed + [field]), cur, requested.value);
  }

  /** Allowing more can turn an accepted request into a rejected one: a new image for a global
      service, once replicas may change too. */
  lemma EnlargingCanReject(container: ContainerView, image: string, other: Opaque)
    ensures var cur := SpecView("web", NilMap, Some(container), other, ModeView(None, true, None, false), other);
      var next := cur.(Container := Some(container.(Image := image)));
      && Decide(cur, Some(next), [IMAGE]) == Ok
      && Decide(cur, Some(next), [IMAGE, REPLICAS]) == NeedsReplicatedMode
  {
    var cur := SpecView("web", NilMap, Some(container), other, ModeView(None, true, None, false), other);
    var next := cur.(Container := Some(container.(Image := image)));
    AcceptedIff(cur, Some(next), [IMAGE]);
    assert [IMAGE, REPLICAS][1..] == [REPLICAS];
    assert LoopError([REPLICAS], cur, next) == NeedsReplicatedMode;
    assert LoopError([IMAGE, REPLICAS], cur, next) == NeedsReplicatedMode;
  }

  // ---------------------------------------------------------------- field by field

  /** The part of a spec no mutation may ever touch. */
  ghost predicate SameRest(a: SpecView, b: SpecView) {
    && a.Name == b.Name && a.Labels == b.Labels && a.Task == b.Task && a.Other == b.Other
    && a.Mode.Global == b.Mode.Global && a.Mode.ReplicatedJob == b.Mode.ReplicatedJob && a.Mode.GlobalJob == b.Mode.GlobalJob
    && (a.Container.Some? <==> b.Container.Some?)
    && (a.Mode.Replicated.Some? <==> b.Mode.Replicated.Some?)
    && (a.Container.Some? && b.Container.Some? ==>
      && a.Container.value.Labels == b.Container.value.Labels
      && a.Container.value.Env == b.Container.value.Env
      && a.Container.value.Other == b.Container.value.Other)
  }

  /** Acceptance spelt out field by field: only the three documented fields may be allowed, each needs
      its parent object on both sides (replicas, the replicated mode and no other), and everything else
      is as it was. */
  lemma AcceptedFieldByField(cur: SpecView, next: SpecView, allowed: seq<string>)
    ensures Decide(cur, Some(next), allowed) == Ok <==>
      && allowed != []
      && (forall f :: f in allowed ==> f == "container.secrets" || f == "container.image" || f == "replicas")
      && ("container.secrets" in allowed || "container.image" in allowed ==> cur.Container.Some? && next.Container.Some?)
      && ("replicas" in allowed ==> forall m :: m == cur.Mode || m == next.Mode ==>
        m.Replicated.Some? && !m.Global && m.ReplicatedJob.None? && !m.GlobalJob)
      && SameRest(cur, next)
      && ("container.secrets" !in allowed && cur.Container.Some? ==> cur.Container.value.Secrets == next.Container.value.Secrets)
      && ("container.image" !in allowed && cur.Container.Some? ==> cur.Container.value.Image == next.Container.value.Image)
      && ("replicas" !in allowed ==> cur.Mode.Replicated == next.Mode.Replicated)
  {
    AcceptedIff(cur, Some(next), allowed);
    hide Decide;
    if allowed != [] && forall f :: f in allowed ==> Supported(f) && SideCondition(f, cur, next) {
      AgreementFieldByField(Fields(allowed), cur, next);
    }
  }

  lemma AgreementFieldByField(F: set<string>, cur: SpecView, next: SpecView)
    ensures AgreeOutside(F, cur, next) <==>
      && SameRest(cur, next)
      && (SECRETS !in F && cur.Container.Some? ==> cur.Container.value.Secrets == next.Container.value.Secrets)
      && (IMAGE !in F && cur.Container.Some? ==> cur.Container.value.Image == next.Container.value.Image)
      && (REPLICAS !in F ==> cur.Mode.Replicated == next.Mode.Replicated)
  {
  }

  /** Where every structural condition holds, a rejection is for what lies outside. */
  lemma OnlyOutside(cur: SpecView, next: SpecView, allowed: seq<string>)
    requires allowed != [] && forall f :: f in allowed ==> f == "container.secrets" || f == "container.image" || f == "replicas"
    requires forall f :: f in allowed ==> SideCondition(f, cur, next)
    ensures Decide(cur, Some(next), allowed) == if AgreeOutside(Fields(allowed), cur, next) then Ok else OutsideAllowedSet
  {
    LoopErrorIsFirstBadField(allowed, cur, next);
    OverwriteIsAgreement(Fields(allowed), cur, next);
  }

  /** Each documented field is usable on its own subtree, and opens no other: secrets. */
  lemma SecretsOpenSecrets(cur: SpecView, secrets: Option<seq<Option<SecretView>>>)
    requires cur.Container.Some?
    ensures var next := cur.(Container := Some(cur.Container.value.(Secrets := secrets)));
      && Decide(cur, Some(next), ["container.secrets"]) == Ok
      && (next != cur ==> Decide(cur, Some(next), ["container.image"]) == OutsideAllowedSet)
  {
    var next := cur.(Container := Some(cur.Container.value.(Secrets := secrets)));
    OnlyOutside(cur, next, ["container.secrets"]);
    OnlyOutside(cur, next, ["container.image"]);
    AgreementFieldByField(Fields(["container.secrets"]), cur, next);
    AgreementFieldByField(Fields(["container.image"]), cur, next);
    hide Decide, AgreeOutside;
  }

  /** Image. */
  lemma ImageOpensImage(cur: SpecView, image: string)
    requires cur.Container.Some?
    ensures var next := cur.(Container := Some(cur.Container.value.(Image := image)));
      && Decide(cur, Some(next), ["container.image"]) == Ok
      && (next != cur ==> Decide(cur, Some(next), ["container.secrets"]) == OutsideAllowedSet)
  {
    var next := cur.(Container := Some(cur.Container.value.(Image := image)));
    OnlyOutside(cur, next, ["container.secrets"]);
    OnlyOutside(cur, next, ["container.image"]);
    AgreementFieldByField(Fields(["container.secrets"]), cur, next);
    AgreementFieldByField(Fields(["container.image"]), cur, next);
    hide Decide, AgreeOutside;
  }

  /** Replicas. */
  lemma ReplicasOpenReplicas(cur: SpecView, count: Option<nat>)
    requires cur.Mode.Replicated.Some? && !cur.Mode.Global && cur.Mode.ReplicatedJob.None? && !cur.Mode.GlobalJob
    ensures var next := cur.(Mode := cur.Mode.(Replicated := Some(count)));
      && Decide(cur, Some(next), ["replicas"]) == Ok
      && (next != cur && cur.Container.Some? ==>
        Decide(cur, Some(next), ["container.secrets", "container.image"]) == OutsideAllowedSet)
  {
    var next := cur.(Mode := cur.Mode.(Replicated := Some(count)));
    OnlyOutside(cur, next, ["replicas"]);
    AgreementFieldByField(Fields(["replicas"]), cur, next);
    if cur.Container.Some? {
      OnlyOutside(cur, next, ["container.secrets", "container.image"]);
      AgreementFieldByField(Fields(["container.secrets", "container.image"]), cur, next);
    }
    hide Decide, AgreeOutside;
  }

  /** Any other string is no field. */
  lemma NothingElseIsAField(cur: SpecView, next: SpecView, field: string)
    requires field != "container.secrets" && field != "container.image" && field != "replicas"
    ensures Decide(cur, Some(next), [field]) == UnsupportedField
  {
    assert [field][0] == field;
  }

  /** The verdict in full: an undecodable body, then an empty set, then the first allowed field that is
      not documented or whose structural condition fails, then a difference outside. */
  lemma VerdictInOrder(cur: SpecView, requested: Option<SpecView>, allowed: seq<string>)
    ensures requested.None? ==> Decide(cur, requested, allowed) == DecodeError
    ensures requested.Some? && allowed == [] ==> Decide(cur, requested, allowed) == EmptyFieldSet
    ensures requested.Some? ==> forall i :: FirstBad(cur, requested.value, allowed, i) ==>
      Decide(cur, requested, allowed) ==
        if allowed[i] == "replicas" then NeedsReplicatedMode
        else if allowed[i] == "container.secrets" || allowed[i] == "container.image" then NeedsContainerSpecs
        else UnsupportedField
    ensures requested.Some? && allowed != [] && (forall i :: !FirstBad(cur, requested.value, allowed, i)) ==>
      Decide(cur, requested, allowed) == Ok || Decide(cur, requested, allowed) == OutsideAllowedSet
  {
    if requested.Some? {
      LoopStopsAt(cur, requested.value, allowed);
    }
  }

  predicate FieldReady(f: string, cur: SpecView, next: SpecView) {
    || ((f == "container.secrets" || f == "container.image") && cur.Container.Some? && next.Container.Some?)
    || (f == "replicas"
        && cur.Mode.Replicated.Some? && !cur.Mode.Global && cur.Mode.ReplicatedJob.None? && !cur.Mode.GlobalJob
        && next.Mode.Replicated.Some? && !next.Mode.Global && next.Mode.ReplicatedJob.None? && !next.Mode.GlobalJob)
  }

  predicate FirstBad(cur: SpecView, next: SpecView, allowed: seq<string>, i: int) {
    0 <= i < |allowed| && !FieldReady(allowed[i], cur, next) && forall j :: 0 <= j < i ==> FieldReady(allowed[j], cur, next)
  }

  lemma {:induction false} LoopStopsAt(cur: SpecView, next: SpecView, allowed: seq<string>)
    ensures forall i :: FirstBad(cur, next, allowed, i) ==>
      LoopError(allowed, cur, next) ==
        if allowed[i] == "replicas" then NeedsReplicatedMode
        else if allowed[i] == "container.secrets" || allowed[i] == "container.image" then NeedsContainerSpecs
        else UnsupportedField
    ensures (forall i :: !FirstBad(cur, next, allowed, i)) ==> LoopError(allowed, cur, next) == Ok
  {
    if allowed != [] {
      LoopStopsAt(cur, next, allowed[1..]);
      if FieldReady(allowed[0], cur, next) {
        hide FieldReady, OnlyReplicated;
        assert forall i :: FirstBad(cur, next, allowed, i) ==> i > 0 && FirstBad(cur, next, allowed[1..], i - 1);
        forall i | FirstBad(cur, next, allowed[1..], i) ensures FirstBad(cur, next, allowed, i + 1) {
          assert forall j :: 0 < j < i + 1 ==> allowed[j] == allowed[1..][j - 1];
        }
      } else {
        assert FirstBad(cur, next, allowed, 0);
      }
    }
  }
}
