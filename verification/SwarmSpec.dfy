/** The part of swarm.ServiceSpec that mutations touch, as Go lays it out in memory, and the
    plain values those objects stand for. Fields a mutation never names are folded into Opaque. */
module SwarmSpec {
  import opened Basics

  /** A Go map[string]string; nil and empty differ. */
  datatype StringMap = NilMap | MapOf(entries: map<string, string>)

  datatype Opaque = Opaque(encoding: seq<int>)

  // ---------------------------------------------------------------- values

  datatype FileView = FileView(Name: string, UID: string, GID: string, Mode: nat)

  datatype SecretView = SecretView(File: Option<FileView>, SecretID: string, SecretName: string)

  /** None is a nil slice or a nil pointer. */
  datatype ContainerView = ContainerView(
    Image: string,
    Labels: StringMap,
    Env: Option<seq<string>>,
    Secrets: Option<seq<Option<SecretView>>>,
    Other: Opaque)

  datatype JobView = JobView(MaxConcurrent: Option<nat>, TotalCompletions: Option<nat>)

  datatype ModeView = ModeView(Replicated: Option<Option<nat>>, Global: bool, ReplicatedJob: Option<JobView>, GlobalJob: bool)

  datatype SpecView = SpecView(
    Name: string,
    Labels: StringMap,
    Container: Option<ContainerView>,
    Task: Opaque,
    Mode: ModeView,
    Other: Opaque)

  // ---------------------------------------------------------------- memory

  class FileTarget {
    const Name: string
    const UID: string
    const GID: string
    const Mode: nat

    constructor (v: FileView)
      ensures View() == v
    {
      Name, UID, GID, Mode := v.Name, v.UID, v.GID, v.Mode;
    }

    function View(): FileView {
      FileView(Name, UID, GID, Mode)
    }
  }

  class SecretReference {
    const File: FileTarget?
    const SecretID: string
    const SecretName: string

    constructor (file: FileTarget?, id: string, name: string)
      ensures File == file && SecretID == id && SecretName == name
    {
      File, SecretID, SecretName := file, id, name;
    }

    function View(): SecretView {
      SecretView(if File == null then None else Some(File.View()), SecretID, SecretName)
    }
  }

  /** *uint64 */
  class Uint64 {
    const value: nat

    constructor (value: nat)
      ensures this.value == value
    {
      this.value := value;
    }
  }

  class ContainerSpec {
    var Image: string
    var Labels: StringMap
    var Env: array?<string>
    var Secrets: array?<SecretReference?>
    var Other: Opaque

    constructor (image: string, labels: StringMap, env: array?<string>, secrets: array?<SecretReference?>, other: Opaque)
      ensures Image == image && Labels == labels && Env == env && Secrets == secrets && Other == other
    {
      Image, Labels, Env, Secrets, Other := image, labels, env, secrets, other;
    }

    ghost function View(): ContainerView
      reads this, Env, Secrets
    {
      ContainerView(Image, Labels, StringsView(Env), SecretsView(Secrets), Other)
    }
  }

  class ReplicatedService {
    var Replicas: Uint64?

    constructor (replicas: Uint64?)
      ensures Replicas == replicas
    {
      Replicas := replicas;
    }

    function View(): Option<nat>
      reads this
    {
      CellView(Replicas)
    }
  }

  /** Pointers to structs a mutation only tests against nil. */
  class GlobalService {
    constructor () {}
  }

  class GlobalJob {
    constructor () {}
  }

  class ReplicatedJob {
    const MaxConcurrent: Uint64?
    const TotalCompletions: Uint64?

    constructor (maxConcurrent: Uint64?, totalCompletions: Uint64?)
      ensures MaxConcurrent == maxConcurrent && TotalCompletions == totalCompletions
    {
      MaxConcurrent, TotalCompletions := maxConcurrent, totalCompletions;
    }

    function View(): JobView {
      JobView(CellView(MaxConcurrent), CellView(TotalCompletions))
    }
  }

  datatype Annotations = Annotations(Name: string, Labels: StringMap)

  datatype TaskSpec = TaskSpec(ContainerSpec: ContainerSpec?, Other: Opaque)

  datatype ServiceMode = ServiceMode(
    Replicated: ReplicatedService?, Global: GlobalService?, ReplicatedJob: ReplicatedJob?, GlobalJob: GlobalJob?)

  datatype ServiceSpec = ServiceSpec(Annotations: Annotations, TaskTemplate: TaskSpec, Mode: ServiceMode, Other: Opaque)

  function CellView(c: Uint64?): Option<nat> {
    if c == null then None else Some(c.value)
  }

  ghost function StringsView(a: array?<string>): Option<seq<string>>
    reads a
  {
    if a == null then None else Some(a[..])
  }

  function RefView(r: SecretReference?): Option<SecretView> {
    if r == null then None else Some(r.View())
  }

  ghost function RefsView(refs: seq<SecretReference?>): seq<Option<SecretView>> {
    seq(|refs|, i requires 0 <= i < |refs| => RefView(refs[i]))
  }

  ghost function SecretsView(a: array?<SecretReference?>): Option<seq<Option<SecretView>>>
    reads a
  {
    if a == null then None else Some(RefsView(a[..]))
  }

  ghost function ContainerOf(c: ContainerSpec?): Option<ContainerView>
    reads c, if c == null then {} else {c.Env, c.Secrets}
  {
    if c == null then None else Some(c.View())
  }

  ghost function ModeOf(m: ServiceMode): ModeView
    reads m.Replicated
  {
    ModeView(
      if m.Replicated == null then None else Some(m.Replicated.View()),
      m.Global != null,
      if m.ReplicatedJob == null then None else Some(m.ReplicatedJob.View()),
      m.GlobalJob != null)
  }

  /** The value a spec in memory stands for, addresses forgotten. */
  ghost function ViewOf(s: ServiceSpec): SpecView
    reads s.TaskTemplate.ContainerSpec, s.Mode.Replicated
    reads if s.TaskTemplate.ContainerSpec == null then {} else {s.TaskTemplate.ContainerSpec.Env, s.TaskTemplate.ContainerSpec.Secrets}
  {
    SpecView(
      s.Annotations.Name, s.Annotations.Labels,
      ContainerOf(s.TaskTemplate.ContainerSpec), s.TaskTemplate.Other,
      ModeOf(s.Mode),
      s.Other)
  }

  // ---------------------------------------------------------------- decoding into fresh memory

  method MakeStrings(v: Option<seq<string>>) returns (a: array?<string>)
    ensures StringsView(a) == v && (a != null ==> fresh(a))
  {
    if v.None? {
      return null;
    }
    a := new string[|v.value|](i requires 0 <= i < |v.value| => v.value[i]);
    assert a[..] == v.value;
  }

  method MakeSecrets(v: Option<seq<Option<SecretView>>>) returns (a: array?<SecretReference?>)
    ensures SecretsView(a) == v && (a != null ==> fresh(a))
  {
    if v.None? {
      return null;
    }
    var refs := new SecretReference?[|v.value|](_ => null);
    for i := 0 to |v.value|
      invariant forall j :: 0 <= j < i ==> RefView(refs[j]) == v.value[j]
      invariant forall j :: i <= j < |v.value| ==> refs[j] == null
    {
      if v.value[i].Some? {
        var secret := v.value[i].value;
        var file: FileTarget? := null;
        if secret.File.Some? {
          file := new FileTarget(secret.File.value);
        }
        var ref := new SecretReference(file, secret.SecretID, secret.SecretName);
        assert ref.View() == secret;
        refs[i] := ref;
      }
    }
    assert RefsView(refs[..]) == v.value;
    return refs;
  }

  method MakeContainer(v: Option<ContainerView>) returns (container: ContainerSpec?)
    ensures ContainerOf(container) == v && (container != null ==> fresh(container))
  {
    if v.None? {
      return null;
    }
    var c := v.value;
    var env := MakeStrings(c.Env);
    var secrets := MakeSecrets(c.Secrets);
    container := new ContainerSpec(c.Image, c.Labels, env, secrets, c.Other);
  }

  method MakeCell(v: Option<nat>) returns (cell: Uint64?)
    ensures CellView(cell) == v
  {
    if v.None? {
      return null;
    }
    cell := new Uint64(v.value);
  }

  method MakeMode(v: ModeView) returns (m: ServiceMode)
    ensures ModeOf(m) == v && (m.Replicated != null ==> fresh(m.Replicated))
  {
    var replicated: ReplicatedService? := null;
    if v.Replicated.Some? {
      var cell := MakeCell(v.Replicated.value);
      replicated := new ReplicatedService(cell);
    }
    var global: GlobalService? := null;
    if v.Global {
      global := new GlobalService();
    }
    var job: ReplicatedJob? := null;
    if v.ReplicatedJob.Some? {
      var concurrent := MakeCell(v.ReplicatedJob.value.MaxConcurrent);
      var total := MakeCell(v.ReplicatedJob.value.TotalCompletions);
      job := new ReplicatedJob(concurrent, total);
    }
    var globalJob: GlobalJob? := null;
    if v.GlobalJob {
      globalJob := new GlobalJob();
    }
    m := ServiceMode(replicated, global, job, globalJob);
  }

  /** specjson.Decode once the library has parsed the document: every object it points to is new. */
  method Allocate(v: SpecView) returns (s: ServiceSpec)
    ensures ViewOf(s) == v
    ensures s.TaskTemplate.ContainerSpec != null ==> fresh(s.TaskTemplate.ContainerSpec)
    ensures s.Mode.Replicated != null ==> fresh(s.Mode.Replicated)
  {
    var container := MakeContainer(v.Container);
    var mode := MakeMode(v.Mode);
    s := ServiceSpec(Annotations(v.Name, v.Labels), TaskSpec(container, v.Task), mode, v.Other);
  }
}
