# dockauthz, verified

dockauthz is an allow-only authorization plugin for Docker Engine. This project models its decision
logic in Dafny and proves what the logic is for. Five pieces are linked:

- **The equality generator as a compiler** (`TypeGraph`, `GoFragment`, `EqualityGenerator`,
  `GeneratorCorrectness`, `MapKeys`, `KeyWitnesses`). A type graph, the memoised depth-first walk that
  emits one Go function per type (a class that updates its name table and output buffer while
  recursing), and an interpreter for the emitted Go. Values carry addresses, and maps hold their
  entries under what Go's == sees of a key. `Structure` forgets every address, also in keys;
  `Compared` forgets them everywhere but in keys. The emitted code always decides equality of
  `Compared`, and decides equality of `Structure` exactly when no reachable map key can hold an
  address. Generation terminates on cyclic graphs because the set of unnamed types shrinks.
- **Mutation validation** (`SwarmSpec`, `EqualGenerated`, `SpecTypes`, `SpecEncoding`, `Mutation`).
  Specs are heap objects; validation decodes into fresh objects, overwrites permitted subtrees through
  pointers and compares whole specs with a slice of the generated functions. That slice is tied to the
  generator: the generator accepts the slice's types, leaves exactly the slice's bodies for them, and
  running what it leaves decides equality of specs as the slice does on memory. The method has no `modifies` clause, so the
  current spec is untouched by construction of the proof. `Decide` is the value-level verdict;
  `AgreeOutside` is the independent statement of what may differ.
- **Policy and authorization** (`Operation`, `Token`, `Identity`, `Telemetry`, `Config`, `Policy`,
  `DockerApi`, `Authz`, `Decisions`, `Scenarios`). Every loop over a Go map picks its next key arbitrarily, so a
  postcondition that fixes the result proves independence of the iteration order. `Serve` is the
  meaning of one callback, including the inspect calls that come back as further callbacks;
  `Allowed` reads the same decision off the configuration document.
- **Service updates as a protocol** (`Protocol`, `Rounds`). Requests are judged against snapshots,
  one inspection at a time, and executed later; creations, updates, deletions and renames by others
  interleave freely. Versions are numbered either across the cluster, as Swarm does, or per service;
  everything is proved for both. The assumptions made of the Docker daemon are listed at the head of
  `Protocol.dfy`. `Rounds` ties a ticket of a run to the response `Authz.Serve` gives.
- **Certificate bundle publication** (`Pki`, `Publication`). Staging, linking or renaming, rollback
  and clean-up over a directory with inodes, when any checked call may fail.

A method and the law about it often share a definition, such as which fields are supported or how a
version is read. Each such definition is also read back on its own, over all inputs and in literal terms:
tables of routes (`Routes`) and of the configuration document (`ConfigTable`), numerals (`Numerals`),
header spellings (`Token`), and whole requests decided from the request line down to the labels
(`Scenarios`).

Library behaviour is a parameter or an assumption: URI parsing stops at the raw path and the decoded
query multimap; a request body is what strict JSON decoding reads it as (`Mutation.Body`); the
daemon's answers are functions from the number of the call; duration, host:port and integer parsing
are functions in `Telemetry.Library`; system calls fail and choose temporary names as
`Pki.System` says. Floats in specs are assumed to have lawful equality: JSON numbers exclude NaN
(section 6 of RFC 8259).

Three properties that one may expect do not hold of the code for all inputs. Each has its failing
input and its exact condition:

- The emitted equality ignores addresses. It fails at `map[*int]int`, which the generator accepts
  (`KeyWitnesses.PointerKeysAreToldApart`), and holds if and only if no key of a reachable map can
  hold an address (`KeyWitnesses.EmittedDecidesStructureIff`). The maps compared in
  `internal/mutation/equal_generated.go` all have string keys.
- A forced `writeBundle` that reports success has published every file, for arbitrary bundles. It
  holds if and only if no file name is one that the library may give to a temporary file, or the
  bundle can never succeed at all (`Publication.ForcedSuccessIff`). The bundles the program itself
  writes meet the condition, so the program has the property (`Publication.ForcedGenerateInstalls`).
- Allowing more fields keeps an accepted mutation accepted. It fails for an image update of a global
  service when replicas are allowed too (`Mutation.EnlargingCanReject`), and holds if and only if
  the new field is supported and its structural condition holds (`Mutation.EnlargingKeepsAcceptance`).

## Model

| member | source | states |
|---|---|---|
| EqualityGenerator.Generator.Equal | internal/mutation/generate/main.go:77-135 | on return the type has a function, names and declarations were only added, nothing begun in the call is left unfinished, and the first name handed out is the next number; it panics only if an unreviewed type is reachable |
| EqualityGenerator.Generator.Body | internal/mutation/generate/main.go:86-130 | the switch over the underlying type builds that type's template from its components' functions (of a map, the elements only), and fails exactly where the source panics on a reachable type |
| EqualityGenerator.Generator.Fields | internal/mutation/generate/main.go:119-125 | the field loop tests every field in order with that field's function, and fails on a private field |
| GeneratorCorrectness.Generate | internal/mutation/generate/main.go:35-51 | generation succeeds exactly when every type reachable from the root is reviewed, and then leaves a finished program whose function 0 decides equality of the root type, pointers by pointee and map keys as Go's == sees them |
| GeneratorCorrectness.FinishedDecides | internal/mutation/generate/main.go:34-51 | end to end: for every map iteration order and every two values of the root type, equalSpec returns whether they compare equal, pointers by pointee and map keys as Go's == sees them |
| GeneratorCorrectness.CallDecidesEquality | internal/mutation/generate/main.go:92-135 | compiler correctness: for every generated function, every two values of its type, whatever its map key types, and every map iteration order, running it terminates and returns whether the two are equal with addresses forgotten everywhere but in map keys |
| MapKeys.IdentityIsStructure | internal/mutation/generate/main.go:104-111 | for key types that hold no address, the lookup's == is equality of structure |
| MapKeys.ComparedIsStructure | internal/mutation/generate/main.go:104-111 | on values of a reviewed type whose map keys hold no address, comparing with keys by == is comparing the whole structure |
| KeyWitnesses.KeysDecide | internal/mutation/generate/main.go:104-111 | for every reviewed type, map types included: comparing with keys by == loses nothing if and only if no key of a map within it can hold an address |
| KeyWitnesses.EmittedDecidesStructureIff | internal/mutation/generate/main.go:92-135 | an accepted program decides structural equality of its root type if and only if no key of a map within it can hold an address |
| KeyWitnesses.PointerKeysAreToldApart | internal/mutation/generate/main.go:104-111 | `map[*int]int` is accepted, and its function tells apart two maps of the same structure |
| GeneratorCorrectness.EmittedEqualityIsAnEquivalence | internal/mutation/generate/main.go:92-135 | the emitted equality is reflexive, symmetric and transitive, and never equates a nil slice or map with an empty one |
| GeneratorCorrectness.ProgramIsClosed | internal/mutation/generate/main.go:79-84 | every function the program defines or calls is defined exactly once, and function 0 is the root's |
| GeneratorCorrectness.StructsAreGuarded | internal/mutation/generate/main.go:87-118 | every reachable named struct outside net/netip is pinned by exactly one guard that lists its fields in order; no other type has one: not those of net/netip, nor a struct the walk does not visit, such as one that occurs only in a map key |
| GeneratorCorrectness.GuardsShowSchemaChanges | internal/mutation/generate/main.go:137-154 | two generations give a struct the same guard exactly if no field was added, dropped, reordered, retyped, retagged or (unless embedded) renamed in between |
| GeneratorCorrectness.ReviewedByKind | internal/mutation/generate/main.go:92-130 | kind by kind, which reachable types are accepted: interfaces, channels, functions and structs with a private field are not |
| GeneratorCorrectness.EverythingReachableIsNamed | internal/mutation/generate/main.go:77-90 | the generated functions are exactly those of the reachable types, and all of those are reviewed |
| EqualGenerated.Equal3 | internal/mutation/equal_generated.go:41-52 | one direction of key lookups plus equal length decides equality of maps in any iteration order |
| EqualGenerated.SameSizeKeys | internal/mutation/equal_generated.go:41-52 | the pigeonhole: equal sizes and inclusion of entries give equal maps |
| EqualGenerated.Equal1 | internal/mutation/equal_generated.go:53-61 | annotations are equal in name and labels |
| EqualGenerated.Equal10 | internal/mutation/equal_generated.go:178-188 | string slices are equal element by element, nil apart from empty |
| EqualGenerated.Equal68 | internal/mutation/equal_generated.go:815-829 | secret file targets are compared on all fields |
| EqualGenerated.Equal67 | internal/mutation/equal_generated.go:830-835 | file target pointers are compared by pointee |
| EqualGenerated.Equal66 | internal/mutation/equal_generated.go:836-847 | secret references are compared on all fields |
| EqualGenerated.Equal65 | internal/mutation/equal_generated.go:848-853 | secret reference pointers are equal exactly when they stand for the same value |
| EqualGenerated.Equal64 | internal/mutation/equal_generated.go:854-864 | slices of secret references are compared as sequences of values |
| EqualGenerated.Equal6 | internal/mutation/equal_generated.go:1029-1115 | two container specs in memory are equal exactly when they stand for the same value |
| EqualGenerated.Equal5 | internal/mutation/equal_generated.go:1116-1121 | container spec pointers are compared by pointee |
| EqualGenerated.Equal4 | internal/mutation/equal_generated.go:1668-1700 | task specs are compared by value |
| EqualGenerated.Equal133 | internal/mutation/equal_generated.go:1717-1722 | replica counts are compared by pointee, nil apart from zero |
| EqualGenerated.Equal131 | internal/mutation/equal_generated.go:1723-1734 | replicated modes are compared by pointee |
| EqualGenerated.Equal137 | internal/mutation/equal_generated.go:1768-1776 | replicated jobs are compared by the values of both counts |
| EqualGenerated.Equal136 | internal/mutation/equal_generated.go:1777-1782 | replicated job pointers are compared by pointee |
| EqualGenerated.Equal130 | internal/mutation/equal_generated.go:1796-1810 | service modes are compared by value, pointers to empty structs by being nil |
| EqualGenerated.EqualSpec | internal/mutation/equal_generated.go:1947-1968 | two specs in memory are equal exactly when they stand for the same value |
| SpecTypes.GenerateSlice | internal/mutation/generate/main.go:35-51 | run on the types of the slice, the generator accepts them and leaves a finished program |
| SpecTypes.SliceIsEmitted | internal/mutation/equal_generated.go:41-1968 | whatever program the generator leaves for the slice's types, it has for each type exactly the body of the slice's function, up to the numbers of the functions |
| SpecEncoding.EncodedIs | internal/mutation/equal_generated.go:1947-1967 | a spec is a Go value of the root type, and two specs compare equal as values, wherever their objects live, exactly when they are the same |
| SpecEncoding.SliceDecidesSpecs | internal/mutation/equal_generated.go:1947-1968 | the generated program for the slice decides equality of specs, for any map iteration order and any addresses |
| SpecEncoding.EqualSpecAsGenerated | internal/mutation/equal_generated.go:1968 | equality of two specs in memory is what running the generated program on their values returns |
| SwarmSpec.Allocate | internal/mutation/mutation.go:16-19 | decoding yields the document's value in memory that did not exist before |
| Mutation.Substitute | internal/mutation/mutation.go:23-51 | one loop turn makes the named subtree of the request current's, changes nothing of the current spec, and fails exactly on an unsupported field or a missing parent |
| Mutation.Validate | internal/mutation/mutation.go:15-56 | returns the value-level verdict while modifying nothing that existed before the call |
| Mutation.AcceptedIff | internal/mutation/mutation.go:15-56 | accepted exactly when the body decodes, the field set is nonempty and supported, the structural conditions hold on both sides, and the specs agree outside the allowed subtrees |
| Mutation.AcceptedFieldByField | internal/mutation/mutation.go:23-54 | acceptance spelt out over every field of the specs and the three documented field names |
| Mutation.SecretsOpenSecrets | internal/mutation/mutation.go:25-34 | any secrets change of any container is accepted under container.secrets and refused under container.image |
| Mutation.ImageOpensImage | internal/mutation/mutation.go:25-34 | any image change of any container is accepted under container.image and refused under container.secrets |
| Mutation.ReplicasOpenReplicas | internal/mutation/mutation.go:35-46 | any replica count of a purely replicated service is accepted under replicas and refused under the container fields |
| Mutation.NothingElseIsAField | internal/mutation/mutation.go:47-49 | any other field name is unsupported |
| Mutation.VerdictInOrder | internal/mutation/mutation.go:15-56 | which verdict is given: decoding, then the empty set, then the first field not ready, then a difference outside |
| Mutation.OverwriteIsAgreement | internal/mutation/mutation.go:33-54 | substituting current values into the request gives the current spec, substituting requested values into the current spec gives the request, and agreeing outside the subtrees are equivalent |
| Mutation.OrderIsIrrelevant | internal/mutation/mutation.go:23-51 | acceptance does not depend on the order or repetition of the allowed fields |
| Mutation.EnlargingKeepsAcceptance | internal/mutation/mutation.go:23-51 | one more field keeps an accepted request accepted exactly when it is supported and its structural condition holds |
| Mutation.EnlargingCanReject | internal/mutation/mutation.go:35-46 | an image update of any global service is accepted, and rejected once replicas are allowed too |
| Mutation.LoopErrorIsFirstBadField | internal/mutation/mutation.go:23-51 | the loop completes exactly when every field is supported and its condition holds |
| Operation.Resolve | internal/operation/operation.go:70-127 | returns the one operation whose canonical printing, method and query the request line is, or nothing if there is none |
| Operation.PrintResolves | internal/operation/operation.go:70-127 | resolving undoes printing for every well-formed operation |
| Operation.ResolvedPathIsCanonical | internal/operation/operation.go:69-127 | resolving is the inverse of printing: a request line resolves to an operation exactly when it is that well-formed operation's method, printing and query |
| Routes.ResolvesAsListed | internal/operation/operation.go:46-127 | the whole table: a request line resolves exactly to one of thirteen listed methods and routes after an optional version, for identifiers and versions spelt out character by character |
| Operation.DenotesUnique | internal/operation/operation.go:69-127 | no request line denotes two operations |
| Operation.InspectPathResolves | internal/dockerapi/client.go:92-99 | the path of an accepted operation resolves under GET to an inspection of the same resource, ID and version with an empty query exactly when the operation has an ID |
| Operation.JoinSplit | internal/operation/operation.go:87 | joining what a path was split into gives the path back |
| Operation.SplitJoin | internal/operation/operation.go:87 | splitting joined parts gives the parts back |
| Token.Check | internal/dockerapi/token.go:25-34 | for every header order: present if some key folds to the internal header, valid if exactly one does and its value is the token |
| Token.HeadersSpeltOut | internal/dockerapi/token.go:25-34 | which keys count as the internal or credential header, letter by letter, and that a second spelling invalidates the token |
| Token.CaseOfKeysIsIrrelevant | internal/dockerapi/token.go:25-34 | changing the case of header keys, kept distinct, changes neither the token check nor the credential gate |
| Identity.CommonName | internal/identity/identity.go:13-25 | only a complete absence of context is anonymous; a name comes only from an uncontradicted TLS leaf |
| Telemetry.Section.Validate | internal/config/config.go:298-361 | the verdict is that of the completed settings; the state left behind is exactly the defaults written before the first failure |
| Telemetry.ValidateTwice | internal/config/config.go:298-361 | a second validation repeats the verdict and writes nothing, also after a rejection |
| Config.Validate | internal/config/config.go:217-295 | the verdict is the declarative validity of the document in any map order; a rejected policy leaves telemetry alone |
| Config.ValidatePolicy | internal/config/config.go:218-290 | the client part of the verdict, including uniqueness of common names |
| Config.ValidateClient | internal/config/config.go:222-234 | names and common names are nonblank, unreserved, and every permission entry is valid |
| Config.CheckFits | internal/config/config.go:254-270 | each kind of constraint is accepted only for the actions and resources it can be judged on |
| Config.ValidateEntry | internal/config/config.go:235-287 | an entry is valid exactly when it is an unconstrained wildcard action, or covers some resource, fits every resource it covers and has nonempty constraints |
| Config.CheckConstraints | internal/config/config.go:271-287 | constraint maps are nonempty and mutation fields supported, nonempty and distinct |
| Config.ValidateAgain | internal/config/config.go:217-295 | validating twice gives the same verdict and the telemetry state of validating once |
| ConfigTable.EntriesInFull | internal/config/config.go:235-287 | which entries are valid, written out: the documented resources and actions, which constraint goes with which action, nonempty, fields documented and not repeated |
| ConfigTable.PolicyInFull | internal/config/config.go:217-290 | which policies are valid, written out down to reserved names and white space |
| ConfigTable.TelemetryInFull | internal/config/config.go:298-361 | which telemetry settings are accepted, written out with their defaults and bounds |
| ConfigTable.DefaultsInFull | internal/config/config.go:298-325 | which defaults a validation writes, also when it rejects |
| Policy.Matches | internal/policy/policy.go:135-143 | every required label is present with exactly its value, in any order |
| Policy.SafeUpdate | internal/policy/policy.go:145-180 | one numeric version, no option but registryAuthFrom=spec, and no registry credential header unless the image may change |
| Numerals.OptionsInFull | internal/policy/policy.go:145-163 | the permitted update options are exactly one version in digits, alone or with registryAuthFrom=spec |
| Numerals.PrintedParses | internal/policy/policy.go:84 | reading undoes decimal printing for every 64-bit number, and refuses larger ones |
| Numerals.ReadExactly | internal/policy/policy.go:84 | a text is read as n exactly when it is n's decimal numeral, leading zeros allowed, and n fits 64 bits |
| Numerals.VersionGate | internal/policy/policy.go:83-88 | a constrained update gets past the version gate exactly when its version text is a numeral of the snapshot's version |
| Policy.PermitIffGrants | internal/policy/policy.go:58-132 | the chain of early returns allows exactly when every constraint of the one permission holds against the one snapshot |
| Policy.ReasonIsFirstFailure | internal/policy/policy.go:58-132 | the reason reported is that of the first of ten gates not passed |
| Policy.InspectsAfterFirstGate | internal/policy/policy.go:65-77 | an inspection is made exactly for selectors and mutations, and only after the update options are found safe |
| Policy.FirstGrantOrLastRefusal | internal/policy/policy.go:49-55 | evaluation returns the first grant or else the last refusal, having made the inspections up to it |
| Policy.NoMerging | internal/policy/policy.go:38-56 | a request is allowed exactly when some single permission satisfies all its own constraints against the snapshot read for it, even if answers vary; inspections are counted |
| Policy.MorePermissionsAllowMore | internal/policy/policy.go:38-56 | with a fixed answer the verdict ignores order and repetition and is monotone in the permissions |
| Authz.New | internal/authz/plugin.go:38-60 | construction succeeds exactly for valid configurations and indexes every client |
| Authz.IndexByCommonName | internal/authz/plugin.go:56-58 | one entry per client, agreeing with a linear search by common name, in any map order |
| Authz.MatchPermissions | internal/authz/plugin.go:175-182 | the nested loops collect exactly the matching entries, most specific first |
| Decisions.MatchingIff | internal/authz/plugin.go:175-182 | a permission is matched exactly when it is entered for the resource or any, and the action or any |
| Decisions.MatchingOrder | internal/authz/plugin.go:175-182 | a more specific entry comes before a less specific one |
| Authz.Authorize | internal/authz/plugin.go:74-185 | computes the response and number of inspections that `Serve` defines, and terminates through the daemon's callbacks |
| Authz.EvaluateAll | internal/policy/policy.go:39-56 | the loop computes `Evaluate`, inspecting anew for each permission that needs it |
| Authz.EvaluateOne | internal/policy/policy.go:58-132 | inspects only after the update gate, and computes the permission's result |
| Authz.CheckConstraints | internal/policy/policy.go:90-131 | selector, request and mutation checks on the heap compute the permission's result once the snapshot is anchored |
| Authz.Inspect | internal/dockerapi/client.go:83-166 | the daemon's own authorization callback is answered without inspecting, so the recursion is one level deep |
| DockerApi.SnapshotByKind | internal/dockerapi/client.go:131-163 | each resource is read as its own kind: an answer exists exactly for identified objects that decode as that kind, with their ID, version and labels, and a spec for services only |
| Decisions.CallbackIsSelfAuthorizing | internal/authz/plugin.go:131-145 | a token request on an inspect path is allowed exactly for GET without a query, and never inspects |
| Decisions.LookupIsHeard | internal/dockerapi/client.go:83-117 | an inspection of an accepted operation is always heard if it has an ID and never otherwise |
| Decisions.ServeDecidesAllowed | internal/authz/plugin.go:131-184 | authorization allows exactly the declarative relation over token, identity, unidentified policy, administrator grant and some satisfied permission entered at one of the four places for the operation, each judged by its own inspection |
| Decisions.MessagesByRequest | internal/authz/plugin.go:131-184 | which message each kind of request is answered with |
| Scenarios.SelectorDecides | internal/policy/policy.go:72-92 | from request to labels: a selector permission for inspection or deletion allows exactly if the reply is the object with the ID asked for and its labels, read as its kind, carry the selector |
| Scenarios.RequestDecidesCreation | internal/policy/policy.go:93-116 | a request permission for creation allows exactly if the body, read as the kind to be created, carries the labels |
| Scenarios.UpdateDecided | internal/policy/policy.go:58-132 | a service update under any one constrained permission, decided in full: options, credential, ID, version, labels and mutation |
| Decisions.AdminShortcutAgrees | internal/authz/plugin.go:165-168 | for resolvable operations the shortcut and the matching loops agree, whatever the daemon answers |
| Decisions.MatchedPermissionFits | internal/config/config.go:231-288 | in a validated configuration every matched permission is unconditional or fits the operation with nonempty constraints |
| Decisions.ValidatedConfigsAvoidDefensiveBranches | internal/policy/policy.go:93-120 | validated configurations never reach the unsupported-request, missing-spec, empty-field and unsupported-field branches, nor inspect without an ID |
| Decisions.ServeAvoidsDefensiveBranches | internal/policy/policy.go:58-132 | under a validated configuration no response reports an unsupported request, a missing spec, or an empty or unsupported field set, whatever is asked and replied |
| Decisions.AtMostTwoInspections | internal/authz/plugin.go:175-183 | one external request causes at most two inspections, a token request none |
| Protocol.RunKeepsLog | internal/policy/policy.go:39-56 | in every reachable state a ticket's verdict so far and its inspections are those of the evaluation loop with the logged snapshots as answers |
| Rounds.SettledAsServed | internal/authz/plugin.go:131-184 | a settled ticket of any run is authorized exactly when the callback, given the same replies, allows the request, with the same number of inspections |
| Rounds.RepliesExist | internal/dockerapi/client.go:117-140 | every log a run can produce is what some daemon replies are read as |
| Protocol.RunKeepsInv | internal/policy/policy.go:72-92 | in every reachable state each authorized snapshot is either overtaken or still true |
| Protocol.StepKeepsInv | internal/policy/policy.go:72-92 | every step keeps each authorized snapshot either overtaken or still true |
| Protocol.AuthorizedExecutionIsConfined | internal/policy/policy.go:72-92 | an executed update changes only the service its canonical ID names; its selector still holds, its requested labels hold afterwards, and only the one grant's subtrees (and credential, with the image) change |
| Protocol.EveryExecutionIsConfined | internal/policy/policy.go:58-132 | the same for every execution in every interleaving |
| Protocol.HistoryFrame | internal/mutation/mutation.go:23-54 | if services change only under mutation grants drawn from F, everything outside F is what it was at creation |
| Protocol.VersionsIdentify | internal/policy/policy.go:83-88 | with versions numbered across the cluster the version gate alone pins the inspected service and its spec, whatever reference is used |
| Protocol.NamesCanMove | internal/policy/policy.go:80-84 | with versions numbered per service, every gate but the ID gate can accept an image update by name whose execution changes another service beyond the image |
| Pki.Directory.WriteBundle | internal/pki/pki.go:236-284 | the imperative procedure with deferred clean-up computes `Outcome` |
| Pki.Directory.StageAll | internal/pki/pki.go:251-264 | the staging loop stops at the first failure and remembers every temporary file it made |
| Pki.Directory.PublishAll | internal/pki/pki.go:265-282 | the publication loop stops at the first failure and, without force, takes back what it linked |
| Publication.AllOrNothing | internal/pki/pki.go:236-284 | without force, whichever calls fail: an error leaves the entries as before, a success adds exactly the new files with their data and modes |
| Publication.NothingStray | internal/pki/pki.go:245-250 | no staged file survives, and no unrelated entry or existing inode ever changes, with or without force |
| Publication.ForcedReplacesAPrefix | internal/pki/pki.go:265-282 | with force an attempt replaces some first outputs, all of them if it succeeds, and nothing else |
| Publication.ForcedSuccessIff | internal/pki/pki.go:236-284 | for arbitrary bundles and any set of temporary suffixes: a forced success leaves every output published exactly for bundles without a name the library may give to a temporary file (or that can never succeed) |
| Publication.ForcedGenerateInstalls | internal/pki/pki.go:163-171 | a forced Generate that reports success has installed every file of its bundle with its data and mode, and changed nothing else |
| Publication.GeneratedFiles | internal/pki/pki.go:91-171 | with or without force, a Generate that reports success leaves the key under its name and readable by its owner alone, and the certificates under theirs and readable by all |
| Publication.StagingPattern | internal/pki/pki.go:252 | the names of temporary files are the pattern with its star replaced |
| Publication.OnlyBaseNames | internal/pki/pki.go:240-244 | a bundle with a name that is not its own last path element changes nothing |
| Publication.ForcedSuccessPublishes | internal/pki/pki.go:265-283 | without names of temporary files a forced success leaves every output under its name with its data and mode |
| Publication.UnobstructedSucceeds | internal/pki/pki.go:251-283 | with nothing in its way an unforced publication succeeds |

## Left out

- The roughly one hundred and forty generated functions outside the slice above: `CallDecidesEquality` covers them.
- EqualGenerated.Equal6: the container fields that no mutation names and that are not labels or environment are one opaque field; the functions comparing them are instances of `CallDecidesEquality`.
- EqualGenerated.Equal4: the task fields other than the container are one opaque field, likewise.
- EqualGenerated.EqualSpec: the update, rollback and endpoint configurations are one opaque field, likewise.
- The type graph of the slice has no field tags, and the folded fields are slices of integers in it.
- Legality of a type graph beyond `GraphOk` (no type contains itself by value, distinct field names, comparable keys) is a premise of the exact condition on map keys; blank fields are not modelled.
- Import aliases, gofmt and the text of emitted declarations: a declaration is its statements, appended whole.
- Cyclic Go values: emitted functions are shown to terminate on finite values only.
- HTTP, sockets, timeouts, body limits, redirects, JSON and YAML parsing, the YAML node passes, URI escapes.
- Telemetry export, audit records, spans and the error categories attached to results.
- Responses (`AuthZRes`), which are always allowed.
- The early existence check of an unforced Generate (`internal/pki/pki.go:102-110`), which only fails sooner than linking would.
- X.509, RSA, PEM, random tokens and serials, constant-time comparison and the command line.
- Delete requests carry no version: nothing is claimed about their selectors at execution time.
- Updates granted by an unconditional or request-only permission: the code does not tie them to a snapshot, and no confinement is claimed.
- Publication assumes that removals succeed and that no other process changes the directory meanwhile.
- Pki.Directory.WriteBundle: a directory that does not exist yet is the empty directory, and its creation is only a call that may fail.
