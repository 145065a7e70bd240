# Microsandbox cloud control plane: verified model

A Dafny model of the parts of the control plane where state, timing and text formats interact, with proofs
about every input and every run. `dafny verify dfyconfig.toml` checks all of it.

| files | what they model |
|---|---|
| `PortLeases`, `LeaseInterleaving` | the port lease table; `leasePorts` run alone, and as a step machine for any number of calls in flight |
| `RuntimeSpecs`, `ControlPlane`, `ControlPlaneLaws`, `ControlPlaneRuns`, `ReprovisionLaws`, `ControlPlaneExamples` | requests, specifications, provisioning, updates and deletes as functions on the tables; what each step and every run keeps, and runs in which a promise fails |
| `KeyLaws`, `OperationLaws`, `ProvisionOutcomes`, `RequestLaws` | every operation from outside: what it answers, persists, leases and asks of the host, read off request, tables and host |
| `RuntimeService` | the registry and control services as classes that update those tables in place, proved equal to the functions |
| `SshGateway`, `SshSessions`, `SshLifetime` | the session enforcer's timed loop, the session store, and the two composed |
| `PreviewTokens` | signed preview tokens against an event log |
| `ShellLexer`, `LaunchScript` | token recognition of the shell (POSIX.1-2017, Shell Command Language, sections 2.2.1 to 2.2.3, 2.3 and 2.10.1), and the launch script read by it |
| `Text`, `Identity`, `IdentityLaws` | string operations and identity normalisation |
| `UriComponent`, `ProxyPath`, `Base64Url`, `ProxyToken`, `PayloadJson` | percent coding, preview paths, base64url, proxy tokens, and the JSON text of their payloads |

## How things are represented

- Tables are maps or sets with their UNIQUE constraints, and one repository call is one step. There is one
  runtime host, so leases are a map from port to runtime.
- What is decided outside the process (generated keys, answers of the sandbox host, health checks, the row a
  query with two alternatives returns first) is an `Oracle`, or an argument of a step. All results quantify over it.
  The only thing asked of it is that generated keys and random ids are new.
- Comparison by JSON text is equality of ordered field lists, so a binding remembers the order in which its
  fields were written.
- Optional request fields are absent or present; null counts as absent. Strings are sequences of Unicode
  scalar values.
- In the gateway a schedule says what each round reads from the clock and from the concurrently written stamp;
  only its timing is constrained, by a bound on scheduling delay that may be 0.
- SHA-256 is an injective function, random tokens are new, clocks do not run backwards, JSON parsing undoes
  printing on the payloads that are signed, the keyed hash is an arbitrary function. Each is a hypothesis of the
  lemmas that need it.

## What the proofs found

- A growth request that fails takes away leases the runtime held before, so its published ports become free for
  others (`FailedGrowthLosesTheLease`). Bindings stay leased exactly when growth does not fail
  (`ProvisionLeasesExactly`).
- The same happens between calls in flight: a failed `leasePorts` call or a release takes away ports that another
  call of the same runtime has collected or was granted (`SharedRuntimeLosesPorts`, `RollBackExactlySafe`,
  `ReleaseExactlySafe`). With distinct runtimes no port is ever shared (`DistinctRuntimesHoldAlone`).
- The gateway checks the expiry before it dials, and dialling takes its time: a bridge can open after the session
  has expired (`SlowDialOpensLate`). It does exactly when dialling takes as long as was left or longer, and then the
  enforcer closes it at its first look (`HandleConnection`).
- A fresh provision leases twice, because the row it just saved still has no bindings. It needs 2n free ports to
  publish n, and with between n and 2n it leaves a row without ports behind (`FreshExactly`).
- An empty update recreates a runtime whose ssh binding was appended automatically: only the order of that
  binding's fields differs. It happens once (`FreshSshIsAppended`, `AppendedSshIsRecreatedOnce`).
- An update that names no ports adds an ssh binding to a runtime created without one (`UpdateKeepsPorts`).
- An ensure call whose id is another runtime's name makes lookups by that string ambiguous
  (`EnsureWithForeignNameIsAmbiguous`), exactly when it leaves a row (`FreshUnambiguousExactly`).
- Overlapping creations of a signed preview token for one sandbox and port leave two valid tokens
  (`OverlappingCreationsLeaveTwo`); without overlap there is at most one (`SerialRunsKeepOne`).
- With a name prefix of 56 characters or more, two sandboxes can get the same name on the host
  (`QualifiedNamesDiffer`).

## Model

| member | source | states |
|---|---|---|
| `RuntimeService.RuntimeRegistry.LeasePorts` | apps/cloud-api/src/runtime-registry/runtime-registry.service.ts:97-130 | The scanning loop is first fit: it leaves exactly the lease table and the answer of `Lease`, on success and on roll back |
| `PortLeases.FreeMeaning` | apps/cloud-api/src/runtime-registry/runtime-registry.service.ts:99-107 | The free ports are exactly the unleased ports of the range, in ascending order |
| `PortLeases.FirstFitIsLeast` | apps/cloud-api/src/runtime-registry/runtime-registry.service.ts:97-124 | No ascending choice of free ports is longer than the scan's, or smaller at any position |
| `PortLeases.LeaseGrants` | apps/cloud-api/src/runtime-registry/runtime-registry.service.ts:97-130 | A granted call returns `count` ascending, previously unleased ports of the range and adds exactly those leases |
| `PortLeases.FreeAfterGrant` | apps/cloud-api/src/runtime-registry/runtime-registry.service.ts:97-124 | After a grant the remaining free ports are the old ones from position `count` on |
| `PortLeases.FreePlusLeased` | apps/cloud-api/src/database/port-lease.entity.ts:9-11 | Free ports plus leases make up the range |
| `LeaseInterleaving.NextKeepsSafe` | apps/cloud-api/src/runtime-registry/runtime-registry.service.ts:97-134 | Each single step of any interleaving (a new call for any runtime, probe, insert that may fail spuriously, roll back, release at any time) keeps: collected ports ascending and in range; those of a call from whose runtime nothing was taken since are leased to it and in no other such call |
| `LeaseInterleaving.EveryRunIsSafe` | apps/cloud-api/src/runtime-registry/runtime-registry.service.ts:97-134 | The same after every run of any number of calls for any runtimes, with releases at any time |
| `LeaseInterleaving.NoPortGrantedTwice` | apps/cloud-api/src/runtime-registry/runtime-registry.service.ts:97-130 | A port granted to one call reaches another only if the leases of one of them were taken away meanwhile |
| `LeaseInterleaving.DistinctRuntimesHoldAlone` | apps/cloud-api/src/runtime-registry/runtime-registry.service.ts:97-130 | In every interleaving of calls with pairwise distinct runtimes, none of which is released, every call in flight or granted holds each port it has collected, and no port is in two of them |
| `LeaseInterleaving.RevokedForCause` | apps/cloud-api/src/runtime-registry/runtime-registry.service.ts:125-134 | Leases are taken away only by a failed call or a release of the same runtime |
| `LeaseInterleaving.CallsEnd` | apps/cloud-api/src/runtime-registry/runtime-registry.service.ts:102-124 | However steps interleave, a call takes at most two steps per port and one to roll back |
| `LeaseInterleaving.SoloIsSequential` | apps/cloud-api/src/runtime-registry/runtime-registry.service.ts:97-130 | A call that runs without interference computes exactly the sequential `Lease` |
| `LeaseInterleaving.RollBackExactlySafe` | apps/cloud-api/src/runtime-registry/runtime-registry.service.ts:125-128 | A roll back is harmless if and only if no other call of the runtime, in flight or granted, has ports |
| `LeaseInterleaving.ReleaseExactlySafe` | apps/cloud-api/src/runtime-registry/runtime-registry.service.ts:132-134 | A release, also one during a call as a delete may make it, is harmless if and only if no call of the runtime, in flight or granted, has ports |
| `LeaseInterleaving.SharedRuntimeLosesPorts` | apps/cloud-api/src/runtime-registry/runtime-registry.service.ts:126-126 | Concrete run from an empty table: of two calls of one runtime the failing one takes away the port granted to the other |
| `ControlPlaneLaws.AllocateLaw` | apps/cloud-api/src/runtime-control/runtime-control.service.ts:543-570 | Every requested port gets a host port; positions the row has keep theirs, the rest take the new leases in order, each once; all are leased to the runtime and pairwise distinct |
| `ControlPlaneLaws.AllocateFails` | apps/cloud-api/src/runtime-registry/runtime-registry.service.ts:125-128 | Allocation fails if and only if too few ports are free, and then the runtime has lost every lease |
| `ControlPlaneLaws.LeaseOnlyTouches` | apps/cloud-api/src/runtime-registry/runtime-registry.service.ts:97-130 | Granted or not, a lease request leaves the leases of other runtimes alone |
| `ControlPlaneLaws.HostPortsAreUnique` | apps/cloud-api/src/runtime-control/runtime-control.service.ts:551-570 | When bindings are leased, a host port occurs in one binding of one runtime only and lies in the range |
| `ControlPlaneLaws.FreshExactly` | apps/cloud-api/src/runtime-control/runtime-control.service.ts:500-570 | A fresh provision of n ports leases twice: with fewer than n free nothing changes, with fewer than 2n a row without ports stays behind, else it holds the first 2n free ports and publishes the second n |
| `ControlPlaneLaws.StartLeases` | apps/cloud-api/src/runtime-control/runtime-control.service.ts:543-672 | From allocation to the persisted row: the row's bindings are leased to it afterwards if and only if it had none or the additional ports were free |
| `ControlPlaneLaws.ExistingLeases` | apps/cloud-api/src/runtime-control/runtime-control.service.ts:420-672 | Reprovisioning an existing row keeps its bindings leased if and only if growth does not fail |
| `ControlPlaneRuns.ProvisionKeepsBase` | apps/cloud-api/src/runtime-control/runtime-control.service.ts:395-678 | Any provision, successful or not, keeps the constraints and lease ownership and touches the rows and leases of one runtime only |
| `ControlPlaneRuns.ProvisionLeasesExactly` | apps/cloud-api/src/runtime-control/runtime-control.service.ts:395-678 | All persisted bindings stay leased to their runtimes if and only if the request does not fail to grow an existing runtime |
| `ControlPlaneExamples.FailedGrowthLosesTheLease` | apps/cloud-api/src/runtime-control/runtime-control.service.ts:551-558 | Failing run from the empty database: a runtime on a range of two ports is created, asks for a second port, and then publishes a port that is leased to nobody |
| `ControlPlaneRuns.DeleteExactly` | apps/cloud-api/src/runtime-control/runtime-control.service.ts:157-171 | A successful delete removes exactly the runtime's row, all its leases (surplus ones too, which become free) and its preview tokens |
| `ControlPlaneRuns.ApplyKeeps` | apps/cloud-api/src/runtime-control/runtime-control.service.ts:73-171 | One operation of any kind with any outcome keeps the constraints and ownership, keeps bindings leased if and only if growth does not fail, and keeps lookups unambiguous unless an ensure call takes a foreign name as id |
| `ControlPlaneRuns.ApplyKeepsRows` | apps/cloud-api/src/runtime-control/runtime-control.service.ts:73-171 | Every operation keeps stored rows in canonical form, with the primary port equal to the first binding |
| `ControlPlaneRuns.EveryRunIsSound` | apps/cloud-api/src/runtime-control/runtime-control.service.ts:73-171 | Over every run, failures included: each lease names an existing row, each preview token an existing sandbox, and free plus leased ports make up the range |
| `ControlPlaneRuns.EveryRunKeepsBindingsLeased` | apps/cloud-api/src/runtime-control/runtime-control.service.ts:500-672 | Over every run in which growth succeeds, every persisted host port is leased to its runtime and in range |
| `ControlPlaneRuns.LookupIsUnambiguous` | apps/cloud-api/src/runtime-registry/runtime-registry.service.ts:62-77 | If no name is another runtime's id, a string denotes at most one runtime and the row order of the query does not matter |
| `ControlPlaneRuns.ExistingUnambiguous` | apps/cloud-api/src/runtime-control/runtime-control.service.ts:398-405 | Reprovisioning or renaming an existing runtime keeps lookups unambiguous |
| `ControlPlaneRuns.FreshUnambiguousExactly` | apps/cloud-api/src/runtime-control/runtime-control.service.ts:395-541 | A new runtime makes lookups ambiguous if and only if its id is another runtime's name, its request is not refused before anything is written, and enough ports are free for the first lease |
| `ControlPlaneExamples.EnsureWithForeignNameIsAmbiguous` | apps/cloud-api/src/runtime-control/runtime-control.service.ts:93-98 | Failing run from the empty database: the id `a` is ensured while the runtime `x` is called `a`, and then two runtimes answer to `a` |
| `ControlPlaneRuns.EveryRunStaysUnambiguous` | apps/cloud-api/src/runtime-control/runtime-control.service.ts:73-109 | Over every run whose ensure ids are no foreign names, no name equals another runtime's id |
| `ControlPlaneRuns.EveryLookupIsUnambiguous` | apps/cloud-api/src/runtime-registry/runtime-registry.service.ts:62-77 | After every such run, two runtimes matching one string are the same |
| `RuntimeSpecs.ResolveVolumes` | apps/cloud-api/src/runtime-control/runtime-control.service.ts:804-831 | The loop yields the mount of every input in order, or the first failure |
| `RuntimeSpecs.FieldsDetermine` | apps/cloud-api/src/runtime-registry/runtime-registry.service.ts:274-279 | Two bindings have the same JSON text if and only if all values agree and the fields are in the same order |
| `RuntimeSpecs.RecreateExactly` | apps/cloud-api/src/runtime-control/runtime-control.service.ts:857-893 | No recreation if and only if name, visibility, every configuration column (null and empty alike) and all ports agree, the ports also in field order |
| `RuntimeSpecs.SpecIsCanonical` | apps/cloud-api/src/runtime-control/runtime-control.service.ts:680-727 | Every specification is in canonical form: trimmed, no empty command, positive limits |
| `RuntimeSpecs.MountsRoundTrip` | apps/cloud-api/src/runtime-control/runtime-control.service.ts:804-831 | Mounts turned into a request and resolved again are the same, while their volumes exist |
| `RuntimeSpecs.PortsRoundTrip` | apps/cloud-api/src/runtime-control/runtime-control.service.ts:833-855 | Bindings turned into a request and resolved again ask for the same ports, always in the resolved field order |
| `RuntimeSpecs.UpdateName` | apps/cloud-api/src/runtime-control/runtime-control.service.ts:729-783 | The name after an update is the row's unless the patch names one |
| `RuntimeSpecs.UpdateLaw` | apps/cloud-api/src/runtime-control/runtime-control.service.ts:680-783 | Update input followed by specification gives each configuration column the patch's value if named and the row's otherwise; it fails only on the patch's own volumes |
| `RuntimeSpecs.UpdateKeepsPorts` | apps/cloud-api/src/runtime-control/runtime-control.service.ts:690-701 | An update naming no ports keeps the ports if and only if one of them is port 22; otherwise one binding is added |
| `RuntimeSpecs.EmptyUpdateRecreatesExactly` | apps/cloud-api/src/runtime-control/runtime-control.service.ts:696-701 | For an empty update of a runtime with an ssh port the recreate decision is yes if and only if a named binding still has the appended field order |
| `ReprovisionLaws.DoneMatchesSpec` | apps/cloud-api/src/runtime-control/runtime-control.service.ts:395-678 | Whichever way a provision succeeds, the persisted row needs no recreation for the same request |
| `ReprovisionLaws.RepeatedEnsureIsQuiet` | apps/cloud-api/src/runtime-control/runtime-control.service.ts:420-475 | The same ensure call again on a healthy runtime changes no lease, does not ask the host to create anything and writes only status columns |
| `ReprovisionLaws.UpdateChangesOnlyWhatIsNamed` | apps/cloud-api/src/runtime-control/runtime-control.service.ts:551-783 | A successful update naming no ports, on a runtime with an ssh port, keeps every host port and lease and changes only the columns the patch names |
| `ReprovisionLaws.EmptyUpdateChangesNothing` | apps/cloud-api/src/runtime-control/runtime-control.service.ts:551-783 | A successful empty update changes no configuration column, name, visibility, host port or lease |
| `ReprovisionLaws.FreshSshIsAppended` | apps/cloud-api/src/runtime-control/runtime-control.service.ts:693-701 | A new runtime has such a binding if and only if its request leaves ssh on and names no port 22 |
| `ReprovisionLaws.EmptyUpdateCreatesExactly` | apps/cloud-api/src/runtime-control/runtime-control.service.ts:420-498 | An empty update asks the host to create the sandbox anew if and only if such a binding is there, or the sandbox is down or unhealthy |
| `ReprovisionLaws.AppendedSshIsRecreatedOnce` | apps/cloud-api/src/runtime-control/runtime-control.service.ts:420-701 | A runtime created with the default ssh setting and without port 22: its first empty update creates the sandbox anew, the second on a healthy sandbox does not |
| `OperationLaws.MountsOfIsExact` | apps/cloud-api/src/runtime-control/runtime-control.service.ts:804-831 | Mounts are those of the request, one by one, or the first volume that is unknown or has a subpath decides the error |
| `OperationLaws.PlanIsExact` | apps/cloud-api/src/runtime-control/runtime-control.service.ts:395-413 | Before anything is changed: a name without letters or digits, then a name that another runtime has as id or name, then a failing volume is refused, and nothing else is |
| `OperationLaws.RecreateMeans` | apps/cloud-api/src/runtime-control/runtime-control.service.ts:857-893 | A row is kept if and only if it already is what the request asks for, column by column and port by port, with its fields in the same order |
| `OperationLaws.ProvisionFulfils` | apps/cloud-api/src/runtime-control/runtime-control.service.ts:395-678 | Whichever way a provision succeeds, the persisted row has the id, the name, each configuration column or its default, the visibility, the ports asked for position by position, and an ssh binding if and only if ssh is wanted and no port is 22 |
| `OperationLaws.ProvisionStatus` | apps/cloud-api/src/runtime-control/runtime-control.service.ts:454-672 | When the sandbox was created the status is running if and only if the app and, if wanted, ssh are healthy, and error otherwise, with the reason; when it was kept it is running, with the reason kept or replaced if files were written; access token and host name are the row's or new |
| `ProvisionOutcomes.ProvisionAnswers` | apps/cloud-api/src/runtime-control/runtime-control.service.ts:395-678 | The answer to every request from request, tables and host: which refusal comes first, and exactly when it succeeds; a UNIQUE constraint is never hit |
| `ProvisionOutcomes.ProvisionHostPorts` | apps/cloud-api/src/runtime-control/runtime-control.service.ts:529-570 | A known runtime keeps its host ports by position and leases exactly the missing ones, the first free ones in order; a new one leases the first 2n free ports and publishes the second n |
| `ProvisionOutcomes.ProvisionCreatesExactly` | apps/cloud-api/src/runtime-control/runtime-control.service.ts:420-602 | The host is asked to create the sandbox if and only if nothing is refused, the ports are there, and the row is not already what is asked for with a healthy sandbox, or recreation is forced |
| `ProvisionOutcomes.KnownRejected` | apps/cloud-api/src/runtime-control/runtime-control.service.ts:478-598 | A failed request for a known runtime leaves a fitting row alone and marks any other as being replaced; leases are kept and completed, or all gone when they were what failed |
| `ProvisionOutcomes.NewRejected` | apps/cloud-api/src/runtime-control/runtime-control.service.ts:500-598 | A failed request for a new runtime leaves nothing, a row without ports and leases, or that row with 2n leases, depending on the free ports |
| `ProvisionOutcomes.RefusalChangesNothing` | apps/cloud-api/src/runtime-control/runtime-control.service.ts:398-413 | A refused request changes no table and asks the host for nothing |
| `RequestLaws.CreateAnswers` | apps/cloud-api/src/runtime-control/runtime-control.service.ts:73-91 | Every answer of a create call, in the order of its checks |
| `RequestLaws.CreateFulfils` | apps/cloud-api/src/runtime-control/runtime-control.service.ts:73-91 | A successful create makes a new runtime whose id is the name asked for or a random one, with the row and status above |
| `RequestLaws.EnsureAnswers` | apps/cloud-api/src/runtime-control/runtime-control.service.ts:93-98 | Every answer of an ensure call: the id is the explicit one, else the name, else random |
| `RequestLaws.EnsureFulfils` | apps/cloud-api/src/runtime-control/runtime-control.service.ts:93-98 | A successful ensure leaves a runtime with that id that is what was asked for, created if and only if there was none like it |
| `RequestLaws.UpdateIs` | apps/cloud-api/src/runtime-control/runtime-control.service.ts:100-109 | An update finds its runtime by id alone; an unknown one is not found and changes nothing |
| `RequestLaws.UpdateAnswers` | apps/cloud-api/src/runtime-control/runtime-control.service.ts:100-109 | Every answer of an update of a known runtime, in the order of its checks |
| `RequestLaws.UpdateFulfils` | apps/cloud-api/src/runtime-control/runtime-control.service.ts:729-783 | After a successful update with any patch each column, the name, the visibility and the ports are the patch's where it names them and the row's where it does not; the ports position by position, with an ssh binding if and only if none is 22 |
| `RequestLaws.UpdateHostPorts` | apps/cloud-api/src/runtime-control/runtime-control.service.ts:551-570 | Host ports stay by position under every update, and exactly the missing ones are leased |
| `RequestLaws.UpdateStatus` | apps/cloud-api/src/runtime-control/runtime-control.service.ts:729-783 | The status is the host's answer if the sandbox was created, which it is whenever the patch forces it or the sandbox is not well |
| `KeyLaws.KeyIsFoundExactly` | apps/cloud-api/src/runtime-control/runtime-control.service.ts:895-904 | A key operation is rejected as not found if and only if no row has the normalised key as id or name; otherwise it is about such a row |
| `KeyLaws.DeleteByKey` | apps/cloud-api/src/runtime-control/runtime-control.service.ts:157-171 | Deleting by id or by name: exactly that runtime's row, leases and preview tokens go; when the host fails the row is marked and all is still there |
| `KeyLaws.SetStatusByKey` | apps/cloud-api/src/runtime-control/runtime-control.service.ts:125-155 | Starting and stopping by id or by name: exactly that row's status and reason change, or nothing when the host fails |
| `KeyLaws.IssuePreviewByKey` | apps/cloud-api/src/runtime-control/runtime-control.service.ts:250-268 | By id or by name: the status is synchronised; a token is issued if and only if the sandbox runs and exposes the port, and replaces those of the same sandbox and port |
| `PortLeases.ReleaseUndoesLease` | apps/cloud-api/src/runtime-registry/runtime-registry.service.ts:132-134 | Releasing undoes leasing, granted or not: the table and the free ports are what they were |
| `ControlPlaneLaws.SaveExactly` | apps/cloud-api/src/runtime-registry/runtime-registry.service.ts:79-89 | A row can be written if and only if no other row has its id or its name; then nothing else changes |
| `ControlPlaneLaws.GivingUpRestores` | apps/cloud-api/src/runtime-registry/runtime-registry.service.ts:91-95 | Deleting a runtime that was just saved restores rows, leases and preview tokens as they were before |
| `RuntimeService.RuntimeRegistry.FindRuntimeBySandboxIdOrName` | apps/cloud-api/src/runtime-registry/runtime-registry.service.ts:62-69 | Finds a row with that id or name whenever there is one |
| `RuntimeService.RuntimeRegistry.CreateSignedPreviewToken` | apps/cloud-api/src/runtime-registry/runtime-registry.service.ts:231-250 | Run alone: the pair has the new record and no other, and every record of another pair is there exactly if it was |
| `RuntimeService.SetHostPorts` | apps/cloud-api/src/runtime-control/runtime-control.service.ts:534-536 | The loop gives every position the lease with its index |
| `RuntimeService.ReuseHostPorts` | apps/cloud-api/src/runtime-control/runtime-control.service.ts:559-569 | The loop reuses host ports by position and fills the rest with leases in order |
| `RuntimeService.RuntimeControl.BuildSpecification` | apps/cloud-api/src/runtime-control/runtime-control.service.ts:680-727 | The stepwise specification is the one the update and recreate laws are about |
| `RuntimeService.RuntimeControl.PreparePlan` | apps/cloud-api/src/runtime-control/runtime-control.service.ts:398-413 | Lookups and specification, with every refusal, give the plan the run theorems are about and change nothing |
| `RuntimeService.RuntimeControl.Launch` | apps/cloud-api/src/runtime-control/runtime-control.service.ts:543-678 | Allocation, creation and persistence leave exactly the tables of `Start` and ask the host once, or not at all when ports are missing; what that records is `OperationLaws.ProvisionStatus` and `ProvisionOutcomes.ProvisionHostPorts` |
| `RuntimeService.RuntimeControl.CreateRuntime` | apps/cloud-api/src/runtime-control/runtime-control.service.ts:500-541 | The fresh path leaves exactly the tables of `ProvisionFresh` |
| `RuntimeService.RuntimeControl.EnsureExisting` | apps/cloud-api/src/runtime-control/runtime-control.service.ts:420-498 | The keep, replace and restart paths leave exactly the tables of `ProvisionExisting` |
| `RuntimeService.RuntimeControl.Provision` | apps/cloud-api/src/runtime-control/runtime-control.service.ts:395-678 | The whole method, errors included, refines the `Provision` that the laws on answers, rows, statuses, ports and creations are about |
| `RuntimeService.RuntimeControl.Create` | apps/cloud-api/src/runtime-control/runtime-control.service.ts:73-91 | Refines the create operation that `CreateAnswers` and `CreateFulfils` describe |
| `RuntimeService.RuntimeControl.Ensure` | apps/cloud-api/src/runtime-control/runtime-control.service.ts:93-98 | Refines the ensure operation that `EnsureAnswers` and `EnsureFulfils` describe |
| `RuntimeService.RuntimeControl.Update` | apps/cloud-api/src/runtime-control/runtime-control.service.ts:100-109 | Refines the update operation that `UpdateIs`, `UpdateAnswers` and `UpdateFulfils` describe |
| `RuntimeService.RuntimeControl.Delete` | apps/cloud-api/src/runtime-control/runtime-control.service.ts:157-171 | Refines the delete operation that `KeyIsFoundExactly` and `DeleteByKey` describe |
| `RuntimeService.RuntimeControl.SetStatus` | apps/cloud-api/src/runtime-control/runtime-control.service.ts:125-155 | Refines the start and stop operation that `KeyIsFoundExactly` and `SetStatusByKey` describe |
| `RuntimeService.RuntimeControl.IssuePreview` | apps/cloud-api/src/runtime-control/runtime-control.service.ts:250-268 | Refines the preview operation that `KeyIsFoundExactly` and `IssuePreviewByKey` describe |
| `Identity.NormalizeGivesIdentity` | apps/cloud-api/src/runtime-control/runtime-identity.service.ts:23-41 | Every accepted string becomes an identity: nonempty, at most 64 long, alphanumeric at both ends, no double hyphen |
| `Identity.IdentitiesAreFixed` | apps/cloud-api/src/runtime-control/runtime-identity.service.ts:23-41 | Identities are fixed points |
| `Identity.NormalizeIsIdempotent` | apps/cloud-api/src/runtime-control/runtime-identity.service.ts:23-41 | Normalising twice is normalising once |
| `IdentityLaws.AcceptedExactly` | apps/cloud-api/src/runtime-control/runtime-identity.service.ts:23-33 | A value is accepted if and only if it has a letter or a digit (the Kelvin sign and the dotted capital I count) |
| `IdentityLaws.CaseIsForgotten` | apps/cloud-api/src/runtime-control/runtime-identity.service.ts:24-26 | An identity written in capitals, in part or whole, is normalised to that identity |
| `IdentityLaws.BlanksAreForgotten` | apps/cloud-api/src/runtime-control/runtime-identity.service.ts:24-25 | White space around a value does not matter |
| `IdentityLaws.RunsBecomeOneHyphen` | apps/cloud-api/src/runtime-control/runtime-identity.service.ts:27-28 | Any run of other characters between two identities becomes one hyphen |
| `IdentityLaws.LongValuesAreCut` | apps/cloud-api/src/runtime-control/runtime-identity.service.ts:34-39 | A longer value is cut to 64 characters and loses exactly the punctuation at its end |
| `Identity.CutIsNormalized` | apps/cloud-api/src/runtime-control/runtime-identity.service.ts:34-39 | A cut at 64 characters is never empty, so the fallback behind it is unreachable |
| `Identity.QualifiedNamesDiffer` | apps/cloud-api/src/runtime-control/runtime-identity.service.ts:13-21 | Sandbox and volume names are injective on identities if and only if the prefix has at most 55 characters |
| `Identity.LongPrefixCollides` | apps/cloud-api/src/runtime-control/runtime-identity.service.ts:43-48 | For every longer prefix, two identities with the same name |
| `SshGateway.DurationsAreExact` | apps/ssh-gateway/main.go:350-356 | With one operand below 2^53 the float64 minimum is the integer minimum, and with both the maximum is |
| `SshGateway.DecideIsExact` | apps/ssh-gateway/main.go:299-333 | On every input a round decides as if durations were compared as integers |
| `SshGateway.SleepLaw` | apps/ssh-gateway/main.go:299-334 | A round sleeps if and only if no limit holds at its reads, until the first limit or for 5 s, whichever is least, but at least 0.5 s |
| `SshGateway.SleepBounds` | apps/ssh-gateway/main.go:314-334 | A sleep lasts between 0.5 s and 5 s and passes neither limit by more than the minimum sleep |
| `SshGateway.CloseLaw` | apps/ssh-gateway/main.go:299-331 | A round closes only when expiry or the idle limit held at its own reads |
| `SshGateway.NextRound` | apps/ssh-gateway/main.go:314-334 | One round later neither limit is exceeded by more than 500 ms plus the scheduling delay |
| `SshGateway.EnforceSessionLimits` | apps/ssh-gateway/main.go:289-336 | For every schedule of activity stamps the loop ends, closes before expiry + 500 ms and before last activity + idle timeout + 500 ms (plus delay) or at its first look, at once when that is past the expiry, and never closes without cause |
| `SshSessions.SshSessionService.PruneExpired` | apps/cloud-api/src/ssh/session.service.ts:106-113 | The loop removes exactly the expired entries, and no later answer changes |
| `SshSessions.SshSessionService.CreateSession` | apps/cloud-api/src/ssh/session.service.ts:38-56 | The new token is good for the minutes asked for or the configured time, every other token is good exactly when it was, and no expired entry is left |
| `SshSessions.SshSessionService.ValidateSession` | apps/cloud-api/src/ssh/session.service.ts:70-92 | Succeeds if and only if the token was issued, was not revoked and has not expired, with the entry it was issued with; asking changes no later answer, and an expired entry is dropped |
| `SshSessions.SshSessionService.RevokeSession` | apps/cloud-api/src/ssh/session.service.ts:94-104 | The token is good at no time any more, whether or not the hash was saved, and every other token exactly when it was; the hash is in the table if it was saved |
| `SshSessions.OutputsAgree` | apps/cloud-api/src/ssh/session.service.ts:70-92 | In any reachable state a validation answers what the never-pruned log says |
| `SshSessions.NextKeepsRelated` | apps/cloud-api/src/ssh/session.service.ts:38-118 | Every step of every interleaving keeps map and log related |
| `SshSessions.EveryRunAgrees` | apps/cloud-api/src/ssh/session.service.ts:38-118 | All answers of every interleaving are those of the log: pruning and lazy deletion are unobservable |
| `SshSessions.ExpiredEntriesGo` | apps/cloud-api/src/ssh/session.service.ts:77-112 | In the interleavings too, pruning drops exactly the expired entries and so does an answer that meets one |
| `SshSessions.RevokedStaysDead` | apps/cloud-api/src/ssh/session.service.ts:94-104 | After a revocation has deleted the entry, no validation of that token succeeds, in flight or later |
| `SshLifetime.AnswersAreLive` | apps/cloud-api/src/ssh/session.service.ts:70-92 | After every run, a successful validation is of a token that was issued, is not revoked and has not expired |
| `SshLifetime.HandleConnection` | apps/ssh-gateway/main.go:83-164 | A bridge opens if and only if a validated token's expiry had not come at the check and the dial succeeded; it is open at t only if t is before expiry + 500 ms (plus delay) or within the delay of its opening; it opens before the expiry if and only if dialling takes less than was left, is closed before expiry + 500 ms if and only if the enforcer's first look is, in time after the last activity, and never without cause |
| `SshLifetime.SlowDialOpensLate` | apps/ssh-gateway/main.go:117-158 | Concrete run: a token validates, the check is made in time, dialling takes a second, and the bridge opens more than 500 ms after the expiry |
| `PreviewTokens.LiveMeaning` | apps/cloud-api/src/runtime-control/runtime-control.service.ts:300-312 | A record is live if and only if it was issued and no later event replaced it, expired it or deleted its sandbox |
| `PreviewTokens.OutputsAgree` | apps/cloud-api/src/runtime-control/runtime-control.service.ts:300-312 | A lookup answers exactly what the event log said when it read its record, judged by the clock afterwards |
| `PreviewTokens.NextKeepsRelated` | apps/cloud-api/src/runtime-registry/runtime-registry.service.ts:231-265 | Every step of every interleaving keeps the table related to the log |
| `PreviewTokens.EveryAnswerIsFromTheLog` | apps/cloud-api/src/runtime-control/runtime-control.service.ts:250-312 | Over every run a token resolves to a sandbox if and only if the log says so; lazy deletion never shows |
| `PreviewTokens.ExpiredIsDropped` | apps/cloud-api/src/runtime-control/runtime-control.service.ts:304-310 | A lookup that finds its record expired answers nothing and drops every record with that token and port, and no other |
| `PreviewTokens.CreateKeepsOneExactly` | apps/cloud-api/src/runtime-registry/runtime-registry.service.ts:231-250 | Saving a token keeps one record per pair if and only if the pair has none at that moment |
| `PreviewTokens.SerialRunsKeepOne` | apps/cloud-api/src/runtime-registry/runtime-registry.service.ts:231-250 | Without overlapping creations of one pair, at most one record per pair ever exists |
| `PreviewTokens.SerialRunsOpenOnlyTheLatest` | apps/cloud-api/src/runtime-registry/runtime-registry.service.ts:231-265 | Without them, only the token issued last for a pair can resolve |
| `PreviewTokens.OverlappingCreationsLeaveTwo` | apps/cloud-api/src/runtime-registry/runtime-registry.service.ts:236-249 | Two overlapping creations leave two records for one pair, and both tokens open the sandbox (concrete run) |
| `RuntimeService.RuntimeControl.ResolveSignedPreviewToken` | apps/cloud-api/src/runtime-control/runtime-control.service.ts:300-312 | Run alone: answers a sandbox if and only if an unexpired record says so, drops an expired one and loses no unexpired record |
| `LaunchScript.ShellWordIsVerbatim` | apps/cloud-api/src/microsandbox/microsandbox-adapter.service.ts:799-804 | Quote removal gives back the value, and no character with a meaning to the shell is left unquoted |
| `LaunchScript.EscapeIs` | apps/cloud-api/src/microsandbox/microsandbox-adapter.service.ts:799-804 | A value of letters, digits and `_./:-` is printed as it is, any other one in single quotes, unchanged between them if it has none |
| `LaunchScript.EscapeLexes` | apps/cloud-api/src/microsandbox/microsandbox-adapter.service.ts:799-804 | An escaped value is read as one word with exactly that text, for every string, the empty one included |
| `LaunchScript.WordsLex` | apps/cloud-api/src/microsandbox/microsandbox-adapter.service.ts:795-797 | Words joined by blanks are read as those words, none split or merged |
| `LaunchScript.BackgroundLexes` | apps/cloud-api/src/microsandbox/microsandbox-adapter.service.ts:783-791 | The redirection suffix ends the word before it and is read as its eight tokens; a numeric last argument stays a word |
| `LaunchScript.ScriptLexes` | apps/cloud-api/src/microsandbox/microsandbox-adapter.service.ts:767-793 | Lexing the script by the POSIX rules gives exactly the fixed commands, the directory as one word and each argument as one word |
| `LaunchScript.ScriptTextIs` | apps/cloud-api/src/microsandbox/microsandbox-adapter.service.ts:772-793 | The printed lines, character by character |
| `LaunchScript.ScriptTokensAre` | apps/cloud-api/src/microsandbox/microsandbox-adapter.service.ts:772-793 | The tokens a shell reads, word by word |
| `LaunchScript.BuildLaunchScript` | apps/cloud-api/src/microsandbox/microsandbox-adapter.service.ts:767-793 | The printer, pushing line by line, for every command, working directory and ssh flag |
| `UriComponent.DecodeEncode` | apps/cloud-api/src/runtime-control/runtime-control.service.ts:243-243 | Percent decoding undoes percent encoding, for every text |
| `UriComponent.EncodeIsOpaque` | apps/cloud-api/src/runtime-control/runtime-control.service.ts:265-265 | An encoded text has no slash and is empty only for the empty text |
| `UriComponent.BrokenEscapeFails` | apps/cloud-api/src/proxy/proxy.service.ts:137-137 | A percent sign without two hexadecimal digits after it makes decoding fail |
| `UriComponent.AsciiVectors` | apps/cloud-api/src/runtime-control/runtime-control.service.ts:243-243 | Sample texts in ASCII, encoded with capital digits |
| `UriComponent.WideVectors` | apps/cloud-api/src/runtime-control/runtime-control.service.ts:243-243 | Sample characters with two and three octets in UTF-8 |
| `ProxyPath.MatchExactly` | apps/cloud-api/src/proxy/proxy.service.ts:131-145 | The matcher finds the captures of a pattern if and only if they decompose the path; there is at most one way |
| `ProxyPath.PatternsAreDisjoint` | apps/cloud-api/src/proxy/proxy.service.ts:131-148 | No path matches both the signed and the standard pattern |
| `ProxyPath.ExtractStandard` | apps/cloud-api/src/proxy/proxy.service.ts:143-155 | A request for a printed standard path yields that sandbox, port and tail with its query, `/` for an empty tail; also for the identity `signed` |
| `ProxyPath.ExtractSigned` | apps/cloud-api/src/proxy/proxy.service.ts:131-141 | A request for a printed signed path yields that token, port and tail with its query |
| `ProxyPath.ExtractIsExact` | apps/cloud-api/src/proxy/proxy.service.ts:126-156 | For every path: signed if and only if that pattern matches, else standard if and only if that one does, with the captured port, tail and query; a segment that is no encoded text is an error |
| `ProxyPath.TokenIsExact` | apps/cloud-api/src/proxy/proxy.service.ts:158-173 | The access token is the trimmed header (the first of several) if not blank, else the trimmed query parameter if not blank, else none |
| `ProxyPath.IdentityIsPrintedPlainly` | apps/cloud-api/src/runtime-control/runtime-control.service.ts:243-243 | A normalised identity appears in its path as it is |
| `ProxyPath.TokenIsPrintedPlainly` | apps/cloud-api/src/runtime-control/runtime-control.service.ts:265-265 | A generated token appears in its path as it is |
| `Base64Url.DecodeEncode` | apps/cloud-api/src/auth/proxy-token.service.ts:87-89 | Decoding undoes encoding, for every byte string |
| `Base64Url.EncodeIsPlain` | apps/cloud-api/src/auth/proxy-token.service.ts:33-35 | Encoded text has no dot, and is empty only for no bytes |
| `Base64Url.TestVectors` | apps/cloud-api/src/auth/proxy-token.service.ts:87-89 | The test vectors of section 10 of RFC 4648 and the two letters of the URL alphabet |
| `ProxyToken.SplitStarts` | apps/cloud-api/src/auth/proxy-token.service.ts:41-44 | A token is its first two dot-free parts joined by a dot, possibly followed by a dot and more |
| `ProxyToken.VerifySigned` | apps/cloud-api/src/auth/proxy-token.service.ts:18-70 | An issued token verifies for its own sandbox if and only if floor(t/1000) < floor(t0/1000) + ttl, with the original payload, and for no other sandbox |
| `ProxyToken.VerifyIssued` | apps/cloud-api/src/auth/proxy-token.service.ts:39-70 | The same when further dotted parts follow the token |
| `ProxyToken.VerifyIsExact` | apps/cloud-api/src/auth/proxy-token.service.ts:39-70 | The answer for every token, check by check, audience and both sandbox fields included |
| `ProxyToken.AcceptedExactly` | apps/cloud-api/src/auth/proxy-token.service.ts:39-70 | If signatures are not forged, a token is accepted if and only if it contains an issued token for this sandbox that has not expired, with the claims of that one |
| `PayloadJson.PrintsDiffer` | apps/cloud-api/src/auth/proxy-token.service.ts:25-33 | Payloads with the same JSON text are the same payload, whatever characters their strings hold |
| `PayloadJson.JsonIsSound` | apps/cloud-api/src/auth/proxy-token.service.ts:33-51 | With JSON text in UTF-8 for what is signed, parsing undoes printing under every keyed hash: the hypothesis of the token results can be met |

## Left out

- SshGateway.EnforceSessionLimits: a limit that has already passed when the first round starts is closed at that round's clock read, so the 500 ms bounds are stated for later rounds; the zero expiry, which `handleConnection` can only reach with a parsed time, and saturation of durations beyond 292 years are not modelled.
- SshLifetime.HandleConnection: a bridge that either peer closes earlier is not followed further; that a bridge opens before the expiry is false of the source, and the contract states when it does.
- PreviewTokens.EveryAnswerIsFromTheLog: "latest issued for the pair" holds only without overlapping creations and is stated separately, because the source allows overlaps.
- ControlPlaneRuns.EveryRunKeepsBindingsLeased: needs the hypothesis that growth succeeds, because the property is false without it; the exact condition is in `ProvisionLeasesExactly`.
- ProxyPath.ExtractStandard: starts from the pathname and query string; the URL parser before it (dot segments, percent encoding of other characters) is not modelled, nor is a base URL with a path of its own. Ports are unbounded integers, so the rounding of numbers above 2^53 is not modelled.
- ProxyToken.VerifySigned: the range limit of dates (year 275760) is not modelled; extra fields of parsed claims are not represented; in `PayloadJson`, the exponent form of numbers from 10^21 on is not printed, and what parsing does with texts that were never printed is left open.
- ShellLexer: command substitution, braced expansion and expansions inside double quotes are rejected rather than lexed, and here-document bodies are not read, because the launch script has none of them; reserved words, aliases and command lookup are outside token recognition.
- Base64Url: characters outside the alphabet are skipped when decoding; what the runtime's decoder does after a padding character is not modelled.
- SshSessions.SshSessionService.CreateSession: the configured time to live goes through a division by 60 in the source, whose rounding is not modelled.
- Provisioning operations run one after another; only `leasePorts`, the session store and the preview tokens are modelled with interleaving.
- The columns lastActiveAt, createdAt and updatedAt, registry credentials and activity refresh have no influence on the rest and are not in the rows.
- Calls into the sandbox SDK and CLI, port publishing, health sockets and the polling of `waitForHealthy` appear only as their results.
- Agreement between the persisted row and the live sandbox after a failed creation depends on the SDK.
- The SSH handshake, channel bridging, PTY, SFTP and host keys of both gateway programs.
- HTTP controllers, request validation, guards, logging, configuration reading and bootstrap.
- Volume and image management, exec, file transfer, `authorized_keys` building and retry wrappers would only add easy members.
- Cryptographic strength, randomness and timing-safe comparison; comparison is equality.
