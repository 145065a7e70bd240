/** What the control plane's operations do to its tables.

    The tables are maps with their UNIQUE constraints. Everything decided outside the process
    (generated keys, the sandbox host's answers, which of two candidate rows a query
    returns) is in an `Oracle`, over which all results quantify. */
module ControlPlane {
  import opened Prelude
  import opened PortLeases
  import opened Identity
  import opened RuntimeSpecs

  datatype Preview = Preview(token: string, sandboxId: string, port: int, expiresAt: int)

  datatype Db = Db(runtimes: map<RuntimeId, Row>, leases: LeaseTable, previews: set<Preview>)

  datatype Settings = Settings(range: PortRange, defaults: Defaults, namePrefix: string)

  datatype Creation = Created | Transient | Fatal

  datatype Oracle = Oracle(
    freshId: RuntimeId, authToken: string, randomId: string, preferName: bool, volumes: VolumeDirectory,
    hostStatus: Status, healthy: bool, filesWritten: bool, creation: Creation, appHealthy: bool, sshHealthy: bool,
    removed: bool, switched: bool)

  datatype Outcome = Done(id: RuntimeId) | Rejected(why: Failure)

  // ----- Tables -----

  /** UNIQUE (sandboxId) and UNIQUE (name); several rows may have no name. */
  predicate Schema(runtimes: map<RuntimeId, Row>) {
    forall i, j :: i in runtimes && j in runtimes && i != j ==>
      && runtimes[i].sandboxId != runtimes[j].sandboxId
      && (runtimes[i].name.Some? ==> runtimes[i].name != runtimes[j].name)
  }

  /** Writing a row; `None` when a UNIQUE constraint forbids it. */
  function Save(db: Db, id: RuntimeId, row: Row): Option<Db> {
    if Schema(db.runtimes[id := row]) then Some(db.(runtimes := db.runtimes[id := row])) else None
  }

  function DeleteRuntime(db: Db, id: RuntimeId, sandboxId: string): Db {
    Db(db.runtimes - {id}, Without(db.leases, id), set p | p in db.previews && p.sandboxId != sandboxId)
  }

  ghost function BySandboxId(db: Db, sandboxId: string): (r: Option<RuntimeId>)
    ensures r.Some? ==> r.value in db.runtimes && db.runtimes[r.value].sandboxId == sandboxId
    ensures r.None? ==> forall id :: id in db.runtimes ==> db.runtimes[id].sandboxId != sandboxId
  {
    if id :| id in db.runtimes && db.runtimes[id].sandboxId == sandboxId then Some(id) else None
  }

  ghost function ByName(db: Db, name: string): (r: Option<RuntimeId>)
    ensures r.Some? ==> r.value in db.runtimes && db.runtimes[r.value].name == Some(name)
    ensures r.None? ==> forall id :: id in db.runtimes ==> db.runtimes[id].name != Some(name)
  {
    if id :| id in db.runtimes && db.runtimes[id].name == Some(name) then Some(id) else None
  }

  /** `findRuntimeBySandboxIdOrName` of a normalised value: at most two rows match, and either may be returned. */
  ghost function Find(db: Db, value: string, preferName: bool): Option<RuntimeId> {
    if preferName then Either(ByName(db, value), BySandboxId(db, value))
    else Either(BySandboxId(db, value), ByName(db, value))
  }

  // ----- Provisioning -----

  /** The request after the lookups and the specification, before anything is changed. */
  datatype Plan = Plan(name: Option<string>, existing: Option<RuntimeId>, spec: Spec)

  ghost function MakePlan(s: Settings, db: Db, sandboxId: string, input: Input, o: Oracle): Result<Plan, Failure> {
    match NormalizeName(input.name)
    case Err(e) => Err(e)
    case Ok(name) =>
      var holder := if name.Some? then Find(db, name.value, o.preferName) else None;
      if holder.Some? && db.runtimes[holder.value].sandboxId != sandboxId then Err(NameTaken)
      else match Normalize(sandboxId)
        case None => Err(InvalidName)
        case Some(id) =>
          match BuildSpec(s.defaults, o.volumes, input)
          case Err(e) => Err(e)
          case Ok(spec) => Ok(Plan(name, BySandboxId(db, id), spec))
  }

  function NewRow(s: Settings, sandboxId: string, plan: Plan, o: Oracle): Row
    requires plan.spec.ports != []
  {
    Row(sandboxId, plan.name, QualifiedName(s.namePrefix, sandboxId).GetOr(""), [],
        plan.spec.ports[0].containerPort, 0, plan.spec.ports[0].protocol, plan.spec.public, o.authToken,
        Provisioning, Some("allocating_ports"), plan.spec.config)
  }

  function ReplacedRow(row: Row, plan: Plan, forced: bool): Row {
    row.(name := plan.name, status := Provisioning,
         statusReason := Some(if forced then "replacing_forced" else "replacing_spec_changed"),
         config := plan.spec.config)
  }

  function KeptRow(row: Row, plan: Plan): Row {
    row.(name := plan.name, status := Running,
         statusReason := if plan.spec.files != [] then Some("config_synced_existing") else row.statusReason)
  }

  predicate HasSshBinding(ports: seq<Binding>) {
    exists i :: 0 <= i < |ports| && (ports[i].name == Some("ssh") || ports[i].containerPort == SSH_PORT)
  }

  function FinishedRow(row: Row, plan: Plan, ports: seq<Binding>, o: Oracle): Row
    requires ports != []
  {
    var sshHealthy := plan.spec.ssh && HasSshBinding(ports) ==> o.sshHealthy;
    var healthy := o.appHealthy && sshHealthy;
    row.(name := plan.name, portBindings := ports, primaryPort := ports[0].containerPort,
         hostPort := ports[0].hostPort, primaryPortProtocol := ports[0].protocol, public := plan.spec.public,
         status := if healthy then Running else Error,
         statusReason := Some(if healthy then "provisioned" else if !o.appHealthy then "runtime_unhealthy"
                              else "ssh_unhealthy"),
         config := plan.spec.config)
  }

  /** Host ports by position: what the row has, then the new leases in order. */
  function AssignHosts(existing: seq<Binding>, ports: seq<Binding>, leased: seq<int>): (r: seq<Binding>)
    requires |ports| <= |existing| + |leased|
    ensures |r| == |ports|
  {
    seq(|ports|, i requires 0 <= i < |ports| =>
      ports[i].(hostPort := if i < |existing| then existing[i].hostPort else leased[i - |existing|]))
  }

  function Missing(existing: seq<Binding>, ports: seq<Binding>): nat {
    if |ports| <= |existing| then 0 else |ports| - |existing|
  }

  function AllocatePorts(range: PortRange, leases: LeaseTable, id: RuntimeId, existing: seq<Binding>,
                         ports: seq<Binding>)
    : (LeaseTable, Option<seq<Binding>>)
  {
    if Missing(existing, ports) == 0 then (leases, Some(AssignHosts(existing, ports, [])))
    else
      var (after, leased) := Lease(leases, range, id, Missing(existing, ports));
      (after, if leased.Some? then Some(AssignHosts(existing, ports, leased.value)) else None)
  }

  function Start(s: Settings, db: Db, id: RuntimeId, plan: Plan, o: Oracle): (Db, Outcome)
    requires id in db.runtimes && plan.spec.ports != []
  {
    var row := db.runtimes[id];
    var (leases, ports) := AllocatePorts(s.range, db.leases, id, row.portBindings, plan.spec.ports);
    var db' := db.(leases := leases);
    if ports.None? then (db', Rejected(NoFreePorts))
    else if o.creation.Fatal? then (db', Rejected(AdapterFailure))
    else match Save(db', id, FinishedRow(row, plan, ports.value, o))
      case None => (db', Rejected(UniqueViolation))
      case Some(done) => (done, Done(id))
  }

  function ProvisionFresh(s: Settings, db: Db, sandboxId: string, plan: Plan, o: Oracle): (Db, Outcome)
    requires plan.spec.ports != []
  {
    match Save(db, o.freshId, NewRow(s, sandboxId, plan, o))
    case None => (db, Rejected(UniqueViolation))
    case Some(saved) =>
      var (leases, leased) := Lease(saved.leases, s.range, o.freshId, |plan.spec.ports|);
      var db' := saved.(leases := leases);
      if leased.None? then (DeleteRuntime(db', o.freshId, sandboxId), Rejected(NoFreePorts))
      else Start(s, db', o.freshId, plan, o)
  }

  function ProvisionExisting(s: Settings, db: Db, id: RuntimeId, plan: Plan, forced: bool, o: Oracle): (Db, Outcome)
    requires id in db.runtimes && plan.spec.ports != []
  {
    var row := db.runtimes[id];
    var replace := forced || RequiresRecreate(row, plan.spec, plan.name);
    if !replace && o.hostStatus.Running? && o.healthy then
      if plan.spec.files != [] && !o.filesWritten then (db, Rejected(AdapterFailure))
      else match Save(db, id, KeptRow(row, plan))
        case None => (db, Rejected(UniqueViolation))
        case Some(kept) => (kept, Done(id))
    else if replace then
      match Save(db, id, ReplacedRow(row, plan, forced))
      case None => (db, Rejected(UniqueViolation))
      case Some(replaced) => Start(s, replaced, id, plan, o)
    else Start(s, db, id, plan, o)
  }

  ghost function Provision(s: Settings, db: Db, sandboxId: string, input: Input, o: Oracle): (Db, Outcome) {
    match MakePlan(s, db, sandboxId, input, o)
    case Err(e) => (db, Rejected(e))
    case Ok(plan) =>
      PlanHasPorts(s, db, sandboxId, input, o);
      if plan.existing.None? then ProvisionFresh(s, db, sandboxId, plan, o)
      else ProvisionExisting(s, db, plan.existing.value, plan, input.forceRecreate == Some(true), o)
  }

  lemma PlanHasPorts(s: Settings, db: Db, sandboxId: string, input: Input, o: Oracle)
    requires MakePlan(s, db, sandboxId, input, o).Ok?
    ensures var plan := MakePlan(s, db, sandboxId, input, o).value;
            plan.spec.ports != [] && (plan.existing.Some? ==> plan.existing.value in db.runtimes)
  {
  }

  // ----- Calls to the sandbox host -----

  /** The host is asked to create the sandbox: as soon as every port has a host port. */
  predicate StartCreates(s: Settings, db: Db, id: RuntimeId, plan: Plan)
    requires id in db.runtimes
  {
    AllocatePorts(s.range, db.leases, id, db.runtimes[id].portBindings, plan.spec.ports).1.Some?
  }

  predicate FreshCreates(s: Settings, db: Db, sandboxId: string, plan: Plan, o: Oracle)
    requires plan.spec.ports != []
  {
    var saved := Save(db, o.freshId, NewRow(s, sandboxId, plan, o));
    && saved.Some?
    && var (leases, leased) := Lease(saved.value.leases, s.range, o.freshId, |plan.spec.ports|);
       leased.Some? && StartCreates(s, saved.value.(leases := leases), o.freshId, plan)
  }

  predicate ExistingCreates(s: Settings, db: Db, id: RuntimeId, plan: Plan, forced: bool, o: Oracle)
    requires id in db.runtimes && plan.spec.ports != []
  {
    var row := db.runtimes[id];
    var replace := forced || RequiresRecreate(row, plan.spec, plan.name);
    if !replace && o.hostStatus.Running? && o.healthy then false
    else if replace then
      var replaced := Save(db, id, ReplacedRow(row, plan, forced));
      replaced.Some? && StartCreates(s, replaced.value, id, plan)
    else StartCreates(s, db, id, plan)
  }

  ghost predicate ProvisionCreates(s: Settings, db: Db, sandboxId: string, input: Input, o: Oracle) {
    match MakePlan(s, db, sandboxId, input, o)
    case Err(_) => false
    case Ok(plan) =>
      PlanHasPorts(s, db, sandboxId, input, o);
      if plan.existing.None? then FreshCreates(s, db, sandboxId, plan, o)
      else ExistingCreates(s, db, plan.existing.value, plan, input.forceRecreate == Some(true), o)
  }

  // ----- Operations -----

  datatype Op =
    | Create(input: Input)
    | Ensure(explicitId: Option<string>, input: Input)
    | Update(sandboxId: string, patch: Input)
    | Delete(key: string)
    | SetStatus(key: string, status: Status, reason: string)
    | IssuePreview(key: string, port: int, token: string, expiresAt: int)

  ghost function FindByKey(db: Db, key: string, o: Oracle): (r: Result<RuntimeId, Failure>)
    ensures r.Ok? ==> r.value in db.runtimes
  {
    match Normalize(key)
    case None => Err(InvalidName)
    case Some(value) =>
      match Find(db, value, o.preferName)
      case None => Err(NotFound)
      case Some(id) => Ok(id)
  }

  ghost function ApplyCreate(s: Settings, db: Db, input: Input, o: Oracle): (Db, Outcome) {
    match NormalizeName(input.name)
    case Err(e) => (db, Rejected(e))
    case Ok(name) =>
      if name.Some? && Find(db, name.value, o.preferName).Some? then (db, Rejected(NameTaken))
      else Provision(s, db, name.GetOr(o.randomId), input.(forceRecreate := Some(false)), o)
  }

  /** `createSandboxId`: the seed's normal form, or a random id when the seed is blank. */
  function SandboxIdFor(seed: Option<string>, o: Oracle): Option<string> {
    if Trimmed(seed).Some? then Normalize(seed.value) else Some(o.randomId)
  }

  ghost function ApplyEnsure(s: Settings, db: Db, sandboxId: Option<string>, input: Input, o: Oracle): (Db, Outcome) {
    match SandboxIdFor(Either(sandboxId, input.name), o)
    case None => (db, Rejected(InvalidName))
    case Some(id) => Provision(s, db, id, input, o)
  }

  ghost function ApplyUpdate(s: Settings, db: Db, sandboxId: string, patch: Input, o: Oracle): (Db, Outcome) {
    match Normalize(sandboxId)
    case None => (db, Rejected(InvalidName))
    case Some(value) =>
      match BySandboxId(db, value)
      case None => (db, Rejected(NotFound))
      case Some(id) => Provision(s, db, db.runtimes[id].sandboxId, UpdateInput(db.runtimes[id], patch), o)
  }

  function DeleteFound(db: Db, id: RuntimeId, o: Oracle): (Db, Outcome)
    requires id in db.runtimes
  {
    var row := db.runtimes[id];
    var marked := db.(runtimes := db.runtimes[id := row.(status := Deleting,
        statusReason := Some("delete_requested"))]);
    if !o.removed then (marked, Rejected(AdapterFailure))
    else (DeleteRuntime(marked.(leases := Without(marked.leases, id)), id, row.sandboxId), Done(id))
  }

  /** Starting or stopping: the host acts first, then the status is recorded. */
  function SetStatusFound(db: Db, id: RuntimeId, status: Status, reason: string, o: Oracle): (Db, Outcome)
    requires id in db.runtimes
  {
    if !o.switched then (db, Rejected(AdapterFailure))
    else (db.(runtimes := db.runtimes[id := db.runtimes[id].(status := status, statusReason := Some(reason))]),
        Done(id))
  }

  predicate Exposes(row: Row, port: int) {
    exists i :: 0 <= i < |row.portBindings| && row.portBindings[i].containerPort == port
  }

  function IssuePreviewFound(db: Db, id: RuntimeId, port: int, token: string, expiresAt: int, o: Oracle): (Db, Outcome)
    requires id in db.runtimes
  {
    var row := db.runtimes[id].(status := o.hostStatus);
    var synced := db.(runtimes := db.runtimes[id := row]);
    if !o.hostStatus.Running? then (synced, Rejected(NotRunning))
    else if !Exposes(row, port) then (synced, Rejected(PortNotExposed))
    else
      var others := set p | p in db.previews && !(p.sandboxId == row.sandboxId && p.port == port);
      (synced.(previews := others + {Preview(token, row.sandboxId, port, expiresAt)}), Done(id))
  }

  /** The operations that start by looking a runtime up by id or name. */
  ghost function ApplyByKey(db: Db, op: Op, o: Oracle): (Db, Outcome)
    requires op.Delete? || op.SetStatus? || op.IssuePreview?
  {
    match FindByKey(db, op.key, o)
    case Err(e) => (db, Rejected(e))
    case Ok(id) =>
      match op
      case Delete(_) => DeleteFound(db, id, o)
      case SetStatus(_, status, reason) => SetStatusFound(db, id, status, reason, o)
      case IssuePreview(_, port, token, expiresAt) => IssuePreviewFound(db, id, port, token, expiresAt, o)
  }

  ghost function Apply(s: Settings, db: Db, op: Op, o: Oracle): (Db, Outcome) {
    match op
    case Create(input) => ApplyCreate(s, db, input, o)
    case Ensure(id, input) => ApplyEnsure(s, db, id, input, o)
    case Update(id, patch) => ApplyUpdate(s, db, id, patch, o)
    case _ => ApplyByKey(db, op, o)
  }

  /** The operation gets as far as asking the sandbox host to create the sandbox. */
  ghost predicate OpCreates(s: Settings, db: Db, op: Op, o: Oracle) {
    match op
    case Create(input) =>
      var name := NormalizeName(input.name);
      && name.Ok? && !(name.value.Some? && Find(db, name.value.value, o.preferName).Some?)
      && ProvisionCreates(s, db, name.value.GetOr(o.randomId), input.(forceRecreate := Some(false)), o)
    case Ensure(sandboxId, input) =>
      var id := SandboxIdFor(Either(sandboxId, input.name), o);
      id.Some? && ProvisionCreates(s, db, id.value, input, o)
    case Update(sandboxId, patch) =>
      && Normalize(sandboxId).Some? && BySandboxId(db, Normalize(sandboxId).value).Some?
      && var row := db.runtimes[BySandboxId(db, Normalize(sandboxId).value).value];
         ProvisionCreates(s, db, row.sandboxId, UpdateInput(row, patch), o)
    case _ => false
  }
}
