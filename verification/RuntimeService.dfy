/** The registry and control services as they work: tables updated in place, ports scanned one by one,
    host ports written into the specification. Each method is proved against `ControlPlane`. */
module RuntimeService {
  import opened Prelude
  import opened PortLeases
  import opened Identity
  import opened RuntimeSpecs
  import opened ControlPlane

  class RuntimeRegistry {
    const range: PortRange
    var runtimes: map<RuntimeId, Row>
    var leases: LeaseTable
    var previews: set<Preview>

    /** The UNIQUE constraints of the runtimes table. */
    ghost predicate Valid()
      reads this
    {
      Schema(runtimes)
    }

    function State(): Db
      reads this
    {
      Db(runtimes, leases, previews)
    }

    constructor (range: PortRange)
      ensures Valid() && this.range == range && State() == Db(map[], map[], {})
    {
      this.range := range;
      runtimes, leases, previews := map[], map[], {};
    }

    /** Scans the range, leasing each free port it meets, and rolls back when the range runs out first.
        The outcome is first fit: the `count` smallest free ports, or none at all. */
    method LeasePorts(runtimeId: RuntimeId, count: nat) returns (r: Option<seq<int>>)
      modifies this`leases
      ensures (leases, r) == Lease(old(leases), range, runtimeId, count)
    {
      var ports: seq<int> := [];
      var port := range.first;
      ghost var was := leases;
      ghost var free := Free(leases, range);
      assert leases == Grant(was, [], runtimeId);
      while port <= range.last && |ports| < count
        invariant |ports| <= count && ports <= free
        invariant free[|ports|..] == FreeFrom(was, port, range.last)
        invariant leases == Grant(was, ports, runtimeId)
        invariant forall p :: p in ports ==> p < port && p !in was
        decreases range.last - port
      {
        if port !in leases {
          NextFree(free, |ports|, port);
          GrantOneMore(was, ports, port, runtimeId);
          leases := leases[port := runtimeId];
          ports := ports + [port];
        }
        port := port + 1;
      }
      if |ports| != count {
        RollBackIsWithout(was, ports, runtimeId);
        ReleasePorts(runtimeId);
        return None;
      }
      assert ports == free[..count];
      return Some(ports);
    }

    method ReleasePorts(runtimeId: RuntimeId)
      modifies this`leases
      ensures leases == Without(old(leases), runtimeId)
    {
      leases := map p | p in leases && leases[p] != runtimeId :: leases[p];
    }

    /** Inserting or saving a row; refused when it would break a UNIQUE constraint. */
    method SaveRuntime(id: RuntimeId, row: Row) returns (ok: bool)
      requires Valid()
      modifies this`runtimes
      ensures Valid()
      ensures Save(old(State()), id, row) == if ok then Some(State()) else None
      ensures !ok ==> runtimes == old(runtimes)
    {
      ok := Schema(runtimes[id := row]);
      if ok {
        runtimes := runtimes[id := row];
      }
    }

    /** Three deletes: the row, its leases, and the preview tokens of its sandbox. */
    method DeleteRuntime(id: RuntimeId, sandboxId: string)
      requires Valid()
      modifies this`runtimes, this`leases, this`previews
      ensures Valid() && State() == ControlPlane.DeleteRuntime(old(State()), id, sandboxId)
    {
      runtimes := runtimes - {id};
      ReleasePorts(id);
      previews := set p | p in previews && p.sandboxId != sandboxId;
    }

    method FindRuntimeBySandboxId(sandboxId: string) returns (r: Option<RuntimeId>)
      requires Valid()
      ensures r == BySandboxId(State(), sandboxId)
    {
      if exists id :: id in runtimes && runtimes[id].sandboxId == sandboxId {
        var id :| id in runtimes && runtimes[id].sandboxId == sandboxId;
        return Some(id);
      }
      return None;
    }

    method FindRuntimeByName(name: string) returns (r: Option<RuntimeId>)
      requires Valid()
      ensures r == ByName(State(), name)
    {
      if exists id :: id in runtimes && runtimes[id].name == Some(name) {
        var id :| id in runtimes && runtimes[id].name == Some(name);
        return Some(id);
      }
      return None;
    }

    /** One query with two alternatives; `preferName` is the row order of the database. */
    method FindRuntimeBySandboxIdOrName(value: string, preferName: bool) returns (r: Option<RuntimeId>)
      requires Valid()
      ensures r == Find(State(), value, preferName)
    {
      var byId := FindRuntimeBySandboxId(value);
      var byName := FindRuntimeByName(value);
      r := if preferName then Either(byName, byId) else Either(byId, byName);
    }

    /** The pair's records go and one new record comes; the records of all other pairs stay. */
    method CreateSignedPreviewToken(sandboxId: string, port: int, token: string, expiresAt: int)
      modifies this`previews
      ensures Preview(token, sandboxId, port, expiresAt) in previews
      ensures forall v :: v in previews && v.sandboxId == sandboxId && v.port == port ==>
                v == Preview(token, sandboxId, port, expiresAt)
      ensures forall v: Preview :: !(v.sandboxId == sandboxId && v.port == port) ==>
          (v in previews <==> v in old(previews))
    {
      previews := set p | p in previews && !(p.sandboxId == sandboxId && p.port == port);
      previews := previews + {Preview(token, sandboxId, port, expiresAt)};
    }

    /** UNIQUE (token, port) */
    ghost predicate TokensUnique()
      reads this
    {
      forall v, w :: v in previews && w in previews && v.token == w.token && v.port == w.port ==> v == w
    }

    method GetSignedPreviewToken(token: string, port: int) returns (r: Option<Preview>)
      ensures r.Some? ==> r.value in previews && r.value.token == token && r.value.port == port
      ensures r.None? ==> forall v :: v in previews ==> !(v.token == token && v.port == port)
    {
      if v :| v in previews && v.token == token && v.port == port {
        return Some(v);
      }
      return None;
    }

    method ExpireSignedPreviewToken(token: string, port: int)
      modifies this`previews
      ensures previews <= old(previews)
      ensures forall v :: v in old(previews) ==> (v in previews <==> !(v.token == token && v.port == port))
    {
      previews := set p | p in previews && !(p.token == token && p.port == port);
    }
  }

  lemma GrantOneMore(leases: LeaseTable, ports: seq<int>, port: int, id: RuntimeId)
    ensures Grant(leases, ports, id)[port := id] == Grant(leases, ports + [port], id)
  {
    assert forall p :: p in ports + [port] <==> p in ports || p == port;
  }

  lemma NextFree(free: seq<int>, k: nat, port: int)
    requires k < |free| && free[k..][0] == port
    ensures free[..k] + [port] == free[..k + 1] && free[k..][1..] == free[k + 1..]
  {
  }

  lemma RollBackIsWithout(leases: LeaseTable, ports: seq<int>, id: RuntimeId)
    requires forall p :: p in ports ==> p !in leases
    ensures Without(Grant(leases, ports, id), id) == Without(leases, id)
  {
    var granted := Grant(leases, ports, id);
    forall p | p in leases ensures p in granted && granted[p] == leases[p] {
    }
    assert Without(granted, id).Keys == Without(leases, id).Keys;
  }

  /** `spec.ports.forEach(...)`: every position gets the lease with its index. */
  method SetHostPorts(ports: seq<Binding>, leased: seq<int>) returns (r: seq<Binding>)
    requires |leased| == |ports|
    ensures r == AssignHosts([], ports, leased)
  {
    r := ports;
    for i := 0 to |ports|
      invariant |r| == |ports|
      invariant forall k :: 0 <= k < i ==> r[k] == ports[k].(hostPort := leased[k])
      invariant forall k :: i <= k < |ports| ==> r[k] == ports[k]
    {
      r := r[i := r[i].(hostPort := leased[i])];
    }
  }

  /** `spec.ports.map(...)`: a position the row has keeps its host port, the next unused lease fills any other. */
  method ReuseHostPorts(existing: seq<Binding>, ports: seq<Binding>, leased: seq<int>) returns (r: seq<Binding>)
    requires |leased| == Missing(existing, ports)
    ensures r == AssignHosts(existing, ports, leased)
  {
    r := [];
    var newPortIndex := 0;
    for i := 0 to |ports|
      invariant |r| == i
      invariant newPortIndex == if i <= |existing| then 0 else i - |existing|
      invariant forall k :: 0 <= k < i ==>
                  r[k] == ports[k].(hostPort := if k < |existing| then existing[k].hostPort else leased[k - |existing|])
    {
      var hostPort;
      if i < |existing| {
        hostPort := existing[i].hostPort;
      } else {
        hostPort := leased[newPortIndex];
        newPortIndex := newPortIndex + 1;
      }
      r := r + [ports[i].(hostPort := hostPort)];
    }
  }

  function Once(happens: bool): nat {
    if happens then 1 else 0
  }

  class RuntimeControl {
    const settings: Settings
    const registry: RuntimeRegistry
    /** How often the sandbox host was asked to create a sandbox. */
    var creations: nat

    constructor (settings: Settings)
      ensures this.settings == settings && fresh(registry) && creations == 0
      ensures registry.Valid() && registry.range == settings.range && registry.State() == Db(map[], map[], {})
    {
      this.settings := settings;
      this.registry := new RuntimeRegistry(settings.range);
      creations := 0;
    }

    ghost predicate Valid()
      reads this, registry
    {
      registry.Valid() && registry.range == settings.range
    }

    /** `buildSpec`: resolves the volumes, then appends the ssh binding when it is wanted and missing. */
    method BuildSpecification(volumes: VolumeDirectory, input: Input) returns (r: Result<Spec, Failure>)
      ensures r == BuildSpec(settings.defaults, volumes, input)
    {
      var mounts := ResolveVolumes(volumes, input.volumes.GetOr([]));
      if mounts.Err? {
        return Err(mounts.error);
      }
      var ports := ResolvePorts(settings.defaults, input.ports, input.primaryPort);
      if input.sshEnabled != Some(false) {
        if !HasSshPort(ports) {
          ports := ports + [Binding(Some("ssh"), SSH_PORT, 0, Tcp, Appended)];
        }
      }
      return Ok(SpecWith(settings.defaults, input, mounts.value, ports));
    }

    /** From the allocation of host ports to the persisted row. */
    method Launch(id: RuntimeId, plan: Plan, o: Oracle) returns (out: Outcome)
      requires Valid() && id in registry.runtimes && plan.spec.ports != []
      modifies registry, this`creations
      ensures Valid()
      ensures (registry.State(), out) == Start(settings, old(registry.State()), id, plan, o)
      ensures creations == old(creations) + Once(StartCreates(settings, old(registry.State()), id, plan))
    {
      var row := registry.runtimes[id];
      var ports;
      if |row.portBindings| == 0 {
        var leased := registry.LeasePorts(id, |plan.spec.ports|);
        if leased.None? {
          return Rejected(NoFreePorts);
        }
        ports := SetHostPorts(plan.spec.ports, leased.value);
      } else {
        var newPortsCount := |plan.spec.ports| - |row.portBindings|;
        var leased := Some([]);
        if newPortsCount > 0 {
          leased := registry.LeasePorts(id, newPortsCount);
          if leased.None? {
            return Rejected(NoFreePorts);
          }
        }
        ports := ReuseHostPorts(row.portBindings, plan.spec.ports, leased.value);
      }
      creations := creations + 1;
      if o.creation.Fatal? {
        return Rejected(AdapterFailure);
      }
      var saved := registry.SaveRuntime(id, FinishedRow(row, plan, ports, o));
      return if saved then Done(id) else Rejected(UniqueViolation);
    }

    /** The lookups and the specification, before anything is changed. */
    method PreparePlan(sandboxId: string, input: Input, o: Oracle) returns (r: Result<Plan, Failure>)
      requires Valid()
      ensures r == MakePlan(settings, registry.State(), sandboxId, input, o)
    {
      var name := NormalizeName(input.name);
      if name.Err? {
        return Err(name.error);
      }
      if name.value.Some? {
        var holder := registry.FindRuntimeBySandboxIdOrName(name.value.value, o.preferName);
        if holder.Some? && registry.runtimes[holder.value].sandboxId != sandboxId {
          return Err(NameTaken);
        }
      }
      var normalized := Normalize(sandboxId);
      if normalized.None? {
        return Err(InvalidName);
      }
      var existing := registry.FindRuntimeBySandboxId(normalized.value);
      var spec := BuildSpecification(o.volumes, input);
      if spec.Err? {
        return Err(spec.error);
      }
      return Ok(Plan(name.value, existing, spec.value));
    }

    /** `provision`: look up, decide between keeping, replacing and creating, then launch. */
    method Provision(sandboxId: string, input: Input, o: Oracle) returns (out: Outcome)
      requires Valid()
      modifies registry, this`creations
      ensures Valid()
      ensures (registry.State(), out) == ControlPlane.Provision(settings, old(registry.State()), sandboxId, input, o)
      ensures creations == old(creations) + Once(ProvisionCreates(settings, old(registry.State()), sandboxId, input, o))
    {
      var plan := PreparePlan(sandboxId, input, o);
      if plan.Err? {
        return Rejected(plan.error);
      }
      PlanHasPorts(settings, registry.State(), sandboxId, input, o);
      if plan.value.existing.None? {
        out := CreateRuntime(sandboxId, plan.value, o);
      } else {
        out := EnsureExisting(plan.value.existing.value, plan.value, input.forceRecreate == Some(true), o);
      }
    }

    method CreateRuntime(sandboxId: string, plan: Plan, o: Oracle) returns (out: Outcome)
      requires Valid() && plan.spec.ports != []
      modifies registry, this`creations
      ensures Valid()
      ensures (registry.State(), out) == ProvisionFresh(settings, old(registry.State()), sandboxId, plan, o)
      ensures creations == old(creations) + Once(FreshCreates(settings, old(registry.State()), sandboxId, plan, o))
    {
      var saved := registry.SaveRuntime(o.freshId, NewRow(settings, sandboxId, plan, o));
      if !saved {
        return Rejected(UniqueViolation);
      }
      var leased := registry.LeasePorts(o.freshId, |plan.spec.ports|);
      if leased.None? {
        registry.DeleteRuntime(o.freshId, sandboxId);
        return Rejected(NoFreePorts);
      }
      // The saved row still has no bindings, so launching leases a second time.
      out := Launch(o.freshId, plan, o);
    }

    method EnsureExisting(id: RuntimeId, plan: Plan, forced: bool, o: Oracle) returns (out: Outcome)
      requires Valid() && id in registry.runtimes && plan.spec.ports != []
      modifies registry, this`creations
      ensures Valid()
      ensures (registry.State(), out) == ProvisionExisting(settings, old(registry.State()), id, plan, forced, o)
      ensures creations == old(creations) + Once(ExistingCreates(settings, old(registry.State()), id, plan, forced, o))
    {
      var row := registry.runtimes[id];
      var shouldReplace := forced || RequiresRecreate(row, plan.spec, plan.name);
      if !shouldReplace && o.hostStatus.Running? && o.healthy {
        if plan.spec.files != [] && !o.filesWritten {
          return Rejected(AdapterFailure);
        }
        var kept := registry.SaveRuntime(id, KeptRow(row, plan));
        return if kept then Done(id) else Rejected(UniqueViolation);
      }
      if shouldReplace {
        var replaced := registry.SaveRuntime(id, ReplacedRow(row, plan, forced));
        if !replaced {
          return Rejected(UniqueViolation);
        }
      }
      out := Launch(id, plan, o);
    }

    method Create(input: Input, o: Oracle) returns (out: Outcome)
      requires Valid()
      modifies registry, this`creations
      ensures Valid() && (registry.State(), out) == ApplyCreate(settings, old(registry.State()), input, o)
      ensures creations == old(creations) + Once(OpCreates(settings, old(registry.State()), Op.Create(input), o))
    {
      var name := NormalizeName(input.name);
      if name.Err? {
        return Rejected(name.error);
      }
      if name.value.Some? {
        var existing := registry.FindRuntimeBySandboxIdOrName(name.value.value, o.preferName);
        if existing.Some? {
          return Rejected(NameTaken);
        }
      }
      out := Provision(name.value.GetOr(o.randomId), input.(forceRecreate := Some(false)), o);
    }

    method Ensure(explicitId: Option<string>, input: Input, o: Oracle) returns (out: Outcome)
      requires Valid()
      modifies registry, this`creations
      ensures Valid() && (registry.State(), out) == ApplyEnsure(settings, old(registry.State()), explicitId, input, o)
      ensures creations == old(creations)
                           + Once(OpCreates(settings, old(registry.State()), Op.Ensure(explicitId, input), o))
    {
      var sandboxId := SandboxIdFor(Either(explicitId, input.name), o);
      if sandboxId.None? {
        return Rejected(InvalidName);
      }
      out := Provision(sandboxId.value, input, o);
    }

    method Update(sandboxId: string, patch: Input, o: Oracle) returns (out: Outcome)
      requires Valid()
      modifies registry, this`creations
      ensures Valid() && (registry.State(), out) == ApplyUpdate(settings, old(registry.State()), sandboxId, patch, o)
      ensures creations == old(creations)
                           + Once(OpCreates(settings, old(registry.State()), Op.Update(sandboxId, patch), o))
    {
      var value := Normalize(sandboxId);
      if value.None? {
        return Rejected(InvalidName);
      }
      var id := registry.FindRuntimeBySandboxId(value.value);
      if id.None? {
        return Rejected(NotFound);
      }
      var row := registry.runtimes[id.value];
      out := Provision(row.sandboxId, UpdateInput(row, patch), o);
    }

    /** Starting and stopping: nothing changes when the host fails, else the new status is recorded. */
    method SetStatus(key: string, status: Status, reason: string, o: Oracle) returns (out: Outcome)
      requires Valid()
      modifies registry
      ensures Valid()
          && (registry.State(), out) == ApplyByKey(old(registry.State()), Op.SetStatus(key, status, reason), o)
    {
      var id := RequireRuntime(key, o);
      if id.Err? {
        return Rejected(id.error);
      }
      if !o.switched {
        return Rejected(AdapterFailure);
      }
      var row := registry.runtimes[id.value].(status := status, statusReason := Some(reason));
      StatusKeepsSchema(registry.runtimes, id.value, row);
      var ok := registry.SaveRuntime(id.value, row);
      return Done(id.value);
    }

    /** A signed preview URL: the status is synchronised first, then the pair's token is replaced. */
    method IssuePreview(key: string, port: int, token: string, expiresAt: int, o: Oracle) returns (out: Outcome)
      requires Valid()
      modifies registry
      ensures Valid()
      ensures (registry.State(), out)
          == ApplyByKey(old(registry.State()), Op.IssuePreview(key, port, token, expiresAt), o)
    {
      var id := RequireRuntime(key, o);
      if id.Err? {
        return Rejected(id.error);
      }
      var row := registry.runtimes[id.value].(status := o.hostStatus);
      StatusKeepsSchema(registry.runtimes, id.value, row);
      var ok := registry.SaveRuntime(id.value, row);
      if !o.hostStatus.Running? {
        return Rejected(NotRunning);
      }
      if !Exposes(row, port) {
        return Rejected(PortNotExposed);
      }
      registry.CreateSignedPreviewToken(row.sandboxId, port, token, expiresAt);
      assert registry.previews
          == (set p | p in old(registry.previews) && !(p.sandboxId == row.sandboxId && p.port == port))
             + {Preview(token, row.sandboxId, port, expiresAt)};
      return Done(id.value);
    }

    /** The sandbox of an unexpired record with this token and port; an expired one is dropped, and that shows
        nowhere: no unexpired record is lost. */
    method ResolveSignedPreviewToken(token: string, port: int, now: int) returns (r: Option<string>)
      requires registry.TokensUnique()
      modifies registry`previews
      ensures registry.TokensUnique() && registry.previews <= old(registry.previews)
      ensures forall sandboxId :: r == Some(sandboxId) <==>
                exists expiresAt ::
                    now < expiresAt && Preview(token, sandboxId, port, expiresAt) in old(registry.previews)
      ensures forall v :: v in old(registry.previews) && now < v.expiresAt ==> v in registry.previews
      ensures forall v :: v in registry.previews && v.token == token && v.port == port ==> now < v.expiresAt
    {
      var record := registry.GetSignedPreviewToken(token, port);
      if record.None? {
        return None;
      }
      if record.value.expiresAt <= now {
        registry.ExpireSignedPreviewToken(token, port);
        return None;
      }
      assert record.value == Preview(token, record.value.sandboxId, port, record.value.expiresAt);
      return Some(record.value.sandboxId);
    }

    method RequireRuntime(key: string, o: Oracle) returns (r: Result<RuntimeId, Failure>)
      requires Valid()
      ensures r == FindByKey(registry.State(), key, o)
    {
      var value := Normalize(key);
      if value.None? {
        return Err(InvalidName);
      }
      var id := registry.FindRuntimeBySandboxIdOrName(value.value, o.preferName);
      return if id.Some? then Ok(id.value) else Err(NotFound);
    }

    method Delete(key: string, o: Oracle) returns (out: Outcome)
      requires Valid()
      modifies registry
      ensures Valid() && (registry.State(), out) == ApplyByKey(old(registry.State()), Op.Delete(key), o)
    {
      var id := RequireRuntime(key, o);
      if id.Err? {
        return Rejected(id.error);
      }
      var row := registry.runtimes[id.value];
      var marked := row.(status := Deleting, statusReason := Some("delete_requested"));
      StatusKeepsSchema(registry.runtimes, id.value, marked);
      var ok := registry.SaveRuntime(id.value, marked);
      if !o.removed {
        return Rejected(AdapterFailure);
      }
      registry.ReleasePorts(id.value);
      registry.DeleteRuntime(id.value, row.sandboxId);
      return Done(id.value);
    }
  }

  lemma StatusKeepsSchema(runtimes: map<RuntimeId, Row>, id: RuntimeId, row: Row)
    requires Schema(runtimes) && id in runtimes && row.sandboxId == runtimes[id].sandboxId
        && row.name == runtimes[id].name
    ensures Schema(runtimes[id := row])
  {
    var after := runtimes[id := row];
    forall i, j | i in after && j in after && i != j
      ensures after[i].sandboxId != after[j].sandboxId && (after[i].name.Some? ==> after[i].name != after[j].name)
    {
      assert runtimes[i].sandboxId == after[i].sandboxId && runtimes[j].sandboxId == after[j].sandboxId;
    }
  }
}
