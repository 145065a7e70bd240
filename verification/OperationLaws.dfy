/** What a request says, which requests are refused, and what a successful provision persists. */
module OperationLaws {
  import opened Prelude
  import opened PortLeases
  import opened Text
  import opened Identity
  import opened RuntimeSpecs
  import opened ControlPlane
  import opened ControlPlaneLaws
  import opened ControlPlaneRuns
  import opened ReprovisionLaws

  // ----- What a request says -----

  predicate Blank(value: Option<string>) {
    value.None? || Trim(value.value) == ""
  }

  /** The name asked for, if one is. */
  function WantedName(name: Option<string>): Option<string> {
    if Blank(name) then None else Normalize(name.value)
  }

  predicate SshWanted(input: Input) {
    input.sshEnabled != Some(false)
  }

  /** The ports asked for: the list, or else the primary port, or else the default one. */
  function Requested(d: Defaults, input: Input): (r: seq<PortInput>)
    ensures r != []
  {
    if input.ports.Some? && input.ports.value != [] then input.ports.value
    else if input.primaryPort.Some? then [input.primaryPort.value]
    else [PortInput(None, d.exposedPort, None)]
  }

  predicate Names22(ports: seq<PortInput>) {
    exists i :: 0 <= i < |ports| && ports[i].containerPort == 22
  }

  predicate Asked(p: PortInput, b: Binding) {
    && b.name == (if Blank(p.name) then None else Some(Trim(p.name.value)))
    && b.containerPort == p.containerPort
    && b.protocol == (if p.protocol.Some? then p.protocol.value else Tcp)
  }

  function PortCount(ports: seq<PortInput>, ssh: bool): nat {
    |ports| + if ssh && !Names22(ports) then 1 else 0
  }

  /** The bindings are the ports asked for, position by position, and an ssh binding on port 22 if ssh is wanted and no
      port is 22. */
  predicate Publishes(ports: seq<PortInput>, ssh: bool, bindings: seq<Binding>) {
    && |bindings| == PortCount(ports, ssh)
    && (forall i :: 0 <= i < |ports| ==> Asked(ports[i], bindings[i]))
    && (forall i :: |ports| <= i < |bindings| ==>
          bindings[i].name == Some("ssh") && bindings[i].containerPort == 22 && bindings[i].protocol == Tcp)
  }

  /** The fields of each binding are in the order in which this request writes them. */
  predicate InOrder(ports: seq<PortInput>, bindings: seq<Binding>) {
    forall i :: 0 <= i < |bindings| ==>
      if i < |ports| then bindings[i].layout.Resolved? || bindings[i].name.None? else bindings[i].layout.Appended?
  }

  predicate MountsAre(volumes: VolumeDirectory, inputs: seq<VolumeInput>, mounts: seq<Mount>) {
    && |mounts| == |inputs|
    && forall i :: 0 <= i < |inputs| ==>
         && inputs[i].volumeId in volumes && Blank(inputs[i].subpath)
         && mounts[i].volumeId == volumes[inputs[i].volumeId].id
             && mounts[i].volumeName == volumes[inputs[i].volumeId].name
         && mounts[i].mountPath == inputs[i].mountPath && (mounts[i].readOnly <==> inputs[i].readOnly == Some(true))
  }

  predicate SecretsAre(inputs: seq<SecretInput>, secrets: seq<Secret>) {
    && |secrets| == |inputs|
    && forall i :: 0 <= i < |inputs| ==>
         && secrets[i].env == inputs[i].env && secrets[i].value == inputs[i].value
         && secrets[i].placeholder == inputs[i].placeholder && secrets[i].flags == inputs[i].flags
         && secrets[i].allowedHosts == (if inputs[i].allowedHosts.Some? then inputs[i].allowedHosts.value else [])
         && secrets[i].allowedHostPatterns
            == (if inputs[i].allowedHostPatterns.Some? then inputs[i].allowedHostPatterns.value else [])
  }

  /** Each column holds what the request says, or its default. */
  predicate Configured(d: Defaults, volumes: VolumeDirectory, input: Input, c: Config) {
    && c.image == (if Blank(input.image) then d.image else Trim(input.image.value))
    && c.command == (if input.command.Some? && input.command.value != [] then input.command else None)
    && c.environment == (if input.env.Some? then input.env else Some([]))
    && c.secrets.Some? && SecretsAre(if input.secrets.Some? then input.secrets.value else [], c.secrets.value)
    && c.workingDir == (if Blank(input.workingDir) then None else Some(Trim(input.workingDir.value)))
    && c.mounts.Some? && MountsAre(volumes, if input.volumes.Some? then input.volumes.value else [], c.mounts.value)
    && c.cpu == (if input.cpu.Some? then input.cpu.value else d.cpu)
    && c.memoryMiB == (if input.memoryMiB.Some? then input.memoryMiB.value else d.memoryMiB)
    && c.diskGiB == (if input.diskGiB.Some? then input.diskGiB.value else d.diskGiB)
    && c.autoStopMinutes
       == (if input.autoStopMinutes.Some? && input.autoStopMinutes.value > 0 then input.autoStopMinutes else None)
    && (c.ephemeral <==> input.ephemeral == Some(true))
  }

  /** The row is what the request asks for. */
  predicate Fulfils(s: Settings, volumes: VolumeDirectory, input: Input, row: Row) {
    && row.name == WantedName(input.name)
    && Publishes(Requested(s.defaults, input), SshWanted(input), row.portBindings)
    && Configured(s.defaults, volumes, input, row.config)
    && (row.public <==> input.public == Some(true))
  }

  // ----- The specification -----

  /** The mounts that are not fine: the first one that fails decides the answer. */
  ghost predicate FailsAt(volumes: VolumeDirectory, inputs: seq<VolumeInput>, i: int, e: Failure) {
    && 0 <= i < |inputs|
    && (forall j :: 0 <= j < i ==> inputs[j].volumeId in volumes && Blank(inputs[j].subpath))
    && (if inputs[i].volumeId !in volumes then e == VolumeNotFound
        else !Blank(inputs[i].subpath) && e == SubpathUnsupported)
  }

  lemma {:induction false} MountsOfIsExact(volumes: VolumeDirectory, inputs: seq<VolumeInput>)
    ensures var r := MountsOf(volumes, inputs);
            if r.Ok? then MountsAre(volumes, inputs, r.value) else exists i :: FailsAt(volumes, inputs, i, r.error)
    decreases |inputs|
  {
    var r := MountsOf(volumes, inputs);
    if inputs != [] {
      MountsOfIsExact(volumes, inputs[1..]);
      var rest := MountsOf(volumes, inputs[1..]);
      if inputs[0].volumeId !in volumes || !Blank(inputs[0].subpath) {
        assert FailsAt(volumes, inputs, 0, r.error);
      } else if rest.Ok? {
        assert forall i :: 1 <= i < |inputs| ==> inputs[i] == inputs[1..][i - 1] && r.value[i] == rest.value[i - 1];
      } else {
        var i :| FailsAt(volumes, inputs[1..], i, rest.error);
        assert forall j :: 1 <= j < |inputs| ==> inputs[j] == inputs[1..][j - 1];
        assert inputs[i + 1] == inputs[1..][i];
        assert FailsAt(volumes, inputs, i + 1, r.error);
      }
    }
  }

  lemma SpecPortsPublish(d: Defaults, input: Input)
    ensures Publishes(Requested(d, input), SshWanted(input), SpecPorts(d, input))
    ensures InOrder(Requested(d, input), SpecPorts(d, input))
  {
    var ports, resolved := Requested(d, input), ResolvePorts(d, input.ports, input.primaryPort);
    assert |resolved| == |ports| && forall i :: 0 <= i < |ports| ==> resolved[i] == ResolvePort(ports[i]);
    assert HasSshPort(resolved) <==> Names22(ports) by {
      if Names22(ports) {
        var i :| 0 <= i < |ports| && ports[i].containerPort == 22;
        assert resolved[i].containerPort == SSH_PORT;
      }
    }
  }

  lemma SpecIsConfigured(d: Defaults, volumes: VolumeDirectory, input: Input)
    requires BuildSpec(d, volumes, input).Ok?
    ensures var spec := BuildSpec(d, volumes, input).value;
            && Configured(d, volumes, input, spec.config) && (spec.public <==> input.public == Some(true))
            && spec.ports == SpecPorts(d, input)
  {
    MountsOfIsExact(volumes, input.volumes.GetOr([]));
  }

  lemma ConfiguredIsUnique(d: Defaults, volumes: VolumeDirectory, input: Input, a: Config, b: Config)
    requires Configured(d, volumes, input, a) && Configured(d, volumes, input, b)
    ensures a == b
  {
    assert a.secrets.value == b.secrets.value by {
      forall i | 0 <= i < |a.secrets.value| ensures a.secrets.value[i] == b.secrets.value[i] {
      }
    }
    assert a.mounts.value == b.mounts.value by {
      forall i | 0 <= i < |a.mounts.value| ensures a.mounts.value[i] == b.mounts.value[i] {
      }
    }
  }

  lemma PublishersAreSame(ports: seq<PortInput>, ssh: bool, a: seq<Binding>, b: seq<Binding>)
    requires Publishes(ports, ssh, b)
    ensures Publishes(ports, ssh, a) <==> SamePorts(a, b)
  {
    if SamePorts(a, b) {
      forall i | 0 <= i < |a| ensures SamePort(a[i], b[i]) {
      }
    }
  }

  lemma SameOrderIsInOrder(ports: seq<PortInput>, ssh: bool, a: seq<Binding>, b: seq<Binding>)
    requires Publishes(ports, ssh, a) && Publishes(ports, ssh, b) && InOrder(ports, b)
    ensures InOrder(ports, a) <==> forall i :: 0 <= i < |b| ==> SameOrder(a[i], b[i])
  {
  }

  // ----- Which requests are refused -----

  predicate NameRefused(name: Option<string>) {
    !Blank(name) && Normalize(name.value).None?
  }

  /** Another runtime has this string as its id or its name. */
  ghost predicate TakenByOther(db: Db, name: Option<string>, sandboxId: string) {
    name.Some? && exists id ::
        id in db.runtimes && Matches(db.runtimes[id], name.value) && db.runtimes[id].sandboxId != sandboxId
  }

  lemma NameIsRefusedExactly(name: Option<string>)
    ensures NormalizeName(name) == if NameRefused(name) then Err(InvalidName) else Ok(WantedName(name))
  {
  }

  lemma PlanIsExact(s: Settings, db: Db, sandboxId: string, input: Input, o: Oracle)
    requires Schema(db.runtimes) && Unambiguous(db) && Normalized(sandboxId)
    ensures var mounts := MountsOf(o.volumes, input.volumes.GetOr([]));
            MakePlan(s, db, sandboxId, input, o)
            == if NameRefused(input.name) then Err(InvalidName)
               else if TakenByOther(db, WantedName(input.name), sandboxId) then Err(NameTaken)
               else if mounts.Err? then Err(mounts.error)
               else Ok(Plan(WantedName(input.name), BySandboxId(db, sandboxId),
                   BuildSpec(s.defaults, o.volumes, input).value))
  {
    NameIsRefusedExactly(input.name);
    IdentitiesAreFixed(sandboxId);
    var name := WantedName(input.name);
    if name.Some? {
      LookupIsUnambiguous(db, name.value);
    }
  }

  // ----- Kept or created -----

  /** The row is already what is asked for, down to the order of its bindings' fields, and its sandbox is well. */
  predicate AlreadyThere(s: Settings, input: Input, o: Oracle, row: Row) {
    && input.forceRecreate != Some(true) && o.hostStatus.Running? && o.healthy
    && Fulfils(s, o.volumes, input, row) && InOrder(Requested(s.defaults, input), row.portBindings)
  }

  lemma RecreateMeans(s: Settings, input: Input, volumes: VolumeDirectory, row: Row, spec: Spec)
    requires GoodDefaults(s.defaults) && RowOk(row) && BuildSpec(s.defaults, volumes, input) == Ok(spec)
    ensures !RequiresRecreate(row, spec, WantedName(input.name)) <==>
            Fulfils(s, volumes, input, row) && InOrder(Requested(s.defaults, input), row.portBindings)
  {
    var ports, ssh := Requested(s.defaults, input), SshWanted(input);
    RecreateExactly(row, spec, WantedName(input.name));
    SpecIsConfigured(s.defaults, volumes, input);
    SpecIsCanonical(s.defaults, volumes, input);
    SpecPortsPublish(s.defaults, input);
    PublishersAreSame(ports, ssh, row.portBindings, spec.ports);
    if Publishes(ports, ssh, row.portBindings) {
      SameOrderIsInOrder(ports, ssh, row.portBindings, spec.ports);
    }
    if ConfigAgrees(row.config, spec.config) {
      AgreeingConfigsAreEqual(row.config, spec.config);
    }
    if Configured(s.defaults, volumes, input, row.config) {
      ConfiguredIsUnique(s.defaults, volumes, input, row.config, spec.config);
    }
  }

  // ----- What a successful provision leaves -----

  /** Whichever way a provision succeeds, the persisted row is what the request asks for, under the given id. */
  lemma ProvisionFulfils(s: Settings, db: Db, sandboxId: string, input: Input, o: Oracle)
    requires GoodDefaults(s.defaults) && RowsOk(db.runtimes) && o.freshId !in db.runtimes && Normalized(sandboxId)
    requires Provision(s, db, sandboxId, input, o).1.Done?
    ensures var (after, out) := Provision(s, db, sandboxId, input, o);
            && out.id in after.runtimes && after.runtimes[out.id].sandboxId == sandboxId
            && Fulfils(s, o.volumes, input, after.runtimes[out.id])
  {
    var plan := MakePlan(s, db, sandboxId, input, o).value;
    var (after, out) := Provision(s, db, sandboxId, input, o);
    DoneMatchesSpec(s, db, sandboxId, input, o);
    TargetHasId(s, db, sandboxId, input, o);
    ProvisionKeepsRows(s, db, sandboxId, input, o);
    assert RowOk(after.runtimes[out.id]);
    PlanParts(s, db, sandboxId, input, o);
    NameIsRefusedExactly(input.name);
    RecreateMeans(s, input, o.volumes, after.runtimes[out.id], plan.spec);
  }

  predicate StatusAfterCreation(input: Input, o: Oracle, row: Row) {
    var healthy := o.appHealthy && (SshWanted(input) ==> o.sshHealthy);
    && row.status == (if healthy then Running else Error)
    && row.statusReason == Some(if healthy then "provisioned"
                                else if !o.appHealthy then "runtime_unhealthy" else "ssh_unhealthy")
  }

  lemma SshIsProbed(d: Defaults, input: Input, existing: seq<Binding>, leased: seq<int>)
    requires SshWanted(input) && |SpecPorts(d, input)| <= |existing| + |leased|
    ensures HasSshBinding(AssignHosts(existing, SpecPorts(d, input), leased))
  {
    var ports := SpecPorts(d, input);
    var i :| 0 <= i < |ports| && ports[i].containerPort == SSH_PORT;
    assert AssignHosts(existing, ports, leased)[i].containerPort == SSH_PORT;
  }

  lemma StartStatus(s: Settings, db: Db, id: RuntimeId, plan: Plan, input: Input, o: Oracle)
    requires id in db.runtimes && BuildSpec(s.defaults, o.volumes, input) == Ok(plan.spec)
    requires plan.spec.ports != [] && Start(s, db, id, plan, o).1.Done?
    ensures var after := Start(s, db, id, plan, o).0;
            && id in after.runtimes && StatusAfterCreation(input, o, after.runtimes[id])
            && after.runtimes[id].sandboxName == db.runtimes[id].sandboxName
            && after.runtimes[id].authToken == db.runtimes[id].authToken
  {
    SpecIsConfigured(s.defaults, o.volumes, input);
    var leased := StartRows(s, db, id, plan, o);
    if SshWanted(input) {
      SshIsProbed(s.defaults, input, db.runtimes[id].portBindings, leased);
    }
  }

  predicate StatusAfterKeeping(input: Input, before: Row, row: Row) {
    && row.status == Running
    && row.statusReason == (if input.files.Some? && input.files.value != [] then Some("config_synced_existing")
                            else before.statusReason)
  }

  lemma ExistingStatus(s: Settings, db: Db, id: RuntimeId, plan: Plan, input: Input, o: Oracle)
    requires id in db.runtimes && BuildSpec(s.defaults, o.volumes, input) == Ok(plan.spec) && plan.spec.ports != []
    requires ProvisionExisting(s, db, id, plan, input.forceRecreate == Some(true), o).1.Done?
    ensures var after := ProvisionExisting(s, db, id, plan, input.forceRecreate == Some(true), o).0;
            && id in after.runtimes
            && (if ExistingCreates(s, db, id, plan, input.forceRecreate == Some(true), o)
                then StatusAfterCreation(input, o, after.runtimes[id])
                else StatusAfterKeeping(input, db.runtimes[id], after.runtimes[id]))
            && after.runtimes[id].sandboxName == db.runtimes[id].sandboxName
            && after.runtimes[id].authToken == db.runtimes[id].authToken
  {
    var row, forced := db.runtimes[id], input.forceRecreate == Some(true);
    if forced || RequiresRecreate(row, plan.spec, plan.name) {
      StartStatus(s, db.(runtimes := db.runtimes[id := ReplacedRow(row, plan, forced)]), id, plan, input, o);
    } else if !(o.hostStatus.Running? && o.healthy) {
      StartStatus(s, db, id, plan, input, o);
    }
  }

  /** The first 120 characters without the punctuation at their end. */
  predicate CutName(full: string, name: string) {
    && name <= full && |name| <= 120 <= |full|
    && (name != "" ==> !Edge(name[|name| - 1]))
    && forall i :: |name| <= i < 120 ==> Edge(full[i])
  }

  /** The columns that only a new row gets. */
  predicate NewIdentity(s: Settings, sandboxId: string, o: Oracle, row: Row) {
    && row.authToken == o.authToken
    && (|s.namePrefix| + 1 + |sandboxId| <= 120 ==> row.sandboxName == s.namePrefix + "-" + sandboxId)
    && (|s.namePrefix| + 1 + |sandboxId| > 120 ==> CutName(s.namePrefix + "-" + sandboxId, row.sandboxName))
  }

  lemma NewNameIs(prefix: string, id: string)
    requires Normalized(id)
    ensures QualifiedName(prefix, id).Some?
    ensures var name := QualifiedName(prefix, id).value;
            && (|prefix| + 1 + |id| <= 120 ==> name == prefix + "-" + id)
            && (|prefix| + 1 + |id| > 120 ==> CutName(prefix + "-" + id, name))
  {
    IdentitiesAreFixed(id);
    var full := prefix + "-" + id;
    if |full| > 120 {
      StripEndMeaning(full[..120], Edge);
      assert full[..120] <= full;
    }
  }

  lemma FreshStatus(s: Settings, db: Db, sandboxId: string, plan: Plan, input: Input, o: Oracle)
    requires BuildSpec(s.defaults, o.volumes, input) == Ok(plan.spec) && plan.spec.ports != [] && Normalized(sandboxId)
    requires ProvisionFresh(s, db, sandboxId, plan, o).1.Done?
    ensures var after := ProvisionFresh(s, db, sandboxId, plan, o).0;
            && o.freshId in after.runtimes && FreshCreates(s, db, sandboxId, plan, o)
            && StatusAfterCreation(input, o, after.runtimes[o.freshId])
            && NewIdentity(s, sandboxId, o, after.runtimes[o.freshId])
  {
    var id := o.freshId;
    var row := NewRow(s, sandboxId, plan, o);
    var (leases, leased) := Lease(db.leases, s.range, id, |plan.spec.ports|);
    NewNameIs(s.namePrefix, sandboxId);
    StartStatus(s, Db(db.runtimes[id := row], leases, db.previews), id, plan, input, o);
  }

  /** The status and its reason after a successful provision: from the health of the app, and of ssh if it was wanted,
      when the sandbox was created; running when it was kept. The name on the host and the access token are those of
      the row, or new with it. */
  lemma ProvisionStatus(s: Settings, db: Db, sandboxId: string, input: Input, o: Oracle)
    requires o.freshId !in db.runtimes && Normalized(sandboxId) && Provision(s, db, sandboxId, input, o).1.Done?
    ensures var (after, out) := Provision(s, db, sandboxId, input, o);
            && out.id in after.runtimes
            && (if ProvisionCreates(s, db, sandboxId, input, o)
                then StatusAfterCreation(input, o, after.runtimes[out.id])
                else out.id in db.runtimes && StatusAfterKeeping(input, db.runtimes[out.id], after.runtimes[out.id]))
            && (out.id !in db.runtimes ==> NewIdentity(s, sandboxId, o, after.runtimes[out.id]))
            && (out.id in db.runtimes ==>
                  && after.runtimes[out.id].authToken == db.runtimes[out.id].authToken
                  && after.runtimes[out.id].sandboxName == db.runtimes[out.id].sandboxName)
  {
    var plan := MakePlan(s, db, sandboxId, input, o).value;
    PlanHasPorts(s, db, sandboxId, input, o);
    PlanParts(s, db, sandboxId, input, o);
    DoneMatchesSpec(s, db, sandboxId, input, o);
    if plan.existing.None? {
      FreshStatus(s, db, sandboxId, plan, input, o);
    } else {
      ExistingStatus(s, db, plan.existing.value, plan, input, o);
    }
  }
}
