/** Doing it again: repeated ensure calls and updates. */
module ReprovisionLaws {
  import opened Prelude
  import opened PortLeases
  import opened Identity
  import opened RuntimeSpecs
  import opened ControlPlane
  import opened ControlPlaneLaws
  import opened ControlPlaneRuns

  // ----- A finished row agrees with what was asked for -----

  lemma FinishedMatches(row: Row, plan: Plan, existing: seq<Binding>, leased: seq<int>, o: Oracle)
    requires plan.spec.ports != [] && |plan.spec.ports| <= |existing| + |leased|
    ensures !RequiresRecreate(FinishedRow(row, plan, AssignHosts(existing, plan.spec.ports, leased), o), plan.spec,
        plan.name)
  {
    RecreateExactly(FinishedRow(row, plan, AssignHosts(existing, plan.spec.ports, leased), o), plan.spec, plan.name);
  }

  lemma KeptMatches(row: Row, plan: Plan)
    requires !RequiresRecreate(row, plan.spec, plan.name)
    ensures !RequiresRecreate(KeptRow(row, plan), plan.spec, plan.name)
  {
    RecreateExactly(row, plan.spec, plan.name);
    RecreateExactly(KeptRow(row, plan), plan.spec, plan.name);
  }

  lemma StartMatches(s: Settings, db: Db, id: RuntimeId, plan: Plan, o: Oracle)
    requires id in db.runtimes && plan.spec.ports != [] && Start(s, db, id, plan, o).1.Done?
    ensures var (after, out) := Start(s, db, id, plan, o);
            out == Done(id) && id in after.runtimes && after.runtimes[id].name == plan.name
            && !RequiresRecreate(after.runtimes[id], plan.spec, plan.name)
  {
    var leased := StartRows(s, db, id, plan, o);
    FinishedMatches(db.runtimes[id], plan, db.runtimes[id].portBindings, leased, o);
  }

  lemma ExistingMatches(s: Settings, db: Db, id: RuntimeId, plan: Plan, forced: bool, o: Oracle)
    requires id in db.runtimes && plan.spec.ports != [] && ProvisionExisting(s, db, id, plan, forced, o).1.Done?
    ensures var (after, out) := ProvisionExisting(s, db, id, plan, forced, o);
            out == Done(id) && id in after.runtimes && after.runtimes[id].name == plan.name
            && !RequiresRecreate(after.runtimes[id], plan.spec, plan.name)
  {
    var row := db.runtimes[id];
    var replace := forced || RequiresRecreate(row, plan.spec, plan.name);
    if !replace && o.hostStatus.Running? && o.healthy {
      KeptMatches(row, plan);
    } else if replace {
      StartMatches(s, db.(runtimes := db.runtimes[id := ReplacedRow(row, plan, forced)]), id, plan, o);
    } else {
      StartMatches(s, db, id, plan, o);
    }
  }

  lemma FreshMatches(s: Settings, db: Db, sandboxId: string, plan: Plan, o: Oracle)
    requires plan.spec.ports != [] && ProvisionFresh(s, db, sandboxId, plan, o).1.Done?
    ensures var (after, out) := ProvisionFresh(s, db, sandboxId, plan, o);
            out == Done(o.freshId) && o.freshId in after.runtimes && after.runtimes[o.freshId].name == plan.name
            && !RequiresRecreate(after.runtimes[o.freshId], plan.spec, plan.name)
  {
    var id := o.freshId;
    var (leases, leased) := Lease(db.leases, s.range, id, |plan.spec.ports|);
    StartMatches(s, Db(db.runtimes[id := NewRow(s, sandboxId, plan, o)], leases, db.previews), id, plan, o);
  }

  /** Whichever way a provision succeeds, the persisted row needs no recreation for the same request. */
  lemma DoneMatchesSpec(s: Settings, db: Db, sandboxId: string, input: Input, o: Oracle)
    requires Provision(s, db, sandboxId, input, o).1.Done?
    ensures MakePlan(s, db, sandboxId, input, o).Ok?
    ensures var plan := MakePlan(s, db, sandboxId, input, o).value;
            var (after, out) := Provision(s, db, sandboxId, input, o);
            var id := Target(plan, o);
            out == Done(id) && id in after.runtimes && after.runtimes[id].name == plan.name
            && !RequiresRecreate(after.runtimes[id], plan.spec, plan.name)
  {
    var plan := MakePlan(s, db, sandboxId, input, o).value;
    PlanHasPorts(s, db, sandboxId, input, o);
    if plan.existing.None? {
      FreshMatches(s, db, sandboxId, plan, o);
    } else {
      ExistingMatches(s, db, plan.existing.value, plan, input.forceRecreate == Some(true), o);
    }
  }

  // ----- Repeating an ensure call -----

  lemma PlanParts(s: Settings, db: Db, sandboxId: string, input: Input, o: Oracle)
    requires MakePlan(s, db, sandboxId, input, o).Ok?
    ensures var plan := MakePlan(s, db, sandboxId, input, o).value;
            NormalizeName(input.name) == Ok(plan.name) && BuildSpec(s.defaults, o.volumes, input) == Ok(plan.spec)
  {
  }

  lemma PlanFrom(s: Settings, db: Db, sandboxId: string, input: Input, o: Oracle, name: Option<string>, spec: Spec)
    requires NormalizeName(input.name) == Ok(name) && BuildSpec(s.defaults, o.volumes, input) == Ok(spec)
    requires Normalize(sandboxId) == Some(sandboxId)
    requires name.Some? && Find(db, name.value, o.preferName).Some? ==>
               db.runtimes[Find(db, name.value, o.preferName).value].sandboxId == sandboxId
    ensures MakePlan(s, db, sandboxId, input, o) == Ok(Plan(name, BySandboxId(db, sandboxId), spec))
  {
  }

  lemma FoundByOwnName(db: Db, id: RuntimeId, preferName: bool)
    requires Schema(db.runtimes) && Unambiguous(db) && id in db.runtimes
    ensures db.runtimes[id].name.Some? ==> Find(db, db.runtimes[id].name.value, preferName) == Some(id)
    ensures BySandboxId(db, db.runtimes[id].sandboxId) == Some(id)
  {
  }

  /** The same request meets the same plan when its runtime exists under the requested name. */
  lemma SamePlan(s: Settings, before: Db, db: Db, sandboxId: string, input: Input, o1: Oracle, o2: Oracle,
                 id: RuntimeId)
    requires MakePlan(s, before, sandboxId, input, o1).Ok? && o1.volumes == o2.volumes && Normalized(sandboxId)
    requires Schema(db.runtimes) && Unambiguous(db)
    requires id in db.runtimes && db.runtimes[id].sandboxId == sandboxId
    requires db.runtimes[id].name == MakePlan(s, before, sandboxId, input, o1).value.name
    ensures MakePlan(s, db, sandboxId, input, o2)
         == Ok(MakePlan(s, before, sandboxId, input, o1).value.(existing := Some(id)))
  {
    var plan := MakePlan(s, before, sandboxId, input, o1).value;
    PlanParts(s, before, sandboxId, input, o1);
    IdentitiesAreFixed(sandboxId);
    FoundByOwnName(db, id, o2.preferName);
    PlanFrom(s, db, sandboxId, input, o2, plan.name, plan.spec);
  }

  /** Only the status columns of two row tables differ. */
  ghost predicate SameButStatus(before: map<RuntimeId, Row>, after: map<RuntimeId, Row>, id: RuntimeId) {
    && id in before && id in after
    && after == before[id := before[id].(status := after[id].status, statusReason := after[id].statusReason)]
  }

  lemma KeepingIsQuiet(s: Settings, db: Db, id: RuntimeId, plan: Plan, o: Oracle)
    requires Schema(db.runtimes) && id in db.runtimes && plan.spec.ports != [] && plan.name == db.runtimes[id].name
    requires !RequiresRecreate(db.runtimes[id], plan.spec, plan.name)
    requires o.hostStatus.Running? && o.healthy && (plan.spec.files != [] ==> o.filesWritten)
    ensures var (after, out) := ProvisionExisting(s, db, id, plan, false, o);
            && out == Done(id) && after.leases == db.leases && after.previews == db.previews
            && SameButStatus(db.runtimes, after.runtimes, id) && after.runtimes[id].status.Running?
            && !ExistingCreates(s, db, id, plan, false, o)
  {
    var row := db.runtimes[id];
    assert db.runtimes[id := row] == db.runtimes;
    SchemaIgnoresRest(db.runtimes, id, row, KeptRow(row, plan));
    assert KeptRow(row, plan) == row.(status := Running, statusReason := KeptRow(row, plan).statusReason);
  }

  /** Nothing was created, and nothing but the status columns of one row was written. */
  ghost predicate Quiet(before: Db, after: Db, id: RuntimeId) {
    && after.leases == before.leases && after.previews == before.previews
    && SameButStatus(before.runtimes, after.runtimes, id) && after.runtimes[id].status.Running?
  }

  lemma RepeatedProvisionIsQuiet(s: Settings, db: Db, sandboxId: string, input: Input, o1: Oracle, o2: Oracle)
    requires Base(s, db) && o1.freshId !in db.runtimes && Normalized(sandboxId)
    requires Provision(s, db, sandboxId, input, o1).1.Done? && Unambiguous(Provision(s, db, sandboxId, input, o1).0)
    requires input.forceRecreate != Some(true) && o1.volumes == o2.volumes
    requires o2.hostStatus.Running? && o2.healthy && (input.files.GetOr([]) != [] ==> o2.filesWritten)
    ensures var (once, out) := Provision(s, db, sandboxId, input, o1);
            var (twice, again) := Provision(s, once, sandboxId, input, o2);
            again == out && Quiet(once, twice, out.id) && !ProvisionCreates(s, once, sandboxId, input, o2)
  {
    var (once, out) := Provision(s, db, sandboxId, input, o1);
    DoneMatchesSpec(s, db, sandboxId, input, o1);
    var plan := MakePlan(s, db, sandboxId, input, o1).value;
    PlanHasPorts(s, db, sandboxId, input, o1);
    PlanFiles(s, db, sandboxId, input, o1);
    ProvisionKeepsBase(s, db, sandboxId, input, o1);
    TargetHasId(s, db, sandboxId, input, o1);
    SamePlan(s, db, once, sandboxId, input, o1, o2, out.id);
    KeepingIsQuiet(s, once, out.id, plan.(existing := Some(out.id)), o2);
  }

  /** An ensure call repeated on a healthy runtime leases nothing and asks the host to create nothing: only the
      status columns of the row are written. */
  lemma RepeatedEnsureIsQuiet(s: Settings, db: Db, op: Op, o1: Oracle, o2: Oracle)
    requires op.Ensure? && Base(s, db) && Unambiguous(db) && FreshOracle(db, o1) && EnsureIdIsNoName(db, op, o1)
    requires Apply(s, db, op, o1).1.Done?
    requires SandboxIdFor(Either(op.explicitId, op.input.name), o2)
        == SandboxIdFor(Either(op.explicitId, op.input.name), o1)
    requires op.input.forceRecreate != Some(true) && o1.volumes == o2.volumes
    requires o2.hostStatus.Running? && o2.healthy && (op.input.files.GetOr([]) != [] ==> o2.filesWritten)
    ensures var (once, out) := Apply(s, db, op, o1);
            var (twice, again) := Apply(s, once, op, o2);
            again == out && Quiet(once, twice, out.id) && !OpCreates(s, once, op, o2)
  {
    var seed := Either(op.explicitId, op.input.name);
    SandboxIdIsNormalized(seed, o1);
    var id := SandboxIdFor(seed, o1).value;
    ProvisionKeeps(s, db, id, op.input, o1);
    RepeatedProvisionIsQuiet(s, db, id, op.input, o1, o2);
  }

  lemma PlanFiles(s: Settings, db: Db, sandboxId: string, input: Input, o: Oracle)
    requires MakePlan(s, db, sandboxId, input, o).Ok?
    ensures MakePlan(s, db, sandboxId, input, o).value.spec.files == input.files.GetOr([])
  {
    PlanParts(s, db, sandboxId, input, o);
  }

  lemma TargetHasId(s: Settings, db: Db, sandboxId: string, input: Input, o: Oracle)
    requires Provision(s, db, sandboxId, input, o).1.Done? && Normalized(sandboxId) && o.freshId !in db.runtimes
    ensures var (after, out) := Provision(s, db, sandboxId, input, o);
            out.id in after.runtimes && after.runtimes[out.id].sandboxId == sandboxId
  {
    var plan := MakePlan(s, db, sandboxId, input, o).value;
    DoneMatchesSpec(s, db, sandboxId, input, o);
    PlanHasPorts(s, db, sandboxId, input, o);
    PlanLookup(s, db, sandboxId, input, o);
    if plan.existing.None? {
      FreshIdentity(s, db, sandboxId, plan, o);
    } else {
      ExistingIdentity(s, db, plan.existing.value, plan, input.forceRecreate == Some(true), o);
    }
  }

  // ----- Updates -----

  /** The same bindings, up to the order in which their fields are written. */
  ghost predicate SameBindings(a: seq<Binding>, b: seq<Binding>) {
    SamePorts(a, b) && forall i :: 0 <= i < |a| ==> a[i].hostPort == b[i].hostPort
  }

  lemma StartKeepsBindings(s: Settings, db: Db, id: RuntimeId, plan: Plan, o: Oracle)
    requires id in db.runtimes && plan.spec.ports != [] && SamePorts(db.runtimes[id].portBindings, plan.spec.ports)
    requires Start(s, db, id, plan, o).1.Done?
    ensures var (after, _) := Start(s, db, id, plan, o);
            && after.leases == db.leases && id in after.runtimes
            && SameBindings(db.runtimes[id].portBindings, after.runtimes[id].portBindings)
            && after.runtimes[id].config == plan.spec.config && after.runtimes[id].public == plan.spec.public
            && after.runtimes[id].name == plan.name
  {
    var leased := StartRows(s, db, id, plan, o);
  }

  lemma AgreeingConfigsAreEqual(a: Config, b: Config)
    requires CanonicalConfig(a) && CanonicalConfig(b) && ConfigAgrees(a, b)
    ensures a == b
  {
    assert a.command == b.command by {
      assert a.command.GetOr([]) == b.command.GetOr([]);
    }
  }

  lemma ExistingKeepsBindings(s: Settings, db: Db, id: RuntimeId, plan: Plan, forced: bool, o: Oracle)
    requires id in db.runtimes && plan.spec.ports != [] && SamePorts(db.runtimes[id].portBindings, plan.spec.ports)
    requires CanonicalConfig(db.runtimes[id].config) && CanonicalConfig(plan.spec.config)
    requires ProvisionExisting(s, db, id, plan, forced, o).1.Done?
    ensures var (after, _) := ProvisionExisting(s, db, id, plan, forced, o);
            && after.leases == db.leases && id in after.runtimes
            && SameBindings(db.runtimes[id].portBindings, after.runtimes[id].portBindings)
            && after.runtimes[id].config == plan.spec.config && after.runtimes[id].public == plan.spec.public
            && after.runtimes[id].name == plan.name
  {
    var row := db.runtimes[id];
    var replace := forced || RequiresRecreate(row, plan.spec, plan.name);
    if !replace && o.hostStatus.Running? && o.healthy {
      RecreateExactly(row, plan.spec, plan.name);
      AgreeingConfigsAreEqual(row.config, plan.spec.config);
    } else if replace {
      StartKeepsBindings(s, db.(runtimes := db.runtimes[id := ReplacedRow(row, plan, forced)]), id, plan, o);
    } else {
      StartKeepsBindings(s, db, id, plan, o);
    }
  }

  /** What an update that names no ports plans for a runtime with an ssh port. */
  ghost predicate PlansUpdate(s: Settings, row: Row, id: RuntimeId, patch: Input, plan: Plan) {
    && plan.existing == Some(id) && GoodPlan(plan) && SamePorts(row.portBindings, plan.spec.ports)
    && plan.spec.config == Patched(s.defaults, row.config, plan.spec.config.mounts.GetOr([]), patch)
    && plan.spec.public == patch.public.GetOr(row.public)
    && Ok(plan.name) == (if patch.name.None? then Ok(row.name) else NormalizeName(patch.name))
  }

  /** The runtime that an update without ports is about: its row is in order, with an ssh port, and the volumes that
      the patch does not name resolve. */
  ghost predicate UpdatesInPlace(s: Settings, db: Db, id: RuntimeId, patch: Input, o: Oracle) {
    && GoodDefaults(s.defaults) && Base(s, db) && o.freshId !in db.runtimes
    && id in db.runtimes && RowOk(db.runtimes[id]) && HasSshPort(db.runtimes[id].portBindings)
    && patch.ports.None?
    && (patch.volumes.None? ==> VolumesResolve(o.volumes, db.runtimes[id].config.mounts.value))
  }

  lemma UpdatePlan(s: Settings, db: Db, id: RuntimeId, patch: Input, o: Oracle)
    requires UpdatesInPlace(s, db, id, patch, o)
    requires MakePlan(s, db, db.runtimes[id].sandboxId, UpdateInput(db.runtimes[id], patch), o).Ok?
    ensures var row := db.runtimes[id];
            PlansUpdate(s, row, id, patch, MakePlan(s, db, row.sandboxId, UpdateInput(row, patch), o).value)
  {
    var row := db.runtimes[id];
    var input := UpdateInput(row, patch);
    PlanLookup(s, db, row.sandboxId, input, o);
    PlanIsGood(s, db, row.sandboxId, input, o);
    PlanParts(s, db, row.sandboxId, input, o);
    UpdateLaw(s.defaults, o.volumes, row, patch);
    UpdateName(row, patch);
    UpdateKeepsPorts(s.defaults, row, patch);
  }

  /** Every host port is where it was, and a column has changed only if the patch names it. */
  ghost predicate ChangedAsNamed(s: Settings, row: Row, now: Row, patch: Input) {
    && SameBindings(row.portBindings, now.portBindings)
    && now.config == Patched(s.defaults, row.config, now.config.mounts.GetOr([]), patch)
    && now.public == patch.public.GetOr(row.public)
    && Ok(now.name) == (if patch.name.None? then Ok(row.name) else NormalizeName(patch.name))
    && now.sandboxId == row.sandboxId
  }

  lemma PlannedUpdate(s: Settings, db: Db, id: RuntimeId, patch: Input, plan: Plan, forced: bool, o: Oracle)
    requires id in db.runtimes && RowOk(db.runtimes[id]) && PlansUpdate(s, db.runtimes[id], id, patch, plan)
    requires ProvisionExisting(s, db, id, plan, forced, o).1.Done?
    ensures var (after, out) := ProvisionExisting(s, db, id, plan, forced, o);
            && out == Done(id) && after.leases == db.leases && id in after.runtimes
            && ChangedAsNamed(s, db.runtimes[id], after.runtimes[id], patch)
  {
    ExistingKeepsBindings(s, db, id, plan, forced, o);
    ExistingMatches(s, db, id, plan, forced, o);
    ExistingIdentity(s, db, id, plan, forced, o);
  }

  /** A successful update that names no ports, of a runtime with an ssh port: every host port stays where it is,
      no lease changes, and a configuration column changes only if the patch names it. */
  lemma UpdateChangesOnlyWhatIsNamed(s: Settings, db: Db, id: RuntimeId, patch: Input, o: Oracle)
    requires UpdatesInPlace(s, db, id, patch, o)
    requires Provision(s, db, db.runtimes[id].sandboxId, UpdateInput(db.runtimes[id], patch), o).1.Done?
    ensures var row := db.runtimes[id];
            var (after, out) := Provision(s, db, row.sandboxId, UpdateInput(row, patch), o);
            && out == Done(id) && after.leases == db.leases && OnlyTouches(db, after, id) && id in after.runtimes
            && ChangedAsNamed(s, row, after.runtimes[id], patch)
  {
    var row := db.runtimes[id];
    var input := UpdateInput(row, patch);
    UpdatePlan(s, db, id, patch, o);
    ProvisionKeepsBase(s, db, row.sandboxId, input, o);
    var plan := MakePlan(s, db, row.sandboxId, input, o).value;
    PlannedUpdate(s, db, id, patch, plan, input.forceRecreate == Some(true), o);
  }

  /** An empty update changes no configuration column, no name, no visibility and no host port. */
  lemma EmptyUpdateChangesNothing(s: Settings, db: Db, id: RuntimeId, o: Oracle)
    requires UpdatesInPlace(s, db, id, EMPTY_PATCH, o)
    requires Provision(s, db, db.runtimes[id].sandboxId, UpdateInput(db.runtimes[id], EMPTY_PATCH), o).1.Done?
    ensures var row := db.runtimes[id];
            var (after, out) := Provision(s, db, row.sandboxId, UpdateInput(row, EMPTY_PATCH), o);
            && out == Done(id) && after.leases == db.leases && id in after.runtimes
            && SameBindings(row.portBindings, after.runtimes[id].portBindings)
            && after.runtimes[id].config == row.config && after.runtimes[id].public == row.public
            && after.runtimes[id].name == row.name
  {
    UpdateChangesOnlyWhatIsNamed(s, db, id, EMPTY_PATCH, o);
    var row := db.runtimes[id];
    assert Patched(s.defaults, row.config, [], EMPTY_PATCH) == row.config;
  }

  // ----- The appended ssh binding -----

  /** A named binding whose fields are in the order of the appended ssh binding. */
  predicate HasAppended(bindings: seq<Binding>) {
    exists i :: 0 <= i < |bindings| && bindings[i].layout.Appended? && bindings[i].name.Some?
  }

  /** What an empty update asks for: the same ports, in the resolved field order. */
  lemma EmptyUpdateSpec(s: Settings, row: Row, volumes: VolumeDirectory) returns (spec: Spec)
    requires RowOk(row) && HasSshPort(row.portBindings) && VolumesResolve(volumes, row.config.mounts.value)
    ensures BuildSpec(s.defaults, volumes, UpdateInput(row, EMPTY_PATCH)) == Ok(spec)
    ensures SamePorts(row.portBindings, spec.ports) && !HasAppended(spec.ports)
    ensures RequiresRecreate(row, spec, row.name) <==> HasAppended(row.portBindings)
  {
    UpdateLaw(s.defaults, volumes, row, EMPTY_PATCH);
    spec := BuildSpec(s.defaults, volumes, UpdateInput(row, EMPTY_PATCH)).value;
    UpdateKeepsPorts(s.defaults, row, EMPTY_PATCH);
    EmptyUpdateRecreatesExactly(s.defaults, volumes, row);
  }

  /** An update finds its own row, under its own name. */
  lemma EmptyUpdatePlan(s: Settings, db: Db, id: RuntimeId, o: Oracle, spec: Spec)
    requires Schema(db.runtimes) && Unambiguous(db) && id in db.runtimes && RowOk(db.runtimes[id])
    requires BuildSpec(s.defaults, o.volumes, UpdateInput(db.runtimes[id], EMPTY_PATCH)) == Ok(spec)
    ensures var row := db.runtimes[id];
            MakePlan(s, db, row.sandboxId, UpdateInput(row, EMPTY_PATCH), o) == Ok(Plan(row.name, Some(id), spec))
  {
    var row := db.runtimes[id];
    UpdateName(row, EMPTY_PATCH);
    IdentitiesAreFixed(row.sandboxId);
    FoundByOwnName(db, id, o.preferName);
    PlanFrom(s, db, row.sandboxId, UpdateInput(row, EMPTY_PATCH), o, row.name, spec);
  }

  lemma UpdateIsProvision(s: Settings, db: Db, id: RuntimeId, patch: Input, o: Oracle)
    requires Schema(db.runtimes) && Unambiguous(db) && id in db.runtimes && Normalized(db.runtimes[id].sandboxId)
    ensures var row := db.runtimes[id];
            && Apply(s, db, Update(row.sandboxId, patch), o)
            == Provision(s, db, row.sandboxId, UpdateInput(row, patch), o)
            && (OpCreates(s, db, Update(row.sandboxId, patch), o) <==>
                ProvisionCreates(s, db, row.sandboxId, UpdateInput(row, patch), o))
  {
    IdentitiesAreFixed(db.runtimes[id].sandboxId);
    FoundByOwnName(db, id, o.preferName);
  }

  /** With as many ports as before, and under the same name, replacing and starting both reach the host. */
  lemma SamePortsCreate(s: Settings, db: Db, id: RuntimeId, plan: Plan, o: Oracle)
    requires Schema(db.runtimes) && id in db.runtimes && plan.name == db.runtimes[id].name && plan.spec.ports != []
    requires SamePorts(db.runtimes[id].portBindings, plan.spec.ports)
    ensures ExistingCreates(s, db, id, plan, false, o) <==>
            RequiresRecreate(db.runtimes[id], plan.spec, plan.name) || !(o.hostStatus.Running? && o.healthy)
  {
    var row := db.runtimes[id];
    assert db.runtimes[id := row] == db.runtimes;
    SchemaIgnoresRest(db.runtimes, id, row, ReplacedRow(row, plan, false));
  }

  /** An empty update of a runtime with an ssh port creates its sandbox anew exactly when a named binding has the
      appended field order, or when the sandbox is down or unhealthy. */
  lemma EmptyUpdateCreatesExactly(s: Settings, db: Db, id: RuntimeId, o: Oracle)
    requires Schema(db.runtimes) && Unambiguous(db) && id in db.runtimes && RowOk(db.runtimes[id])
    requires HasSshPort(db.runtimes[id].portBindings) && VolumesResolve(o.volumes, db.runtimes[id].config.mounts.value)
    ensures OpCreates(s, db, Update(db.runtimes[id].sandboxId, EMPTY_PATCH), o) <==>
            HasAppended(db.runtimes[id].portBindings) || !(o.hostStatus.Running? && o.healthy)
  {
    var row := db.runtimes[id];
    var spec := EmptyUpdateSpec(s, row, o.volumes);
    EmptyUpdatePlan(s, db, id, o, spec);
    UpdateIsProvision(s, db, id, EMPTY_PATCH, o);
    SamePortsCreate(s, db, id, Plan(row.name, Some(id), spec), o);
  }

  /** The ssh binding is appended to what the request names. */
  predicate AppendsSsh(defaults: Defaults, input: Input) {
    input.sshEnabled != Some(false) && !HasSshPort(ResolvePorts(defaults, input.ports, input.primaryPort))
  }

  lemma SpecPortsAppend(defaults: Defaults, input: Input)
    ensures var ports := SpecPorts(defaults, input);
            && (HasAppended(ports) <==> AppendsSsh(defaults, input))
            && (AppendsSsh(defaults, input) ==> HasSshPort(ports))
  {
    var ports := SpecPorts(defaults, input);
    if AppendsSsh(defaults, input) {
      assert ports[|ports| - 1] == Binding(Some("ssh"), SSH_PORT, 0, Tcp, Appended);
    }
  }

  lemma HostPortsDoNotMatter(a: seq<Binding>, b: seq<Binding>)
    requires |a| == |b| && forall i :: 0 <= i < |a| ==> b[i] == a[i].(hostPort := b[i].hostPort)
    ensures (HasAppended(a) <==> HasAppended(b)) && (HasSshPort(a) <==> HasSshPort(b))
  {
    forall i | 0 <= i < |a|
      ensures a[i].layout == b[i].layout && a[i].name == b[i].name && a[i].containerPort == b[i].containerPort
    {
    }
  }

  /** A new runtime has the appended binding exactly when its request asks for ssh without naming port 22. */
  lemma FreshSshIsAppended(s: Settings, db: Db, sandboxId: string, input: Input, o: Oracle)
    requires Base(s, db) && o.freshId !in db.runtimes && Normalized(sandboxId) && BySandboxId(db, sandboxId).None?
    requires Provision(s, db, sandboxId, input, o).1.Done?
    ensures var (after, out) := Provision(s, db, sandboxId, input, o);
            && out == Done(o.freshId) && o.freshId in after.runtimes && after.runtimes[o.freshId].sandboxId == sandboxId
            && (HasAppended(after.runtimes[o.freshId].portBindings) <==> AppendsSsh(s.defaults, input))
            && (AppendsSsh(s.defaults, input) ==> HasSshPort(after.runtimes[o.freshId].portBindings))
  {
    var plan := MakePlan(s, db, sandboxId, input, o).value;
    PlanHasPorts(s, db, sandboxId, input, o);
    PlanLookup(s, db, sandboxId, input, o);
    PlanParts(s, db, sandboxId, input, o);
    FreshExactly(s, db, sandboxId, plan, o);
    SpecPortsAppend(s.defaults, input);
    HostPortsDoNotMatter(plan.spec.ports, Provision(s, db, sandboxId, input, o).0.runtimes[o.freshId].portBindings);
  }

  lemma AssignKeepsOrder(existing: seq<Binding>, ports: seq<Binding>, leased: seq<int>)
    requires |ports| <= |existing| + |leased|
    ensures HasAppended(AssignHosts(existing, ports, leased)) ==> HasAppended(ports)
  {
  }

  lemma StartReorders(s: Settings, db: Db, id: RuntimeId, plan: Plan, o: Oracle)
    requires id in db.runtimes && plan.spec.ports != [] && !HasAppended(plan.spec.ports)
    requires Start(s, db, id, plan, o).1.Done?
    ensures id in Start(s, db, id, plan, o).0.runtimes
    ensures !HasAppended(Start(s, db, id, plan, o).0.runtimes[id].portBindings)
  {
    var leased := StartRows(s, db, id, plan, o);
    AssignKeepsOrder(db.runtimes[id].portBindings, plan.spec.ports, leased);
  }

  lemma ExistingReorders(s: Settings, db: Db, id: RuntimeId, plan: Plan, o: Oracle)
    requires id in db.runtimes && plan.spec.ports != [] && !HasAppended(plan.spec.ports)
    requires HasAppended(db.runtimes[id].portBindings) ==> RequiresRecreate(db.runtimes[id], plan.spec, plan.name)
    requires ProvisionExisting(s, db, id, plan, false, o).1.Done?
    ensures var after := ProvisionExisting(s, db, id, plan, false, o).0;
            id in after.runtimes && !HasAppended(after.runtimes[id].portBindings)
  {
    var row := db.runtimes[id];
    if RequiresRecreate(row, plan.spec, plan.name) {
      StartReorders(s, db.(runtimes := db.runtimes[id := ReplacedRow(row, plan, false)]), id, plan, o);
    } else if !(o.hostStatus.Running? && o.healthy) {
      StartReorders(s, db, id, plan, o);
    }
  }

  /** After a successful empty update no binding has the appended order any more. */
  lemma EmptyUpdateReorders(s: Settings, db: Db, id: RuntimeId, o: Oracle)
    requires Schema(db.runtimes) && Unambiguous(db) && id in db.runtimes && RowOk(db.runtimes[id])
    requires HasSshPort(db.runtimes[id].portBindings) && VolumesResolve(o.volumes, db.runtimes[id].config.mounts.value)
    requires Provision(s, db, db.runtimes[id].sandboxId, UpdateInput(db.runtimes[id], EMPTY_PATCH), o).1.Done?
    ensures var after := Provision(s, db, db.runtimes[id].sandboxId, UpdateInput(db.runtimes[id], EMPTY_PATCH), o).0;
            id in after.runtimes && !HasAppended(after.runtimes[id].portBindings)
  {
    var row := db.runtimes[id];
    var spec := EmptyUpdateSpec(s, row, o.volumes);
    EmptyUpdatePlan(s, db, id, o, spec);
    ExistingReorders(s, db, id, Plan(row.name, Some(id), spec), o);
  }

  /** What the next empty update needs of the tables: the row, in order, with an ssh port and volumes that resolve. */
  ghost predicate Updatable(s: Settings, db: Db, id: RuntimeId, sandboxId: string, o: Oracle) {
    && Base(s, db) && Unambiguous(db) && id in db.runtimes && RowOk(db.runtimes[id])
    && db.runtimes[id].sandboxId == sandboxId && HasSshPort(db.runtimes[id].portBindings)
    && VolumesResolve(o.volumes, db.runtimes[id].config.mounts.value)
  }

  /** A successful empty update leaves a runtime that can be updated again, now without the appended order. */
  lemma EmptyUpdateStaysUpdatable(s: Settings, db: Db, id: RuntimeId, sandboxId: string, o: Oracle, o': Oracle)
    requires GoodDefaults(s.defaults) && Updatable(s, db, id, sandboxId, o) && Updatable(s, db, id, sandboxId, o')
    requires RowsOk(db.runtimes) && FreshOracle(db, o) && Apply(s, db, Update(sandboxId, EMPTY_PATCH), o).1.Done?
    ensures var after := Apply(s, db, Update(sandboxId, EMPTY_PATCH), o).0;
            Updatable(s, after, id, sandboxId, o') && !HasAppended(after.runtimes[id].portBindings)
  {
    var row, op := db.runtimes[id], Update(sandboxId, EMPTY_PATCH);
    UpdateIsProvision(s, db, id, EMPTY_PATCH, o);
    RowsHaveIds(db);
    ApplyKeeps(s, db, op, o);
    ApplyKeepsRows(s, db, op, o);
    EmptyUpdateReorders(s, db, id, o);
    EmptyUpdateChangesNothing(s, db, id, o);
    var after := Apply(s, db, op, o).0;
    TargetHasId(s, db, sandboxId, UpdateInput(row, EMPTY_PATCH), o);
    SameSshPort(row.portBindings, after.runtimes[id].portBindings);
  }

  lemma SameSshPort(a: seq<Binding>, b: seq<Binding>)
    requires SamePorts(a, b) && HasSshPort(a)
    ensures HasSshPort(b)
  {
    var i :| 0 <= i < |a| && a[i].containerPort == SSH_PORT;
    assert SamePort(a[i], b[i]);
  }

  /** A runtime created with the default ssh setting and without port 22, healthy ever since: its first empty update
      creates the sandbox anew although no value has changed, and the second one does not. */
  lemma AppendedSshIsRecreatedOnce(s: Settings, db: Db, sandboxId: string, input: Input, o1: Oracle, o2: Oracle,
                                   o3: Oracle)
    requires GoodDefaults(s.defaults) && Base(s, db) && RowsOk(db.runtimes) && Unambiguous(db)
    requires Normalized(sandboxId) && BySandboxId(db, sandboxId).None? && ByName(db, sandboxId).None?
    requires FreshOracle(db, o1) && Provision(s, db, sandboxId, input, o1).1.Done?
    requires AppendsSsh(s.defaults, input)
    requires var once := Provision(s, db, sandboxId, input, o1).0;
             && FreshOracle(once, o2) && Apply(s, once, Update(sandboxId, EMPTY_PATCH), o2).1.Done?
             && o1.freshId in once.runtimes
             && VolumesResolve(o2.volumes, once.runtimes[o1.freshId].config.mounts.GetOr([]))
             && VolumesResolve(o3.volumes, once.runtimes[o1.freshId].config.mounts.GetOr([]))
    requires o3.hostStatus.Running? && o3.healthy
    ensures var once := Provision(s, db, sandboxId, input, o1).0;
            var twice := Apply(s, once, Update(sandboxId, EMPTY_PATCH), o2).0;
            && OpCreates(s, once, Update(sandboxId, EMPTY_PATCH), o2)
            && !OpCreates(s, twice, Update(sandboxId, EMPTY_PATCH), o3)
  {
    var once, id := Provision(s, db, sandboxId, input, o1).0, o1.freshId;
    ProvisionKeeps(s, db, sandboxId, input, o1);
    ProvisionKeepsRows(s, db, sandboxId, input, o1);
    assert RowOk(once.runtimes[id]);
    FreshSshIsAppended(s, db, sandboxId, input, o1);
    EmptyUpdateCreatesExactly(s, once, id, o2);
    EmptyUpdateStaysUpdatable(s, once, id, sandboxId, o2, o3);
    EmptyUpdateCreatesExactly(s, Apply(s, once, Update(sandboxId, EMPTY_PATCH), o2).0, id, o3);
  }
}
