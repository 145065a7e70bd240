/** What a provision answers, which ports it leases, when it asks the sandbox host to create the sandbox, and what it
    leaves when it fails. */
module ProvisionOutcomes {
  import opened Prelude
  import opened PortLeases
  import opened Text
  import opened Identity
  import opened RuntimeSpecs
  import opened ControlPlane
  import opened ControlPlaneLaws
  import opened ControlPlaneRuns
  import opened ReprovisionLaws
  import opened OperationLaws

  // ----- What a provision answers -----

  /** The ports that the range must still have for this request, of a new runtime or of one with this row. */
  function PortsNeeded(s: Settings, input: Input, row: Option<Row>): int {
    var n := PortCount(Requested(s.defaults, input), SshWanted(input));
    if row.None? then 2 * n else n - |row.value.portBindings|
  }

  ghost function RowOf(db: Db, sandboxId: string): Option<Row> {
    var id := BySandboxId(db, sandboxId);
    if id.Some? then Some(db.runtimes[id.value]) else None
  }

  ghost function IdOf(db: Db, sandboxId: string, o: Oracle): RuntimeId {
    BySandboxId(db, sandboxId).GetOr(o.freshId)
  }

  /** The answer to a request once its ports are there. */
  function HostAnswer(s: Settings, input: Input, row: Option<Row>, id: RuntimeId, o: Oracle): Outcome {
    if row.Some? && AlreadyThere(s, input, o, row.value) then
      if input.files.Some? && input.files.value != [] && !o.filesWritten then Rejected(AdapterFailure) else Done(id)
    else if o.creation.Fatal? then Rejected(AdapterFailure)
    else Done(id)
  }

  lemma SpecPortCount(s: Settings, volumes: VolumeDirectory, input: Input, spec: Spec)
    requires BuildSpec(s.defaults, volumes, input) == Ok(spec)
    ensures |spec.ports| == PortCount(Requested(s.defaults, input), SshWanted(input)) > 0
  {
    SpecIsConfigured(s.defaults, volumes, input);
    SpecPortsPublish(s.defaults, input);
  }

  lemma FreshAnswers(s: Settings, db: Db, sandboxId: string, input: Input, o: Oracle)
    requires Base(s, db) && Unambiguous(db) && Normalized(sandboxId) && o.freshId !in db.runtimes
    requires BySandboxId(db, sandboxId).None? && MakePlan(s, db, sandboxId, input, o).Ok?
    ensures Provision(s, db, sandboxId, input, o).1
         == if |Free(db.leases, s.range)| < PortsNeeded(s, input, None) then Rejected(NoFreePorts)
            else HostAnswer(s, input, None, o.freshId, o)
  {
    var plan := MakePlan(s, db, sandboxId, input, o).value;
    PlanParts(s, db, sandboxId, input, o);
    PlanLookup(s, db, sandboxId, input, o);
    SpecPortCount(s, o.volumes, input, plan.spec);
    PlannedRowFits(s, db, sandboxId, input, o);
    FreshExactly(s, db, sandboxId, plan, o);
  }

  /** The row may be written with this name. */
  ghost predicate NameFits(db: Db, id: RuntimeId, name: Option<string>) {
    && id in db.runtimes && Schema(db.runtimes)
    && forall other :: other in db.runtimes && other != id && name.Some? ==> db.runtimes[other].name != name
  }

  lemma FittingRow(runtimes: map<RuntimeId, Row>, db: Db, id: RuntimeId, row: Row)
    requires NameFits(db, id, row.name) && row.sandboxId == db.runtimes[id].sandboxId
    requires runtimes.Keys == db.runtimes.Keys && runtimes - {id} == db.runtimes - {id}
    ensures Schema(runtimes[id := row])
  {
    forall other | other in runtimes && other != id ensures runtimes[other] == db.runtimes[other] {
      assert other in runtimes - {id} && (runtimes - {id})[other] == (db.runtimes - {id})[other];
    }
    SaveExactly(db, id, row);
    assert runtimes[id := row] == db.runtimes[id := row];
  }

  lemma StartAnswers(s: Settings, db: Db, was: Db, id: RuntimeId, plan: Plan, o: Oracle)
    requires id in db.runtimes && plan.spec.ports != [] && NameFits(was, id, plan.name)
    requires db.runtimes[id].sandboxId == was.runtimes[id].sandboxId
    requires db.runtimes.Keys == was.runtimes.Keys && db.runtimes - {id} == was.runtimes - {id}
    ensures Start(s, db, id, plan, o).1
         == if Short(s, db, db.runtimes[id].portBindings, plan.spec.ports) then Rejected(NoFreePorts)
            else if o.creation.Fatal? then Rejected(AdapterFailure) else Done(id)
  {
    var row := db.runtimes[id];
    AllocateFails(s.range, db.leases, id, row.portBindings, plan.spec.ports);
    forall ports: seq<Binding> | ports != [] ensures Schema(db.runtimes[id := FinishedRow(row, plan, ports, o)]) {
      FittingRow(db.runtimes, was, id, FinishedRow(row, plan, ports, o));
    }
  }

  lemma ExistingAnswers(s: Settings, db: Db, id: RuntimeId, plan: Plan, forced: bool, o: Oracle)
    requires plan.spec.ports != [] && NameFits(db, id, plan.name)
    ensures ProvisionExisting(s, db, id, plan, forced, o).1
         == if Short(s, db, db.runtimes[id].portBindings, plan.spec.ports) then Rejected(NoFreePorts)
            else if !forced && !RequiresRecreate(db.runtimes[id], plan.spec, plan.name) && o.hostStatus.Running?
                && o.healthy
            then if plan.spec.files != [] && !o.filesWritten then Rejected(AdapterFailure) else Done(id)
            else if o.creation.Fatal? then Rejected(AdapterFailure) else Done(id)
  {
    var row := db.runtimes[id];
    var replaced := ReplacedRow(row, plan, forced);
    FittingRow(db.runtimes, db, id, KeptRow(row, plan));
    FittingRow(db.runtimes, db, id, replaced);
    StartAnswers(s, db, db, id, plan, o);
    assert db.runtimes[id := replaced] - {id} == db.runtimes - {id};
    StartAnswers(s, db.(runtimes := db.runtimes[id := replaced]), db, id, plan, o);
    if Missing(row.portBindings, plan.spec.ports) > 0 {
      MorePortsMeansRecreate(row, plan.spec, plan.name);
    }
  }

  lemma PlannedNameFits(s: Settings, db: Db, sandboxId: string, input: Input, o: Oracle, id: RuntimeId)
    requires Schema(db.runtimes) && Unambiguous(db) && MakePlan(s, db, sandboxId, input, o).Ok?
    requires id in db.runtimes && db.runtimes[id].sandboxId == sandboxId
    ensures NameFits(db, id, MakePlan(s, db, sandboxId, input, o).value.name)
  {
    var name := MakePlan(s, db, sandboxId, input, o).value.name;
    forall other | other in db.runtimes && other != id && name.Some? ensures db.runtimes[other].name != name {
      PlannedNameIsFree(s, db, sandboxId, input, o, other);
    }
  }

  lemma KnownAnswers(s: Settings, db: Db, sandboxId: string, input: Input, o: Oracle)
    requires GoodDefaults(s.defaults) && Base(s, db) && RowsOk(db.runtimes) && Unambiguous(db) && Normalized(sandboxId)
    requires BySandboxId(db, sandboxId).Some? && MakePlan(s, db, sandboxId, input, o).Ok?
    ensures var row := RowOf(db, sandboxId);
            Provision(s, db, sandboxId, input, o).1
            == if |Free(db.leases, s.range)| < PortsNeeded(s, input, row) then Rejected(NoFreePorts)
               else HostAnswer(s, input, row, IdOf(db, sandboxId, o), o)
  {
    var plan := MakePlan(s, db, sandboxId, input, o).value;
    var id := BySandboxId(db, sandboxId).value;
    PlanHasPorts(s, db, sandboxId, input, o);
    PlanParts(s, db, sandboxId, input, o);
    PlanLookup(s, db, sandboxId, input, o);
    SpecPortCount(s, o.volumes, input, plan.spec);
    NameIsRefusedExactly(input.name);
    PlannedNameFits(s, db, sandboxId, input, o, id);
    ExistingAnswers(s, db, id, plan, input.forceRecreate == Some(true), o);
    RecreateMeans(s, input, o.volumes, db.runtimes[id], plan.spec);
    PlanFiles(s, db, sandboxId, input, o);
  }

  ghost predicate VolumesFail(o: Oracle, inputs: seq<VolumeInput>, e: Failure) {
    exists i :: FailsAt(o.volumes, inputs, i, e)
  }

  /** The outcome is that of the first failing volume, if one fails, and else the given one. */
  ghost predicate VolumesOr(o: Oracle, inputs: seq<VolumeInput>, out: Outcome, otherwise: Outcome) {
    if exists e :: VolumesFail(o, inputs, e) then exists e :: VolumesFail(o, inputs, e) && out == Rejected(e)
    else out == otherwise
  }

  function InputsOf(volumes: Option<seq<VolumeInput>>): seq<VolumeInput> {
    if volumes.Some? then volumes.value else []
  }

  /** The answer to a request whose volumes resolve. */
  function PortsAnswer(s: Settings, free: nat, input: Input, row: Option<Row>, id: RuntimeId, o: Oracle): Outcome {
    if free < PortsNeeded(s, input, row) then Rejected(NoFreePorts) else HostAnswer(s, input, row, id, o)
  }

  lemma ResolvedOr(o: Oracle, inputs: seq<VolumeInput>, out: Outcome, otherwise: Outcome)
    requires var mounts := MountsOf(o.volumes, inputs);
             if mounts.Err? then out == Rejected(mounts.error) else out == otherwise
    ensures VolumesOr(o, inputs, out, otherwise)
  {
    var mounts := MountsOf(o.volumes, inputs);
    MountsOfIsExact(o.volumes, inputs);
    if mounts.Ok? {
      NoneFails(o.volumes, inputs, mounts.value);
    } else {
      assert VolumesFail(o, inputs, mounts.error);
    }
  }

  lemma PlannedAnswers(s: Settings, db: Db, sandboxId: string, input: Input, o: Oracle)
    requires GoodDefaults(s.defaults) && Base(s, db) && RowsOk(db.runtimes) && Unambiguous(db)
    requires Normalized(sandboxId) && o.freshId !in db.runtimes && MakePlan(s, db, sandboxId, input, o).Ok?
    ensures Provision(s, db, sandboxId, input, o).1
         == PortsAnswer(s, |Free(db.leases, s.range)|, input, RowOf(db, sandboxId), IdOf(db, sandboxId, o), o)
  {
    if BySandboxId(db, sandboxId).None? {
      FreshAnswers(s, db, sandboxId, input, o);
    } else {
      KnownAnswers(s, db, sandboxId, input, o);
    }
  }

  /** The answer to every request, from the request, the tables and the host alone: which refusal comes first, and
      exactly when it succeeds. The UNIQUE constraints are never hit. */
  lemma ProvisionAnswers(s: Settings, db: Db, sandboxId: string, input: Input, o: Oracle)
    requires GoodDefaults(s.defaults) && Base(s, db) && RowsOk(db.runtimes) && Unambiguous(db)
    requires Normalized(sandboxId) && o.freshId !in db.runtimes
    ensures var out := Provision(s, db, sandboxId, input, o).1;
            if NameRefused(input.name) then out == Rejected(InvalidName)
            else if TakenByOther(db, WantedName(input.name), sandboxId) then out == Rejected(NameTaken)
            else VolumesOr(o, InputsOf(input.volumes), out,
                   PortsAnswer(s, |Free(db.leases, s.range)|, input, RowOf(db, sandboxId), IdOf(db, sandboxId, o), o))
  {
    PlanIsExact(s, db, sandboxId, input, o);
    if !NameRefused(input.name) && !TakenByOther(db, WantedName(input.name), sandboxId) {
      if MakePlan(s, db, sandboxId, input, o).Ok? {
        PlannedAnswers(s, db, sandboxId, input, o);
      }
      ResolvedOr(o, InputsOf(input.volumes), Provision(s, db, sandboxId, input, o).1,
        PortsAnswer(s, |Free(db.leases, s.range)|, input, RowOf(db, sandboxId), IdOf(db, sandboxId, o), o));
    }
  }

  lemma NoneFails(volumes: VolumeDirectory, inputs: seq<VolumeInput>, mounts: seq<Mount>)
    requires MountsAre(volumes, inputs, mounts)
    ensures !exists i, e :: FailsAt(volumes, inputs, i, e)
  {
  }

  // ----- Where the host ports come from -----

  /** The bindings keep the host ports of the row by position; the others take the free ports of the range in order. */
  predicate HostPortsFollow(before: seq<Binding>, free: seq<int>, after: seq<Binding>) {
    && |after| <= |before| + |free|
    && forall i :: 0 <= i < |after| ==>
         after[i].hostPort == if i < |before| then before[i].hostPort else free[i - |before|]
  }

  lemma StartHostPorts(s: Settings, db: Db, id: RuntimeId, plan: Plan, o: Oracle)
    requires id in db.runtimes && plan.spec.ports != [] && Start(s, db, id, plan, o).1.Done?
    ensures var after := Start(s, db, id, plan, o).0;
            && id in after.runtimes && |after.runtimes[id].portBindings| == |plan.spec.ports|
            && HostPortsFollow(db.runtimes[id].portBindings, Free(db.leases, s.range), after.runtimes[id].portBindings)
  {
    var before := db.runtimes[id].portBindings;
    AllocateFails(s.range, db.leases, id, before, plan.spec.ports);
    AllocateIs(s.range, db.leases, id, before, plan.spec.ports);
  }

  /** The ports newly leased, and how many of them are published: all for a row, the second half for a new runtime. */
  ghost predicate LeasesAdded(before: LeaseTable, after: LeaseTable, range: PortRange, count: nat, id: RuntimeId) {
    && count <= |Free(before, range)|
    && (forall p :: p in after <==> p in before || p in Free(before, range)[..count])
    && (forall p :: p in after ==> after[p] == if p in before then before[p] else id)
  }

  lemma GrantAdds(leases: LeaseTable, range: PortRange, count: nat, id: RuntimeId)
    requires count <= |Free(leases, range)|
    ensures LeasesAdded(leases, Grant(leases, Free(leases, range)[..count], id), range, count, id)
  {
    FreeMeaning(leases, range);
    var free := Free(leases, range);
    assert forall p :: p in free[..count] ==> p in free;
  }

  lemma GrantBoth(leases: LeaseTable, a: seq<int>, b: seq<int>, id: RuntimeId)
    ensures Grant(Grant(leases, a, id), b, id) == Grant(leases, a + b, id)
  {
    assert forall p :: p in a + b <==> p in a || p in b;
    assert Grant(Grant(leases, a, id), b, id).Keys == Grant(leases, a + b, id).Keys;
  }

  lemma GrantTwice(leases: LeaseTable, free: seq<int>, n: nat, id: RuntimeId)
    requires 2 * n <= |free|
    ensures Grant(Grant(leases, free[..n], id), free[n..2 * n], id) == Grant(leases, free[..2 * n], id)
  {
    assert free[..2 * n] == free[..n] + free[n..2 * n];
    GrantBoth(leases, free[..n], free[n..2 * n], id);
  }

  lemma StartLeasing(s: Settings, db: Db, id: RuntimeId, plan: Plan, o: Oracle)
    requires id in db.runtimes && plan.spec.ports != []
    requires !Short(s, db, db.runtimes[id].portBindings, plan.spec.ports)
    ensures LeasesAdded(db.leases, Start(s, db, id, plan, o).0.leases, s.range,
                        Missing(db.runtimes[id].portBindings, plan.spec.ports), id)
  {
    var before := db.runtimes[id].portBindings;
    AllocateIs(s.range, db.leases, id, before, plan.spec.ports);
    GrantAdds(db.leases, s.range, Missing(before, plan.spec.ports), id);
  }

  lemma ExistingHostPorts(s: Settings, db: Db, id: RuntimeId, plan: Plan, forced: bool, o: Oracle)
    requires id in db.runtimes && plan.spec.ports != [] && ProvisionExisting(s, db, id, plan, forced, o).1.Done?
    ensures var after := ProvisionExisting(s, db, id, plan, forced, o).0;
            && id in after.runtimes && |after.runtimes[id].portBindings| == |plan.spec.ports|
            && HostPortsFollow(db.runtimes[id].portBindings, Free(db.leases, s.range), after.runtimes[id].portBindings)
            && LeasesAdded(db.leases, after.leases, s.range, Missing(db.runtimes[id].portBindings, plan.spec.ports), id)
  {
    var row := db.runtimes[id];
    if forced || RequiresRecreate(row, plan.spec, plan.name) {
      var replaced := db.(runtimes := db.runtimes[id := ReplacedRow(row, plan, forced)]);
      StartHostPorts(s, replaced, id, plan, o);
      AllocateFails(s.range, db.leases, id, row.portBindings, plan.spec.ports);
      StartLeasing(s, replaced, id, plan, o);
    } else if !(o.hostStatus.Running? && o.healthy) {
      StartHostPorts(s, db, id, plan, o);
      AllocateFails(s.range, db.leases, id, row.portBindings, plan.spec.ports);
      StartLeasing(s, db, id, plan, o);
    } else {
      RecreateExactly(row, plan.spec, plan.name);
      GrantAdds(db.leases, s.range, 0, id);
      assert Grant(db.leases, Free(db.leases, s.range)[..0], id) == db.leases;
    }
  }

  /** Host ports and leases after a successful provision. A known runtime keeps its host ports by position and leases
      exactly the missing ones; a new one leases the first 2n free ports and publishes the second n. */
  lemma ProvisionHostPorts(s: Settings, db: Db, sandboxId: string, input: Input, o: Oracle)
    requires Base(s, db) && Unambiguous(db) && Normalized(sandboxId) && o.freshId !in db.runtimes
    requires Provision(s, db, sandboxId, input, o).1.Done?
    ensures var (after, out) := Provision(s, db, sandboxId, input, o);
            var n := PortCount(Requested(s.defaults, input), SshWanted(input));
            var row, free := RowOf(db, sandboxId), Free(db.leases, s.range);
            && out == Done(IdOf(db, sandboxId, o)) && out.id in after.runtimes
            && |after.runtimes[out.id].portBindings| == n
            && (row.Some? ==>
                  && HostPortsFollow(row.value.portBindings, free, after.runtimes[out.id].portBindings)
                  && LeasesAdded(db.leases, after.leases, s.range,
                                 if n < |row.value.portBindings| then 0 else n - |row.value.portBindings|, out.id))
            && (row.None? ==>
                  && LeasesAdded(db.leases, after.leases, s.range, 2 * n, out.id)
                  && HostPortsFollow([], free[n..2 * n], after.runtimes[out.id].portBindings))
  {
    var plan := MakePlan(s, db, sandboxId, input, o).value;
    PlanHasPorts(s, db, sandboxId, input, o);
    PlanParts(s, db, sandboxId, input, o);
    PlanLookup(s, db, sandboxId, input, o);
    DoneMatchesSpec(s, db, sandboxId, input, o);
    SpecPortCount(s, o.volumes, input, plan.spec);
    if plan.existing.Some? {
      ExistingHostPorts(s, db, plan.existing.value, plan, input.forceRecreate == Some(true), o);
    } else {
      PlannedRowFits(s, db, sandboxId, input, o);
      FreshExactly(s, db, sandboxId, plan, o);
      FreshHostPorts(s, db, NewRow(s, sandboxId, plan, o), plan, o,
                     Provision(s, db, sandboxId, input, o).0, Provision(s, db, sandboxId, input, o).1);
    }
  }

  lemma FreshHostPorts(s: Settings, db: Db, row: Row, plan: Plan, o: Oracle, after: Db, out: Outcome)
    requires plan.spec.ports != [] && FreshResult(s, db, row, plan, o, after, out) && out.Done?
    ensures var n, free := |plan.spec.ports|, Free(db.leases, s.range);
            && LeasesAdded(db.leases, after.leases, s.range, 2 * n, o.freshId)
            && o.freshId in after.runtimes && |after.runtimes[o.freshId].portBindings| == n
            && HostPortsFollow([], free[n..2 * n], after.runtimes[o.freshId].portBindings)
  {
    var n, free := |plan.spec.ports|, Free(db.leases, s.range);
    GrantTwice(db.leases, free, n, o.freshId);
    GrantAdds(db.leases, s.range, 2 * n, o.freshId);
  }

  // ----- When the host is asked to create the sandbox -----

  lemma PlannedCreates(s: Settings, db: Db, sandboxId: string, input: Input, o: Oracle)
    requires GoodDefaults(s.defaults) && Base(s, db) && RowsOk(db.runtimes) && Unambiguous(db)
    requires Normalized(sandboxId) && o.freshId !in db.runtimes && MakePlan(s, db, sandboxId, input, o).Ok?
    ensures var row := RowOf(db, sandboxId);
            ProvisionCreates(s, db, sandboxId, input, o) <==>
              |Free(db.leases, s.range)| >= PortsNeeded(s, input, row)
                  && !(row.Some? && AlreadyThere(s, input, o, row.value))
  {
    var plan := MakePlan(s, db, sandboxId, input, o).value;
    PlanHasPorts(s, db, sandboxId, input, o);
    PlanParts(s, db, sandboxId, input, o);
    PlanLookup(s, db, sandboxId, input, o);
    SpecPortCount(s, o.volumes, input, plan.spec);
    if plan.existing.None? {
      FreshCreatesExactly(s, db, sandboxId, input, plan, o);
    } else {
      NameIsRefusedExactly(input.name);
      PlannedNameFits(s, db, sandboxId, input, o, plan.existing.value);
      RecreateMeans(s, input, o.volumes, db.runtimes[plan.existing.value], plan.spec);
      ExistingCreatesExactly(s, db, plan.existing.value, plan, input.forceRecreate == Some(true), o);
    }
  }

  /** The host is asked exactly when nothing is refused, the ports are there, and the row is not already what is asked
      for with its sandbox well. */
  lemma ProvisionCreatesExactly(s: Settings, db: Db, sandboxId: string, input: Input, o: Oracle)
    requires GoodDefaults(s.defaults) && Base(s, db) && RowsOk(db.runtimes) && Unambiguous(db)
    requires Normalized(sandboxId) && o.freshId !in db.runtimes
    ensures var row := RowOf(db, sandboxId);
            ProvisionCreates(s, db, sandboxId, input, o) <==>
              && !NameRefused(input.name) && !TakenByOther(db, WantedName(input.name), sandboxId)
              && !(exists e :: VolumesFail(o, InputsOf(input.volumes), e))
              && |Free(db.leases, s.range)| >= PortsNeeded(s, input, row)
              && !(row.Some? && AlreadyThere(s, input, o, row.value))
  {
    var inputs := InputsOf(input.volumes);
    PlanIsExact(s, db, sandboxId, input, o);
    MountsOfIsExact(o.volumes, inputs);
    if MountsOf(o.volumes, inputs).Ok? {
      NoneFails(o.volumes, inputs, MountsOf(o.volumes, inputs).value);
    } else {
      assert VolumesFail(o, inputs, MountsOf(o.volumes, inputs).error);
    }
    if MakePlan(s, db, sandboxId, input, o).Ok? {
      PlannedCreates(s, db, sandboxId, input, o);
    }
  }

  /** A successful provision had the sandbox created unless the row already was what is asked for. */
  lemma DoneCreatesExactly(s: Settings, db: Db, sandboxId: string, input: Input, o: Oracle)
    requires GoodDefaults(s.defaults) && Base(s, db) && RowsOk(db.runtimes) && Unambiguous(db)
    requires Normalized(sandboxId) && o.freshId !in db.runtimes && Provision(s, db, sandboxId, input, o).1.Done?
    ensures ProvisionCreates(s, db, sandboxId, input, o) <==>
            !(RowOf(db, sandboxId).Some? && AlreadyThere(s, input, o, RowOf(db, sandboxId).value))
  {
    PlannedAnswers(s, db, sandboxId, input, o);
    PlannedCreates(s, db, sandboxId, input, o);
  }

  lemma FreshCreatesExactly(s: Settings, db: Db, sandboxId: string, input: Input, plan: Plan, o: Oracle)
    requires Base(s, db) && Unambiguous(db) && o.freshId !in db.runtimes && BySandboxId(db, sandboxId).None?
    requires MakePlan(s, db, sandboxId, input, o) == Ok(plan) && plan.spec.ports != []
    ensures FreshCreates(s, db, sandboxId, plan, o) <==> |Free(db.leases, s.range)| >= 2 * |plan.spec.ports|
  {
    PlannedRowFits(s, db, sandboxId, input, o);
    OwnsNothing(s, db, o.freshId);
    if |plan.spec.ports| <= |Free(db.leases, s.range)| {
      SecondLease(s.range, db.leases, o.freshId, plan.spec.ports);
    }
  }

  lemma ExistingCreatesExactly(s: Settings, db: Db, id: RuntimeId, plan: Plan, forced: bool, o: Oracle)
    requires plan.spec.ports != [] && NameFits(db, id, plan.name)
    ensures ExistingCreates(s, db, id, plan, forced, o) <==>
            && (forced || RequiresRecreate(db.runtimes[id], plan.spec, plan.name) || !(o.hostStatus.Running?
                && o.healthy))
            && !Short(s, db, db.runtimes[id].portBindings, plan.spec.ports)
  {
    FittingRow(db.runtimes, db, id, ReplacedRow(db.runtimes[id], plan, forced));
    AllocateFails(s.range, db.leases, id, db.runtimes[id].portBindings, plan.spec.ports);
  }

  // ----- What a failed provision leaves -----

  /** The row of a known runtime while its sandbox is being replaced. */
  predicate Replacing(s: Settings, volumes: VolumeDirectory, input: Input, before: Row, row: Row) {
    && row == before.(name := WantedName(input.name), status := Provisioning, config := row.config,
                      statusReason := Some(if input.forceRecreate == Some(true) then "replacing_forced"
                                           else "replacing_spec_changed"))
    && Configured(s.defaults, volumes, input, row.config)
  }

  /** The row of a new runtime before it has any port. */
  predicate Allocating(s: Settings, sandboxId: string, input: Input, o: Oracle, row: Row) {
    && row.sandboxId == sandboxId && row.name == WantedName(input.name) && NewIdentity(s, sandboxId, o, row)
    && row.portBindings == [] && row.hostPort == 0
    && row.primaryPort == Requested(s.defaults, input)[0].containerPort
    && row.status == Provisioning && row.statusReason == Some("allocating_ports")
    && (row.public <==> input.public == Some(true)) && Configured(s.defaults, o.volumes, input, row.config)
  }

  /** Nothing of the request that does not fit the row: only then is a sandbox restarted without touching the row. */
  predicate Fits(s: Settings, input: Input, volumes: VolumeDirectory, row: Row) {
    && input.forceRecreate != Some(true)
    && Fulfils(s, volumes, input, row) && InOrder(Requested(s.defaults, input), row.portBindings)
  }

  lemma StartRejected(s: Settings, db: Db, id: RuntimeId, plan: Plan, o: Oracle)
    requires id in db.runtimes && plan.spec.ports != [] && Start(s, db, id, plan, o).1.Rejected?
    ensures var (after, out) := Start(s, db, id, plan, o);
            && after.runtimes == db.runtimes && after.previews == db.previews
            && (if Short(s, db, db.runtimes[id].portBindings, plan.spec.ports)
                then after.leases == Without(db.leases, id)
                else LeasesAdded(db.leases, after.leases, s.range,
                                 Missing(db.runtimes[id].portBindings, plan.spec.ports), id))
  {
    AllocateFails(s.range, db.leases, id, db.runtimes[id].portBindings, plan.spec.ports);
    if !Short(s, db, db.runtimes[id].portBindings, plan.spec.ports) {
      StartLeasing(s, db, id, plan, o);
    }
  }

  lemma ExistingRejected(s: Settings, db: Db, id: RuntimeId, plan: Plan, forced: bool, o: Oracle)
    requires plan.spec.ports != [] && NameFits(db, id, plan.name)
    requires ProvisionExisting(s, db, id, plan, forced, o).1.Rejected?
    ensures var row, after := db.runtimes[id], ProvisionExisting(s, db, id, plan, forced, o).0;
            var replace := forced || RequiresRecreate(row, plan.spec, plan.name);
            if !replace && o.hostStatus.Running? && o.healthy then after == db
            else
              && after.runtimes == (if replace then db.runtimes[id := ReplacedRow(row, plan, forced)] else db.runtimes)
              && (if Short(s, db, row.portBindings, plan.spec.ports) then after.leases == Without(db.leases, id)
                  else LeasesAdded(db.leases, after.leases, s.range, Missing(row.portBindings, plan.spec.ports), id))
  {
    var row := db.runtimes[id];
    var replaced := ReplacedRow(row, plan, forced);
    FittingRow(db.runtimes, db, id, KeptRow(row, plan));
    FittingRow(db.runtimes, db, id, replaced);
    if forced || RequiresRecreate(row, plan.spec, plan.name) {
      StartRejected(s, db.(runtimes := db.runtimes[id := replaced]), id, plan, o);
    } else if !(o.hostStatus.Running? && o.healthy) {
      StartRejected(s, db, id, plan, o);
    }
  }

  /** What a failed request for a runtime with this row leaves. A row that already fits is left alone; otherwise it is
      marked as being replaced. The runtime keeps its leases and gets the missing ones, unless these were what failed:
      then it has none. */
  ghost predicate LeavesKnown(s: Settings, input: Input, o: Oracle, id: RuntimeId, row: Row, before: Db, after: Db) {
    var needed := PortsNeeded(s, input, Some(row));
    if AlreadyThere(s, input, o, row) then after == before
    else
      && id in after.runtimes
      && (if Fits(s, input, o.volumes, row) then after.runtimes[id] == row
          else Replacing(s, o.volumes, input, row, after.runtimes[id]))
      && (if |Free(before.leases, s.range)| < needed then
            forall p :: p in after.leases <==> p in before.leases && before.leases[p] != id
          else LeasesAdded(before.leases, after.leases, s.range, if needed < 0 then 0 else needed, id))
  }

  lemma ReplacedIsReplacing(s: Settings, input: Input, o: Oracle, row: Row, plan: Plan)
    requires BuildSpec(s.defaults, o.volumes, input) == Ok(plan.spec) && plan.name == WantedName(input.name)
    ensures Replacing(s, o.volumes, input, row, ReplacedRow(row, plan, input.forceRecreate == Some(true)))
  {
    SpecIsConfigured(s.defaults, o.volumes, input);
  }

  lemma RejectedLeaves(s: Settings, input: Input, o: Oracle, id: RuntimeId, row: Row, replaced: Row, before: Db,
                       after: Db)
    requires id in before.runtimes && before.runtimes[id] == row && Replacing(s, o.volumes, input, row, replaced)
    requires if AlreadyThere(s, input, o, row) then after == before
             else
               var needed := PortsNeeded(s, input, Some(row));
               && after.runtimes == (if Fits(s, input, o.volumes, row) then before.runtimes
                                     else before.runtimes[id := replaced])
               && (if |Free(before.leases, s.range)| < needed then after.leases == Without(before.leases, id)
                   else LeasesAdded(before.leases, after.leases, s.range, if needed < 0 then 0 else needed, id))
    ensures LeavesKnown(s, input, o, id, row, before, after)
  {
  }

  lemma FitsExactly(s: Settings, input: Input, o: Oracle, row: Row, plan: Plan)
    requires GoodDefaults(s.defaults) && RowOk(row)
    requires BuildSpec(s.defaults, o.volumes, input) == Ok(plan.spec) && plan.name == WantedName(input.name)
    ensures Fits(s, input, o.volumes, row) <==>
            !(input.forceRecreate == Some(true) || RequiresRecreate(row, plan.spec, plan.name))
    ensures AlreadyThere(s, input, o, row) <==> Fits(s, input, o.volumes, row) && o.hostStatus.Running? && o.healthy
  {
    RecreateMeans(s, input, o.volumes, row, plan.spec);
  }

  lemma PlannedRejected(s: Settings, db: Db, id: RuntimeId, input: Input, plan: Plan, o: Oracle)
    requires GoodDefaults(s.defaults) && NameFits(db, id, plan.name) && RowOk(db.runtimes[id])
    requires BuildSpec(s.defaults, o.volumes, input) == Ok(plan.spec) && plan.name == WantedName(input.name)
    requires plan.spec.ports != []
    requires ProvisionExisting(s, db, id, plan, input.forceRecreate == Some(true), o).1.Rejected?
    ensures LeavesKnown(s, input, o, id, db.runtimes[id], db,
                        ProvisionExisting(s, db, id, plan, input.forceRecreate == Some(true), o).0)
  {
    var row, forced := db.runtimes[id], input.forceRecreate == Some(true);
    SpecPortCount(s, o.volumes, input, plan.spec);
    FitsExactly(s, input, o, row, plan);
    ReplacedIsReplacing(s, input, o, row, plan);
    ExistingRejected(s, db, id, plan, forced, o);
    RejectedLeaves(s, input, o, id, row, ReplacedRow(row, plan, forced), db,
                   ProvisionExisting(s, db, id, plan, forced, o).0);
  }

  lemma KnownRejected(s: Settings, db: Db, sandboxId: string, input: Input, o: Oracle)
    requires GoodDefaults(s.defaults) && Base(s, db) && RowsOk(db.runtimes) && Unambiguous(db) && Normalized(sandboxId)
    requires BySandboxId(db, sandboxId).Some? && MakePlan(s, db, sandboxId, input, o).Ok?
    requires Provision(s, db, sandboxId, input, o).1.Rejected?
    ensures var id := BySandboxId(db, sandboxId).value;
            LeavesKnown(s, input, o, id, db.runtimes[id], db, Provision(s, db, sandboxId, input, o).0)
  {
    var plan := MakePlan(s, db, sandboxId, input, o).value;
    var id := BySandboxId(db, sandboxId).value;
    PlanHasPorts(s, db, sandboxId, input, o);
    PlanParts(s, db, sandboxId, input, o);
    PlanLookup(s, db, sandboxId, input, o);
    NameIsRefusedExactly(input.name);
    PlannedNameFits(s, db, sandboxId, input, o, id);
    PlannedRejected(s, db, id, input, plan, o);
  }

  lemma NewRowIsAllocating(s: Settings, sandboxId: string, input: Input, plan: Plan, o: Oracle)
    requires Normalized(sandboxId) && BuildSpec(s.defaults, o.volumes, input) == Ok(plan.spec)
    requires plan.name == WantedName(input.name) && plan.spec.ports != []
    ensures Allocating(s, sandboxId, input, o, NewRow(s, sandboxId, plan, o))
  {
    NewNameIs(s.namePrefix, sandboxId);
    SpecIsConfigured(s.defaults, o.volumes, input);
    SpecPortsPublish(s.defaults, input);
    assert Asked(Requested(s.defaults, input)[0], plan.spec.ports[0]);
  }

  /** A failed request for a new runtime: without ports for the first lease nothing is left; without ports for the
      second
      one a row without ports and without leases is; and when the host fails, that row and 2n leases are. */
  lemma NewRejected(s: Settings, db: Db, sandboxId: string, input: Input, o: Oracle)
    requires Base(s, db) && Unambiguous(db) && Normalized(sandboxId) && o.freshId !in db.runtimes
    requires BySandboxId(db, sandboxId).None? && MakePlan(s, db, sandboxId, input, o).Ok?
    requires Provision(s, db, sandboxId, input, o).1.Rejected?
    ensures var (after, out) := Provision(s, db, sandboxId, input, o);
            var n, free := PortCount(Requested(s.defaults, input), SshWanted(input)), Free(db.leases, s.range);
            if |free| < n then after == db
            else
              && o.freshId in after.runtimes && Allocating(s, sandboxId, input, o, after.runtimes[o.freshId])
              && (if |free| < 2 * n then after.leases == db.leases
                  else LeasesAdded(db.leases, after.leases, s.range, 2 * n, o.freshId))
  {
    var plan := MakePlan(s, db, sandboxId, input, o).value;
    PlanHasPorts(s, db, sandboxId, input, o);
    PlanParts(s, db, sandboxId, input, o);
    PlanLookup(s, db, sandboxId, input, o);
    NameIsRefusedExactly(input.name);
    SpecPortCount(s, o.volumes, input, plan.spec);
    PlannedRowFits(s, db, sandboxId, input, o);
    NewRowIsAllocating(s, sandboxId, input, plan, o);
    FreshExactly(s, db, sandboxId, plan, o);
    var (after, out) := Provision(s, db, sandboxId, input, o);
    FreshRejected(s, db, NewRow(s, sandboxId, plan, o), plan, o, after, out);
  }

  lemma FreshRejected(s: Settings, db: Db, row: Row, plan: Plan, o: Oracle, after: Db, out: Outcome)
    requires plan.spec.ports != [] && FreshResult(s, db, row, plan, o, after, out) && out.Rejected?
    ensures var n, free := |plan.spec.ports|, Free(db.leases, s.range);
            if |free| < n then after == db
            else
              && o.freshId in after.runtimes && after.runtimes[o.freshId] == row
              && (if |free| < 2 * n then after.leases == db.leases
                  else LeasesAdded(db.leases, after.leases, s.range, 2 * n, o.freshId))
  {
    var n, free := |plan.spec.ports|, Free(db.leases, s.range);
    if 2 * n <= |free| {
      GrantTwice(db.leases, free, n, o.freshId);
      GrantAdds(db.leases, s.range, 2 * n, o.freshId);
    }
  }

  /** A request that is refused before a plan is made changes nothing. */
  lemma RefusalChangesNothing(s: Settings, db: Db, sandboxId: string, input: Input, o: Oracle)
    requires Schema(db.runtimes) && Unambiguous(db) && Normalized(sandboxId)
    requires var inputs := if input.volumes.Some? then input.volumes.value else [];
             || NameRefused(input.name) || TakenByOther(db, WantedName(input.name), sandboxId)
             || exists i, e :: FailsAt(o.volumes, inputs, i, e)
    ensures Provision(s, db, sandboxId, input, o).0 == db && !ProvisionCreates(s, db, sandboxId, input, o)
  {
    var inputs := input.volumes.GetOr([]);
    PlanIsExact(s, db, sandboxId, input, o);
    MountsOfIsExact(o.volumes, inputs);
    if MountsOf(o.volumes, inputs).Ok? {
      NoneFails(o.volumes, inputs, MountsOf(o.volumes, inputs).value);
    }
  }
}
