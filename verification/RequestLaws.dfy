/** What create, ensure and update answer and persist, from the request to the tables. */
module RequestLaws {
  import opened Prelude
  import opened PortLeases
  import opened Text
  import opened Identity
  import opened RuntimeSpecs
  import opened ControlPlane
  import opened ControlPlaneLaws
  import opened ControlPlaneRuns
  import opened ReprovisionLaws
  import opened OperationLaws
  import opened ProvisionOutcomes
  import opened KeyLaws

  /** The tables between two operations, and an oracle whose keys are new. */
  ghost predicate Ready(s: Settings, db: Db, o: Oracle) {
    && GoodDefaults(s.defaults) && Base(s, db) && RowsOk(db.runtimes) && Unambiguous(db) && FreshOracle(db, o)
  }

  // ----- Create -----

  lemma CreateIs(s: Settings, db: Db, input: Input, o: Oracle)
    ensures var op := Create(input);
            if NameRefused(input.name)
                then Apply(s, db, op, o) == (db, Rejected(InvalidName)) && !OpCreates(s, db, op, o)
            else if WantedName(input.name).Some? && Known(db, WantedName(input.name).value)
            then Apply(s, db, op, o) == (db, Rejected(NameTaken)) && !OpCreates(s, db, op, o)
            else
              var id := WantedName(input.name).GetOr(o.randomId);
              && Apply(s, db, op, o) == Provision(s, db, id, input.(forceRecreate := Some(false)), o)
              && (OpCreates(s, db, op, o) <==> ProvisionCreates(s, db, id, input.(forceRecreate := Some(false)), o))
  {
    NameIsRefusedExactly(input.name);
  }

  /** Every answer of a create call, in the order of its checks. A name is taken when any runtime has it as id or
      name. */
  lemma CreateAnswers(s: Settings, db: Db, input: Input, o: Oracle)
    requires Ready(s, db, o)
    ensures var out := Apply(s, db, Create(input), o).1;
            if NameRefused(input.name) then out == Rejected(InvalidName)
            else if WantedName(input.name).Some? && Known(db, WantedName(input.name).value)
                then out == Rejected(NameTaken)
            else VolumesOr(o, InputsOf(input.volumes), out, NewAnswer(s, |Free(db.leases, s.range)|, input, o))
  {
    CreateIs(s, db, input, o);
    if !NameRefused(input.name) && !(WantedName(input.name).Some? && Known(db, WantedName(input.name).value)) {
      var asked, id := input.(forceRecreate := Some(false)), WantedName(input.name).GetOr(o.randomId);
      WantedIsNormalized(input.name);
      NewIdIsUnknown(db, input.name, id, o);
      ProvisionAnswers(s, db, id, asked, o);
      NewAnswerIs(s, db, input, id, o);
    }
  }

  lemma NewAnswerIs(s: Settings, db: Db, input: Input, id: string, o: Oracle)
    requires BySandboxId(db, id).None?
    ensures var asked, free := input.(forceRecreate := Some(false)), |Free(db.leases, s.range)|;
            PortsAnswer(s, free, asked, RowOf(db, id), IdOf(db, id, o), o) == NewAnswer(s, free, input, o)
  {
    SamePortsRequested(s.defaults, input);
  }

  lemma WantedIsNormalized(name: Option<string>)
    ensures WantedName(name).Some? ==> Normalized(WantedName(name).value)
  {
    if name.Some? {
      NormalizeGivesIdentity(name.value);
    }
  }

  lemma NewIdIsUnknown(db: Db, name: Option<string>, id: string, o: Oracle)
    requires FreshOracle(db, o) && id == WantedName(name).GetOr(o.randomId)
    requires !(WantedName(name).Some? && Known(db, WantedName(name).value))
    ensures BySandboxId(db, id).None? && ByName(db, id).None? && !TakenByOther(db, WantedName(name), id)
  {
  }

  /** The answer for a runtime that does not exist yet: twice as many ports are needed as are asked for. */
  function NewAnswer(s: Settings, free: nat, input: Input, o: Oracle): Outcome {
    if free < 2 * PortCount(Requested(s.defaults, input), SshWanted(input)) then Rejected(NoFreePorts)
    else if o.creation.Fatal? then Rejected(AdapterFailure)
    else Done(o.freshId)
  }

  /** A provision for an id that no runtime has. */
  lemma NewFulfils(s: Settings, db: Db, id: string, input: Input, o: Oracle)
    requires Ready(s, db, o) && Normalized(id) && BySandboxId(db, id).None?
    requires Provision(s, db, id, input, o).1.Done?
    ensures var (after, out) := Provision(s, db, id, input, o);
            && out == Done(o.freshId) && out.id in after.runtimes
            && after.runtimes[out.id].sandboxId == id && Fulfils(s, o.volumes, input, after.runtimes[out.id])
            && StatusAfterCreation(input, o, after.runtimes[out.id]) && NewIdentity(s, id, o, after.runtimes[out.id])
            && ProvisionCreates(s, db, id, input, o)
  {
    ProvisionFulfils(s, db, id, input, o);
    ProvisionStatus(s, db, id, input, o);
    ProvisionHostPorts(s, db, id, input, o);
  }

  lemma SameConfiguration(d: Defaults, volumes: VolumeDirectory, input: Input, c: Config)
    ensures Configured(d, volumes, input.(forceRecreate := Some(false)), c) <==> Configured(d, volumes, input, c)
  {
  }

  lemma SamePortsRequested(d: Defaults, input: Input)
    ensures var asked := input.(forceRecreate := Some(false));
            Requested(d, asked) == Requested(d, input) && SshWanted(asked) == SshWanted(input)
  {
  }

  lemma ForcingDoesNotMatter(s: Settings, input: Input, o: Oracle, row: Row)
    ensures var asked := input.(forceRecreate := Some(false));
            && (Fulfils(s, o.volumes, asked, row) <==> Fulfils(s, o.volumes, input, row))
            && (StatusAfterCreation(asked, o, row) <==> StatusAfterCreation(input, o, row))
  {
    SameConfiguration(s.defaults, o.volumes, input, row.config);
    SamePortsRequested(s.defaults, input);
  }

  /** A successful create makes a new runtime: its id is the name asked for or a random one, its row is what was asked
      for with the status of the host's answer, and the host was asked to create the sandbox. */
  lemma CreateFulfils(s: Settings, db: Db, input: Input, o: Oracle)
    requires Ready(s, db, o) && Apply(s, db, Create(input), o).1.Done?
    ensures var (after, out) := Apply(s, db, Create(input), o);
            var id := WantedName(input.name).GetOr(o.randomId);
            && out.id == o.freshId && out.id in after.runtimes && out.id !in db.runtimes
            && after.runtimes[out.id].sandboxId == id && Fulfils(s, o.volumes, input, after.runtimes[out.id])
            && StatusAfterCreation(input, o, after.runtimes[out.id]) && NewIdentity(s, id, o, after.runtimes[out.id])
            && OpCreates(s, db, Create(input), o)
  {
    var asked := input.(forceRecreate := Some(false));
    var id := WantedName(input.name).GetOr(o.randomId);
    CreateIs(s, db, input, o);
    WantedIsNormalized(input.name);
    NewIdIsUnknown(db, input.name, id, o);
    NewFulfils(s, db, id, asked, o);
    ForcingDoesNotMatter(s, input, o, Apply(s, db, Create(input), o).0.runtimes[o.freshId]);
  }

  // ----- Ensure -----

  /** The id an ensure call is about: the explicit one, or else the name, or else a random one. */
  function EnsuredId(explicitId: Option<string>, name: Option<string>, o: Oracle): Option<string> {
    var seed := if explicitId.Some? then explicitId else name;
    if Blank(seed) then Some(o.randomId) else Normalize(seed.value)
  }

  lemma EnsureIs(s: Settings, db: Db, explicitId: Option<string>, input: Input, o: Oracle)
    requires Normalized(o.randomId)
    ensures var op, id := Ensure(explicitId, input), EnsuredId(explicitId, input.name, o);
            && (id.None? ==> Apply(s, db, op, o) == (db, Rejected(InvalidName)) && !OpCreates(s, db, op, o))
            && (id.Some? ==>
                  && Normalized(id.value) && Apply(s, db, op, o) == Provision(s, db, id.value, input, o)
                  && (OpCreates(s, db, op, o) <==> ProvisionCreates(s, db, id.value, input, o)))
  {
    SandboxIdIsNormalized(Either(explicitId, input.name), o);
  }

  /** Every answer of an ensure call, in the order of its checks. */
  lemma EnsureAnswers(s: Settings, db: Db, explicitId: Option<string>, input: Input, o: Oracle)
    requires Ready(s, db, o)
    ensures var out, id := Apply(s, db, Ensure(explicitId, input), o).1, EnsuredId(explicitId, input.name, o);
            if id.None? || NameRefused(input.name) then out == Rejected(InvalidName)
            else if TakenByOther(db, WantedName(input.name), id.value) then out == Rejected(NameTaken)
            else VolumesOr(o, InputsOf(input.volumes), out,
                   PortsAnswer(s, |Free(db.leases, s.range)|, input, RowOf(db, id.value), IdOf(db, id.value, o), o))
  {
    var id := EnsuredId(explicitId, input.name, o);
    EnsureIs(s, db, explicitId, input, o);
    if id.Some? {
      ProvisionAnswers(s, db, id.value, input, o);
    }
  }

  /** A successful ensure leaves a runtime with that id that is what was asked for. Its status is the host's answer when
      the sandbox was created, and that is exactly when there was no row that already was what is asked for, in order
      and well. */
  lemma EnsureFulfils(s: Settings, db: Db, explicitId: Option<string>, input: Input, o: Oracle)
    requires Ready(s, db, o) && Apply(s, db, Ensure(explicitId, input), o).1.Done?
    ensures var op, id := Ensure(explicitId, input), EnsuredId(explicitId, input.name, o);
            var (after, out) := Apply(s, db, op, o);
            && id.Some? && out.id == IdOf(db, id.value, o) && out.id in after.runtimes
            && var row, was := after.runtimes[out.id], RowOf(db, id.value);
            && row.sandboxId == id.value && Fulfils(s, o.volumes, input, row)
            && (OpCreates(s, db, op, o) <==> !(was.Some? && AlreadyThere(s, input, o, was.value)))
            && (if OpCreates(s, db, op, o) then StatusAfterCreation(input, o, row)
                else StatusAfterKeeping(input, was.value, row))
  {
    EnsureIs(s, db, explicitId, input, o);
    var id := EnsuredId(explicitId, input.name, o).value;
    ProvisionFulfils(s, db, id, input, o);
    ProvisionStatus(s, db, id, input, o);
    ProvisionHostPorts(s, db, id, input, o);
    DoneCreatesExactly(s, db, id, input, o);
  }

  // ----- Update -----

  /** The ports after an update: the patch's if it names any, else those of the row; the default one if these are
      none. */
  function PortsAfter(d: Defaults, row: Row, patch: Input): (r: seq<PortInput>)
    ensures r != []
  {
    var own := seq(|row.portBindings|, i requires 0 <= i < |row.portBindings| =>
      PortInput(row.portBindings[i].name, row.portBindings[i].containerPort, Some(row.portBindings[i].protocol)));
    var ports := if patch.ports.Some? then patch.ports.value else own;
    if ports != [] then ports else [PortInput(None, d.exposedPort, None)]
  }

  lemma UpdateRequests(d: Defaults, row: Row, patch: Input)
    ensures Requested(d, UpdateInput(row, patch)) == PortsAfter(d, row, patch) && SshWanted(UpdateInput(row, patch))
  {
    var input := UpdateInput(row, patch);
    if patch.ports.None? {
      forall i | 0 <= i < |row.portBindings|
        ensures input.ports.value[i]
             == PortInput(row.portBindings[i].name, row.portBindings[i].containerPort,
                 Some(row.portBindings[i].protocol))
      {
      }
    }
    assert patch.ports.None? ==> |input.ports.value| == |row.portBindings|;
  }

  lemma RowNameIsKept(row: Row)
    requires RowOk(row)
    ensures !NameRefused(row.name) && WantedName(row.name) == row.name
  {
    if row.name.Some? {
      NamesAreKept(row.name.value);
      NameIsRefusedExactly(row.name);
    }
  }

  /** An update finds its runtime by id alone, never by name. */
  lemma UpdateIs(s: Settings, db: Db, key: string, patch: Input, o: Oracle)
    ensures var op, id := Update(key, patch), Normalize(key);
            if id.None? then Apply(s, db, op, o) == (db, Rejected(InvalidName)) && !OpCreates(s, db, op, o)
            else if RowOf(db, id.value).None?
                then Apply(s, db, op, o) == (db, Rejected(NotFound)) && !OpCreates(s, db, op, o)
            else
              var input := UpdateInput(RowOf(db, id.value).value, patch);
              && Apply(s, db, op, o) == Provision(s, db, id.value, input, o)
              && (OpCreates(s, db, op, o) <==> ProvisionCreates(s, db, id.value, input, o))
  {
  }

  /** The row after an update with this patch, of a row in canonical form. */
  ghost predicate Updated(s: Settings, o: Oracle, patch: Input, before: Row, row: Row) {
    && row.sandboxId == before.sandboxId && row.sandboxName == before.sandboxName && row.authToken == before.authToken
    && row.name == (if patch.name.None? then before.name else WantedName(patch.name))
    && row.public == (if patch.public.None? then before.public else patch.public.value)
    && ConfigUpdated(s.defaults, o.volumes, patch, before.config, row.config)
    && Publishes(PortsAfter(s.defaults, before, patch), true, row.portBindings)
  }

  /** A column changes exactly if the patch names it. */
  ghost predicate ConfigUpdated(d: Defaults, volumes: VolumeDirectory, patch: Input, was: Config, c: Config) {
    && c.image
        == (if patch.image.None? then was.image else if Blank(patch.image) then d.image else Trim(patch.image.value))
    && c.command
        == (if patch.command.None? then was.command else if patch.command.value == [] then None else patch.command)
    && c.environment == (if patch.env.None? then was.environment else patch.env)
    && (if patch.secrets.None? then c.secrets == was.secrets
        else c.secrets.Some? && SecretsAre(patch.secrets.value, c.secrets.value))
    && c.workingDir == (if patch.workingDir.None? then was.workingDir
                        else if Blank(patch.workingDir) then None else Some(Trim(patch.workingDir.value)))
    && (if patch.volumes.None? then c.mounts == was.mounts
        else c.mounts.Some? && MountsAre(volumes, patch.volumes.value, c.mounts.value))
    && c.cpu == (if patch.cpu.None? then was.cpu else patch.cpu.value)
    && c.memoryMiB == (if patch.memoryMiB.None? then was.memoryMiB else patch.memoryMiB.value)
    && c.diskGiB == (if patch.diskGiB.None? then was.diskGiB else patch.diskGiB.value)
    && c.autoStopMinutes == (if patch.autoStopMinutes.None? then was.autoStopMinutes
                             else if patch.autoStopMinutes.value > 0 then patch.autoStopMinutes else None)
    && c.ephemeral == (if patch.ephemeral.None? then was.ephemeral else patch.ephemeral.value)
  }

  lemma PatchedIsUpdated(d: Defaults, volumes: VolumeDirectory, row: Row, patch: Input, c: Config)
    requires RowOk(row) && Configured(d, volumes, UpdateInput(row, patch), c)
    requires patch.volumes.None? ==> VolumesResolve(volumes, row.config.mounts.value)
    requires c == Patched(d, row.config, c.mounts.GetOr([]), patch)
    ensures ConfigUpdated(d, volumes, patch, row.config, c)
  {
  }

  lemma UpdateConfigures(s: Settings, row: Row, patch: Input, o: Oracle, c: Config)
    requires RowOk(row) && Configured(s.defaults, o.volumes, UpdateInput(row, patch), c)
    requires patch.volumes.None? ==> VolumesResolve(o.volumes, row.config.mounts.value)
    requires BuildSpec(s.defaults, o.volumes, UpdateInput(row, patch)).Ok?
    ensures ConfigUpdated(s.defaults, o.volumes, patch, row.config, c)
  {
    var input := UpdateInput(row, patch);
    var spec := BuildSpec(s.defaults, o.volumes, input).value;
    UpdateLaw(s.defaults, o.volumes, row, patch);
    SpecIsConfigured(s.defaults, o.volumes, input);
    ConfiguredIsUnique(s.defaults, o.volumes, input, c, spec.config);
    PatchedIsUpdated(s.defaults, o.volumes, row, patch, c);
  }

  lemma UpdateNames(row: Row, patch: Input)
    requires RowOk(row)
    ensures WantedName(UpdateInput(row, patch).name) == (if patch.name.None? then row.name else WantedName(patch.name))
    ensures NameRefused(UpdateInput(row, patch).name) <==> patch.name.Some? && NameRefused(patch.name)
  {
    RowNameIsKept(row);
  }

  /** A key that is the id of this runtime, between two operations. */
  ghost predicate Updating(s: Settings, db: Db, key: string, id: RuntimeId, o: Oracle) {
    Ready(s, db, o) && id in db.runtimes && Normalize(key) == Some(db.runtimes[id].sandboxId)
  }

  lemma UpdateProvisions(s: Settings, db: Db, key: string, id: RuntimeId, patch: Input, o: Oracle)
    requires Updating(s, db, key, id, o)
    ensures var before := db.runtimes[id];
            var input := UpdateInput(before, patch);
            && RowOk(before) && Normalized(before.sandboxId) && RowOf(db, before.sandboxId) == Some(before)
            && IdOf(db, before.sandboxId, o) == id
            && Apply(s, db, Update(key, patch), o) == Provision(s, db, before.sandboxId, input, o)
            && (OpCreates(s, db, Update(key, patch), o) <==> ProvisionCreates(s, db, before.sandboxId, input, o))
  {
    FoundByOwnName(db, id, o.preferName);
    UpdateIs(s, db, key, patch, o);
    assert RowOk(db.runtimes[id]);
  }

  lemma FulfilledIsUpdated(s: Settings, before: Row, patch: Input, o: Oracle, row: Row)
    requires RowOk(before) && Fulfils(s, o.volumes, UpdateInput(before, patch), row)
    requires BuildSpec(s.defaults, o.volumes, UpdateInput(before, patch)).Ok?
    requires patch.volumes.None? ==> VolumesResolve(o.volumes, before.config.mounts.value)
    requires row.sandboxId == before.sandboxId && row.sandboxName == before.sandboxName
        && row.authToken == before.authToken
    ensures Updated(s, o, patch, before, row)
  {
    UpdateRequests(s.defaults, before, patch);
    UpdateNames(before, patch);
    UpdateConfigures(s, before, patch, o, row.config);
  }

  /** A successful update, for every patch: each column, the name, the visibility and the ports are those of the patch
      where it names them and those of the row where it does not, and an ssh binding is added if no port is 22. */
  lemma UpdateFulfils(s: Settings, db: Db, key: string, id: RuntimeId, patch: Input, o: Oracle)
    requires Updating(s, db, key, id, o) && Apply(s, db, Update(key, patch), o).1.Done?
    requires patch.volumes.None? ==> VolumesResolve(o.volumes, db.runtimes[id].config.mounts.GetOr([]))
    ensures var (after, out) := Apply(s, db, Update(key, patch), o);
            out == Done(id) && id in after.runtimes && Updated(s, o, patch, db.runtimes[id], after.runtimes[id])
  {
    var before := db.runtimes[id];
    var input := UpdateInput(before, patch);
    UpdateProvisions(s, db, key, id, patch, o);
    ProvisionFulfils(s, db, before.sandboxId, input, o);
    ProvisionStatus(s, db, before.sandboxId, input, o);
    ProvisionHostPorts(s, db, before.sandboxId, input, o);
    PlanParts(s, db, before.sandboxId, input, o);
    FulfilledIsUpdated(s, before, patch, o, Apply(s, db, Update(key, patch), o).0.runtimes[id]);
  }

  /** ... its host ports stay by position, the others are the first free ones, and exactly these are leased. */
  lemma UpdateHostPorts(s: Settings, db: Db, key: string, id: RuntimeId, patch: Input, o: Oracle)
    requires Updating(s, db, key, id, o) && Apply(s, db, Update(key, patch), o).1.Done?
    ensures var after := Apply(s, db, Update(key, patch), o).0;
            var before := db.runtimes[id].portBindings;
            var n := PortCount(PortsAfter(s.defaults, db.runtimes[id], patch), true);
            && id in after.runtimes && |after.runtimes[id].portBindings| == n
            && HostPortsFollow(before, Free(db.leases, s.range), after.runtimes[id].portBindings)
            && LeasesAdded(db.leases, after.leases, s.range, if n < |before| then 0 else n - |before|, id)
  {
    var before := db.runtimes[id];
    UpdateProvisions(s, db, key, id, patch, o);
    UpdateRequests(s.defaults, before, patch);
    ProvisionHostPorts(s, db, before.sandboxId, UpdateInput(before, patch), o);
  }

  /** ... and its status is the host's answer if the sandbox was created, as it is whenever the patch forces it. */
  lemma UpdateStatus(s: Settings, db: Db, key: string, id: RuntimeId, patch: Input, o: Oracle)
    requires Updating(s, db, key, id, o) && Apply(s, db, Update(key, patch), o).1.Done?
    ensures var after := Apply(s, db, Update(key, patch), o).0;
            var creates := OpCreates(s, db, Update(key, patch), o);
            && id in after.runtimes
            && (creates ==> StatusAfterCreation(EMPTY_PATCH, o, after.runtimes[id]))
            && (!creates ==> StatusAfterKeeping(patch, db.runtimes[id], after.runtimes[id]))
            && (patch.forceRecreate == Some(true) || !(o.hostStatus.Running? && o.healthy) ==> creates)
  {
    var before := db.runtimes[id];
    var input := UpdateInput(before, patch);
    UpdateProvisions(s, db, key, id, patch, o);
    ProvisionHostPorts(s, db, before.sandboxId, input, o);
    ProvisionStatus(s, db, before.sandboxId, input, o);
    DoneCreatesExactly(s, db, before.sandboxId, input, o);
    SameStatus(before, patch, o, Apply(s, db, Update(key, patch), o).0.runtimes[id]);
  }

  lemma SameStatus(before: Row, patch: Input, o: Oracle, row: Row)
    ensures StatusAfterKeeping(UpdateInput(before, patch), before, row) <==> StatusAfterKeeping(patch, before, row)
    ensures StatusAfterCreation(UpdateInput(before, patch), o, row) <==> StatusAfterCreation(EMPTY_PATCH, o, row)
  {
  }

  /** Every answer of an update, in the order of its checks. */
  lemma UpdateAnswers(s: Settings, db: Db, key: string, id: RuntimeId, patch: Input, o: Oracle)
    requires Updating(s, db, key, id, o)
    ensures var out, before := Apply(s, db, Update(key, patch), o).1, db.runtimes[id];
            var input := UpdateInput(before, patch);
            if patch.name.Some? && NameRefused(patch.name) then out == Rejected(InvalidName)
            else if patch.name.Some? && TakenByOther(db, WantedName(patch.name), before.sandboxId)
                then out == Rejected(NameTaken)
            else VolumesOr(o, InputsOf(input.volumes), out,
                   if |Free(db.leases, s.range)|
                      < PortCount(PortsAfter(s.defaults, before, patch), true) - |before.portBindings|
                   then Rejected(NoFreePorts) else HostAnswer(s, input, Some(before), id, o))
  {
    var before := db.runtimes[id];
    var input := UpdateInput(before, patch);
    UpdateProvisions(s, db, key, id, patch, o);
    UpdateRequests(s.defaults, before, patch);
    UpdateNames(before, patch);
    if patch.name.None? {
      LookupIsUnambiguous(db, before.sandboxId);
      OwnNameIsNotTaken(db, id);
    }
    ProvisionAnswers(s, db, before.sandboxId, input, o);
  }

  lemma OwnNameIsNotTaken(db: Db, id: RuntimeId)
    requires Schema(db.runtimes) && Unambiguous(db) && id in db.runtimes
    ensures !TakenByOther(db, db.runtimes[id].name, db.runtimes[id].sandboxId)
  {
    if db.runtimes[id].name.Some? {
      LookupIsUnambiguous(db, db.runtimes[id].name.value);
    }
  }
}
