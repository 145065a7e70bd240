/** The operations as wholes, and every sequential run of them. */
module ControlPlaneRuns {
  import opened Prelude
  import opened PortLeases
  import opened Identity
  import opened RuntimeSpecs
  import opened ControlPlane
  import opened ControlPlaneLaws

  // ----- One provision -----

  /** The runtime a planned provision works on. */
  ghost function Target(plan: Plan, o: Oracle): RuntimeId {
    plan.existing.GetOr(o.freshId)
  }

  lemma PlanLookup(s: Settings, db: Db, sandboxId: string, input: Input, o: Oracle)
    requires Normalized(sandboxId) && MakePlan(s, db, sandboxId, input, o).Ok?
    ensures MakePlan(s, db, sandboxId, input, o).value.existing == BySandboxId(db, sandboxId)
  {
    IdentitiesAreFixed(sandboxId);
  }

  /** A provision, successful or not, keeps the tables consistent and touches one runtime only. */
  lemma ProvisionKeepsBase(s: Settings, db: Db, sandboxId: string, input: Input, o: Oracle)
    requires Base(s, db) && o.freshId !in db.runtimes && Normalized(sandboxId)
    ensures Base(s, Provision(s, db, sandboxId, input, o).0)
    ensures var plan := MakePlan(s, db, sandboxId, input, o);
            if plan.Ok? then OnlyTouches(db, Provision(s, db, sandboxId, input, o).0, Target(plan.value, o))
            else Provision(s, db, sandboxId, input, o).0 == db
  {
    var p := MakePlan(s, db, sandboxId, input, o);
    if p.Ok? {
      PlanHasPorts(s, db, sandboxId, input, o);
      PlanLookup(s, db, sandboxId, input, o);
      if p.value.existing.None? {
        FreshKeepsBase(s, db, sandboxId, p.value, o);
      } else {
        ExistingKeepsBase(s, db, p.value.existing.value, p.value, input.forceRecreate == Some(true), o);
      }
    }
  }

  lemma ProvisionKeepsRows(s: Settings, db: Db, sandboxId: string, input: Input, o: Oracle)
    requires GoodDefaults(s.defaults) && RowsOk(db.runtimes) && o.freshId !in db.runtimes && Normalized(sandboxId)
    ensures RowsOk(Provision(s, db, sandboxId, input, o).0.runtimes)
  {
    var p := MakePlan(s, db, sandboxId, input, o);
    if p.Ok? {
      PlanHasPorts(s, db, sandboxId, input, o);
      PlanIsGood(s, db, sandboxId, input, o);
      if p.value.existing.None? {
        FreshKeepsRows(s, db, sandboxId, p.value, o);
      } else {
        ExistingKeepsRows(s, db, p.value.existing.value, p.value, input.forceRecreate == Some(true), o);
      }
    }
  }

  /** The request needs more ports for a runtime that already publishes some, and they are not free. */
  ghost predicate ProvisionGrowthFails(s: Settings, db: Db, sandboxId: string, input: Input, o: Oracle) {
    var p := MakePlan(s, db, sandboxId, input, o);
    && p.Ok? && p.value.existing.Some?
    && GrowthFails(s, db, p.value.existing.value, p.value, input.forceRecreate == Some(true))
  }

  /** Bindings stay leased exactly unless growth fails; fresh failures, shrinks and failed creations do no harm. */
  lemma ProvisionLeasesExactly(s: Settings, db: Db, sandboxId: string, input: Input, o: Oracle)
    requires Base(s, db) && BindingsLeased(db) && o.freshId !in db.runtimes && Normalized(sandboxId)
    ensures BindingsLeased(Provision(s, db, sandboxId, input, o).0) <==>
        !ProvisionGrowthFails(s, db, sandboxId, input, o)
  {
    var p := MakePlan(s, db, sandboxId, input, o);
    if p.Ok? {
      var plan := p.value;
      var (after, _) := Provision(s, db, sandboxId, input, o);
      PlanHasPorts(s, db, sandboxId, input, o);
      PlanLookup(s, db, sandboxId, input, o);
      ProvisionKeepsBase(s, db, sandboxId, input, o);
      OthersStayLeased(db, after, Target(plan, o));
      if plan.existing.None? {
        FreshKeepsBase(s, db, sandboxId, plan, o);
      } else {
        ExistingLeases(s, db, plan.existing.value, plan, input.forceRecreate == Some(true), o);
      }
    }
  }

  // ----- The other operations -----

  lemma DeleteIs(db: Db, id: RuntimeId, o: Oracle)
    requires id in db.runtimes && o.removed
    ensures DeleteFound(db, id, o) ==
            (Db(db.runtimes - {id}, Without(db.leases, id),
                set v | v in db.previews && v.sandboxId != db.runtimes[id].sandboxId), Done(id))
  {
    var row := db.runtimes[id];
    assert db.runtimes[id := row.(status := Deleting, statusReason := Some("delete_requested"))] - {id}
        == db.runtimes - {id};
    assert Without(Without(db.leases, id), id) == Without(db.leases, id);
  }

  /** A delete returns every lease of its runtime, surplus ones included, removes its preview tokens,
      and leaves every other runtime's row, leases and preview tokens alone. */
  lemma DeleteExactly(s: Settings, db: Db, id: RuntimeId, o: Oracle)
    requires Base(s, db) && id in db.runtimes && o.removed
    ensures var (after, out) := DeleteFound(db, id, o);
            && out == Done(id) && after.runtimes == db.runtimes - {id}
            && (forall p :: p in after.leases <==> p in db.leases && db.leases[p] != id)
            && |Free(after.leases, s.range)| == |Free(db.leases, s.range)| + |set p | p in db.leases
                && db.leases[p] == id|
            && (forall v :: v in after.previews ==> v in db.previews && v.sandboxId != db.runtimes[id].sandboxId)
            && (forall v, other | v in db.previews && other in after.runtimes
                && v.sandboxId == after.runtimes[other].sandboxId ::
                  v in after.previews)
            && Base(s, after)
  {
    DeleteIs(db, id, o);
    var (after, _) := DeleteFound(db, id, o);
    FreePlusLeased(db.leases, s.range);
    FreePlusLeased(after.leases, s.range);
    var held := set p | p in db.leases && db.leases[p] == id;
    assert db.leases.Keys == after.leases.Keys + held;
    assert |db.leases.Keys| == |after.leases.Keys| + |held|;
    forall v | v in after.previews ensures BySandboxId(after, v.sandboxId).Some? {
      var holder := BySandboxId(db, v.sandboxId).value;
      assert holder in after.runtimes && after.runtimes[holder].sandboxId == v.sandboxId;
    }
  }

  /** Changing only a row's status columns keeps everything. */
  lemma StatusKeeps(s: Settings, db: Db, id: RuntimeId, row: Row)
    requires Base(s, db) && id in db.runtimes
    requires row == db.runtimes[id].(status := row.status, statusReason := row.statusReason)
    ensures var after := db.(runtimes := db.runtimes[id := row]);
            && Base(s, after)
            && (BindingsLeased(db) ==> BindingsLeased(after))
            && (Unambiguous(db) ==> Unambiguous(after))
  {
    SchemaIgnoresRest(db.runtimes, id, db.runtimes[id], row);
    assert db.runtimes[id := db.runtimes[id]] == db.runtimes;
    SaveKeepsBase(s, db, id, row);
  }

  lemma StatusKeepsRows(runtimes: map<RuntimeId, Row>, id: RuntimeId, row: Row)
    requires RowsOk(runtimes) && id in runtimes
    requires row == runtimes[id].(status := row.status, statusReason := row.statusReason)
    ensures RowsOk(runtimes[id := row])
  {
    assert RowOk(runtimes[id]);
    RowsOkUpdate(runtimes, id, row);
  }

  // ----- Unambiguous lookups -----

  /** No runtime is called what another one has as its id. */
  ghost predicate Unambiguous(db: Db) {
    forall i, j :: i in db.runtimes && j in db.runtimes && i != j ==>
        db.runtimes[i].name != Some(db.runtimes[j].sandboxId)
  }

  predicate Matches(row: Row, value: string) {
    row.sandboxId == value || row.name == Some(value)
  }

  /** Then a string denotes at most one runtime, and it does not matter which row the query returns first. */
  lemma LookupIsUnambiguous(db: Db, value: string)
    requires Schema(db.runtimes) && Unambiguous(db)
    ensures forall i, j ::
        i in db.runtimes && j in db.runtimes && Matches(db.runtimes[i], value) && Matches(db.runtimes[j], value) ==>
        i == j
    ensures Find(db, value, true) == Find(db, value, false)
  {
  }

  /** A planned name belongs to no runtime but the planned one. */
  lemma PlannedNameIsFree(s: Settings, db: Db, sandboxId: string, input: Input, o: Oracle, other: RuntimeId)
    requires Schema(db.runtimes) && Unambiguous(db) && MakePlan(s, db, sandboxId, input, o).Ok?
    requires other in db.runtimes && db.runtimes[other].sandboxId != sandboxId
    ensures var name := MakePlan(s, db, sandboxId, input, o).value.name;
            name.Some? ==> !Matches(db.runtimes[other], name.value)
  {
    var name := MakePlan(s, db, sandboxId, input, o).value.name;
    if name.Some? && Matches(db.runtimes[other], name.value) {
      LookupIsUnambiguous(db, name.value);
    }
  }

  /** What a provision writes into its row: the id stays, the name is the old or the planned one. */
  lemma ExistingIdentity(s: Settings, db: Db, id: RuntimeId, plan: Plan, forced: bool, o: Oracle)
    requires id in db.runtimes && plan.spec.ports != []
    ensures var (after, _) := ProvisionExisting(s, db, id, plan, forced, o);
            && id in after.runtimes && after.runtimes[id].sandboxId == db.runtimes[id].sandboxId
            && (after.runtimes[id].name == db.runtimes[id].name || after.runtimes[id].name == plan.name)
  {
    var row := db.runtimes[id];
    var replace := forced || RequiresRecreate(row, plan.spec, plan.name);
    if replace {
      var leased := StartRows(s, db.(runtimes := db.runtimes[id := ReplacedRow(row, plan, forced)]), id, plan, o);
    } else if !(o.hostStatus.Running? && o.healthy) {
      var leased := StartRows(s, db, id, plan, o);
    }
  }

  lemma FreshIdentity(s: Settings, db: Db, sandboxId: string, plan: Plan, o: Oracle)
    requires plan.spec.ports != [] && o.freshId !in db.runtimes
    ensures var (after, _) := ProvisionFresh(s, db, sandboxId, plan, o);
            o.freshId in after.runtimes ==>
              after.runtimes[o.freshId].sandboxId == sandboxId && after.runtimes[o.freshId].name == plan.name
  {
    var id := o.freshId;
    var runtimes := db.runtimes[id := NewRow(s, sandboxId, plan, o)];
    var (leases, leased) := Lease(db.leases, s.range, id, |plan.spec.ports|);
    var mid := Db(runtimes, leases, db.previews);
    var l := StartRows(s, mid, id, plan, o);
    var (after, _) := ProvisionFresh(s, db, sandboxId, plan, o);
    if !Schema(runtimes) {
      assert after == db;
    } else if leased.None? {
      assert after.runtimes == runtimes - {id};
    } else {
      assert after == Start(s, mid, id, plan, o).0;
    }
  }

  /** Only the touched runtime can make lookups ambiguous, by its name or by its id. */
  lemma UnambiguousExcept(db: Db, after: Db, id: RuntimeId)
    requires OnlyTouches(db, after, id) && Unambiguous(db)
    ensures forall other :: other in after.runtimes && other != id ==>
              other in db.runtimes && after.runtimes[other] == db.runtimes[other]
    ensures Unambiguous(after) <==>
            (id in after.runtimes ==> forall other :: other in after.runtimes && other != id ==>
               && after.runtimes[id].name != Some(after.runtimes[other].sandboxId)
               && after.runtimes[other].name != Some(after.runtimes[id].sandboxId))
  {
    forall other | other in after.runtimes && other != id
      ensures other in db.runtimes && after.runtimes[other] == db.runtimes[other]
    {
      assert other in after.runtimes - {id} && (after.runtimes - {id})[other] == (db.runtimes - {id})[other];
    }
  }

  lemma ExistingUnambiguous(s: Settings, db: Db, sandboxId: string, input: Input, o: Oracle)
    requires Base(s, db) && Unambiguous(db) && Normalized(sandboxId) && o.freshId !in db.runtimes
    requires BySandboxId(db, sandboxId).Some?
    ensures Unambiguous(Provision(s, db, sandboxId, input, o).0)
  {
    var after := Provision(s, db, sandboxId, input, o).0;
    var p := MakePlan(s, db, sandboxId, input, o);
    ProvisionKeepsBase(s, db, sandboxId, input, o);
    if p.Ok? {
      var id := Target(p.value, o);
      PlanHasPorts(s, db, sandboxId, input, o);
      PlanLookup(s, db, sandboxId, input, o);
      ExistingIdentity(s, db, id, p.value, input.forceRecreate == Some(true), o);
      UnambiguousExcept(db, after, id);
      forall other | other in after.runtimes && other != id
        ensures after.runtimes[id].name != Some(after.runtimes[other].sandboxId)
        ensures after.runtimes[other].name != Some(after.runtimes[id].sandboxId)
      {
        PlannedNameIsFree(s, db, sandboxId, input, o, other);
      }
    }
  }

  /** A request for a new runtime leaves a row behind: it is not refused before anything is written, and the first
      request for ports succeeds. */
  ghost predicate LeavesRow(s: Settings, db: Db, sandboxId: string, input: Input, o: Oracle) {
    var p := MakePlan(s, db, sandboxId, input, o);
    p.Ok? && |p.value.spec.ports| <= |Free(db.leases, s.range)|
  }

  lemma PlannedRowFits(s: Settings, db: Db, sandboxId: string, input: Input, o: Oracle)
    requires Schema(db.runtimes) && Unambiguous(db) && BySandboxId(db, sandboxId).None? && o.freshId !in db.runtimes
    requires MakePlan(s, db, sandboxId, input, o).Ok?
    ensures var plan := MakePlan(s, db, sandboxId, input, o).value;
            plan.spec.ports != [] && Schema(db.runtimes[o.freshId := NewRow(s, sandboxId, plan, o)])
  {
    var plan := MakePlan(s, db, sandboxId, input, o).value;
    PlanHasPorts(s, db, sandboxId, input, o);
    var after := db.runtimes[o.freshId := NewRow(s, sandboxId, plan, o)];
    forall other | other in db.runtimes
      ensures db.runtimes[other].sandboxId != sandboxId && (plan.name.Some? ==> db.runtimes[other].name != plan.name)
    {
      PlannedNameIsFree(s, db, sandboxId, input, o, other);
    }
    forall i, j | i in after && j in after && i != j
      ensures after[i].sandboxId != after[j].sandboxId && (after[i].name.Some? ==> after[i].name != after[j].name)
    {
    }
  }

  lemma RowStaysExactly(s: Settings, db: Db, sandboxId: string, input: Input, o: Oracle)
    requires Base(s, db) && Unambiguous(db) && Normalized(sandboxId) && o.freshId !in db.runtimes
    requires BySandboxId(db, sandboxId).None?
    ensures o.freshId in Provision(s, db, sandboxId, input, o).0.runtimes <==> LeavesRow(s, db, sandboxId, input, o)
  {
    if MakePlan(s, db, sandboxId, input, o).Ok? {
      PlannedRowFits(s, db, sandboxId, input, o);
      PlanLookup(s, db, sandboxId, input, o);
      FreshExactly(s, db, sandboxId, MakePlan(s, db, sandboxId, input, o).value, o);
    }
  }

  /** A new runtime makes lookups ambiguous exactly when its id is another runtime's name and it leaves a row. */
  lemma FreshUnambiguousExactly(s: Settings, db: Db, sandboxId: string, input: Input, o: Oracle)
    requires Base(s, db) && Unambiguous(db) && Normalized(sandboxId) && o.freshId !in db.runtimes
    requires BySandboxId(db, sandboxId).None?
    ensures Unambiguous(Provision(s, db, sandboxId, input, o).0) <==>
            !(ByName(db, sandboxId).Some? && LeavesRow(s, db, sandboxId, input, o))
  {
    RowStaysExactly(s, db, sandboxId, input, o);
    FreshUnambiguous(s, db, sandboxId, input, o);
  }

  lemma FreshUnambiguous(s: Settings, db: Db, sandboxId: string, input: Input, o: Oracle)
    requires Base(s, db) && Unambiguous(db) && Normalized(sandboxId) && o.freshId !in db.runtimes
    requires BySandboxId(db, sandboxId).None?
    ensures var after := Provision(s, db, sandboxId, input, o).0;
            Unambiguous(after) <==> !(ByName(db, sandboxId).Some? && o.freshId in after.runtimes)
  {
    var after := Provision(s, db, sandboxId, input, o).0;
    var id := o.freshId;
    var p := MakePlan(s, db, sandboxId, input, o);
    ProvisionKeepsBase(s, db, sandboxId, input, o);
    if p.Ok? {
      PlanHasPorts(s, db, sandboxId, input, o);
      PlanLookup(s, db, sandboxId, input, o);
      FreshIdentity(s, db, sandboxId, p.value, o);
      UnambiguousExcept(db, after, id);
      forall other | other in after.runtimes && other != id && id in after.runtimes
        ensures after.runtimes[id].name != Some(after.runtimes[other].sandboxId)
      {
        PlannedNameIsFree(s, db, sandboxId, input, o, other);
      }
      if ByName(db, sandboxId).Some? {
        NamedStays(db, after, id, ByName(db, sandboxId).value);
      }
    }
  }

  lemma NamedStays(db: Db, after: Db, id: RuntimeId, other: RuntimeId)
    requires OnlyTouches(db, after, id) && other in db.runtimes && other != id
    ensures other in after.runtimes && after.runtimes[other] == db.runtimes[other]
  {
    assert other in db.runtimes - {id} && (after.runtimes - {id})[other] == (db.runtimes - {id})[other];
  }

  // ----- Sequential runs -----

  type Script = seq<(Op, Oracle)>

  ghost function Run(s: Settings, db: Db, script: Script): Db
    decreases |script|
  {
    if script == [] then db else Run(s, Apply(s, db, script[0].0, script[0].1).0, script[1..])
  }

  /** Generated keys and random ids are new when they are generated. */
  ghost predicate KeysAreFresh(s: Settings, db: Db, script: Script)
    decreases |script|
  {
    script == [] ||
    (FreshOracle(db, script[0].1) && KeysAreFresh(s, Apply(s, db, script[0].0, script[0].1).0, script[1..]))
  }

  ghost predicate OpGrowthFails(s: Settings, db: Db, op: Op, o: Oracle) {
    match op
    case Ensure(explicit, input) =>
      var id := SandboxIdFor(Either(explicit, input.name), o);
      id.Some? && ProvisionGrowthFails(s, db, id.value, input, o)
    case Update(sandboxId, patch) =>
      && Normalize(sandboxId).Some? && BySandboxId(db, Normalize(sandboxId).value).Some?
      && var row := db.runtimes[BySandboxId(db, Normalize(sandboxId).value).value];
      ProvisionGrowthFails(s, db, row.sandboxId, UpdateInput(row, patch), o)
    case _ => false
  }

  ghost predicate GrowthSucceeds(s: Settings, db: Db, script: Script)
    decreases |script|
  {
    script == [] ||
    (!OpGrowthFails(s, db, script[0].0, script[0].1)
        && GrowthSucceeds(s, Apply(s, db, script[0].0, script[0].1).0, script[1..]))
  }

  /** The id an ensure call asks for is not the name of a runtime with another id. */
  ghost predicate EnsureIdIsNoName(db: Db, op: Op, o: Oracle) {
    op.Ensure? ==>
      var id := SandboxIdFor(Either(op.explicitId, op.input.name), o);
      id.Some? && ByName(db, id.value).Some? ==> BySandboxId(db, id.value).Some?
  }

  ghost predicate EnsureIdsAreNoNames(s: Settings, db: Db, script: Script)
    decreases |script|
  {
    script == [] ||
    (EnsureIdIsNoName(db, script[0].0, script[0].1)
        && EnsureIdsAreNoNames(s, Apply(s, db, script[0].0, script[0].1).0, script[1..]))
  }

  lemma SandboxIdIsNormalized(seed: Option<string>, o: Oracle)
    requires Normalized(o.randomId)
    ensures SandboxIdFor(seed, o).Some? ==> Normalized(SandboxIdFor(seed, o).value)
  {
    if seed.Some? {
      NormalizeGivesIdentity(seed.value);
    }
  }

  lemma NameIsNormalized(name: Option<string>)
    ensures NormalizeName(name).Ok? && NormalizeName(name).value.Some? ==> Normalized(NormalizeName(name).value.value)
  {
    var r := NormalizeName(name);
    if r.Ok? && r.value.Some? {
      assert r.value == Normalize(name.value);
      NormalizeGivesIdentity(name.value);
    }
  }

  lemma RowIsNormalized(db: Db, id: RuntimeId)
    requires RowsOk(db.runtimes) && id in db.runtimes
    ensures Normalized(db.runtimes[id].sandboxId)
  {
    assert RowOk(db.runtimes[id]);
  }

  lemma RowsHaveIds(db: Db)
    requires RowsOk(db.runtimes)
    ensures IdsOk(db.runtimes)
  {
    forall id | id in db.runtimes ensures Normalized(db.runtimes[id].sandboxId) {
      RowIsNormalized(db, id);
    }
  }

  /** What one operation keeps, whatever happens in it, and the two properties that need a hypothesis. */
  ghost predicate Kept(s: Settings, db: Db, op: Op, o: Oracle, after: Db) {
    && Base(s, after)
    && (BindingsLeased(db) ==> (BindingsLeased(after) <==> !OpGrowthFails(s, db, op, o)))
    && (Unambiguous(db) && EnsureIdIsNoName(db, op, o) ==> Unambiguous(after))
  }

  lemma CreateKeeps(s: Settings, db: Db, op: Op, o: Oracle)
    requires Base(s, db) && FreshOracle(db, o) && op.Create?
    ensures Kept(s, db, op, o, Apply(s, db, op, o).0)
  {
    var input := op.input;
    NameIsNormalized(input.name);
    var name := NormalizeName(input.name);
    if name.Ok? && !(name.value.Some? && Find(db, name.value.value, o.preferName).Some?) {
      var id := name.value.GetOr(o.randomId);
      var asked := input.(forceRecreate := Some(false));
      ProvisionKeeps(s, db, id, asked, o);
      assert BySandboxId(db, id).None? && ByName(db, id).None?;
      if MakePlan(s, db, id, asked, o).Ok? {
        PlanLookup(s, db, id, asked, o);
      }
    }
  }

  lemma ProvisionKeeps(s: Settings, db: Db, id: string, input: Input, o: Oracle)
    requires Base(s, db) && FreshOracle(db, o) && Normalized(id)
    ensures var after := Provision(s, db, id, input, o).0;
            && Base(s, after)
            && (BindingsLeased(db) ==> (BindingsLeased(after) <==> !ProvisionGrowthFails(s, db, id, input, o)))
            && (Unambiguous(db) && (ByName(db, id).Some? ==> BySandboxId(db, id).Some?) ==> Unambiguous(after))
  {
    ProvisionKeepsBase(s, db, id, input, o);
    if BindingsLeased(db) {
      ProvisionLeasesExactly(s, db, id, input, o);
    }
    if Unambiguous(db) {
      if BySandboxId(db, id).Some? {
        ExistingUnambiguous(s, db, id, input, o);
      } else {
        FreshUnambiguousExactly(s, db, id, input, o);
      }
    }
  }

  lemma EnsureKeeps(s: Settings, db: Db, op: Op, o: Oracle)
    requires Base(s, db) && FreshOracle(db, o) && op.Ensure?
    ensures Kept(s, db, op, o, Apply(s, db, op, o).0)
  {
    var seed := Either(op.explicitId, op.input.name);
    SandboxIdIsNormalized(seed, o);
    if SandboxIdFor(seed, o).Some? {
      ProvisionKeeps(s, db, SandboxIdFor(seed, o).value, op.input, o);
    }
  }

  ghost predicate IdsOk(runtimes: map<RuntimeId, Row>) {
    forall id :: id in runtimes ==> Normalized(runtimes[id].sandboxId)
  }

  lemma UpdateKeeps(s: Settings, db: Db, op: Op, o: Oracle)
    requires Base(s, db) && IdsOk(db.runtimes) && FreshOracle(db, o) && op.Update?
    ensures Kept(s, db, op, o, Apply(s, db, op, o).0)
  {
    var value := Normalize(op.sandboxId);
    if value.Some? && BySandboxId(db, value.value).Some? {
      var row := db.runtimes[BySandboxId(db, value.value).value];
      ProvisionKeeps(s, db, row.sandboxId, UpdateInput(row, op.patch), o);
      assert EnsureIdIsNoName(db, op, o);
    }
  }

  /** Without one runtime, the others are as they were. */
  lemma RemovalKeeps(db: Db, after: Db, id: RuntimeId)
    requires after.runtimes == db.runtimes - {id} && after.leases == Without(db.leases, id)
    ensures BindingsLeased(db) ==> BindingsLeased(after)
    ensures Unambiguous(db) ==> Unambiguous(after)
  {
    if BindingsLeased(db) {
      forall other | other in after.runtimes
        ensures LeasedTo(after.leases, other, after.runtimes[other].portBindings)
      {
        assert LeasedTo(db.leases, other, db.runtimes[other].portBindings);
      }
    }
  }

  lemma DeleteKeeps(s: Settings, db: Db, id: RuntimeId, o: Oracle)
    requires Base(s, db) && id in db.runtimes
    ensures Preserved(s, db, DeleteFound(db, id, o).0)
  {
    if o.removed {
      DeleteExactly(s, db, id, o);
      DeleteIs(db, id, o);
      RemovalKeeps(db, DeleteFound(db, id, o).0, id);
    } else {
      StatusKeeps(s, db, id, db.runtimes[id].(status := Deleting, statusReason := Some("delete_requested")));
    }
  }

  ghost predicate Preserved(s: Settings, db: Db, after: Db) {
    Base(s, after) && (BindingsLeased(db) ==> BindingsLeased(after)) && (Unambiguous(db) ==> Unambiguous(after))
  }

  lemma NewPreviewKeeps(s: Settings, db: Db, after: Db, id: RuntimeId, preview: Preview)
    requires Base(s, db) && id in db.runtimes && preview.sandboxId == db.runtimes[id].sandboxId
    requires after == db.(previews := after.previews) && forall v :: v in after.previews ==>
        v in db.previews || v == preview
    ensures Base(s, after)
  {
    forall v | v in after.previews ensures BySandboxId(after, v.sandboxId).Some? {
      var holder := if v in db.previews then BySandboxId(db, v.sandboxId).value else id;
      assert after.runtimes[holder].sandboxId == v.sandboxId;
    }
  }

  lemma PreviewIs(db: Db, id: RuntimeId, port: int, token: string, expiresAt: int, o: Oracle)
    requires id in db.runtimes
    ensures var row := db.runtimes[id].(status := o.hostStatus);
            var after := IssuePreviewFound(db, id, port, token, expiresAt, o).0;
            && after.runtimes == db.runtimes[id := row] && after.leases == db.leases
            && forall v :: v in after.previews ==>
                v in db.previews || v == Preview(token, row.sandboxId, port, expiresAt)
  {
  }

  lemma PreviewKeeps(s: Settings, db: Db, id: RuntimeId, port: int, token: string, expiresAt: int, o: Oracle)
    requires Base(s, db) && id in db.runtimes
    ensures Preserved(s, db, IssuePreviewFound(db, id, port, token, expiresAt, o).0)
  {
    var row := db.runtimes[id].(status := o.hostStatus);
    var synced := db.(runtimes := db.runtimes[id := row]);
    var after := IssuePreviewFound(db, id, port, token, expiresAt, o).0;
    PreviewIs(db, id, port, token, expiresAt, o);
    StatusKeeps(s, db, id, row);
    NewPreviewKeeps(s, synced, after, id, Preview(token, row.sandboxId, port, expiresAt));
    PreviewsDoNotMatter(synced, after);
  }

  lemma ByKeyKeeps(s: Settings, db: Db, op: Op, o: Oracle)
    requires Base(s, db) && (op.Delete? || op.SetStatus? || op.IssuePreview?)
    ensures Kept(s, db, op, o, Apply(s, db, op, o).0)
  {
    ByKeyPreserves(s, db, op, o);
    assert !OpGrowthFails(s, db, op, o);
  }

  lemma ByKeyPreserves(s: Settings, db: Db, op: Op, o: Oracle)
    requires Base(s, db) && (op.Delete? || op.SetStatus? || op.IssuePreview?)
    ensures Preserved(s, db, ApplyByKey(db, op, o).0)
  {
    var found := FindByKey(db, op.key, o);
    if found.Ok? {
      match op
      case Delete(_) => DeleteKeeps(s, db, found.value, o);
      case SetStatus(_, status, reason) =>
        StatusKeeps(s, db, found.value, db.runtimes[found.value].(status := status, statusReason := Some(reason)));
      case IssuePreview(_, port, token, expiresAt) => PreviewKeeps(s, db, found.value, port, token, expiresAt, o);
    }
  }

  lemma PreviewsDoNotMatter(db: Db, after: Db)
    requires after == db.(previews := after.previews)
    ensures BindingsLeased(db) ==> BindingsLeased(after)
    ensures Unambiguous(db) ==> Unambiguous(after)
  {
  }

  /** One operation, of any kind and with any outcome. */
  lemma ApplyKeeps(s: Settings, db: Db, op: Op, o: Oracle)
    requires Base(s, db) && IdsOk(db.runtimes) && FreshOracle(db, o)
    ensures Kept(s, db, op, o, Apply(s, db, op, o).0)
  {
    if op.Create? {
      CreateKeeps(s, db, op, o);
    } else if op.Ensure? {
      EnsureKeeps(s, db, op, o);
    } else if op.Update? {
      UpdateKeeps(s, db, op, o);
    } else {
      ByKeyKeeps(s, db, op, o);
    }
  }

  // ----- Rows stay well formed -----

  lemma CreateKeepsRows(s: Settings, db: Db, input: Input, o: Oracle)
    requires GoodDefaults(s.defaults) && RowsOk(db.runtimes) && FreshOracle(db, o)
    ensures RowsOk(ApplyCreate(s, db, input, o).0.runtimes)
  {
    NameIsNormalized(input.name);
    var name := NormalizeName(input.name);
    if name.Ok? && !(name.value.Some? && Find(db, name.value.value, o.preferName).Some?) {
      ProvisionKeepsRows(s, db, name.value.GetOr(o.randomId), input.(forceRecreate := Some(false)), o);
    }
  }

  lemma EnsureKeepsRows(s: Settings, db: Db, explicit: Option<string>, input: Input, o: Oracle)
    requires GoodDefaults(s.defaults) && RowsOk(db.runtimes) && FreshOracle(db, o)
    ensures RowsOk(ApplyEnsure(s, db, explicit, input, o).0.runtimes)
  {
    var id := SandboxIdFor(Either(explicit, input.name), o);
    SandboxIdIsNormalized(Either(explicit, input.name), o);
    if id.Some? {
      ProvisionKeepsRows(s, db, id.value, input, o);
    }
  }

  lemma UpdateKeepsRows(s: Settings, db: Db, sandboxId: string, patch: Input, o: Oracle)
    requires GoodDefaults(s.defaults) && RowsOk(db.runtimes) && FreshOracle(db, o)
    ensures RowsOk(ApplyUpdate(s, db, sandboxId, patch, o).0.runtimes)
  {
    var value := Normalize(sandboxId);
    if value.Some? && BySandboxId(db, value.value).Some? {
      var id := BySandboxId(db, value.value).value;
      RowIsNormalized(db, id);
      ProvisionKeepsRows(s, db, db.runtimes[id].sandboxId, UpdateInput(db.runtimes[id], patch), o);
    }
  }

  lemma RemovalKeepsRows(runtimes: map<RuntimeId, Row>, id: RuntimeId, ok: Row -> bool)
    requires AllRows(runtimes, ok)
    ensures AllRows(runtimes - {id}, ok)
  {
  }

  lemma ByKeyKeepsRows(db: Db, op: Op, o: Oracle)
    requires RowsOk(db.runtimes) && (op.Delete? || op.SetStatus? || op.IssuePreview?)
    ensures RowsOk(ApplyByKey(db, op, o).0.runtimes)
  {
    var found := FindByKey(db, op.key, o);
    if found.Ok? {
      var id := found.value;
      match op
      case Delete(_) =>
        var row := db.runtimes[id].(status := Deleting, statusReason := Some("delete_requested"));
        StatusKeepsRows(db.runtimes, id, row);
        RemovalKeepsRows(db.runtimes[id := row], id, RowOk);
      case SetStatus(_, status, reason) =>
        StatusKeepsRows(db.runtimes, id, db.runtimes[id].(status := status, statusReason := Some(reason)));
      case IssuePreview(_, port, token, expiresAt) =>
        PreviewIs(db, id, port, token, expiresAt, o);
        StatusKeepsRows(db.runtimes, id, db.runtimes[id].(status := o.hostStatus));
    }
  }

  lemma ApplyKeepsRows(s: Settings, db: Db, op: Op, o: Oracle)
    requires GoodDefaults(s.defaults) && RowsOk(db.runtimes) && FreshOracle(db, o)
    ensures RowsOk(Apply(s, db, op, o).0.runtimes)
  {
    if op.Create? {
      CreateKeepsRows(s, db, op.input, o);
    } else if op.Ensure? {
      EnsureKeepsRows(s, db, op.explicitId, op.input, o);
    } else if op.Update? {
      UpdateKeepsRows(s, db, op.sandboxId, op.patch, o);
    } else {
      ByKeyKeepsRows(db, op, o);
    }
  }

  // ----- Theorems over runs -----

  /** Conservation over every run, failed operations included: leases name existing runtimes, and free and
      leased ports make up the range. */
  lemma {:induction false} EveryRunIsSound(s: Settings, db: Db, script: Script)
    requires GoodDefaults(s.defaults) && Base(s, db) && RowsOk(db.runtimes) && KeysAreFresh(s, db, script)
    ensures var end := Run(s, db, script);
            Base(s, end) && RowsOk(end.runtimes) && |Free(end.leases, s.range)| + |end.leases| == s.range.Size()
    decreases |script|
  {
    if script == [] {
      FreePlusLeased(db.leases, s.range);
    } else {
      var (op, o) := script[0];
      RowsHaveIds(db);
      ApplyKeeps(s, db, op, o);
      ApplyKeepsRows(s, db, op, o);
      EveryRunIsSound(s, Apply(s, db, op, o).0, script[1..]);
    }
  }

  /** Over every run in which growth succeeds, every published host port is leased to its runtime. */
  lemma {:induction false} EveryRunKeepsBindingsLeased(s: Settings, db: Db, script: Script)
    requires GoodDefaults(s.defaults) && Base(s, db) && RowsOk(db.runtimes) && BindingsLeased(db)
    requires KeysAreFresh(s, db, script) && GrowthSucceeds(s, db, script)
    ensures BindingsLeased(Run(s, db, script))
    decreases |script|
  {
    if script != [] {
      var (op, o) := script[0];
      RowsHaveIds(db);
      ApplyKeeps(s, db, op, o);
      ApplyKeepsRows(s, db, op, o);
      EveryRunKeepsBindingsLeased(s, Apply(s, db, op, o).0, script[1..]);
    }
  }

  lemma {:induction false} EveryRunStaysUnambiguous(s: Settings, db: Db, script: Script)
    requires GoodDefaults(s.defaults) && Base(s, db) && RowsOk(db.runtimes) && Unambiguous(db)
    requires KeysAreFresh(s, db, script) && EnsureIdsAreNoNames(s, db, script)
    ensures Unambiguous(Run(s, db, script)) && Schema(Run(s, db, script).runtimes)
    decreases |script|
  {
    if script != [] {
      var (op, o) := script[0];
      RowsHaveIds(db);
      ApplyKeeps(s, db, op, o);
      ApplyKeepsRows(s, db, op, o);
      EveryRunStaysUnambiguous(s, Apply(s, db, op, o).0, script[1..]);
    }
  }

  /** Over every run in which no ensure call takes another runtime's name for an id, renames included,
      a string denotes at most one runtime. */
  lemma EveryLookupIsUnambiguous(s: Settings, db: Db, script: Script, value: string, i: RuntimeId, j: RuntimeId)
    requires GoodDefaults(s.defaults) && Base(s, db) && RowsOk(db.runtimes) && Unambiguous(db)
    requires KeysAreFresh(s, db, script) && EnsureIdsAreNoNames(s, db, script)
    requires i in Run(s, db, script).runtimes && Matches(Run(s, db, script).runtimes[i], value)
    requires j in Run(s, db, script).runtimes && Matches(Run(s, db, script).runtimes[j], value)
    ensures i == j
  {
    EveryRunStaysUnambiguous(s, db, script);
    LookupIsUnambiguous(Run(s, db, script), value);
  }
}
