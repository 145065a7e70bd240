/** Runs from the empty database in which a promise of the control plane fails. */
module ControlPlaneExamples {
  import opened Prelude
  import opened PortLeases
  import opened Identity
  import opened RuntimeSpecs
  import opened ControlPlane
  import opened ControlPlaneLaws
  import opened ControlPlaneRuns

  const EMPTY_DB := Db(map[], map[], {})

  /** A request for one port, the default one, and no ssh. */
  const ONE_PORT := EMPTY_PATCH.(sshEnabled := Some(false))

  const TWO_PORTS := ONE_PORT.(ports := Some([PortInput(None, 80, None), PortInput(None, 81, None)]))

  lemma IdsAreKept(id: string, o: Oracle)
    requires Normalized(id)
    ensures SandboxIdFor(Either(Some(id), None), o) == Some(id)
    ensures NormalizeName(Some(id)) == Ok(Some(id))
  {
    IdentitiesAreFixed(id);
    NamesAreKept(id);
  }

  lemma OneLetter(c: char)
    requires Alphanumeric(c)
    ensures Normalized([c])
  {
  }

  lemma EmptyIsFine(s: Settings)
    ensures Base(s, EMPTY_DB) && RowsOk(EMPTY_DB.runtimes) && BindingsLeased(EMPTY_DB) && Unambiguous(EMPTY_DB)
  {
  }

  /** One port is asked for. */
  lemma OnePortSpec(s: Settings, name: Option<string>, o: Oracle) returns (spec: Spec)
    ensures BuildSpec(s.defaults, o.volumes, ONE_PORT.(name := name)) == Ok(spec) && |spec.ports| == 1
  {
    spec := BuildSpec(s.defaults, o.volumes, ONE_PORT.(name := name)).value;
  }

  /** An ensure call for an id and a name that nobody has. */
  lemma NewPlan(s: Settings, db: Db, id: string, input: Input, o: Oracle, spec: Spec)
    requires Normalized(id) && BySandboxId(db, id).None?
    requires input.name.Some? ==>
               Normalized(input.name.value) && BySandboxId(db, input.name.value).None?
                   && ByName(db, input.name.value).None?
    requires BuildSpec(s.defaults, o.volumes, input) == Ok(spec) && spec.ports != []
    ensures MakePlan(s, db, id, input, o) == Ok(Plan(input.name, None, spec))
    ensures Apply(s, db, Ensure(Some(id), input), o) == ProvisionFresh(s, db, id, Plan(input.name, None, spec), o)
  {
    IdsAreKept(id, o);
    IdentitiesAreFixed(id);
    if input.name.Some? {
      IdsAreKept(input.name.value, o);
    }
  }

  lemma FirstTwoFree(range: PortRange)
    requires range.first == 1 && range.last >= 2
    ensures var free := Free(map[], range);
            |free| >= 2 && free[..1] == [1] && free[1..2] == [2]
  {
    assert FreeFrom(map[], 2, range.last) == [2] + FreeFrom(map[], 3, range.last);
    assert FreeFrom(map[], 1, range.last) == [1] + FreeFrom(map[], 2, range.last);
  }

  /** One runtime, which holds the ports 1 and 2 and publishes port 2. */
  ghost predicate FirstRow(db: Db, id: RuntimeId, sandboxId: string, name: Option<string>) {
    && db.runtimes.Keys == {id} && db.leases == map[1 := id, 2 := id] && db.previews == {}
    && db.runtimes[id].sandboxId == sandboxId && db.runtimes[id].name == name
    && |db.runtimes[id].portBindings| == 1 && db.runtimes[id].portBindings[0].hostPort == 2
  }

  lemma ResultIsFirstRow(s: Settings, row: Row, plan: Plan, o: Oracle, after: Db, out: Outcome)
    requires |plan.spec.ports| == 1 && o.creation.Created? && s.range.first == 1 && s.range.last >= 2
    requires FreshResult(s, EMPTY_DB, row, plan, o, after, out)
    ensures FirstRow(after, o.freshId, row.sandboxId, plan.name)
  {
    var free := Free(map[], s.range);
    FirstTwoFree(s.range);
    assert free[1] == free[1..2][0];
    TwoGrants(o.freshId);
  }

  /** The first provision of all, for one port: the runtime holds the first two ports and publishes the second. */
  lemma FirstProvision(s: Settings, id: string, plan: Plan, o: Oracle)
    requires |plan.spec.ports| == 1 && o.creation.Created? && s.range.first == 1 && s.range.last >= 2
    ensures FirstRow(ProvisionFresh(s, EMPTY_DB, id, plan, o).0, o.freshId, id, plan.name)
  {
    EmptyIsFine(s);
    var row := NewRow(s, id, plan, o);
    assert EMPTY_DB.runtimes[o.freshId := row] == map[o.freshId := row];
    FreshExactly(s, EMPTY_DB, id, plan, o);
    var (after, out) := ProvisionFresh(s, EMPTY_DB, id, plan, o);
    ResultIsFirstRow(s, row, plan, o, after, out);
  }

  lemma FirstEnsure(s: Settings, id: string, name: Option<string>, o: Oracle)
    requires Normalized(id) && (name.Some? ==> Normalized(name.value)) && o.creation.Created?
    requires s.range.first == 1 && s.range.last >= 2
    ensures FirstRow(Apply(s, EMPTY_DB, Ensure(Some(id), ONE_PORT.(name := name)), o).0, o.freshId, id, name)
  {
    var spec := OnePortSpec(s, name, o);
    NewPlan(s, EMPTY_DB, id, ONE_PORT.(name := name), o, spec);
    FirstProvision(s, id, Plan(name, None, spec), o);
  }

  lemma TwoGrants(id: RuntimeId)
    ensures Grant(Grant(map[], [1], id), [2], id) == map[1 := id, 2 := id]
  {
    assert Grant(map[], [1], id) == map[1 := id];
  }

  lemma TwoSteps(s: Settings, db: Db, a: Op, oa: Oracle, b: Op, ob: Oracle)
    ensures Run(s, db, [(a, oa)]) == Apply(s, db, a, oa).0
    ensures Run(s, db, [(a, oa), (b, ob)]) == Apply(s, Apply(s, db, a, oa).0, b, ob).0
  {
    assert [(a, oa), (b, ob)][1..] == [(b, ob)] && [(b, ob)][1..] == [];
    assert Run(s, Apply(s, db, a, oa).0, [(b, ob)]) == Apply(s, Apply(s, db, a, oa).0, b, ob).0;
  }

  /** An ensure call for more ports than the runtime has, when no port is free. */
  lemma GrowthOnFullRange(s: Settings, db: Db, id: RuntimeId, plan: Plan, o: Oracle)
    requires db.runtimes.Keys == {id} && |db.runtimes[id].portBindings| == 1 && |plan.spec.ports| == 2
    requires Free(db.leases, s.range) == []
    ensures var (after, out) := ProvisionExisting(s, db, id, plan, false, o);
            && out == Rejected(NoFreePorts) && after.leases == Without(db.leases, id)
            && id in after.runtimes && after.runtimes[id].portBindings == db.runtimes[id].portBindings
  {
    var row := db.runtimes[id];
    MorePortsMeansRecreate(row, plan.spec, plan.name);
    AllocateFails(s.range, db.leases, id, row.portBindings, plan.spec.ports);
  }

  lemma TwoPortsSpec(s: Settings, o: Oracle) returns (spec: Spec)
    ensures BuildSpec(s.defaults, o.volumes, TWO_PORTS) == Ok(spec) && |spec.ports| == 2
  {
    spec := BuildSpec(s.defaults, o.volumes, TWO_PORTS).value;
  }

  lemma KnownPlan(s: Settings, db: Db, id: RuntimeId, input: Input, o: Oracle, spec: Spec)
    requires db.runtimes.Keys == {id} && Normalized(db.runtimes[id].sandboxId) && input.name.None?
    requires input.forceRecreate.None? && spec.ports != [] && BuildSpec(s.defaults, o.volumes, input) == Ok(spec)
    ensures Apply(s, db, Ensure(Some(db.runtimes[id].sandboxId), input), o)
         == ProvisionExisting(s, db, id, Plan(None, Some(id), spec), false, o)
  {
    IdsAreKept(db.runtimes[id].sandboxId, o);
    IdentitiesAreFixed(db.runtimes[id].sandboxId);
    assert MakePlan(s, db, db.runtimes[id].sandboxId, input, o) == Ok(Plan(None, Some(id), spec));
  }

  lemma BothTaken(id: RuntimeId)
    ensures Free(map[1 := id, 2 := id], PortRange(1, 2)) == [] && Without(map[1 := id, 2 := id], id) == map[]
  {
    FreeMeaning(map[1 := id, 2 := id], PortRange(1, 2));
    assert forall p :: p !in Free(map[1 := id, 2 := id], PortRange(1, 2));
  }

  /** What is left of a runtime that publishes port 2 when nothing is leased to anybody. */
  ghost predicate PublishesUnleased(db: Db, id: RuntimeId) {
    && db.leases == map[] && id in db.runtimes
    && |db.runtimes[id].portBindings| == 1 && db.runtimes[id].portBindings[0].hostPort == 2
  }

  lemma SecondEnsureFails(s: Settings, db: Db, id: RuntimeId, o: Oracle)
    requires s.range == PortRange(1, 2) && FirstRow(db, id, "x", None)
    ensures Apply(s, db, Ensure(Some("x"), TWO_PORTS), o).1 == Rejected(NoFreePorts)
    ensures PublishesUnleased(Apply(s, db, Ensure(Some("x"), TWO_PORTS), o).0, id)
  {
    OneLetter('x');
    var spec := TwoPortsSpec(s, o);
    KnownPlan(s, db, id, TWO_PORTS, o, spec);
    BothTaken(id);
    GrowthOnFullRange(s, db, id, Plan(None, Some(id), spec), o);
  }

  lemma FirstRowIsLeased(db: Db, id: RuntimeId, sandboxId: string, name: Option<string>)
    requires FirstRow(db, id, sandboxId, name)
    ensures BindingsLeased(db)
  {
  }

  /** On a range of two ports, a runtime is created and then asks for a second port. The second request fails, and the
      port that the runtime still publishes is leased to nobody. */
  lemma FailedGrowthLosesTheLease(s: Settings, o1: Oracle, o2: Oracle)
    requires s.range == PortRange(1, 2) && o1.creation.Created?
    ensures var first, second := (Ensure(Some("x"), ONE_PORT), o1), (Ensure(Some("x"), TWO_PORTS), o2);
            && BindingsLeased(Run(s, EMPTY_DB, [first]))
            && PublishesUnleased(Run(s, EMPTY_DB, [first, second]), o1.freshId)
  {
    var first, second := Ensure(Some("x"), ONE_PORT), Ensure(Some("x"), TWO_PORTS);
    OneLetter('x');
    FirstEnsure(s, "x", None, o1);
    TwoSteps(s, EMPTY_DB, first, o1, second, o2);
    FirstRowIsLeased(Apply(s, EMPTY_DB, first, o1).0, o1.freshId, "x", None);
    SecondEnsureFails(s, Apply(s, EMPTY_DB, first, o1).0, o1.freshId, o2);
  }

  /** Two runtimes answer to one string. */
  ghost predicate BothAnswer(db: Db, i: RuntimeId, j: RuntimeId, value: string) {
    i != j && i in db.runtimes && j in db.runtimes && Matches(db.runtimes[i], value) && Matches(db.runtimes[j], value)
  }

  lemma FirstRowIsSound(s: Settings, db: Db, id: RuntimeId, sandboxId: string, name: Option<string>)
    requires FirstRow(db, id, sandboxId, name) && s.range == PortRange(1, 4)
    ensures Base(s, db) && Unambiguous(db) && |Free(db.leases, s.range)| >= 1
  {
    FreeMeaning(db.leases, s.range);
    assert 3 in Free(db.leases, s.range);
  }

  lemma SecondAnswers(s: Settings, db: Db, id: RuntimeId, o: Oracle)
    requires s.range == PortRange(1, 4) && o.freshId != id && FirstRow(db, id, "x", Some("a"))
    ensures BothAnswer(Apply(s, db, Ensure(Some("a"), ONE_PORT), o).0, id, o.freshId, "a")
  {
    OneLetter('a');
    FirstRowIsSound(s, db, id, "x", Some("a"));
    var spec := OnePortSpec(s, None, o);
    assert ONE_PORT.(name := None) == ONE_PORT;
    NewPlan(s, db, "a", ONE_PORT, o, spec);
    NewRowAnswers(s, db, id, "a", o, spec);
  }

  lemma NewRowAnswers(s: Settings, db: Db, id: RuntimeId, value: string, o: Oracle, spec: Spec)
    requires Base(s, db) && Unambiguous(db) && id in db.runtimes && o.freshId !in db.runtimes && Normalized(value)
    requires db.runtimes[id].name == Some(value) && BySandboxId(db, value).None?
    requires MakePlan(s, db, value, ONE_PORT, o) == Ok(Plan(None, None, spec))
    requires spec.ports != [] && |spec.ports| <= |Free(db.leases, s.range)|
    ensures BothAnswer(ProvisionFresh(s, db, value, Plan(None, None, spec), o).0, id, o.freshId, value)
  {
    assert Provision(s, db, value, ONE_PORT, o) == ProvisionFresh(s, db, value, Plan(None, None, spec), o);
    RowStaysExactly(s, db, value, ONE_PORT, o);
    FreshIdentity(s, db, value, Plan(None, None, spec), o);
    ProvisionKeepsBase(s, db, value, ONE_PORT, o);
    NamedStays(db, Provision(s, db, value, ONE_PORT, o).0, o.freshId, id);
  }

  /** A runtime with the id x is called a; then the id a is ensured. Afterwards two runtimes answer to a. */
  lemma EnsureWithForeignNameIsAmbiguous(s: Settings, o1: Oracle, o2: Oracle)
    requires s.range == PortRange(1, 4) && o1.creation.Created? && o2.freshId != o1.freshId
    ensures var first := (Ensure(Some("x"), ONE_PORT.(name := Some("a"))), o1);
            var second := (Ensure(Some("a"), ONE_PORT), o2);
            BothAnswer(Run(s, EMPTY_DB, [first, second]), o1.freshId, o2.freshId, "a")
  {
    var first, second := Ensure(Some("x"), ONE_PORT.(name := Some("a"))), Ensure(Some("a"), ONE_PORT);
    OneLetter('x');
    OneLetter('a');
    FirstEnsure(s, "x", Some("a"), o1);
    TwoSteps(s, EMPTY_DB, first, o1, second, o2);
    SecondAnswers(s, Apply(s, EMPTY_DB, first, o1).0, o1.freshId, o2);
  }
}
