/** What every operation of the control plane keeps, and what every sequential run guarantees. */
module ControlPlaneLaws {
  import opened Prelude
  import opened PortLeases
  import opened Identity
  import opened RuntimeSpecs
  import opened ControlPlane

  // ----- Invariants -----

  ghost predicate RowOk(row: Row) {
    && CanonicalRow(row)
    && (row.portBindings != [] ==>
          && row.primaryPort == row.portBindings[0].containerPort
          && row.hostPort == row.portBindings[0].hostPort
          && row.primaryPortProtocol == row.portBindings[0].protocol)
  }

  /** Conservation: every lease is in the range and names an existing runtime. */
  ghost predicate LeasesOwned(s: Settings, db: Db) {
    forall p :: p in db.leases ==> s.range.Has(p) && db.leases[p] in db.runtimes
  }

  ghost predicate PreviewsOwned(db: Db) {
    forall v :: v in db.previews ==> BySandboxId(db, v.sandboxId).Some?
  }

  ghost predicate Base(s: Settings, db: Db) {
    Schema(db.runtimes) && LeasesOwned(s, db) && PreviewsOwned(db)
  }

  ghost predicate AllRows(runtimes: map<RuntimeId, Row>, ok: Row -> bool) {
    forall id :: id in runtimes ==> ok(runtimes[id])
  }

  ghost predicate RowsOk(runtimes: map<RuntimeId, Row>) {
    AllRows(runtimes, RowOk)
  }

  ghost predicate LeasedTo(leases: LeaseTable, id: RuntimeId, bindings: seq<Binding>) {
    && (forall i :: 0 <= i < |bindings| ==> bindings[i].hostPort in leases && leases[bindings[i].hostPort] == id)
    && (forall i, j :: 0 <= i < j < |bindings| ==> bindings[i].hostPort != bindings[j].hostPort)
  }

  /** Every persisted binding's host port is leased to its runtime. */
  ghost predicate BindingsLeased(db: Db) {
    forall id :: id in db.runtimes ==> LeasedTo(db.leases, id, db.runtimes[id].portBindings)
  }

  /** No host port occurs in two bindings, of one runtime or of two, and every one is in the range. */
  lemma HostPortsAreUnique(s: Settings, db: Db, id1: RuntimeId, i1: nat, id2: RuntimeId, i2: nat)
    requires BindingsLeased(db) && LeasesOwned(s, db)
    requires id1 in db.runtimes && i1 < |db.runtimes[id1].portBindings|
    requires id2 in db.runtimes && i2 < |db.runtimes[id2].portBindings|
    requires db.runtimes[id1].portBindings[i1].hostPort == db.runtimes[id2].portBindings[i2].hostPort
    ensures id1 == id2 && i1 == i2
    ensures s.range.Has(db.runtimes[id1].portBindings[i1].hostPort)
  {
    var p := db.runtimes[id1].portBindings[i1].hostPort;
    assert db.leases[p] == id1;
    assert db.leases[p] == id2;
  }

  /** Rows and leases of all runtimes but one are the same. */
  ghost predicate OnlyTouches(before: Db, after: Db, id: RuntimeId) {
    && after.runtimes - {id} == before.runtimes - {id}
    && Without(after.leases, id) == Without(before.leases, id)
    && after.previews == before.previews
  }

  lemma OnlyTouchesTrans(a: Db, b: Db, c: Db, id: RuntimeId)
    requires OnlyTouches(a, b, id) && OnlyTouches(b, c, id)
    ensures OnlyTouches(a, c, id)
  {
  }

  lemma OthersStayLeased(before: Db, after: Db, id: RuntimeId)
    requires OnlyTouches(before, after, id) && BindingsLeased(before)
    ensures forall other :: other in after.runtimes && other != id ==>
              LeasedTo(after.leases, other, after.runtimes[other].portBindings)
  {
    forall other | other in after.runtimes && other != id
      ensures LeasedTo(after.leases, other, after.runtimes[other].portBindings)
    {
      assert other in after.runtimes - {id} && other in before.runtimes - {id};
      assert (after.runtimes - {id})[other] == (before.runtimes - {id})[other];
      var bindings := before.runtimes[other].portBindings;
      assert LeasedTo(before.leases, other, bindings);
      forall i | 0 <= i < |bindings|
        ensures bindings[i].hostPort in after.leases && after.leases[bindings[i].hostPort] == other
      {
        assert bindings[i].hostPort in Without(before.leases, id);
        assert bindings[i].hostPort in Without(after.leases, id);
      }
    }
  }

  /** A row can be written exactly when no other row has its id or its name; then nothing else changes. */
  lemma SaveExactly(db: Db, id: RuntimeId, row: Row)
    requires Schema(db.runtimes)
    ensures Save(db, id, row).Some? <==>
            forall other :: other in db.runtimes && other != id ==>
              && db.runtimes[other].sandboxId != row.sandboxId
              && (row.name.Some? ==> db.runtimes[other].name != row.name)
    ensures Save(db, id, row).Some? ==>
              OnlyTouches(db, Save(db, id, row).value, id) && Schema(Save(db, id, row).value.runtimes)
  {
    var after := db.runtimes[id := row];
    forall other | other in db.runtimes && other != id ensures after[other] == db.runtimes[other] {
    }
    if Schema(after) {
      forall other | other in db.runtimes && other != id
        ensures db.runtimes[other].sandboxId != row.sandboxId
            && (row.name.Some? ==> db.runtimes[other].name != row.name)
      {
        assert after[id].sandboxId != after[other].sandboxId;
      }
    }
  }

  // ----- Leasing -----

  /** A lease request, granted or not, leaves the leases of the other runtimes alone. */
  lemma LeaseOnlyTouches(leases: LeaseTable, range: PortRange, id: RuntimeId, count: nat)
    ensures var (after, _) := Lease(leases, range, id, count);
            && Without(after, id) == Without(leases, id)
            && ((forall p :: p in leases ==> range.Has(p)) ==> forall p :: p in after ==> range.Has(p))
            && (forall p :: p in after ==> after[p] == id || (p in leases && after[p] == leases[p]))
  {
    var (after, granted) := Lease(leases, range, id, count);
    if granted.Some? {
      LeaseGrants(leases, range, id, count);
      assert Without(after, id).Keys == Without(leases, id).Keys;
    }
  }

  lemma AssignedAreLeased(leases: LeaseTable, id: RuntimeId, existing: seq<Binding>, ports: seq<Binding>,
                          news: seq<int>)
    requires LeasedTo(leases, id, existing) && |news| == Missing(existing, ports)
    requires Ascending(news) && forall p :: p in news ==> p !in leases
    ensures LeasedTo(Grant(leases, news, id), id, AssignHosts(existing, ports, news))
  {
    var after, got := Grant(leases, news, id), AssignHosts(existing, ports, news);
    forall i | 0 <= i < |got| ensures got[i].hostPort in after && after[got[i].hostPort] == id {
      if i >= |existing| {
        assert news[i - |existing|] in news;
      }
    }
    forall i, j | 0 <= i < j < |got| ensures got[i].hostPort != got[j].hostPort {
      if j >= |existing| {
        assert news[j - |existing|] in news;
      }
    }
  }

  ghost function NewPorts(range: PortRange, leases: LeaseTable, existing: seq<Binding>, ports: seq<Binding>): seq<int>
    requires Missing(existing, ports) <= |Free(leases, range)|
  {
    Free(leases, range)[..Missing(existing, ports)]
  }

  lemma NewPortsAreFree(range: PortRange, leases: LeaseTable, existing: seq<Binding>, ports: seq<Binding>)
    requires Missing(existing, ports) <= |Free(leases, range)|
    ensures var news := NewPorts(range, leases, existing, ports);
            Ascending(news) && forall p :: p in news ==> range.Has(p) && p !in leases
  {
    FreeMeaning(leases, range);
    assert forall p :: p in NewPorts(range, leases, existing, ports) ==> p in Free(leases, range);
  }

  lemma AllocateIs(range: PortRange, leases: LeaseTable, id: RuntimeId, existing: seq<Binding>, ports: seq<Binding>)
    requires Missing(existing, ports) <= |Free(leases, range)|
    ensures var news := NewPorts(range, leases, existing, ports);
            AllocatePorts(range, leases, id, existing, ports)
              == (Grant(leases, news, id), Some(AssignHosts(existing, ports, news)))
  {
    if Missing(existing, ports) == 0 {
      assert NewPorts(range, leases, existing, ports) == [];
      assert Grant(leases, [], id) == leases;
    }
  }

  /** Allocating host ports for a row whose bindings are leased to it. Positions the row has keep their
      host ports, the others take the new leases in order and each once, and all host ports differ. */
  lemma AllocateLaw(range: PortRange, leases: LeaseTable, id: RuntimeId, existing: seq<Binding>, ports: seq<Binding>)
    requires LeasedTo(leases, id, existing) && Missing(existing, ports) <= |Free(leases, range)|
    ensures var news := NewPorts(range, leases, existing, ports);
            && Ascending(news) && (forall p :: p in news ==> range.Has(p) && p !in leases)
            && AllocatePorts(range, leases, id, existing, ports).0 == Grant(leases, news, id)
            && AllocatePorts(range, leases, id, existing, ports).1.Some?
            && var got := AllocatePorts(range, leases, id, existing, ports).1.value;
            && |got| == |ports|
            && (forall i :: 0 <= i < |ports| ==>
                  got[i] == ports[i].(hostPort := if i < |existing| then existing[i].hostPort
                      else news[i - |existing|]))
            && LeasedTo(Grant(leases, news, id), id, got)
  {
    NewPortsAreFree(range, leases, existing, ports);
    AllocateIs(range, leases, id, existing, ports);
    AssignedAreLeased(leases, id, existing, ports, NewPorts(range, leases, existing, ports));
  }

  /** When too few ports are free the runtime loses every lease it had. */
  lemma AllocateFails(range: PortRange, leases: LeaseTable, id: RuntimeId, existing: seq<Binding>, ports: seq<Binding>)
    ensures AllocatePorts(range, leases, id, existing, ports).1.None? <==>
        |Free(leases, range)| < Missing(existing, ports)
    ensures AllocatePorts(range, leases, id, existing, ports).1.None? ==>
              AllocatePorts(range, leases, id, existing, ports).0 == Without(leases, id)
  {
  }

  // ----- Stages of provisioning -----

  ghost predicate GoodPlan(plan: Plan) {
    && plan.spec.ports != [] && CanonicalConfig(plan.spec.config) && CanonicalBindings(plan.spec.ports)
    && (plan.name.Some? ==> Normalized(plan.name.value))
  }

  lemma PlanIsGood(s: Settings, db: Db, sandboxId: string, input: Input, o: Oracle)
    requires GoodDefaults(s.defaults) && MakePlan(s, db, sandboxId, input, o).Ok?
    ensures GoodPlan(MakePlan(s, db, sandboxId, input, o).value)
  {
    SpecIsCanonical(s.defaults, o.volumes, input);
    if input.name.Some? {
      NormalizeGivesIdentity(input.name.value);
    }
  }

  /** The runtimes named by previews do not depend on the other columns. */
  lemma PreviewsStayOwned(db: Db, after: Db)
    requires PreviewsOwned(db) && after.previews <= db.previews
    requires forall id :: id in db.runtimes ==>
        id in after.runtimes && after.runtimes[id].sandboxId == db.runtimes[id].sandboxId
    ensures PreviewsOwned(after)
  {
    forall v | v in after.previews ensures BySandboxId(after, v.sandboxId).Some? {
      var holder := BySandboxId(db, v.sandboxId).value;
      assert after.runtimes[holder].sandboxId == v.sandboxId;
    }
  }

  lemma SaveKeepsBase(s: Settings, db: Db, id: RuntimeId, row: Row)
    requires Base(s, db) && Schema(db.runtimes[id := row])
    requires id in db.runtimes ==> row.sandboxId == db.runtimes[id].sandboxId
    ensures var after := db.(runtimes := db.runtimes[id := row]); Base(s, after) && OnlyTouches(db, after, id)
  {
    var after := db.(runtimes := db.runtimes[id := row]);
    PreviewsStayOwned(db, after);
    assert after.runtimes - {id} == db.runtimes - {id};
  }

  lemma LeasingKeepsBase(s: Settings, db: Db, id: RuntimeId, leases: LeaseTable)
    requires Base(s, db) && id in db.runtimes
    requires Without(leases, id) == Without(db.leases, id)
    requires forall p :: p in leases ==> s.range.Has(p)
    requires forall p :: p in leases ==> leases[p] == id || (p in db.leases && leases[p] == db.leases[p])
    ensures Base(s, db.(leases := leases)) && OnlyTouches(db, db.(leases := leases), id)
  {
    PreviewsStayOwned(db, db.(leases := leases));
  }

  lemma AllocateOnlyTouches(s: Settings, db: Db, id: RuntimeId, ports: seq<Binding>)
    requires Base(s, db) && id in db.runtimes
    ensures var leases := AllocatePorts(s.range, db.leases, id, db.runtimes[id].portBindings, ports).0;
            Base(s, db.(leases := leases)) && OnlyTouches(db, db.(leases := leases), id)
  {
    LeaseOnlyTouches(db.leases, s.range, id, Missing(db.runtimes[id].portBindings, ports));
    LeasingKeepsBase(s, db, id, AllocatePorts(s.range, db.leases, id, db.runtimes[id].portBindings, ports).0);
  }

  lemma AssignedAreCanonical(existing: seq<Binding>, ports: seq<Binding>, leased: seq<int>)
    requires CanonicalBindings(ports) && |ports| <= |existing| + |leased|
    ensures CanonicalBindings(AssignHosts(existing, ports, leased))
  {
    var got := AssignHosts(existing, ports, leased);
    forall i | 0 <= i < |got| ensures CanonicalBinding(got[i]) {
      assert CanonicalBinding(ports[i]);
    }
  }

  lemma StartKeepsBase(s: Settings, db: Db, id: RuntimeId, plan: Plan, o: Oracle)
    requires Base(s, db) && id in db.runtimes && plan.spec.ports != []
    ensures var (after, _) := Start(s, db, id, plan, o);
            Base(s, after) && OnlyTouches(db, after, id) && id in after.runtimes
  {
    var row := db.runtimes[id];
    var (leases, ports) := AllocatePorts(s.range, db.leases, id, row.portBindings, plan.spec.ports);
    AllocateOnlyTouches(s, db, id, plan.spec.ports);
    var mid := db.(leases := leases);
    if ports.Some? {
      var done := FinishedRow(row, plan, ports.value, o);
      if Schema(mid.runtimes[id := done]) {
        SaveKeepsBase(s, mid, id, done);
        OnlyTouchesTrans(db, mid, mid.(runtimes := mid.runtimes[id := done]), id);
      }
    }
  }

  lemma FinishedRowOk(row: Row, plan: Plan, existing: seq<Binding>, leased: seq<int>, o: Oracle)
    requires RowOk(row) && GoodPlan(plan) && |plan.spec.ports| <= |existing| + |leased|
    ensures RowOk(FinishedRow(row, plan, AssignHosts(existing, plan.spec.ports, leased), o))
  {
    AssignedAreCanonical(existing, plan.spec.ports, leased);
  }

  /** The rows after `Start`: unchanged, or with the finished row. */
  lemma StartRows(s: Settings, db: Db, id: RuntimeId, plan: Plan, o: Oracle) returns (leased: seq<int>)
    requires id in db.runtimes && plan.spec.ports != []
    ensures |plan.spec.ports| <= |db.runtimes[id].portBindings| + |leased|
    ensures var (after, out) := Start(s, db, id, plan, o);
            var row := db.runtimes[id];
            after.runtimes == if out.Done?
              then db.runtimes[id := FinishedRow(row, plan, AssignHosts(row.portBindings, plan.spec.ports, leased), o)]
              else db.runtimes
  {
    var row := db.runtimes[id];
    var need := Missing(row.portBindings, plan.spec.ports);
    if need > 0 && Lease(db.leases, s.range, id, need).1.Some? {
      leased := Lease(db.leases, s.range, id, need).1.value;
    } else if need == 0 {
      leased := [];
    } else {
      leased := seq(need, _ => 0);
    }
  }

  lemma RowsOkUpdate(runtimes: map<RuntimeId, Row>, id: RuntimeId, row: Row)
    requires RowsOk(runtimes) && RowOk(row)
    ensures RowsOk(runtimes[id := row])
  {
  }

  lemma StartKeepsRows(s: Settings, db: Db, id: RuntimeId, plan: Plan, o: Oracle)
    requires id in db.runtimes && RowsOk(db.runtimes) && GoodPlan(plan)
    ensures RowsOk(Start(s, db, id, plan, o).0.runtimes)
  {
    var row := db.runtimes[id];
    var leased := StartRows(s, db, id, plan, o);
    FinishedRowOk(row, plan, row.portBindings, leased, o);
    RowsOkUpdate(db.runtimes, id, FinishedRow(row, plan, AssignHosts(row.portBindings, plan.spec.ports, leased), o));
  }

  /** Too few ports are free for the positions a row does not have yet. */
  predicate Short(s: Settings, db: Db, existing: seq<Binding>, ports: seq<Binding>) {
    |Free(db.leases, s.range)| < Missing(existing, ports)
  }

  /** Afterwards the row's bindings are leased to it, unless it had bindings and could not get the additional ports. */
  lemma StartLeases(s: Settings, db: Db, id: RuntimeId, plan: Plan, o: Oracle)
    requires id in db.runtimes && plan.spec.ports != []
    requires LeasedTo(db.leases, id, db.runtimes[id].portBindings)
    ensures var (after, _) := Start(s, db, id, plan, o);
            && id in after.runtimes
            && (LeasedTo(after.leases, id, after.runtimes[id].portBindings) <==>
                !(db.runtimes[id].portBindings != [] && Short(s, db, db.runtimes[id].portBindings, plan.spec.ports)))
  {
    var existing := db.runtimes[id].portBindings;
    var (after, out) := Start(s, db, id, plan, o);
    if Short(s, db, existing, plan.spec.ports) {
      AllocateFails(s.range, db.leases, id, existing, plan.spec.ports);
      if existing != [] {
        assert existing[0].hostPort !in after.leases;
      }
    } else {
      AllocateLaw(s.range, db.leases, id, existing, plan.spec.ports);
      StaysLeased(db.leases, NewPorts(s.range, db.leases, existing, plan.spec.ports), id, existing);
    }
  }

  lemma StaysLeased(leases: LeaseTable, news: seq<int>, id: RuntimeId, bindings: seq<Binding>)
    requires LeasedTo(leases, id, bindings)
    ensures LeasedTo(Grant(leases, news, id), id, bindings)
  {
  }

  // ----- Provisioning an existing runtime -----

  lemma KeptRowOk(row: Row, plan: Plan, forced: bool)
    requires RowOk(row) && GoodPlan(plan)
    ensures RowOk(KeptRow(row, plan)) && RowOk(ReplacedRow(row, plan, forced))
  {
  }

  lemma ExistingKeepsBase(s: Settings, db: Db, id: RuntimeId, plan: Plan, forced: bool, o: Oracle)
    requires Base(s, db) && id in db.runtimes && plan.spec.ports != []
    ensures var (after, _) := ProvisionExisting(s, db, id, plan, forced, o);
            Base(s, after) && OnlyTouches(db, after, id) && id in after.runtimes
  {
    var row := db.runtimes[id];
    var replaced := ReplacedRow(row, plan, forced);
    if Schema(db.runtimes[id := KeptRow(row, plan)]) {
      SaveKeepsBase(s, db, id, KeptRow(row, plan));
    }
    StartKeepsBase(s, db, id, plan, o);
    if Schema(db.runtimes[id := replaced]) {
      var mid := db.(runtimes := db.runtimes[id := replaced]);
      SaveKeepsBase(s, db, id, replaced);
      StartKeepsBase(s, mid, id, plan, o);
      OnlyTouchesTrans(db, mid, Start(s, mid, id, plan, o).0, id);
    }
  }

  /** Every row of the result satisfies `ok` if the rows it is made of do. */
  lemma ExistingRows(s: Settings, db: Db, id: RuntimeId, plan: Plan, forced: bool, o: Oracle, ok: Row -> bool)
    requires id in db.runtimes && plan.spec.ports != []
    requires var row := db.runtimes[id];
             var mid := db.(runtimes := db.runtimes[id := ReplacedRow(row, plan, forced)]);
             && AllRows(db.runtimes, ok) && ok(KeptRow(row, plan))
             && AllRows(Start(s, db, id, plan, o).0.runtimes, ok) && AllRows(Start(s, mid, id, plan, o).0.runtimes, ok)
    ensures AllRows(ProvisionExisting(s, db, id, plan, forced, o).0.runtimes, ok)
  {
  }

  lemma ExistingKeepsRows(s: Settings, db: Db, id: RuntimeId, plan: Plan, forced: bool, o: Oracle)
    requires id in db.runtimes && RowsOk(db.runtimes) && GoodPlan(plan)
    ensures RowsOk(ProvisionExisting(s, db, id, plan, forced, o).0.runtimes)
  {
    var row := db.runtimes[id];
    var replaced := ReplacedRow(row, plan, forced);
    KeptRowOk(row, plan, forced);
    RowsOkUpdate(db.runtimes, id, replaced);
    StartKeepsRows(s, db, id, plan, o);
    StartKeepsRows(s, db.(runtimes := db.runtimes[id := replaced]), id, plan, o);
    ExistingRows(s, db, id, plan, forced, o, RowOk);
  }

  /** The request gets as far as asking for additional ports and cannot have them. */
  predicate GrowthFails(s: Settings, db: Db, id: RuntimeId, plan: Plan, forced: bool)
    requires id in db.runtimes
  {
    var row := db.runtimes[id];
    && row.portBindings != []
    && Short(s, db, row.portBindings, plan.spec.ports)
    && Schema(db.runtimes[id := ReplacedRow(row, plan, forced)])
  }

  lemma MorePortsMeansRecreate(row: Row, spec: Spec, name: Option<string>)
    requires Missing(row.portBindings, spec.ports) > 0
    ensures RequiresRecreate(row, spec, name)
  {
    RecreateExactly(row, spec, name);
  }

  lemma ExistingLeases(s: Settings, db: Db, id: RuntimeId, plan: Plan, forced: bool, o: Oracle)
    requires id in db.runtimes && plan.spec.ports != []
    requires LeasedTo(db.leases, id, db.runtimes[id].portBindings)
    ensures var (after, _) := ProvisionExisting(s, db, id, plan, forced, o);
            && id in after.runtimes
            && (LeasedTo(after.leases, id, after.runtimes[id].portBindings) <==> !GrowthFails(s, db, id, plan, forced))
  {
    var row := db.runtimes[id];
    if Missing(row.portBindings, plan.spec.ports) > 0 {
      MorePortsMeansRecreate(row, plan.spec, plan.name);
    }
    StartLeases(s, db, id, plan, o);
    StartLeases(s, db.(runtimes := db.runtimes[id := ReplacedRow(row, plan, forced)]), id, plan, o);
  }

  // ----- Provisioning a new runtime -----

  ghost predicate FreshOracle(db: Db, o: Oracle) {
    && o.freshId !in db.runtimes
    && Normalized(o.randomId)
    && BySandboxId(db, o.randomId).None? && ByName(db, o.randomId).None?
  }

  /** A new runtime owns nothing, so giving up on it restores the tables. */
  lemma GivingUpRestores(s: Settings, db: Db, id: RuntimeId, row: Row)
    requires Base(s, db) && id !in db.runtimes && BySandboxId(db, row.sandboxId).None?
    ensures Without(db.leases, id) == db.leases
    ensures DeleteRuntime(Db(db.runtimes[id := row], Without(db.leases, id), db.previews), id, row.sandboxId) == db
  {
    OwnsNothing(s, db, id);
    assert db.runtimes[id := row] - {id} == db.runtimes;
    assert (set p | p in db.previews && p.sandboxId != row.sandboxId) == db.previews;
  }

  lemma OwnsNothing(s: Settings, db: Db, id: RuntimeId)
    requires LeasesOwned(s, db) && id !in db.runtimes
    ensures Without(db.leases, id) == db.leases
  {
    forall p | p in db.leases ensures p in Without(db.leases, id) {
      assert db.leases[p] in db.runtimes;
    }
  }

  /** The second request for ports, on the leases the first one left. */
  lemma SecondLease(range: PortRange, leases: LeaseTable, id: RuntimeId, ports: seq<Binding>)
    requires |ports| <= |Free(leases, range)| && Without(leases, id) == leases
    ensures var n, free := |ports|, Free(leases, range);
            AllocatePorts(range, Grant(leases, free[..n], id), id, [], ports)
              == if |free| < 2 * n then (leases, None)
                 else (Grant(Grant(leases, free[..n], id), free[n..2 * n], id),
                     Some(AssignHosts([], ports, free[n..2 * n])))
  {
    var n, free := |ports|, Free(leases, range);
    var once := Grant(leases, free[..n], id);
    FreeAfterGrant(leases, range, id, n);
    LeaseOnlyTouches(leases, range, id, n);
    if |free| < 2 * n {
      AllocateFails(range, once, id, [], ports);
    } else {
      AllocateIs(range, once, id, [], ports);
      assert free[n..][..n] == free[n..2 * n];
    }
  }

  /** A fresh provision asks twice for its ports: with fewer than n free nothing happens, with fewer than 2n
      a runtime without ports stays behind, and otherwise it holds the first 2n free ports and publishes the
      second n of them. */
  ghost predicate FreshResult(s: Settings, db: Db, row: Row, plan: Plan, o: Oracle, after: Db, out: Outcome) {
    var n, free, id := |plan.spec.ports|, Free(db.leases, s.range), o.freshId;
    if |free| < n then after == db && out == Rejected(NoFreePorts)
    else if |free| < 2 * n then after == db.(runtimes := db.runtimes[id := row]) && out == Rejected(NoFreePorts)
    else
      && after.leases == Grant(Grant(db.leases, free[..n], id), free[n..2 * n], id)
      && after.previews == db.previews
      && out == (if o.creation.Fatal? then Rejected(AdapterFailure) else Done(id))
      && after.runtimes.Keys == db.runtimes.Keys + {id}
      && after.runtimes - {id} == db.runtimes - {id}
      && (out.Rejected? ==> after.runtimes[id] == row)
      && (out.Done? ==>
            && |after.runtimes[id].portBindings| == n
            && (forall i :: 0 <= i < n ==>
                after.runtimes[id].portBindings[i] == plan.spec.ports[i].(hostPort := free[n + i]))
            && after.runtimes[id].sandboxId == row.sandboxId && after.runtimes[id].name == plan.name
            && after.runtimes[id].config == plan.spec.config && after.runtimes[id].public == plan.spec.public)
  }

  lemma FreshExactly(s: Settings, db: Db, sandboxId: string, plan: Plan, o: Oracle)
    requires Base(s, db) && o.freshId !in db.runtimes && plan.spec.ports != [] && BySandboxId(db, sandboxId).None?
    requires Schema(db.runtimes[o.freshId := NewRow(s, sandboxId, plan, o)])
    ensures var (after, out) := ProvisionFresh(s, db, sandboxId, plan, o);
            FreshResult(s, db, NewRow(s, sandboxId, plan, o), plan, o, after, out)
  {
    var n, free, id := |plan.spec.ports|, Free(db.leases, s.range), o.freshId;
    var row := NewRow(s, sandboxId, plan, o);
    GivingUpRestores(s, db, id, row);
    if n <= |free| {
      SecondLease(s.range, db.leases, id, plan.spec.ports);
      var mid := Db(db.runtimes[id := row], Grant(db.leases, free[..n], id), db.previews);
      assert ProvisionFresh(s, db, sandboxId, plan, o) == Start(s, mid, id, plan, o);
      FreshStart(s, db, row, plan, o);
    }
  }

  lemma StartIs(s: Settings, db: Db, id: RuntimeId, plan: Plan, o: Oracle, leases: LeaseTable, ports: seq<Binding>)
    requires id in db.runtimes && plan.spec.ports != [] && ports != []
    requires AllocatePorts(s.range, db.leases, id, db.runtimes[id].portBindings, plan.spec.ports)
        == (leases, Some(ports))
    requires Schema(db.runtimes[id := FinishedRow(db.runtimes[id], plan, ports, o)])
    ensures Start(s, db, id, plan, o)
         == if o.creation.Fatal? then (db.(leases := leases), Rejected(AdapterFailure))
            else (Db(db.runtimes[id := FinishedRow(db.runtimes[id], plan, ports, o)], leases, db.previews), Done(id))
  {
  }

  lemma FreshStart(s: Settings, db: Db, row: Row, plan: Plan, o: Oracle)
    requires plan.spec.ports != [] && o.freshId !in db.runtimes && row.portBindings == [] && row.name == plan.name
    requires Without(db.leases, o.freshId) == db.leases
    requires Schema(db.runtimes[o.freshId := row]) && |plan.spec.ports| <= |Free(db.leases, s.range)|
    ensures var n, free, id := |plan.spec.ports|, Free(db.leases, s.range), o.freshId;
            var mid := Db(db.runtimes[id := row], Grant(db.leases, free[..n], id), db.previews);
            var (after, out) := Start(s, mid, id, plan, o);
            FreshResult(s, db, row, plan, o, after, out)
  {
    var n, free, id := |plan.spec.ports|, Free(db.leases, s.range), o.freshId;
    var mid := Db(db.runtimes[id := row], Grant(db.leases, free[..n], id), db.previews);
    SecondLease(s.range, db.leases, id, plan.spec.ports);
    if |free| < 2 * n {
      assert Start(s, mid, id, plan, o) == (mid.(leases := db.leases), Rejected(NoFreePorts));
    } else {
      var ports := AssignHosts([], plan.spec.ports, free[n..2 * n]);
      SchemaIgnoresRest(db.runtimes, id, row, FinishedRow(row, plan, ports, o));
      StartIs(s, mid, id, plan, o, Grant(mid.leases, free[n..2 * n], id), ports);
      if o.creation.Fatal? {
        FreshFails(s, db, row, plan, o);
      } else {
        FreshFinishes(s, db, row, plan, o);
      }
    }
  }

  lemma FreshFails(s: Settings, db: Db, row: Row, plan: Plan, o: Oracle)
    requires plan.spec.ports != [] && o.freshId !in db.runtimes && 2 * |plan.spec.ports| <= |Free(db.leases, s.range)|
    requires o.creation.Fatal?
    ensures var n, free, id := |plan.spec.ports|, Free(db.leases, s.range), o.freshId;
            var leases := Grant(Grant(db.leases, free[..n], id), free[n..2 * n], id);
            FreshResult(s, db, row, plan, o, Db(db.runtimes[id := row], leases, db.previews), Rejected(AdapterFailure))
  {
    assert db.runtimes[o.freshId := row] - {o.freshId} == db.runtimes - {o.freshId};
  }

  lemma SecondHalf(free: seq<int>, n: nat, ports: seq<Binding>)
    requires |ports| == n && 2 * n <= |free|
    ensures forall i :: 0 <= i < n ==>
              AssignHosts([], ports, free[n..2 * n])[i] == ports[i].(hostPort := free[n + i])
  {
  }

  lemma FreshFinishes(s: Settings, db: Db, row: Row, plan: Plan, o: Oracle)
    requires plan.spec.ports != [] && o.freshId !in db.runtimes && 2 * |plan.spec.ports| <= |Free(db.leases, s.range)|
    requires !o.creation.Fatal?
    ensures var n, free, id := |plan.spec.ports|, Free(db.leases, s.range), o.freshId;
            var leases := Grant(Grant(db.leases, free[..n], id), free[n..2 * n], id);
            var done := FinishedRow(row, plan, AssignHosts([], plan.spec.ports, free[n..2 * n]), o);
            FreshResult(s, db, row, plan, o, Db(db.runtimes[id := row][id := done], leases, db.previews), Done(id))
  {
    var n, free, id := |plan.spec.ports|, Free(db.leases, s.range), o.freshId;
    var done := FinishedRow(row, plan, AssignHosts([], plan.spec.ports, free[n..2 * n]), o);
    SecondHalf(free, n, plan.spec.ports);
    assert db.runtimes[id := row][id := done] - {id} == db.runtimes - {id};
  }

  lemma SchemaIgnoresRest(runtimes: map<RuntimeId, Row>, id: RuntimeId, row: Row, done: Row)
    requires Schema(runtimes[id := row]) && done.sandboxId == row.sandboxId && done.name == row.name
    ensures Schema(runtimes[id := done])
    ensures runtimes[id := row][id := done] == runtimes[id := done]
  {
    var after := runtimes[id := done];
    forall i, j | i in after && j in after && i != j
      ensures after[i].sandboxId != after[j].sandboxId && (after[i].name.Some? ==> after[i].name != after[j].name)
    {
      assert runtimes[id := row][i].sandboxId == after[i].sandboxId
          && runtimes[id := row][j].sandboxId == after[j].sandboxId;
    }
  }

  lemma FreshKeepsBase(s: Settings, db: Db, sandboxId: string, plan: Plan, o: Oracle)
    requires Base(s, db) && o.freshId !in db.runtimes && plan.spec.ports != [] && BySandboxId(db, sandboxId).None?
    ensures var (after, _) := ProvisionFresh(s, db, sandboxId, plan, o);
            && Base(s, after) && OnlyTouches(db, after, o.freshId)
            && (o.freshId in after.runtimes ==>
                LeasedTo(after.leases, o.freshId, after.runtimes[o.freshId].portBindings))
  {
    var id := o.freshId;
    var row := NewRow(s, sandboxId, plan, o);
    if Schema(db.runtimes[id := row]) {
      var saved := db.(runtimes := db.runtimes[id := row]);
      SaveKeepsBase(s, db, id, row);
      var (leases, leased) := Lease(saved.leases, s.range, id, |plan.spec.ports|);
      if leased.None? {
        GivingUpRestores(s, db, id, row);
      } else {
        var mid := saved.(leases := leases);
        LeaseOnlyTouches(saved.leases, s.range, id, |plan.spec.ports|);
        LeasingKeepsBase(s, saved, id, leases);
        StartKeepsBase(s, mid, id, plan, o);
        StartLeases(s, mid, id, plan, o);
        OnlyTouchesTrans(db, saved, mid, id);
        OnlyTouchesTrans(db, mid, Start(s, mid, id, plan, o).0, id);
      }
    }
  }

  lemma FreshRows(s: Settings, db: Db, sandboxId: string, plan: Plan, o: Oracle, ok: Row -> bool)
    requires plan.spec.ports != [] && o.freshId !in db.runtimes && AllRows(db.runtimes, ok)
    requires var id := o.freshId;
             var row := NewRow(s, sandboxId, plan, o);
             var (leases, _) := Lease(db.leases, s.range, id, |plan.spec.ports|);
             AllRows(Start(s, Db(db.runtimes[id := row], leases, db.previews), id, plan, o).0.runtimes, ok)
    ensures AllRows(ProvisionFresh(s, db, sandboxId, plan, o).0.runtimes, ok)
  {
    var id := o.freshId;
    var runtimes := db.runtimes[id := NewRow(s, sandboxId, plan, o)];
    var (leases, leased) := Lease(db.leases, s.range, id, |plan.spec.ports|);
    var (after, _) := ProvisionFresh(s, db, sandboxId, plan, o);
    if !Schema(runtimes) {
      assert after == db;
    } else if leased.None? {
      assert after.runtimes == runtimes - {id} == db.runtimes;
    } else {
      assert after == Start(s, Db(runtimes, leases, db.previews), id, plan, o).0;
    }
  }

  lemma FreshKeepsRows(s: Settings, db: Db, sandboxId: string, plan: Plan, o: Oracle)
    requires RowsOk(db.runtimes) && GoodPlan(plan) && Normalized(sandboxId) && o.freshId !in db.runtimes
    ensures RowsOk(ProvisionFresh(s, db, sandboxId, plan, o).0.runtimes)
  {
    var id := o.freshId;
    var row := NewRow(s, sandboxId, plan, o);
    var (leases, _) := Lease(db.leases, s.range, id, |plan.spec.ports|);
    RowsOkUpdate(db.runtimes, id, row);
    StartKeepsRows(s, Db(db.runtimes[id := row], leases, db.previews), id, plan, o);
    FreshRows(s, db, sandboxId, plan, o, RowOk);
  }
}
