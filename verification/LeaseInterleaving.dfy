/** Any number of `leasePorts` calls in flight at once, for any runtimes, and releases at any time.

    A call runs without interruption between two awaits, so it is a state machine with one step
    per repository call. Steps of different calls interleave freely, and an insert may fail
    for reasons of its own. */
module LeaseInterleaving {
  import opened Prelude
  import opened PortLeases

  type CallId = nat

  /** The repository call a `leasePorts` call is waiting for, or how it ended. */
  datatype Phase = Probing | Inserting | RollingBack | Granted | Failed

  datatype Call = Call(runtimeId: RuntimeId, count: nat, cursor: int, ports: seq<int>, phase: Phase) {
    predicate InFlight() {
      phase.Probing? || phase.Inserting? || phase.RollingBack?
    }
  }

  /** `revoked` holds the calls whose runtime has lost its leases since they began, by a failed call or a release. */
  datatype System = System(leases: LeaseTable, calls: map<CallId, Call>, revoked: set<CallId>)

  datatype Action =
    | Begin(id: CallId, runtimeId: RuntimeId, count: nat)
    | Probe(id: CallId)
    | Insert(id: CallId, ok: bool)
    | RollBack(id: CallId)
    | Release(runtimeId: RuntimeId)

  /** The loop test and, when the loop is over, the test that follows it. */
  function LoopHead(range: PortRange, call: Call): Call {
    call.(phase :=
      if call.cursor <= range.last && |call.ports| < call.count then Probing
      else if |call.ports| != call.count then RollingBack
      else Granted)
  }

  function Start(range: PortRange, runtimeId: RuntimeId, count: nat): Call {
    LoopHead(range, Call(runtimeId, count, range.first, [], Probing))
  }

  /** One step of one call; `ok` tells whether an attempted insert went through. */
  function Advance(range: PortRange, leases: LeaseTable, call: Call, ok: bool): (LeaseTable, Call) {
    match call.phase
    case Probing =>
      if call.cursor in leases then (leases, LoopHead(range, call.(cursor := call.cursor + 1)))
      else (leases, call.(phase := Inserting))
    case Inserting =>
      if ok then
        (leases[call.cursor := call.runtimeId],
         LoopHead(range, call.(cursor := call.cursor + 1, ports := call.ports + [call.cursor])))
      else (leases, LoopHead(range, call.(cursor := call.cursor + 1)))
    case RollingBack => (Without(leases, call.runtimeId), call.(phase := Failed))
    case _ => (leases, call)
  }

  function CallsOf(s: System, runtimeId: RuntimeId): set<CallId> {
    set id | id in s.calls && s.calls[id].runtimeId == runtimeId
  }

  /** An insert that goes through met no lease on its port: the UNIQUE constraint. */
  predicate Enabled(s: System, a: Action) {
    match a
    case Begin(id, _, _) => id !in s.calls
    case Probe(id) => id in s.calls && s.calls[id].phase.Probing?
    case Insert(id, ok) => id in s.calls && s.calls[id].phase.Inserting? && (ok ==> s.calls[id].cursor !in s.leases)
    case RollBack(id) => id in s.calls && s.calls[id].phase.RollingBack?
    case Release(_) => true
  }

  function Next(range: PortRange, s: System, a: Action): System
    requires Enabled(s, a)
  {
    match a
    case Begin(id, runtimeId, count) => s.(calls := s.calls[id := Start(range, runtimeId, count)])
    case Probe(id) => s.(calls := s.calls[id := Advance(range, s.leases, s.calls[id], true).1])
    case Insert(id, ok) =>
      var (leases, call) := Advance(range, s.leases, s.calls[id], ok);
      s.(leases := leases, calls := s.calls[id := call])
    case RollBack(id) =>
      var (leases, call) := Advance(range, s.leases, s.calls[id], true);
      System(leases, s.calls[id := call], s.revoked + CallsOf(s, call.runtimeId))
    case Release(runtimeId) =>
      s.(leases := Without(s.leases, runtimeId), revoked := s.revoked + CallsOf(s, runtimeId))
  }

  predicate Legal(range: PortRange, s: System, run: seq<Action>)
    decreases |run|
  {
    run == [] || (Enabled(s, run[0]) && Legal(range, Next(range, s, run[0]), run[1..]))
  }

  function Execute(range: PortRange, s: System, run: seq<Action>): System
    requires Legal(range, s, run)
    decreases |run|
  {
    if run == [] then s else Execute(range, Next(range, s, run[0]), run[1..])
  }

  // ----- What every interleaving keeps -----

  ghost predicate CallOk(range: PortRange, c: Call) {
    && Ascending(c.ports)
    && (forall p :: p in c.ports ==> range.Has(p) && p < c.cursor)
    && range.first <= c.cursor
    && |c.ports| <= c.count
    && (c.phase.Probing? || c.phase.Inserting? ==> c.cursor <= range.last && |c.ports| < c.count)
    && (c.phase.RollingBack? ==> c.cursor > range.last && |c.ports| != c.count)
    && (c.phase.Granted? ==> |c.ports| == c.count)
  }

  /** Every port that an unrevoked call has collected is leased to the runtime of that call. */
  ghost predicate Backed(s: System) {
    forall id, p :: id in s.calls && id !in s.revoked && p in s.calls[id].ports ==>
      p in s.leases && s.leases[p] == s.calls[id].runtimeId
  }

  /** No port was collected by two unrevoked calls, whatever their runtimes. */
  ghost predicate Exclusive(s: System) {
    forall i, j, p | i in s.calls && j in s.calls && i != j && i !in s.revoked && j !in s.revoked ::
      !(p in s.calls[i].ports && p in s.calls[j].ports)
  }

  ghost predicate CallsOk(range: PortRange, s: System) {
    (forall id :: id in s.calls ==> CallOk(range, s.calls[id])) && s.revoked <= s.calls.Keys
  }

  ghost predicate Safe(range: PortRange, s: System) {
    CallsOk(range, s) && Backed(s) && Exclusive(s)
  }

  lemma AdvanceKeepsCallOk(range: PortRange, leases: LeaseTable, c: Call, ok: bool)
    requires CallOk(range, c)
    ensures CallOk(range, Advance(range, leases, c, ok).1)
  {
    assert forall i :: 0 <= i < |c.ports| ==> c.ports[i] in c.ports;
  }

  lemma NextKeepsCallsOk(range: PortRange, s: System, a: Action)
    requires CallsOk(range, s) && Enabled(s, a)
    ensures CallsOk(range, Next(range, s, a))
  {
    if a.Probe? || a.Insert? || a.RollBack? {
      AdvanceKeepsCallOk(range, s.leases, s.calls[a.id], if a.Insert? then a.ok else true);
    }
  }

  /** Only an insert that goes through makes a call collect a port, and that port had no lease. */
  lemma Collected(range: PortRange, s: System, a: Action, id: CallId, port: int)
    requires Enabled(s, a) && id in Next(range, s, a).calls && port in Next(range, s, a).calls[id].ports
    ensures (id in s.calls && port in s.calls[id].ports)
         || (a.Insert? && a.id == id && a.ok && port == s.calls[id].cursor && port !in s.leases)
  {
  }

  lemma NextKeepsBacked(range: PortRange, s: System, a: Action)
    requires CallsOk(range, s) && Backed(s) && Enabled(s, a)
    ensures Backed(Next(range, s, a))
  {
    var next := Next(range, s, a);
    forall id, p | id in next.calls && id !in next.revoked && p in next.calls[id].ports
      ensures p in next.leases && next.leases[p] == next.calls[id].runtimeId
    {
      Collected(range, s, a, id, p);
    }
  }

  lemma NextKeepsExclusive(range: PortRange, s: System, a: Action)
    requires Backed(s) && Exclusive(s) && Enabled(s, a)
    ensures Exclusive(Next(range, s, a))
  {
    var next := Next(range, s, a);
    forall i, j, p | i in next.calls && j in next.calls && i != j && i !in next.revoked && j !in next.revoked
      ensures !(p in next.calls[i].ports && p in next.calls[j].ports)
    {
      if p in next.calls[i].ports && p in next.calls[j].ports {
        Collected(range, s, a, i, p);
        Collected(range, s, a, j, p);
      }
    }
  }

  lemma NextKeepsSafe(range: PortRange, s: System, a: Action)
    requires Safe(range, s) && Enabled(s, a)
    ensures Safe(range, Next(range, s, a))
  {
    NextKeepsCallsOk(range, s, a);
    NextKeepsBacked(range, s, a);
    NextKeepsExclusive(range, s, a);
  }

  /** Safety over whole runs: it holds after every legal run, hence after every prefix of one. */
  lemma {:induction false} EveryRunIsSafe(range: PortRange, s: System, run: seq<Action>)
    requires Safe(range, s) && Legal(range, s, run)
    ensures Safe(range, Execute(range, s, run))
    decreases |run|
  {
    if run != [] {
      NextKeepsSafe(range, s, run[0]);
      EveryRunIsSafe(range, Next(range, s, run[0]), run[1..]);
    }
  }

  // ----- No port is granted twice -----

  lemma {:induction false} GrantsAreFinal(range: PortRange, s: System, run: seq<Action>, id: CallId)
    requires Legal(range, s, run) && id in s.calls && !s.calls[id].InFlight()
    ensures id in Execute(range, s, run).calls && Execute(range, s, run).calls[id] == s.calls[id]
    decreases |run|
  {
    if run != [] {
      GrantsAreFinal(range, Next(range, s, run[0]), run[1..], id);
    }
  }

  /** A port granted to one call reaches another call only after one of the two was revoked. */
  lemma NoPortGrantedTwice(range: PortRange, leases: LeaseTable, before: seq<Action>, after: seq<Action>,
                           i: CallId, j: CallId, port: int)
    requires Legal(range, System(leases, map[], {}), before)
    requires Legal(range, Execute(range, System(leases, map[], {}), before), after)
    requires var mid := Execute(range, System(leases, map[], {}), before);
             i in mid.calls && mid.calls[i].phase.Granted? && port in mid.calls[i].ports
    requires var end := Execute(range, Execute(range, System(leases, map[], {}), before), after);
             j != i && j in end.calls && port in end.calls[j].ports
    ensures var end := Execute(range, Execute(range, System(leases, map[], {}), before), after);
            i in end.revoked || j in end.revoked
  {
    var mid := Execute(range, System(leases, map[], {}), before);
    EveryRunIsSafe(range, System(leases, map[], {}), before);
    EveryRunIsSafe(range, mid, after);
    GrantsAreFinal(range, mid, after, i);
  }

  /** Leases of a runtime are taken away only by its own failed call or its own release. */
  predicate TakesAway(s: System, a: Action, runtimeId: RuntimeId) {
    match a
    case RollBack(id) => id in s.calls && s.calls[id].runtimeId == runtimeId
    case Release(r) => r == runtimeId
    case _ => false
  }

  lemma {:induction false} RevokedForCause(range: PortRange, s: System, run: seq<Action>, id: CallId)
    requires Legal(range, s, run) && id in s.calls && id !in s.revoked
    requires id in Execute(range, s, run).revoked
    ensures exists k :: 0 <= k < |run| && Legal(range, s, run[..k])
                     && TakesAway(Execute(range, s, run[..k]), run[k], s.calls[id].runtimeId)
    decreases |run|
  {
    var next := Next(range, s, run[0]);
    if id in next.revoked {
      assert run[..0] == [];
      assert TakesAway(Execute(range, s, run[..0]), run[0], s.calls[id].runtimeId);
    } else {
      RevokedForCause(range, next, run[1..], id);
      var k :| 0 <= k < |run| - 1 && Legal(range, next, run[1..][..k])
            && TakesAway(Execute(range, next, run[1..][..k]), run[1..][k], next.calls[id].runtimeId);
      assert run[..k + 1][1..] == run[1..][..k];
    }
  }

  // ----- Every call ends -----

  function Rank(range: PortRange, c: Call): int {
    match c.phase
    case Probing => 2 * (range.last - c.cursor) + 3
    case Inserting => 2 * (range.last - c.cursor) + 2
    case RollingBack => 1
    case _ => 0
  }

  function StepsOf(run: seq<Action>, id: CallId): nat {
    if run == [] then 0
    else (if !run[0].Release? && run[0].id == id then 1 else 0) + StepsOf(run[1..], id)
  }

  /** However it is interleaved, a call takes at most two steps per port, and one to roll back. */
  lemma {:induction false} CallsEnd(range: PortRange, s: System, run: seq<Action>, id: CallId)
    requires Safe(range, s) && Legal(range, s, run) && id in s.calls
    ensures StepsOf(run, id) <= Rank(range, s.calls[id])
    decreases |run|
  {
    if run != [] {
      NextKeepsSafe(range, s, run[0]);
      CallsEnd(range, Next(range, s, run[0]), run[1..], id);
    }
  }

  // ----- A call that runs alone is the sequential one -----

  /** Steps of one call until it ends, with inserts failing only on conflict. */
  function Solo(range: PortRange, leases: LeaseTable, c: Call): (LeaseTable, Call)
    requires c.phase.Probing? || c.phase.Inserting? ==> c.cursor <= range.last
    decreases Rank(range, c)
  {
    if !c.InFlight() then (leases, c)
    else
      var (leases', c') := Advance(range, leases, c, c.cursor !in leases);
      Solo(range, leases', c')
  }

  /** How a call ends when it scans on from its cursor with nobody else at work. */
  ghost predicate EndsFirstFit(range: PortRange, leases: LeaseTable, c: Call, after: LeaseTable, done: Call)
    requires |c.ports| <= c.count
  {
    var need := c.count - |c.ports|;
    var free := FreeFrom(leases, c.cursor, range.last);
    if need <= |free| then
      done.phase.Granted? && done.ports == c.ports + free[..need] && after == Grant(leases, free[..need], c.runtimeId)
    else
      done.phase.Failed? && after == Without(leases, c.runtimeId)
  }

  lemma SoloTwoSteps(range: PortRange, leases: LeaseTable, c: Call)
    requires c.phase.Probing? && c.cursor <= range.last && c.cursor !in leases
    ensures var c' := LoopHead(range, c.(cursor := c.cursor + 1, ports := c.ports + [c.cursor]));
            Solo(range, leases, c) == Solo(range, leases[c.cursor := c.runtimeId], c')
  {
    var c1 := c.(phase := Inserting);
    assert Solo(range, leases, c) == Solo(range, leases, c1);
  }

  lemma SoloStops(range: PortRange, leases: LeaseTable, c: Call)
    requires |c.ports| <= c.count && !LoopHead(range, c).phase.Probing?
    ensures var (after, done) := Solo(range, leases, LoopHead(range, c));
            EndsFirstFit(range, leases, c, after, done)
  {
    var head := LoopHead(range, c);
    if head.phase.Granted? {
      assert FreeFrom(leases, c.cursor, range.last)[..0] == [] && c.ports + [] == c.ports;
      assert Grant(leases, [], c.runtimeId) == leases;
    } else {
      assert Solo(range, leases, head) == (Without(leases, c.runtimeId), head.(phase := Failed));
    }
  }

  lemma {:induction false} SoloFrom(range: PortRange, leases: LeaseTable, c: Call)
    requires |c.ports| <= c.count
    ensures var (after, done) := Solo(range, leases, LoopHead(range, c));
            EndsFirstFit(range, leases, c, after, done)
    decreases range.last - c.cursor
  {
    var head := LoopHead(range, c);
    if !head.phase.Probing? {
      SoloStops(range, leases, c);
    } else if c.cursor in leases {
      SoloFrom(range, leases, c.(cursor := c.cursor + 1));
    } else {
      SoloTwoSteps(range, leases, head);
      SoloFrom(range, leases[c.cursor := c.runtimeId], c.(cursor := c.cursor + 1, ports := c.ports + [c.cursor]));
      var (after, done) := Solo(range, leases, head);
      CollectFirst(range, leases, c, after, done);
    }
  }

  lemma CollectFirst(range: PortRange, leases: LeaseTable, c: Call, after: LeaseTable, done: Call)
    requires c.cursor <= range.last && c.cursor !in leases && |c.ports| < c.count
    requires EndsFirstFit(range, leases[c.cursor := c.runtimeId],
                          c.(cursor := c.cursor + 1, ports := c.ports + [c.cursor]), after, done)
    ensures EndsFirstFit(range, leases, c, after, done)
  {
    var need := c.count - |c.ports|;
    var rest := FreeFrom(leases, c.cursor + 1, range.last);
    FreeFromIgnoresBelow(leases, c.cursor, c.runtimeId, c.cursor + 1, range.last);
    WithoutOwn(leases, c.cursor, c.runtimeId);
    if need <= |rest| + 1 {
      TakeFirst(c.ports, c.cursor, rest, need);
      GrantFirst(leases, c.cursor, rest[..need - 1], c.runtimeId);
    }
  }

  lemma TakeFirst(collected: seq<int>, port: int, rest: seq<int>, need: nat)
    requires 0 < need <= |rest| + 1
    ensures ([port] + rest)[..need] == [port] + rest[..need - 1]
    ensures collected + [port] + rest[..need - 1] == collected + ([port] + rest)[..need]
  {
    assert ([port] + rest)[..need] == [port] + rest[..need - 1];
  }

  lemma WithoutOwn(leases: LeaseTable, port: int, id: RuntimeId)
    requires port !in leases
    ensures Without(leases[port := id], id) == Without(leases, id)
  {
  }

  lemma GrantFirst(leases: LeaseTable, port: int, ports: seq<int>, id: RuntimeId)
    ensures Grant(leases[port := id], ports, id) == Grant(leases, [port] + ports, id)
  {
    assert forall p :: p in [port] + ports <==> p == port || p in ports;
    var l, r := Grant(leases[port := id], ports, id), Grant(leases, [port] + ports, id);
    assert l.Keys == r.Keys;
    assert forall p :: p in l ==> l[p] == r[p];
  }

  lemma {:induction false} FreeFromIgnoresBelow(leases: LeaseTable, port: int, id: RuntimeId, from: int, last: int)
    requires port < from
    ensures FreeFrom(leases[port := id], from, last) == FreeFrom(leases, from, last)
    decreases last - from
  {
    if from <= last {
      FreeFromIgnoresBelow(leases, port, id, from + 1, last);
    }
  }

  /** Run without interference, the interleaved call computes exactly the sequential `Lease`. */
  lemma SoloIsSequential(range: PortRange, leases: LeaseTable, id: RuntimeId, count: nat)
    ensures var (after, done) := Solo(range, leases, Start(range, id, count));
            Lease(leases, range, id, count) == (after, if done.phase.Granted? then Some(done.ports) else None)
  {
    SoloFrom(range, leases, Call(id, count, range.first, [], Probing));
    var free := Free(leases, range);
    assert count <= |free| ==> [] + free[..count] == free[..count];
  }

  // ----- When nothing is ever taken away -----

  /** The step begins no second call for a runtime, and releases no runtime that has a call. */
  predicate Separate(s: System, a: Action) {
    match a
    case Begin(_, runtimeId, _) => CallsOf(s, runtimeId) == {}
    case Release(runtimeId) => CallsOf(s, runtimeId) == {}
    case _ => true
  }

  predicate SeparateRun(range: PortRange, s: System, run: seq<Action>)
    requires Legal(range, s, run)
    decreases |run|
  {
    run == [] || (Separate(s, run[0]) && SeparateRun(range, Next(range, s, run[0]), run[1..]))
  }

  ghost predicate OnlyFailedRevoked(s: System) {
    && (forall id :: id in s.revoked ==> id in s.calls && s.calls[id].phase.Failed?)
    && (forall i, j :: i in s.calls && j in s.calls && i != j ==> s.calls[i].runtimeId != s.calls[j].runtimeId)
  }

  lemma SeparateKeeps(range: PortRange, s: System, a: Action)
    requires OnlyFailedRevoked(s) && Enabled(s, a) && Separate(s, a)
    ensures OnlyFailedRevoked(Next(range, s, a))
  {
    if a.Begin? {
      forall id | id in s.calls ensures s.calls[id].runtimeId != a.runtimeId {
        assert id !in CallsOf(s, a.runtimeId);
      }
    }
  }

  lemma {:induction false} SeparateRunKeeps(range: PortRange, s: System, run: seq<Action>)
    requires OnlyFailedRevoked(s) && Legal(range, s, run) && SeparateRun(range, s, run)
    ensures OnlyFailedRevoked(Execute(range, s, run))
    decreases |run|
  {
    if run != [] {
      SeparateKeeps(range, s, run[0]);
      SeparateRunKeeps(range, Next(range, s, run[0]), run[1..]);
    }
  }

  /** What callers count on: a call that has not failed holds every port it has collected, alone. */
  ghost predicate HoldsAlone(s: System) {
    && HoldersBacked(s)
    && (forall i, j, p | i in s.calls && j in s.calls && i != j && !s.calls[i].phase.Failed?
        && !s.calls[j].phase.Failed? ::
          !(p in s.calls[i].ports && p in s.calls[j].ports))
  }

  ghost predicate HoldersBacked(s: System) {
    forall id, p :: id in s.calls && !s.calls[id].phase.Failed? && p in s.calls[id].ports ==>
      p in s.leases && s.leases[p] == s.calls[id].runtimeId
  }

  /** In every interleaving of calls with pairwise distinct runtimes, whatever fails and whatever else is released,
      each call in flight or granted holds its ports, and no port is in two of them. */
  lemma DistinctRuntimesHoldAlone(range: PortRange, leases: LeaseTable, run: seq<Action>)
    requires Legal(range, System(leases, map[], {}), run) && SeparateRun(range, System(leases, map[], {}), run)
    ensures HoldsAlone(Execute(range, System(leases, map[], {}), run))
  {
    EveryRunIsSafe(range, System(leases, map[], {}), run);
    SeparateRunKeeps(range, System(leases, map[], {}), run);
  }

  // ----- When something is taken away -----

  /** Another call of the runtime, in flight or granted, has collected ports. */
  ghost predicate OthersHold(s: System, runtimeId: RuntimeId, but: set<CallId>) {
    exists other ::
        other in CallsOf(s, runtimeId) && other !in but && !s.calls[other].phase.Failed? && s.calls[other].ports != []
  }

  /** A roll back does harm exactly when another call of the runtime, in flight or granted, has ports. */
  lemma RollBackExactlySafe(range: PortRange, s: System, id: CallId)
    requires HoldersBacked(s) && Enabled(s, RollBack(id))
    ensures HoldersBacked(Next(range, s, RollBack(id))) <==> !OthersHold(s, s.calls[id].runtimeId, {id})
  {
    var next := Next(range, s, RollBack(id));
    forall other | other in CallsOf(s, s.calls[id].runtimeId) && other != id && !s.calls[other].phase.Failed?
        && s.calls[other].ports != []
      ensures !HoldersBacked(next)
    {
      var p := s.calls[other].ports[0];
      assert p in next.calls[other].ports && p !in next.leases;
    }
    if !OthersHold(s, s.calls[id].runtimeId, {id}) {
      forall other, p | other in next.calls && !next.calls[other].phase.Failed? && p in next.calls[other].ports
        ensures p in next.leases && next.leases[p] == next.calls[other].runtimeId
      {
        assert other in CallsOf(s, s.calls[other].runtimeId) && other != id && s.calls[other].ports != [];
      }
    }
  }

  /** A release while calls are in flight does harm exactly when one of the runtime's calls has ports. */
  lemma ReleaseExactlySafe(range: PortRange, s: System, runtimeId: RuntimeId)
    requires HoldersBacked(s)
    ensures HoldersBacked(Next(range, s, Release(runtimeId))) <==> !OthersHold(s, runtimeId, {})
  {
    var next := Next(range, s, Release(runtimeId));
    forall other | other in CallsOf(s, runtimeId) && !s.calls[other].phase.Failed? && s.calls[other].ports != []
      ensures !HoldersBacked(next)
    {
      var p := s.calls[other].ports[0];
      assert p in next.calls[other].ports && p !in next.leases;
    }
    if !OthersHold(s, runtimeId, {}) {
      forall other, p | other in next.calls && !next.calls[other].phase.Failed? && p in next.calls[other].ports
        ensures p in next.leases && next.leases[p] == next.calls[other].runtimeId
      {
        assert other in CallsOf(s, s.calls[other].runtimeId) && s.calls[other].ports != [];
      }
    }
  }

  /** Two calls of one runtime for the only port there is, from an empty table: the first is granted the port, the
      second finds none and rolls back, and then the granted port is leased to nobody. */
  lemma SharedRuntimeLosesPorts()
    ensures var range, start := PortRange(1, 1), System(map[], map[], {});
            var run := [Begin(0, "r", 1), Begin(1, "r", 1), Probe(0), Insert(0, true), Probe(1), RollBack(1)];
            && Legal(range, start, run)
            && var end := Execute(range, start, run);
               0 in end.calls && end.calls[0] == Call("r", 1, 2, [1], Granted) && end.leases == map[]
  {
    var range, start := PortRange(1, 1), System(map[], map[], {});
    var run := [Begin(0, "r", 1), Begin(1, "r", 1), Probe(0), Insert(0, true), Probe(1), RollBack(1)];
    var both := Call("r", 1, 1, [], Probing);
    var granted := Call("r", 1, 2, [1], Granted);
    var s1 := System(map[], map[0 := both], {});
    var s2 := System(map[], map[0 := both, 1 := both], {});
    var s3 := System(map[], map[0 := both.(phase := Inserting), 1 := both], {});
    var s4 := System(map[1 := "r"], map[0 := granted, 1 := both], {});
    var s5 := System(map[1 := "r"], map[0 := granted, 1 := Call("r", 1, 2, [], RollingBack)], {});
    assert Next(range, s4, run[4]) == s5;
    Unroll(range, s5, run[5..]);
    Unroll(range, s4, run[4..]);
    assert Next(range, s3, run[3]) == s4 by {
      assert [] + [1] == [1];
    }
    Unroll(range, s3, run[3..]);
    assert Next(range, s2, run[2]) == s3;
    Unroll(range, s2, run[2..]);
    assert Next(range, s1, run[1]) == s2;
    Unroll(range, s1, run[1..]);
    Unroll(range, start, run);
  }

  lemma Unroll(range: PortRange, s: System, run: seq<Action>)
    requires run != [] && Enabled(s, run[0]) && Legal(range, Next(range, s, run[0]), run[1..])
    ensures Legal(range, s, run) && Execute(range, s, run) == Execute(range, Next(range, s, run[0]), run[1..])
  {
  }
}
