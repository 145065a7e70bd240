/** The port lease table and what a sequential `leasePorts` call means.

    One runtime host exists, so the UNIQUE (runtimeHostId, port) constraint makes the
    table a map from port to the runtime that holds it. */
module PortLeases {
  import opened Prelude

  type RuntimeId = string
  type LeaseTable = map<int, RuntimeId>

  /** Both ends are included; the range is empty when `last < first`. */
  datatype PortRange = PortRange(first: int, last: int) {
    predicate Has(port: int) {
      first <= port <= last
    }

    function Size(): nat {
      if last < first then 0 else last - first + 1
    }
  }

  function FreeFrom(leases: LeaseTable, port: int, last: int): seq<int>
    decreases last - port
  {
    if port > last then []
    else if port in leases then FreeFrom(leases, port + 1, last)
    else [port] + FreeFrom(leases, port + 1, last)
  }

  /** The free ports of the range in scan order. */
  function Free(leases: LeaseTable, range: PortRange): seq<int> {
    FreeFrom(leases, range.first, range.last)
  }

  /** The table after `DELETE ... WHERE runtimeId = id`. */
  function Without(leases: LeaseTable, id: RuntimeId): LeaseTable {
    map port | port in leases && leases[port] != id :: leases[port]
  }

  function Grant(leases: LeaseTable, ports: seq<int>, id: RuntimeId): LeaseTable {
    leases + (map port | port in ports :: id)
  }

  /** A sequential `leasePorts`: the first `count` free ports, or none and the runtime loses all it had. */
  function Lease(leases: LeaseTable, range: PortRange, id: RuntimeId, count: nat): (LeaseTable, Option<seq<int>>) {
    var free := Free(leases, range);
    if count <= |free| then (Grant(leases, free[..count], id), Some(free[..count]))
    else (Without(leases, id), None)
  }

  /** `Free` lists exactly the unleased ports of the range, in order. */
  lemma {:induction false} FreeFromMeaning(leases: LeaseTable, port: int, last: int)
    ensures Ascending(FreeFrom(leases, port, last))
    ensures forall p :: p in FreeFrom(leases, port, last) <==> port <= p <= last && p !in leases
    decreases last - port
  {
    if port <= last {
      FreeFromMeaning(leases, port + 1, last);
      var rest := FreeFrom(leases, port + 1, last);
      assert forall i :: 0 <= i < |rest| ==> rest[i] in rest;
    }
  }

  lemma FreeMeaning(leases: LeaseTable, range: PortRange)
    ensures Ascending(Free(leases, range))
    ensures forall p :: p in Free(leases, range) <==> range.Has(p) && p !in leases
  {
    FreeFromMeaning(leases, range.first, range.last);
  }

  /** First fit: no ascending choice of free ports is longer, or smaller at any position. */
  lemma {:induction false} FirstFitIsLeast(leases: LeaseTable, range: PortRange, other: seq<int>, i: nat)
    requires Ascending(other) && i < |other|
    requires forall p :: p in other ==> range.Has(p) && p !in leases
    ensures i < |Free(leases, range)| && Free(leases, range)[i] <= other[i]
  {
    var free := Free(leases, range);
    FreeMeaning(leases, range);
    if i > 0 {
      FirstFitIsLeast(leases, range, other, i - 1);
    }
    assert other[i] in other;
    var k :| 0 <= k < |free| && free[k] == other[i];
    // k < i is impossible: free[k] == other[i] lies above other[i - 1], hence above free[i - 1].
    assert i == 0 || other[i - 1] < other[i];
  }

  lemma {:induction false} CountFreeFrom(leases: LeaseTable, port: int, last: int)
    requires port <= last + 1
    ensures |FreeFrom(leases, port, last)| + |set p | p in leases && port <= p <= last| == last + 1 - port
    decreases last - port
  {
    var here := set p | p in leases && port <= p <= last;
    if port <= last {
      CountFreeFrom(leases, port + 1, last);
      var above := set p | p in leases && port + 1 <= p <= last;
      assert here == if port in leases then above + {port} else above;
    } else {
      assert here == {};
    }
  }

  /** Free and leased ports together make up the range. */
  lemma FreePlusLeased(leases: LeaseTable, range: PortRange)
    requires forall p :: p in leases ==> range.Has(p)
    ensures |Free(leases, range)| + |leases| == range.Size()
  {
    var here := set p | p in leases && range.Has(p);
    assert here == leases.Keys;
    if range.first <= range.last + 1 {
      CountFreeFrom(leases, range.first, range.last);
      assert here == set p | p in leases && range.first <= p <= range.last;
    } else {
      assert leases.Keys == {};
    }
  }

  /** What a granted sequential call adds: unleased ports of the range, ascending, now its own. */
  lemma LeaseGrants(leases: LeaseTable, range: PortRange, id: RuntimeId, count: nat)
    requires Lease(leases, range, id, count).1.Some?
    ensures var (after, granted) := Lease(leases, range, id, count);
            && |granted.value| == count && Ascending(granted.value)
            && (forall p :: p in granted.value ==> range.Has(p) && p !in leases)
            && after.Keys == leases.Keys + (set p | p in granted.value)
            && (forall p :: p in after ==> after[p] == if p in leases then leases[p] else id)
  {
    FreeMeaning(leases, range);
    var free := Free(leases, range);
    assert forall p :: p in free[..count] ==> p in free;
  }

  /** Granting the first `count` free ports leaves the remaining ones free, in the same order. */
  lemma FreeAfterGrant(leases: LeaseTable, range: PortRange, id: RuntimeId, count: nat)
    requires count <= |Free(leases, range)|
    ensures Free(Grant(leases, Free(leases, range)[..count], id), range) == Free(leases, range)[count..]
  {
    var free := Free(leases, range);
    var after := Grant(leases, free[..count], id);
    FreeMeaning(leases, range);
    FreeMeaning(after, range);
    forall p ensures p in free[count..] <==> p in Free(after, range) {
      if p in free[count..] {
        var k :| count <= k < |free| && free[k] == p;
        assert p !in free[..count];
      }
    }
    AscendingUnique(free[count..], Free(after, range));
  }

  /** Releasing undoes leasing, granted or not: for a runtime that held nothing the table is what it was, and the
      same ports are free. */
  lemma ReleaseUndoesLease(leases: LeaseTable, range: PortRange, id: RuntimeId, count: nat)
    requires forall p :: p in leases ==> leases[p] != id
    ensures Without(Lease(leases, range, id, count).0, id) == leases
    ensures Free(Without(Lease(leases, range, id, count).0, id), range) == Free(leases, range)
  {
    var (after, granted) := Lease(leases, range, id, count);
    if granted.Some? {
      LeaseGrants(leases, range, id, count);
      assert forall p :: p in leases ==> p in after && after[p] == leases[p];
    }
    forall p ensures p in Without(after, id) <==> p in leases {
    }
    assert Without(after, id).Keys == leases.Keys;
  }

  /** An ascending list is determined by its elements. */
  lemma {:induction false} AscendingUnique(a: seq<int>, b: seq<int>)
    requires Ascending(a) && Ascending(b)
    requires forall p :: p in a <==> p in b
    ensures a == b
  {
    forall i | 0 <= i < |a| ensures a[i] in b { assert a[i] in a; }
    forall i | 0 <= i < |b| ensures b[i] in a { assert b[i] in b; }
    assert (|a| > 0 ==> a[0] in b) && (|b| > 0 ==> b[0] in a);
    if a != [] {
      assert a[0] == b[0];
      forall p ensures p in a[1..] <==> p in b[1..] {
        if p in a[1..] {
          var i :| 1 <= i < |a| && a[i] == p;
          assert p in b && p != b[0];
        }
        if p in b[1..] {
          var i :| 1 <= i < |b| && b[i] == p;
          assert p in a && p != a[0];
        }
      }
      AscendingUnique(a[1..], b[1..]);
    }
  }
}
