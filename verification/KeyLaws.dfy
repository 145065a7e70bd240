/** The operations that name a runtime by a key: which runtime they are about, and all they do to it. */
module KeyLaws {
  import opened Prelude
  import opened PortLeases
  import opened Identity
  import opened RuntimeSpecs
  import opened ControlPlane
  import opened ControlPlaneLaws
  import opened ControlPlaneRuns

  predicate ByKey(op: Op) {
    op.Delete? || op.SetStatus? || op.IssuePreview?
  }

  ghost predicate Known(db: Db, value: string) {
    exists id :: id in db.runtimes && Matches(db.runtimes[id], value)
  }

  lemma FindsExactly(db: Db, key: string, o: Oracle)
    ensures var r := FindByKey(db, key, o);
            && (r == Err(InvalidName) <==> Normalize(key).None?)
            && (r == Err(NotFound) <==> Normalize(key).Some? && !Known(db, Normalize(key).value))
            && (r.Err? ==> r.error == InvalidName || r.error == NotFound)
            && (r.Ok? ==> Normalize(key).Some? && Matches(db.runtimes[r.value], Normalize(key).value))
  {
  }

  /** The runtime that was found is the one the operation is about, and no other refusal looks like a key's. */
  lemma FoundIsMeant(s: Settings, db: Db, op: Op, o: Oracle)
    requires ByKey(op)
    ensures var (after, out), r := Apply(s, db, op, o), FindByKey(db, op.key, o);
            if r.Err? then after == db && out == Rejected(r.error)
            else out != Rejected(InvalidName) && out != Rejected(NotFound) && (out.Done? ==> out.id == r.value)
  {
  }

  /** A key without letters or digits is refused, a key that no runtime has as its id or name is not found, and
      then nothing changes; otherwise the operation is about a runtime with that id or name. */
  lemma KeyIsFoundExactly(s: Settings, db: Db, op: Op, o: Oracle)
    requires ByKey(op)
    ensures var (after, out) := Apply(s, db, op, o);
            && (out == Rejected(InvalidName) <==> Normalize(op.key).None?)
            && (out == Rejected(NotFound) <==> Normalize(op.key).Some? && !Known(db, Normalize(op.key).value))
            && (out == Rejected(InvalidName) || out == Rejected(NotFound) ==> after == db)
            && (out.Done? ==> Normalize(op.key).Some? && out.id in db.runtimes
                              && Matches(db.runtimes[out.id], Normalize(op.key).value))
  {
    FindsExactly(db, op.key, o);
    FoundIsMeant(s, db, op, o);
  }

  /** The key denotes this runtime and no other. */
  ghost predicate Denotes(db: Db, key: string, id: RuntimeId) {
    && Schema(db.runtimes) && Unambiguous(db) && id in db.runtimes
    && Normalize(key).Some? && Matches(db.runtimes[id], Normalize(key).value)
  }

  lemma DenotedIsFound(db: Db, key: string, id: RuntimeId, o: Oracle)
    requires Denotes(db, key, id)
    ensures FindByKey(db, key, o) == Ok(id)
  {
    LookupIsUnambiguous(db, Normalize(key).value);
  }

  /** Of the whole database only this row is different. */
  ghost predicate OnlyRowChanges(before: Db, after: Db, id: RuntimeId) {
    && after.leases == before.leases && after.previews == before.previews
    && after.runtimes.Keys == before.runtimes.Keys
    && forall other :: other in before.runtimes && other != id ==> after.runtimes[other] == before.runtimes[other]
  }

  predicate OnlyStatusChanges(before: Row, after: Row, status: Status, reason: Option<string>) {
    after == before.(status := status, statusReason := reason)
  }

  /** A delete by id or by name: the row, every lease and every preview token of that runtime go, and nothing else
      does. When the host cannot remove the sandbox, the row is marked and everything is still there. */
  lemma DeleteByKey(s: Settings, db: Db, key: string, id: RuntimeId, o: Oracle)
    requires Base(s, db) && Denotes(db, key, id)
    ensures var (after, out) := Apply(s, db, Delete(key), o);
            var row := db.runtimes[id];
            if o.removed then
              && out == Done(id)
              && (forall other :: other in after.runtimes <==> other in db.runtimes && other != id)
              && (forall other :: other in after.runtimes ==> after.runtimes[other] == db.runtimes[other])
              && (forall p :: p in after.leases <==> p in db.leases && db.leases[p] != id)
              && (forall p :: p in after.leases ==> after.leases[p] == db.leases[p])
              && (forall v :: v in after.previews <==> v in db.previews && v.sandboxId != row.sandboxId)
            else
              && out == Rejected(AdapterFailure) && OnlyRowChanges(db, after, id)
              && OnlyStatusChanges(row, after.runtimes[id], Deleting, Some("delete_requested"))
  {
    DenotedIsFound(db, key, id, o);
    if o.removed {
      DeleteIs(db, id, o);
    }
  }

  lemma StatusFoundIs(db: Db, id: RuntimeId, status: Status, reason: string, o: Oracle)
    requires id in db.runtimes
    ensures SetStatusFound(db, id, status, reason, o)
         == if o.switched then
              (db.(runtimes := db.runtimes[id := db.runtimes[id].(status := status, statusReason := Some(reason))]),
                  Done(id))
            else (db, Rejected(AdapterFailure))
  {
  }

  /** Starting and stopping by id or by name. */
  lemma SetStatusByKey(s: Settings, db: Db, key: string, status: Status, reason: string, id: RuntimeId, o: Oracle)
    requires Denotes(db, key, id)
    ensures var (after, out) := Apply(s, db, SetStatus(key, status, reason), o);
            if o.switched then
              && out == Done(id) && OnlyRowChanges(db, after, id)
              && OnlyStatusChanges(db.runtimes[id], after.runtimes[id], status, Some(reason))
            else after == db && out == Rejected(AdapterFailure)
  {
    DenotedIsFound(db, key, id, o);
    StatusFoundIs(db, id, status, reason, o);
  }

  /** A token is issued exactly when the sandbox runs and one of the row's bindings has the port. */
  ghost predicate PreviewIssued(before: Db, after: Db, out: Outcome, id: RuntimeId, preview: Preview, status: Status)
    requires id in before.runtimes
  {
    var row := before.runtimes[id];
    var exposed := exists i :: 0 <= i < |row.portBindings| && row.portBindings[i].containerPort == preview.port;
    && out == (if status != Running then Rejected(NotRunning)
               else if !exposed then Rejected(PortNotExposed) else Done(id))
    && (out.Rejected? ==> after.previews == before.previews)
    && (out.Done? ==> forall v: Preview :: v in after.previews <==>
          v == preview || (v in before.previews && !(v.sandboxId == preview.sandboxId && v.port == preview.port)))
  }

  lemma PreviewFoundIs(db: Db, id: RuntimeId, port: int, token: string, expiresAt: int, o: Oracle)
    requires id in db.runtimes
    ensures var (after, out) := IssuePreviewFound(db, id, port, token, expiresAt, o);
            && after.leases == db.leases
            && after.runtimes == db.runtimes[id := db.runtimes[id].(status := o.hostStatus)]
            && PreviewIssued(db, after, out, id, Preview(token, db.runtimes[id].sandboxId, port, expiresAt),
                o.hostStatus)
  {
  }

  /** A signed preview URL by id or by name: the status is brought up to date, and the token replaces those of the same
      sandbox and port. */
  lemma IssuePreviewByKey(s: Settings, db: Db, key: string, port: int, token: string, expiresAt: int, id: RuntimeId,
                          o: Oracle)
    requires Denotes(db, key, id)
    ensures var (after, out) := Apply(s, db, IssuePreview(key, port, token, expiresAt), o);
            var row := db.runtimes[id];
            && OnlyRowChanges(db, after.(previews := db.previews), id)
            && OnlyStatusChanges(row, after.runtimes[id], o.hostStatus, row.statusReason)
            && PreviewIssued(db, after, out, id, Preview(token, row.sandboxId, port, expiresAt), o.hostStatus)
  {
    DenotedIsFound(db, key, id, o);
    PreviewFoundIs(db, id, port, token, expiresAt, o);
  }
}
