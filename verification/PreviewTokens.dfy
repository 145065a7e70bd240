/** Signed preview tokens: records that are replaced, expired by hand, deleted with their sandbox, and
    dropped lazily when a lookup finds them expired.

    All of this awaits the database, so creations, lookups and deletions interleave. Lookups are compared
    with an event log from which nothing is ever dropped. */
module PreviewTokens {
  import opened Prelude
  import opened ControlPlane

  type CallId = nat

  // ----- The event log -----

  datatype Event =
    | Issued(record: Preview)
    | Replaced(sandboxId: string, port: int)
    | ExpiredByHand(token: string, port: int)
    | SandboxDeleted(sandboxId: string)

  predicate Kills(e: Event, r: Preview) {
    match e
    case Issued(_) => false
    case Replaced(sandboxId, port) => r.sandboxId == sandboxId && r.port == port
    case ExpiredByHand(token, port) => r.token == token && r.port == port
    case SandboxDeleted(sandboxId) => r.sandboxId == sandboxId
  }

  /** The record was issued, and nothing that ends it has happened since. */
  predicate Live(events: seq<Event>, r: Preview) {
    if events == [] then false
    else
      var last := events[|events| - 1];
      last == Issued(r) || (!Kills(last, r) && Live(events[..|events| - 1], r))
  }

  ghost predicate Survives(events: seq<Event>, r: Preview, i: int) {
    0 <= i < |events| && events[i] == Issued(r) && forall j :: i < j < |events| ==> !Kills(events[j], r)
  }

  /** The same, said without recursion. */
  lemma {:induction false} LiveMeaning(events: seq<Event>, r: Preview)
    ensures Live(events, r) <==> exists i :: Survives(events, r, i)
  {
    if events != [] {
      var n := |events| - 1;
      var before := events[..n];
      LiveMeaning(before, r);
      if events[n] == Issued(r) {
        assert Survives(events, r, n);
      } else if Live(events, r) {
        var i :| Survives(before, r, i);
        assert forall j :: 0 <= j < n ==> before[j] == events[j];
        assert Survives(events, r, i);
      } else {
        forall i | Survives(events, r, i) ensures Survives(before, r, i) {
          assert forall j :: 0 <= j < n ==> before[j] == events[j];
        }
      }
    }
  }

  /** What the log says a token opens at a given time. */
  ghost predicate Opens(events: seq<Event>, now: int, token: string, port: int, sandboxId: string) {
    exists expiresAt :: now < expiresAt && Live(events, Preview(token, sandboxId, port, expiresAt))
  }

  // ----- The store and its interleavings -----

  /** A lookup has read its record and not yet looked at the clock, or is dropping an expired record. */
  datatype Resolution = Looked(token: string, port: int, found: Option<Preview>) | Dropping(token: string, port: int)

  datatype State = State(
    now: int, records: set<Preview>, creating: map<CallId, (string, int)>, resolving: map<CallId, Resolution>)

  datatype Action =
    | Tick(to: int)
    | BeginCreate(call: CallId, sandboxId: string, port: int)
    | FinishCreate(call: CallId, token: string, expiresAt: int)
    | ExpireByHand(token: string, port: int)
    | DeleteSandbox(sandboxId: string)
    | Look(call: CallId, token: string, port: int)
    | Decide(call: CallId)
    | Drop(call: CallId)

  datatype Read = Read(token: string, port: int, events: seq<Event>)

  datatype Log = Log(now: int, events: seq<Event>, tokens: set<string>, looks: map<CallId, Read>)

  /** `findOneBy({ token, port })` */
  ghost function Lookup(records: set<Preview>, token: string, port: int): (r: Option<Preview>)
    ensures r.Some? ==> r.value in records && r.value.token == token && r.value.port == port
    ensures r.None? ==> forall v :: v in records ==> !(v.token == token && v.port == port)
  {
    if v :| v in records && v.token == token && v.port == port then Some(v) else None
  }

  function WithoutToken(records: set<Preview>, token: string, port: int): set<Preview> {
    set v | v in records && !(v.token == token && v.port == port)
  }

  ghost predicate Enabled(s: State, l: Log, a: Action) {
    match a
    case Tick(to) => s.now <= to
    case BeginCreate(call, _, _) => call !in s.creating
    case FinishCreate(call, token, _) => call in s.creating && token !in l.tokens
    case Look(call, _, _) => call !in s.resolving
    case Decide(call) => call in s.resolving && s.resolving[call].Looked?
    case Drop(call) => call in s.resolving && s.resolving[call].Dropping?
    case _ => true
  }

  ghost function Next(s: State, l: Log, a: Action): State
    requires Enabled(s, l, a)
  {
    match a
    case Tick(to) => s.(now := to)
    case BeginCreate(call, sandboxId, port) =>
      s.(records := (set v | v in s.records && !(v.sandboxId == sandboxId && v.port == port)),
         creating := s.creating[call := (sandboxId, port)])
    case FinishCreate(call, token, expiresAt) =>
      var (sandboxId, port) := s.creating[call];
      s.(records := s.records + {Preview(token, sandboxId, port, expiresAt)}, creating := s.creating - {call})
    case ExpireByHand(token, port) => s.(records := WithoutToken(s.records, token, port))
    case DeleteSandbox(sandboxId) => s.(records := set v | v in s.records && v.sandboxId != sandboxId)
    case Look(call, token, port) =>
      s.(resolving := s.resolving[call := Looked(token, port, Lookup(s.records, token, port))])
    case Decide(call) =>
      var q := s.resolving[call];
      if q.found.Some? && q.found.value.expiresAt <= s.now
      then s.(resolving := s.resolving[call := Dropping(q.token, q.port)])
      else s.(resolving := s.resolving - {call})
    case Drop(call) =>
      var q := s.resolving[call];
      s.(records := WithoutToken(s.records, q.token, q.port), resolving := s.resolving - {call})
  }

  /** The sandbox a lookup answers with, if it answers in this step. */
  ghost function Output(s: State, l: Log, a: Action): Option<Option<string>>
    requires Enabled(s, l, a)
  {
    if !a.Decide? then None
    else
      var found := s.resolving[a.call].found;
      if found.Some? && found.value.expiresAt > s.now then Some(Some(found.value.sandboxId)) else Some(None)
  }

  function LogNext(s: State, l: Log, a: Action): Log {
    match a
    case Tick(to) => l.(now := to)
    case BeginCreate(_, sandboxId, port) => l.(events := l.events + [Replaced(sandboxId, port)])
    case FinishCreate(call, token, expiresAt) =>
      if call !in s.creating then l
      else
        var (sandboxId, port) := s.creating[call];
        l.(events := l.events + [Issued(Preview(token, sandboxId, port, expiresAt))], tokens := l.tokens + {token})
    case ExpireByHand(token, port) => l.(events := l.events + [ExpiredByHand(token, port)])
    case DeleteSandbox(sandboxId) => l.(events := l.events + [SandboxDeleted(sandboxId)])
    case Look(call, token, port) => l.(looks := l.looks[call := Read(token, port, l.events)])
    case _ => l
  }

  // ----- Refinement -----

  ghost predicate TokensOk(l: Log) {
    && (forall r: Preview :: Issued(r) in l.events ==> r.token in l.tokens)
    && (forall r1: Preview, r2: Preview :: Issued(r1) in l.events && Issued(r2) in l.events && r1.token == r2.token ==>
        r1 == r2)
  }

  /** Records are live; a live record is missing only if it has expired. */
  ghost predicate RecordsRelated(s: State, l: Log) {
    && s.now == l.now
    && (forall r :: r in s.records ==> Live(l.events, r))
    && (forall r :: Live(l.events, r) && l.now < r.expiresAt ==> r in s.records)
  }

  ghost predicate ReadRelated(s: State, l: Log, call: CallId)
    requires call in s.resolving
  {
    var q := s.resolving[call];
    && call in l.looks && l.looks[call].token == q.token && l.looks[call].port == q.port
    && l.looks[call].events <= l.events
    && (q.Looked? && q.found.Some? ==>
          && q.found.value.token == q.token && q.found.value.port == q.port
          && Live(l.looks[call].events, q.found.value))
    && (q.Looked? && q.found.None? ==>
          forall r :: Live(l.looks[call].events, r) && r.token == q.token && r.port == q.port ==> r.expiresAt <= l.now)
    && (q.Dropping? ==> q.token in l.tokens)
    && (q.Dropping? ==>
          forall r :: Live(l.events, r) && r.token == q.token && r.port == q.port ==> r.expiresAt <= l.now)
  }

  ghost predicate Related(s: State, l: Log) {
    && TokensOk(l) && RecordsRelated(s, l)
    && (forall call :: call in s.resolving ==> ReadRelated(s, l, call))
  }

  lemma {:induction false} LiveIsIssued(events: seq<Event>, r: Preview)
    requires Live(events, r)
    ensures Issued(r) in events
  {
    var n := |events| - 1;
    if events[n] != Issued(r) {
      LiveIsIssued(events[..n], r);
    }
  }

  lemma LiveAfter(events: seq<Event>, e: Event, r: Preview)
    ensures Live(events + [e], r) <==> e == Issued(r) || (!Kills(e, r) && Live(events, r))
  {
    assert (events + [e])[..|events|] == events;
  }

  lemma PrefixIssued(a: seq<Event>, b: seq<Event>, r: Preview)
    requires a <= b && Issued(r) in a
    ensures Issued(r) in b
  {
    var i :| 0 <= i < |a| && a[i] == Issued(r);
    assert b[i] == Issued(r);
  }

  /** A lookup answers exactly what the log said when it read its record, judged by the clock afterwards. */
  lemma OutputsAgree(s: State, l: Log, a: Action)
    requires Related(s, l) && Enabled(s, l, a) && a.Decide?
    ensures a.call in l.looks
    ensures var read := l.looks[a.call];
            forall sandboxId :: Output(s, l, a) == Some(Some(sandboxId)) <==>
                                Opens(read.events, l.now, read.token, read.port, sandboxId)
  {
    var read := l.looks[a.call];
    assert ReadRelated(s, l, a.call);
    var found := s.resolving[a.call].found;
    forall sandboxId ensures Output(s, l, a) == Some(Some(sandboxId)) <==>
                             Opens(read.events, l.now, read.token, read.port, sandboxId)
    {
      if Opens(read.events, l.now, read.token, read.port, sandboxId) {
        var expiresAt :| l.now < expiresAt && Live(read.events, Preview(read.token, sandboxId, read.port, expiresAt));
        var r := Preview(read.token, sandboxId, read.port, expiresAt);
        assert found.Some?;
        LiveIsIssued(read.events, r);
        LiveIsIssued(read.events, found.value);
        PrefixIssued(read.events, l.events, r);
        PrefixIssued(read.events, l.events, found.value);
      }
      if Output(s, l, a) == Some(Some(sandboxId)) {
        var r := found.value;
        assert r == Preview(read.token, sandboxId, read.port, r.expiresAt);
      }
    }
  }

  lemma NextKeepsTokens(s: State, l: Log, a: Action)
    requires TokensOk(l) && Enabled(s, l, a)
    ensures TokensOk(LogNext(s, l, a))
  {
  }

  lemma NextKeepsRecords(s: State, l: Log, a: Action)
    requires Related(s, l) && Enabled(s, l, a)
    ensures RecordsRelated(Next(s, l, a), LogNext(s, l, a))
  {
    var s', l' := Next(s, l, a), LogNext(s, l, a);
    if l'.events != l.events {
      var e := l'.events[|l.events|];
      assert l'.events == l.events + [e];
      forall r: Preview ensures Live(l'.events, r) <==> e == Issued(r) || (!Kills(e, r) && Live(l.events, r)) {
        LiveAfter(l.events, e, r);
      }
    }
    if a.Drop? {
      assert ReadRelated(s, l, a.call);
    }
  }

  lemma LookIsRelated(s: State, l: Log, a: Action)
    requires Related(s, l) && Enabled(s, l, a) && a.Look?
    ensures ReadRelated(Next(s, l, a), LogNext(s, l, a), a.call)
  {
  }

  lemma DecideIsRelated(s: State, l: Log, a: Action)
    requires Related(s, l) && Enabled(s, l, a) && a.Decide? && a.call in Next(s, l, a).resolving
    ensures ReadRelated(Next(s, l, a), LogNext(s, l, a), a.call)
  {
    assert ReadRelated(s, l, a.call);
    var read, found := l.looks[a.call], s.resolving[a.call].found.value;
    LiveIsIssued(read.events, found);
    PrefixIssued(read.events, l.events, found);
    forall r | Live(l.events, r) && r.token == read.token && r.port == read.port ensures r.expiresAt <= l.now {
      LiveIsIssued(l.events, r);
    }
  }

  /** A lookup in progress is not disturbed by the steps of others. */
  lemma OthersStayRelated(s: State, l: Log, a: Action, call: CallId)
    requires Related(s, l) && Enabled(s, l, a) && call in s.resolving && call in Next(s, l, a).resolving
    requires Next(s, l, a).resolving[call] == s.resolving[call] && !(a.Look? && a.call == call)
    ensures ReadRelated(Next(s, l, a), LogNext(s, l, a), call)
  {
    var l' := LogNext(s, l, a);
    assert ReadRelated(s, l, call);
    var q := s.resolving[call];
    if l'.events != l.events {
      var e := l'.events[|l.events|];
      assert l'.events == l.events + [e];
      if q.Dropping? {
        forall r | Live(l'.events, r) && r.token == q.token && r.port == q.port ensures r.expiresAt <= l'.now {
          LiveAfter(l.events, e, r);
        }
      }
    }
  }

  lemma NextKeepsRelated(s: State, l: Log, a: Action)
    requires Related(s, l) && Enabled(s, l, a)
    ensures Related(Next(s, l, a), LogNext(s, l, a))
  {
    NextKeepsTokens(s, l, a);
    NextKeepsRecords(s, l, a);
    var s' := Next(s, l, a);
    forall call | call in s'.resolving ensures ReadRelated(s', LogNext(s, l, a), call) {
      if a.Look? && a.call == call {
        LookIsRelated(s, l, a);
      } else if a.Decide? && a.call == call {
        DecideIsRelated(s, l, a);
      } else {
        OthersStayRelated(s, l, a, call);
      }
    }
  }

  ghost predicate Legal(s: State, l: Log, run: seq<Action>)
    decreases |run|
  {
    run == [] || (Enabled(s, l, run[0]) && Legal(Next(s, l, run[0]), LogNext(s, l, run[0]), run[1..]))
  }

  ghost function After(s: State, l: Log, run: seq<Action>): (State, Log)
    requires Legal(s, l, run)
    decreases |run|
  {
    if run == [] then (s, l) else After(Next(s, l, run[0]), LogNext(s, l, run[0]), run[1..])
  }

  const START := State(0, {}, map[], map[])
  const EMPTY_LOG := Log(0, [], {}, map[])

  lemma {:induction false} EveryRunIsRelated(s: State, l: Log, run: seq<Action>)
    requires Related(s, l) && Legal(s, l, run)
    ensures Related(After(s, l, run).0, After(s, l, run).1)
    decreases |run|
  {
    if run != [] {
      NextKeepsRelated(s, l, run[0]);
      EveryRunIsRelated(Next(s, l, run[0]), LogNext(s, l, run[0]), run[1..]);
    }
  }

  /** In every interleaving, a lookup answers with a sandbox exactly when its token was issued for that sandbox
      and port and, when the lookup read the record, had not been replaced, expired by hand or deleted with its
      sandbox since, and the clock is still before its expiry. Lazy deletion never shows. */
  lemma EveryAnswerIsFromTheLog(run: seq<Action>, call: CallId, sandboxId: string)
    requires Legal(START, EMPTY_LOG, run)
    requires var (s, l) := After(START, EMPTY_LOG, run); Enabled(s, l, Decide(call))
    ensures var (s, l) := After(START, EMPTY_LOG, run);
            && call in l.looks
            && var read := l.looks[call];
            && read.events <= l.events
            && (Output(s, l, Decide(call)) == Some(Some(sandboxId)) <==>
                Opens(read.events, l.now, read.token, read.port, sandboxId))
  {
    EveryRunIsRelated(START, EMPTY_LOG, run);
    var (s, l) := After(START, EMPTY_LOG, run);
    OutputsAgree(s, l, Decide(call));
    assert ReadRelated(s, l, call);
  }

  /** A lookup that finds its record expired goes on to drop every record with that token and port, and no other. */
  lemma ExpiredIsDropped(s: State, l: Log, call: CallId)
    requires Enabled(s, l, Decide(call)) && s.resolving[call].found.Some?
        && s.resolving[call].found.value.expiresAt <= s.now
    ensures var s', l' := Next(s, l, Decide(call)), LogNext(s, l, Decide(call));
            && Enabled(s', l', Drop(call)) && Output(s, l, Decide(call)) == Some(None)
            && forall v :: v in Next(s', l', Drop(call)).records <==>
                 v in s.records && !(v.token == s.resolving[call].token && v.port == s.resolving[call].port)
  {
  }

  // ----- One record per sandbox and port -----

  ghost predicate OnePerPair(records: set<Preview>) {
    forall v, w :: v in records && w in records && v.sandboxId == w.sandboxId && v.port == w.port ==> v == w
  }

  /** Creating a token keeps one record per pair exactly when the pair has no record when it is saved. */
  lemma CreateKeepsOneExactly(s: State, l: Log, call: CallId, token: string, expiresAt: int)
    requires Related(s, l) && Enabled(s, l, FinishCreate(call, token, expiresAt)) && OnePerPair(s.records)
    ensures OnePerPair(Next(s, l, FinishCreate(call, token, expiresAt)).records) <==>
            forall v :: v in s.records ==> (v.sandboxId, v.port) != s.creating[call]
  {
    var (sandboxId, port) := s.creating[call];
    var new' := Preview(token, sandboxId, port, expiresAt);
    var after := Next(s, l, FinishCreate(call, token, expiresAt)).records;
    forall v | v in s.records ensures v.token in l.tokens {
      LiveIsIssued(l.events, v);
    }
    assert new' in after;
  }

  /** No two creations of one pair overlap: a creation begins only when none is under way for the pair. */
  ghost predicate Serial(s: State, a: Action) {
    a.BeginCreate? ==> forall c :: c in s.creating ==> s.creating[c] != (a.sandboxId, a.port)
  }

  ghost predicate PairsOk(s: State) {
    && OnePerPair(s.records)
    && (forall c, d :: c in s.creating && d in s.creating && c != d ==> s.creating[c] != s.creating[d])
    && (forall c, v :: c in s.creating && v in s.records ==> (v.sandboxId, v.port) != s.creating[c])
  }

  lemma SerialKeepsPairs(s: State, l: Log, a: Action)
    requires PairsOk(s) && Enabled(s, l, a) && Serial(s, a)
    ensures PairsOk(Next(s, l, a))
  {
  }

  ghost predicate SerialRun(s: State, l: Log, run: seq<Action>)
    requires Legal(s, l, run)
    decreases |run|
  {
    run == [] || (Serial(s, run[0]) && SerialRun(Next(s, l, run[0]), LogNext(s, l, run[0]), run[1..]))
  }

  /** When creations of one pair do not overlap, at most one record per pair ever exists. */
  lemma {:induction false} SerialRunsKeepOne(s: State, l: Log, run: seq<Action>)
    requires PairsOk(s) && Legal(s, l, run) && SerialRun(s, l, run)
    ensures OnePerPair(After(s, l, run).0.records)
    decreases |run|
  {
    if run != [] {
      SerialKeepsPairs(s, l, run[0]);
      SerialRunsKeepOne(Next(s, l, run[0]), LogNext(s, l, run[0]), run[1..]);
    }
  }

  /** The record issued last for a pair. */
  function LatestFor(events: seq<Event>, sandboxId: string, port: int): Option<Preview> {
    if events == [] then None
    else
      var last := events[|events| - 1];
      if last.Issued? && last.record.sandboxId == sandboxId && last.record.port == port then Some(last.record)
      else LatestFor(events[..|events| - 1], sandboxId, port)
  }

  ghost predicate LatestOk(s: State, l: Log) {
    && (forall r :: Live(l.events, r) ==> LatestFor(l.events, r.sandboxId, r.port) == Some(r))
    && (forall c, d :: c in s.creating && d in s.creating && c != d ==> s.creating[c] != s.creating[d])
    && (forall c, r :: c in s.creating && Live(l.events, r) ==> (r.sandboxId, r.port) != s.creating[c])
  }

  lemma SerialKeepsLatest(s: State, l: Log, a: Action)
    requires LatestOk(s, l) && Enabled(s, l, a) && Serial(s, a)
    ensures LatestOk(Next(s, l, a), LogNext(s, l, a))
  {
    var l' := LogNext(s, l, a);
    if l'.events != l.events {
      var e := l'.events[|l.events|];
      assert l'.events == l.events + [e] && l'.events[..|l.events|] == l.events;
      forall r: Preview ensures Live(l'.events, r) <==> e == Issued(r) || (!Kills(e, r) && Live(l.events, r)) {
        LiveAfter(l.events, e, r);
      }
    }
  }

  /** When creations of one pair do not overlap, only the token issued last for a pair can open it. */
  lemma {:induction false} SerialRunsOpenOnlyTheLatest(s: State, l: Log, run: seq<Action>)
    requires LatestOk(s, l) && Legal(s, l, run) && SerialRun(s, l, run)
    ensures var events := After(s, l, run).1.events;
            forall r :: Live(events, r) ==> LatestFor(events, r.sandboxId, r.port) == Some(r)
    decreases |run|
  {
    if run != [] {
      SerialKeepsLatest(s, l, run[0]);
      SerialRunsOpenOnlyTheLatest(Next(s, l, run[0]), LogNext(s, l, run[0]), run[1..]);
    }
  }

  /** Two overlapping creations of one pair leave two records, both of which open the sandbox. */
  lemma OverlappingCreationsLeaveTwo()
    ensures var a1, a2 := BeginCreate(0, "sb", 80), BeginCreate(1, "sb", 80);
            var a3, a4 := FinishCreate(0, "t0", 10), FinishCreate(1, "t1", 10);
            && Legal(START, EMPTY_LOG, [a1, a2, a3, a4])
            && var (s, l) := After(START, EMPTY_LOG, [a1, a2, a3, a4]);
               !OnePerPair(s.records) && Opens(l.events, l.now, "t0", 80, "sb")
                   && Opens(l.events, l.now, "t1", 80, "sb")
  {
    var a1, a2 := BeginCreate(0, "sb", 80), BeginCreate(1, "sb", 80);
    var a3, a4 := FinishCreate(0, "t0", 10), FinishCreate(1, "t1", 10);
    var run := [a1, a2, a3, a4];
    var s1, l1 := Next(START, EMPTY_LOG, a1), LogNext(START, EMPTY_LOG, a1);
    var s2, l2 := Next(s1, l1, a2), LogNext(s1, l1, a2);
    var s3, l3 := Next(s2, l2, a3), LogNext(s2, l2, a3);
    var s4, l4 := Next(s3, l3, a4), LogNext(s3, l3, a4);
    assert run[1..] == [a2, a3, a4] && run[1..][1..] == [a3, a4] && run[1..][1..][1..] == [a4];
    assert Legal(s4, l4, []) && Legal(s3, l3, [a4]) && Legal(s2, l2, [a3, a4]) && Legal(s1, l1, [a2, a3, a4]);
    assert [a4][1..] == [] && After(s3, l3, [a4]) == (s4, l4);
    assert After(s2, l2, [a3, a4]) == (s4, l4);
    assert After(s1, l1, [a2, a3, a4]) == (s4, l4);
    assert After(START, EMPTY_LOG, run) == (s4, l4);
    var v, w := Preview("t0", "sb", 80, 10), Preview("t1", "sb", 80, 10);
    assert v in s4.records && w in s4.records && v.token != w.token;
    LiveAfter(l2.events, Issued(v), v);
    LiveAfter(l3.events, Issued(w), v);
    LiveAfter(l3.events, Issued(w), w);
    assert Live(l4.events, v) && Live(l4.events, w);
  }
}
