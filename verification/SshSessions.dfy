/** SSH session tokens: an in-memory map with lazy expiry, and a table of revoked hashes.

    Validation and revocation await the database, so their parts interleave. Every interleaving is compared
    with a log that never forgets anything. The hash is injective, random tokens are new, the clock
    does not run backwards. */
module SshSessions {
  import opened Prelude

  type Token = string
  type Key = string
  type CallId = nat

  datatype Entry = Entry(sandboxId: string, hostPort: int, expiresAt: int)

  // ----- The steps of the service -----

  /** `pruneExpired` */
  function Pruned(sessions: map<Key, Entry>, now: int): map<Key, Entry> {
    map k | k in sessions && now <= sessions[k].expiresAt :: sessions[k]
  }

  /** What `validateSession` does after its await: the map read, the expiry check, the lazy delete. */
  function Resume(sessions: map<Key, Entry>, key: Key, isRevoked: bool, now: int): (map<Key, Entry>, Option<Entry>) {
    if isRevoked || key !in sessions then (sessions, None)
    else if now > sessions[key].expiresAt then (sessions - {key}, None)
    else (sessions, Some(sessions[key]))
  }

  /** Pruning drops exactly the expired entries, and so does an answer that meets one. */
  lemma ExpiredEntriesGo(sessions: map<Key, Entry>, key: Key, isRevoked: bool, now: int)
    ensures forall k :: k in Pruned(sessions, now) <==> k in sessions && now <= sessions[k].expiresAt
    ensures forall k :: k in Pruned(sessions, now) ==> Pruned(sessions, now)[k] == sessions[k]
    ensures var (after, answer) := Resume(sessions, key, isRevoked, now);
            && (forall k :: k in after <==> k in sessions && (k != key || isRevoked || now <= sessions[k].expiresAt))
            && (forall k :: k in after ==> after[k] == sessions[k])
            && answer == if !isRevoked && key in after then Some(after[key]) else None
  {
  }

  // ----- Interleavings -----

  /** A validation is waiting for the revocation lookup, or has its answer and not yet resumed. */
  datatype Validation = Asking(token: Token) | Answered(token: Token, isRevoked: bool)

  datatype State = State(
    now: int, sessions: map<Key, Entry>, revoked: set<Key>,
    validations: map<CallId, Validation>, revocations: map<CallId, Token>)

  datatype Action =
    | Tick(to: int)
    | CreateSession(token: Token, entry: Entry)
    | AskRevoked(call: CallId, token: Token)
    | AnswerRevoked(call: CallId)
    | ResumeValidate(call: CallId)
    | BeginRevoke(call: CallId, token: Token)
    | SaveRevoked(call: CallId, ok: bool)

  /** The never-pruned log. `dead` are the tokens whose revocation has reached its map delete. */
  datatype Log = Log(now: int, issued: map<Token, Entry>, dead: set<Token>, asking: map<CallId, Token>)

  ghost predicate Enabled(s: State, l: Log, a: Action) {
    match a
    case Tick(to) => s.now <= to
    case CreateSession(token, _) => token !in l.issued && token !in l.dead
    case AskRevoked(call, _) => call !in s.validations
    case AnswerRevoked(call) => call in s.validations && s.validations[call].Asking?
    case ResumeValidate(call) => call in s.validations && s.validations[call].Answered?
    case BeginRevoke(call, _) => call !in s.revocations
    case SaveRevoked(call, _) => call in s.revocations
  }

  function Next(hash: Token -> Key, s: State, a: Action): State {
    match a
    case Tick(to) => s.(now := to)
    case CreateSession(token, entry) => s.(sessions := Pruned(s.sessions, s.now)[hash(token) := entry])
    case AskRevoked(call, token) => s.(validations := s.validations[call := Asking(token)])
    case AnswerRevoked(call) =>
      if call !in s.validations then s
      else
        var token := s.validations[call].token;
        s.(validations := s.validations[call := Answered(token, hash(token) in s.revoked)])
    case ResumeValidate(call) =>
      if call !in s.validations || !s.validations[call].Answered? then s
      else
        var v := s.validations[call];
        s.(sessions := Resume(s.sessions, hash(v.token), v.isRevoked, s.now).0, validations := s.validations - {call})
    case BeginRevoke(call, token) =>
      s.(sessions := s.sessions - {hash(token)}, revocations := s.revocations[call := token])
    case SaveRevoked(call, ok) =>
      if call !in s.revocations then s
      else s.(revoked := s.revoked + (if ok then {hash(s.revocations[call])} else {}),
          revocations := s.revocations - {call})
  }

  /** What a step returns to a caller: the outcome of a validation. */
  function Output(hash: Token -> Key, s: State, a: Action): seq<(Token, Option<Entry>)> {
    if a.ResumeValidate? && a.call in s.validations && s.validations[a.call].Answered? then
      var v := s.validations[a.call];
      [(v.token, Resume(s.sessions, hash(v.token), v.isRevoked, s.now).1)]
    else []
  }

  /** A token is good when it was issued, its revocation has not reached the map, and it has not expired. */
  predicate GoodAt(l: Log, token: Token, at: int) {
    token in l.issued && token !in l.dead && at <= l.issued[token].expiresAt
  }

  predicate Good(l: Log, token: Token) {
    GoodAt(l, token, l.now)
  }

  function LogNext(l: Log, a: Action): Log {
    match a
    case Tick(to) => l.(now := to)
    case CreateSession(token, entry) => l.(issued := l.issued[token := entry])
    case AskRevoked(call, token) => l.(asking := l.asking[call := token])
    case ResumeValidate(call) => l.(asking := l.asking - {call})
    case BeginRevoke(_, token) => l.(dead := l.dead + {token})
    case _ => l
  }

  function LogOutput(l: Log, a: Action): seq<(Token, Option<Entry>)> {
    if a.ResumeValidate? && a.call in l.asking then
      var token := l.asking[a.call];
      [(token, if Good(l, token) then Some(l.issued[token]) else None)]
    else []
  }

  // ----- Refinement -----

  ghost predicate Injective(hash: Token -> Key) {
    forall a, b :: hash(a) == hash(b) ==> a == b
  }

  /** The map holds good entries of the log, and misses only dead or expired ones. */
  ghost predicate StoreRelated(hash: Token -> Key, sessions: map<Key, Entry>, l: Log) {
    && (forall t :: hash(t) in sessions ==> t in l.issued && t !in l.dead && sessions[hash(t)] == l.issued[t])
    && (forall t :: t in l.issued && t !in l.dead && l.now <= l.issued[t].expiresAt ==> hash(t) in sessions)
  }

  ghost predicate CallsRelated(hash: Token -> Key, s: State, l: Log) {
    && s.validations.Keys == l.asking.Keys
    && (forall c :: c in s.validations ==> s.validations[c].token == l.asking[c])
    && (forall c :: c in s.validations && s.validations[c].Answered? && s.validations[c].isRevoked ==>
          s.validations[c].token in l.dead)
    && (forall c :: c in s.revocations ==> s.revocations[c] in l.dead)
    && (forall t :: hash(t) in s.revoked ==> t in l.dead)
  }

  ghost predicate Related(hash: Token -> Key, s: State, l: Log) {
    s.now == l.now && CallsRelated(hash, s, l) && StoreRelated(hash, s.sessions, l)
  }

  lemma PruneKeepsStore(hash: Token -> Key, sessions: map<Key, Entry>, l: Log)
    requires StoreRelated(hash, sessions, l)
    ensures StoreRelated(hash, Pruned(sessions, l.now), l)
  {
  }

  lemma IssueKeepsStore(hash: Token -> Key, sessions: map<Key, Entry>, l: Log, token: Token, entry: Entry)
    requires Injective(hash) && StoreRelated(hash, sessions, l) && token !in l.dead
    ensures StoreRelated(hash, sessions[hash(token) := entry], l.(issued := l.issued[token := entry]))
  {
    var after, log := sessions[hash(token) := entry], l.(issued := l.issued[token := entry]);
    forall t | hash(t) in after ensures t in log.issued && t !in log.dead && after[hash(t)] == log.issued[t] {
      assert t != token ==> hash(t) in sessions;
    }
    forall t | t in log.issued && t !in log.dead && log.now <= log.issued[t].expiresAt ensures hash(t) in after {
      assert t != token ==> t in l.issued;
    }
  }

  lemma RevokeKeepsStore(hash: Token -> Key, sessions: map<Key, Entry>, l: Log, token: Token)
    requires Injective(hash) && StoreRelated(hash, sessions, l)
    ensures StoreRelated(hash, sessions - {hash(token)}, l.(dead := l.dead + {token}))
  {
  }

  lemma ResumeKeepsStore(hash: Token -> Key, sessions: map<Key, Entry>, l: Log, token: Token, isRevoked: bool)
    requires Injective(hash) && StoreRelated(hash, sessions, l)
    ensures StoreRelated(hash, Resume(sessions, hash(token), isRevoked, l.now).0, l)
  {
  }

  lemma NextKeepsStore(hash: Token -> Key, s: State, l: Log, a: Action)
    requires Injective(hash) && Related(hash, s, l) && Enabled(s, l, a)
    ensures StoreRelated(hash, Next(hash, s, a).sessions, LogNext(l, a))
  {
    match a
    case Tick(to) =>
    case CreateSession(token, entry) =>
      PruneKeepsStore(hash, s.sessions, l);
      IssueKeepsStore(hash, Pruned(s.sessions, l.now), l, token, entry);
    case ResumeValidate(call) =>
      var v := s.validations[call];
      ResumeKeepsStore(hash, s.sessions, l, v.token, v.isRevoked);
      assert StoreRelated(hash, Next(hash, s, a).sessions, l);
    case BeginRevoke(_, token) => RevokeKeepsStore(hash, s.sessions, l, token);
    case _ =>
  }

  lemma NextKeepsCalls(hash: Token -> Key, s: State, l: Log, a: Action)
    requires Injective(hash) && CallsRelated(hash, s, l) && Enabled(s, l, a)
    ensures CallsRelated(hash, Next(hash, s, a), LogNext(l, a))
  {
  }

  /** A validation answers from the log, whatever was pruned or deleted meanwhile. */
  lemma OutputsAgree(hash: Token -> Key, s: State, l: Log, a: Action)
    requires Injective(hash) && Related(hash, s, l) && Enabled(s, l, a)
    ensures Output(hash, s, a) == LogOutput(l, a)
  {
    if a.ResumeValidate? {
      assert a.call in l.asking;
    }
  }

  lemma NextKeepsRelated(hash: Token -> Key, s: State, l: Log, a: Action)
    requires Injective(hash) && Related(hash, s, l) && Enabled(s, l, a)
    ensures Related(hash, Next(hash, s, a), LogNext(l, a))
  {
    NextKeepsCalls(hash, s, l, a);
    NextKeepsStore(hash, s, l, a);
  }

  ghost predicate Legal(hash: Token -> Key, s: State, l: Log, run: seq<Action>)
    decreases |run|
  {
    run == [] || (Enabled(s, l, run[0]) && Legal(hash, Next(hash, s, run[0]), LogNext(l, run[0]), run[1..]))
  }

  function Outputs(hash: Token -> Key, s: State, run: seq<Action>): seq<(Token, Option<Entry>)>
    decreases |run|
  {
    if run == [] then [] else Output(hash, s, run[0]) + Outputs(hash, Next(hash, s, run[0]), run[1..])
  }

  function LogOutputs(l: Log, run: seq<Action>): seq<(Token, Option<Entry>)>
    decreases |run|
  {
    if run == [] then [] else LogOutput(l, run[0]) + LogOutputs(LogNext(l, run[0]), run[1..])
  }

  const START := State(0, map[], {}, map[], map[])
  const EMPTY_LOG := Log(0, map[], {}, map[])

  /** In every interleaving the answers are those of the log: pruning and lazy deletion are unobservable. */
  lemma {:induction false} EveryRunAgrees(hash: Token -> Key, s: State, l: Log, run: seq<Action>)
    requires Injective(hash) && Related(hash, s, l) && Legal(hash, s, l, run)
    ensures Outputs(hash, s, run) == LogOutputs(l, run)
    decreases |run|
  {
    if run != [] {
      OutputsAgree(hash, s, l, run[0]);
      NextKeepsRelated(hash, s, l, run[0]);
      EveryRunAgrees(hash, Next(hash, s, run[0]), LogNext(l, run[0]), run[1..]);
    }
  }

  /** No answer about the token is a success. */
  ghost predicate Refused(outputs: seq<(Token, Option<Entry>)>, token: Token) {
    forall i :: 0 <= i < |outputs| && outputs[i].0 == token ==> outputs[i].1.None?
  }

  lemma DeadIsRefused(hash: Token -> Key, s: State, l: Log, a: Action, token: Token)
    requires Injective(hash) && Related(hash, s, l) && Enabled(s, l, a) && token in l.dead
    ensures Refused(Output(hash, s, a), token) && token in LogNext(l, a).dead
  {
    OutputsAgree(hash, s, l, a);
  }

  /** Once a revocation has reached its map delete, no validation of that token succeeds any more,
      whether or not the database accepted the hash. */
  lemma {:induction false} RevokedStaysDead(hash: Token -> Key, s: State, l: Log, run: seq<Action>, token: Token)
    requires Injective(hash) && Related(hash, s, l) && Legal(hash, s, l, run) && token in l.dead
    ensures Refused(Outputs(hash, s, run), token)
    decreases |run|
  {
    if run != [] {
      DeadIsRefused(hash, s, l, run[0], token);
      NextKeepsRelated(hash, s, l, run[0]);
      RevokedStaysDead(hash, Next(hash, s, run[0]), LogNext(l, run[0]), run[1..], token);
    }
  }

  ghost function After(hash: Token -> Key, s: State, l: Log, run: seq<Action>): (State, Log)
    decreases |run|
  {
    if run == [] then (s, l) else After(hash, Next(hash, s, run[0]), LogNext(l, run[0]), run[1..])
  }

  lemma {:induction false} EveryRunIsRelated(hash: Token -> Key, s: State, l: Log, run: seq<Action>)
    requires Injective(hash) && Related(hash, s, l) && Legal(hash, s, l, run)
    ensures Related(hash, After(hash, s, l, run).0, After(hash, s, l, run).1)
    decreases |run|
  {
    if run != [] {
      NextKeepsRelated(hash, s, l, run[0]);
      EveryRunIsRelated(hash, Next(hash, s, run[0]), LogNext(l, run[0]), run[1..]);
    }
  }

  lemma StartIsRelated(hash: Token -> Key)
    ensures Related(hash, START, EMPTY_LOG)
  {
  }

  // ----- The service, one call at a time -----

  ghost predicate RevokedAreDead(hash: Token -> Key, revoked: set<Key>, l: Log) {
    forall t :: hash(t) in revoked ==> t in l.dead
  }

  /** The map and the table of revoked hashes hold what the log says. */
  ghost predicate Tied(hash: Token -> Key, sessions: map<Key, Entry>, revoked: set<Key>, l: Log) {
    Injective(hash) && StoreRelated(hash, sessions, l) && RevokedAreDead(hash, revoked, l)
  }

  lemma RevokeKeepsDead(hash: Token -> Key, revoked: set<Key>, l: Log, token: Token)
    requires Injective(hash) && RevokedAreDead(hash, revoked, l)
    ensures RevokedAreDead(hash, revoked, l.(dead := l.dead + {token}))
    ensures RevokedAreDead(hash, revoked + {hash(token)}, l.(dead := l.dead + {token}))
  {
  }

  lemma RevokeKeepsTied(hash: Token -> Key, sessions: map<Key, Entry>, revoked: set<Key>, l: Log, token: Token)
    requires Tied(hash, sessions, revoked, l)
    ensures var after := l.(dead := l.dead + {token});
            Tied(hash, sessions - {hash(token)}, revoked, after)
            && Tied(hash, sessions - {hash(token)}, revoked + {hash(token)}, after)
  {
    RevokeKeepsStore(hash, sessions, l, token);
    RevokeKeepsDead(hash, revoked, l, token);
  }

  /** Afterwards the token is good until the entry's expiry, and any other token exactly when it was. */
  ghost predicate OnlyStarts(before: Log, after: Log, token: Token, entry: Entry) {
    forall t, at :: GoodAt(after, t, at) <==> GoodAt(before, t, at) || (t == token && at <= entry.expiresAt)
  }

  lemma IssueStarts(l: Log, now: int, token: Token, entry: Entry)
    requires token !in l.issued && token !in l.dead
    ensures OnlyStarts(l, l.(now := now, issued := l.issued[token := entry]), token, entry)
  {
  }

  lemma IssueKeepsTied(hash: Token -> Key, sessions: map<Key, Entry>, revoked: set<Key>, l: Log, token: Token,
                       entry: Entry)
    requires Tied(hash, sessions, revoked, l) && token !in l.dead
    ensures Tied(hash, sessions[hash(token) := entry], revoked, l.(issued := l.issued[token := entry]))
  {
    IssueKeepsStore(hash, sessions, l, token, entry);
  }

  /** Afterwards the token is good at no time, and any other token exactly when it was. */
  ghost predicate OnlyEnds(before: Log, after: Log, token: Token) {
    forall t, at :: GoodAt(after, t, at) <==> GoodAt(before, t, at) && t != token
  }

  lemma RevokeEnds(l: Log, token: Token)
    ensures OnlyEnds(l, l.(dead := l.dead + {token}), token)
  {
  }

  /** Calls that run one after another answer from a log that never forgets: `log` is that log, and `Valid` ties the
      map and the table to it. Pruning and lazy deletion change the map and not the log. */
  class SshSessionService {
    const hash: Token -> Key
    var sessions: map<Key, Entry>
    var revoked: set<Key>
    ghost var log: Log

    ghost predicate Valid()
      reads this
    {
      Tied(hash, sessions, revoked, log)
    }

    constructor (hash: Token -> Key)
      requires Injective(hash)
      ensures Valid() && this.hash == hash && log == EMPTY_LOG
    {
      this.hash := hash;
      sessions, revoked, log := map[], {}, EMPTY_LOG;
    }

    /** Exactly the expired entries go, and no answer changes. */
    method PruneExpired(now: int)
      requires Valid() && log.now <= now
      modifies this`sessions, this`log
      ensures Valid() && log == LogNext(old(log), Tick(now))
      ensures forall k :: k in sessions <==> k in old(sessions) && old(sessions)[k].expiresAt >= now
      ensures forall k :: k in sessions ==> sessions[k] == old(sessions)[k]
    {
      var pending := sessions.Keys;
      while pending != {}
        invariant pending <= old(sessions).Keys
        invariant sessions == map k | k in old(sessions) && (k in pending || now <= old(sessions)[k].expiresAt) ::
            old(sessions)[k]
        decreases |pending|
      {
        var key :| key in pending;
        if now > sessions[key].expiresAt {
          sessions := sessions - {key};
        }
        pending := pending - {key};
      }
      log := LogNext(old(log), Tick(now));
      assert StoreRelated(hash, old(sessions), log);
      PruneKeepsStore(hash, old(sessions), log);
    }

    /** The new token is good for the minutes asked for, or else for the configured time, and every other token is as
        good as before. No expired entry is left. */
    method CreateSession(token: Token, sandboxId: string, hostPort: int, expiryMinutes: Option<int>, ttlSeconds: int,
                         now: int)
      returns (entry: Entry)
      requires Valid() && log.now <= now && token !in log.issued && token !in log.dead
      modifies this`sessions, this`log
      ensures Valid() && log.now == now
      ensures entry.sandboxId == sandboxId && entry.hostPort == hostPort
      ensures entry.expiresAt == now + if expiryMinutes.Some? then expiryMinutes.value * 60_000 else ttlSeconds * 1000
      ensures OnlyStarts(old(log), log, token, entry)
      ensures forall t :: t in old(log).issued ==> t in log.issued && log.issued[t] == old(log).issued[t]
      ensures token in log.issued && log.issued[token] == entry
      ensures forall k :: k in sessions ==> k == hash(token) || sessions[k].expiresAt >= now
    {
      PruneExpired(now);
      var expiryMs := (if expiryMinutes.Some? then expiryMinutes.value * 60 else ttlSeconds) * 1000;
      entry := Entry(sandboxId, hostPort, now + expiryMs);
      IssueKeepsTied(hash, sessions, revoked, log, token, entry);
      IssueStarts(old(log), now, token, entry);
      sessions := sessions[hash(token) := entry];
      log := log.(issued := log.issued[token := entry]);
    }

    /** Succeeds exactly for a token that was issued, was not revoked and has not expired, with the entry it was
        issued with; asking changes no later answer. */
    method ValidateSession(token: Token, now: int) returns (r: Option<Entry>)
      requires Valid() && log.now <= now
      modifies this`sessions, this`log
      ensures Valid() && log == LogNext(old(log), Tick(now))
      ensures r.Some? <==> GoodAt(old(log), token, now)
      ensures r.Some? ==> r.value == old(log).issued[token]
      ensures hash(token) in sessions && hash(token) !in revoked ==> now <= sessions[hash(token)].expiresAt
    {
      log := LogNext(log, Tick(now));
      var key := hash(token);
      if key in revoked {
        return None;
      }
      if key !in sessions {
        return None;
      }
      var entry := sessions[key];
      if now > entry.expiresAt {
        sessions := sessions - {key};
        return None;
      }
      return Some(entry);
    }

    /** The map entry goes first, so the token is dead for good whether or not the database accepts the hash. */
    method RevokeSession(token: Token, saved: bool) returns (ok: bool)
      requires Valid()
      modifies this`sessions, this`revoked, this`log
      ensures Valid() && ok == saved && log.now == old(log).now && log.issued == old(log).issued
      ensures OnlyEnds(old(log), log, token)
      ensures forall k :: k in revoked <==> k in old(revoked) || (saved && k == hash(token))
    {
      RevokeKeepsTied(hash, sessions, revoked, log, token);
      RevokeEnds(log, token);
      sessions := sessions - {hash(token)};
      if saved {
        revoked := revoked + {hash(token)};
      }
      log := log.(dead := log.dead + {token});
      return saved;
    }
  }
}
