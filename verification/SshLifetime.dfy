/** Session store and gateway together: how long a bridge can be open. */
module SshLifetime {
  import opened Prelude
  import opened SshSessions
  import opened SshGateway

  const MILLISECOND := SECOND / 1000

  /** A session's expiry on the gateway's clock. */
  function Expiry(entry: Entry): int {
    entry.expiresAt * MILLISECOND
  }

  /** The run may go on with the second half of this validation, which answers `result` about `token`. */
  ghost predicate Answers(hash: Token -> Key, run: seq<Action>, call: CallId, token: Token, result: Option<Entry>) {
    && Legal(hash, START, EMPTY_LOG, run)
    && var (s, l) := After(hash, START, EMPTY_LOG, run);
       Enabled(s, l, ResumeValidate(call)) && Output(hash, s, ResumeValidate(call)) == [(token, result)]
  }

  ghost predicate Live(l: Log, token: Token, entry: Entry) {
    token in l.issued && token !in l.dead && l.issued[token] == entry && l.now <= entry.expiresAt
  }

  lemma AnswersAreLive(hash: Token -> Key, run: seq<Action>, call: CallId, token: Token, result: Option<Entry>)
    requires Injective(hash) && Answers(hash, run, call, token, result)
    ensures result.Some? ==> Live(After(hash, START, EMPTY_LOG, run).1, token, result.value)
  {
    var (s, l) := After(hash, START, EMPTY_LOG, run);
    StartIsRelated(hash);
    EveryRunIsRelated(hash, START, EMPTY_LOG, run);
    OutputsAgree(hash, s, l, ResumeValidate(call));
  }

  /** How the gateway's environment behaves for one connection: when it reads the clock for the expiry check, how long
      it dials the sandbox and whether that succeeds, and what the enforcer reads once the bridge is there. */
  datatype Course = Course(checkedAt: int, dialTime: nat, dialled: bool, sched: nat -> Reading)

  /** Wake-ups are prompt: the enforcer starts at most `delay` after the bridge opens, and its rounds are timely. */
  ghost predicate Prompt(c: Course, entry: Entry, idleTimeout: nat, delay: nat) {
    && Timely(c.sched, Some(Expiry(entry)), idleTimeout, delay)
    && c.checkedAt + c.dialTime <= c.sched(0).now <= c.checkedAt + c.dialTime + delay
  }

  /** At these reads of the enforcer the session had expired, or had been idle too long. */
  predicate CausedBy(r: Reading, expiresAt: int, idleTimeout: nat, closedAt: int) {
    && r.now <= closedAt <= r.until
    && (expiresAt <= closedAt || (idleTimeout > 0
        && (r.now - r.last1 >= idleTimeout || r.now - r.last2 >= idleTimeout)))
  }

  predicate OpenAt(openedAt: int, closedAt: int, t: int) {
    openedAt <= t < closedAt
  }

  /** One gateway connection after any run of the session store: it asks for a validation, checks the expiry, dials
      the sandbox, opens the bridge, and runs the enforcer until that closes the bridge.

      A bridge is opened only for a token that was issued and not revoked and whose expiry had not come at the check.
      It is open at a time t only if t is before the expiry plus 500 ms, or within the delay of its opening. It
      opens before the expiry exactly when dialling takes less than what was left, and it is closed before the
      expiry plus 500 ms exactly when the enforcer's first look is. */
  method HandleConnection(ghost hash: Token -> Key, ghost run: seq<Action>, ghost call: CallId, ghost token: Token,
                          result: Option<Entry>, c: Course, idleTimeout: nat, ghost delay: nat)
    returns (bridged: bool, openedAt: int, closedAt: int)
    requires Injective(hash) && Answers(hash, run, call, token, result)
    requires result.Some? ==> Prompt(c, result.value, idleTimeout, delay)
    ensures bridged <==> result.Some? && result.value.hostPort != 0
                         && c.checkedAt < result.value.expiresAt * 1_000_000 && c.dialled
    ensures bridged ==> openedAt == c.checkedAt + c.dialTime
    ensures bridged ==> Live(After(hash, START, EMPTY_LOG, run).1, token, result.value)
    ensures bridged ==> openedAt <= closedAt
    ensures bridged ==> forall t :: OpenAt(openedAt, closedAt, t) ==>
              t < result.value.expiresAt * 1_000_000 + 500_000_000 + delay || t < openedAt + delay
    ensures bridged ==> (openedAt < Expiry(result.value) <==> c.dialTime < Expiry(result.value) - c.checkedAt)
    ensures bridged && openedAt >= Expiry(result.value) ==> closedAt <= openedAt + delay
    ensures bridged ==> (closedAt < Expiry(result.value) + MIN_SLEEP + delay <==>
                         c.sched(0).now < Expiry(result.value) + MIN_SLEEP + delay)
    ensures bridged && idleTimeout > 0 ==> forall last :: LastActivity(c.sched, last) ==>
              closedAt < last + idleTimeout + 500_000_000 + delay || closedAt == c.sched(0).now
    ensures bridged ==> exists round: nat :: CausedBy(c.sched(round), Expiry(result.value), idleTimeout, closedAt)
  {
    AnswersAreLive(hash, run, call, token, result);
    bridged, openedAt, closedAt := false, c.checkedAt, c.checkedAt;
    if result.None? || result.value.hostPort == 0 {
      return;
    }
    var expiresAt := Expiry(result.value);
    if c.checkedAt >= expiresAt {
      return;
    }
    if !c.dialled {
      return;
    }
    bridged, openedAt := true, c.checkedAt + c.dialTime;
    var reason, round;
    reason, closedAt, round := EnforceSessionLimits(expiresAt, idleTimeout, c.sched, delay);
    assert c.sched(0).now <= c.sched(round).now;
    assert CausedBy(c.sched(round), expiresAt, idleTimeout, closedAt);
  }

  /** A bridge can open after its token has expired. The token of this run expires at 1 ms and validates; the check is
      made one nanosecond before that, and dialling takes a second: the bridge opens, and is closed, a second after the
      expiry, which is more than 500 ms late, though nothing else was slow. */
  lemma SlowDialOpensLate(idleTimeout: nat)
    ensures var hash := (t: Token) => t;
            var entry := Entry("sandbox", 80, 1);
            var run := [CreateSession("t", entry), AskRevoked(0, "t"), AnswerRevoked(0)];
            var late := Expiry(entry) - 1 + SECOND;
            var c := Course(Expiry(entry) - 1, SECOND, true, _ => Reading(late, late, late, late));
            && Injective(hash) && Answers(hash, run, 0, "t", Some(entry))
            && Prompt(c, entry, idleTimeout, 0) && entry.hostPort != 0 && c.dialled
            && c.checkedAt < entry.expiresAt * 1_000_000
            && c.checkedAt + c.dialTime > entry.expiresAt * 1_000_000 + 500_000_000
  {
    var hash := (t: Token) => t;
    var entry := Entry("sandbox", 80, 1);
    var a1, a2, a3 := CreateSession("t", entry), AskRevoked(0, "t"), AnswerRevoked(0);
    var s1, l1 := Next(hash, START, a1), LogNext(EMPTY_LOG, a1);
    var s2, l2 := Next(hash, s1, a2), LogNext(l1, a2);
    var s3, l3 := Next(hash, s2, a3), LogNext(l2, a3);
    assert [a1, a2, a3][1..] == [a2, a3] && [a2, a3][1..] == [a3] && [a3][1..] == [];
    assert Legal(hash, s3, l3, []) && Legal(hash, s2, l2, [a3]) && Legal(hash, s1, l1, [a2, a3]);
    assert After(hash, s3, l3, []) == (s3, l3) && After(hash, s2, l2, [a3]) == (s3, l3);
    assert After(hash, s1, l1, [a2, a3]) == (s3, l3);
    assert After(hash, START, EMPTY_LOG, [a1, a2, a3]) == (s3, l3);
    assert s3.validations[0] == Answered("t", false) && s3.sessions["t"] == entry;
  }
}
