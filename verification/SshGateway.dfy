/** The gateway's session enforcer: a loop of clock reads, activity-stamp reads and clamped sleeps.

    Times are nanoseconds. The stamp is written concurrently, so the two reads of one round may differ in
    any way. A schedule gives what each round reads; only its timing is constrained. */
module SshGateway {
  import opened Prelude

  const SECOND := 1_000_000_000
  const MIN_SLEEP: nat := SECOND / 2
  const MAX_SLEEP: nat := 5 * SECOND

  // ----- Durations through float64 -----

  /** Integers up to here are exact in a float64. */
  const EXACT: nat := 0x20_0000_0000_0000

  /** The distance between neighbouring float64 values around `x`. */
  function Ulp(x: nat): nat {
    if x < EXACT then 1 else 2 * Ulp(x / 2)
  }

  /** Conversion to float64: round to nearest, ties to even. */
  function Float64(x: nat): nat {
    var u := Ulp(x);
    if u == 0 then x
    else
      var m, r := x / u, x % u;
      if 2 * r < u || (2 * r == u && m % 2 == 0) then m * u else (m + 1) * u
  }

  function Min(a: int, b: int): int {
    if a <= b then a else b
  }

  function Max(a: int, b: int): int {
    if a >= b then a else b
  }

  function MinDuration(a: nat, b: nat): nat {
    Min(Float64(a), Float64(b))
  }

  function MaxDuration(a: nat, b: nat): nat {
    Max(Float64(a), Float64(b))
  }

  lemma HalveDivision(x: nat, v: nat)
    requires v > 0
    ensures x / (2 * v) == (x / 2) / v
  {
    var q := x / (2 * v);
    assert x == q * (2 * v) + x % (2 * v);
    var rest := x % (2 * v);
    assert x / 2 == q * v + rest / 2 by {
      assert q * (2 * v) == 2 * (q * v);
    }
    assert 0 <= rest / 2 < v;
    DivisionIs(x / 2, v, q, rest / 2);
  }

  lemma {:induction false} MulLess(a: nat, b: nat, v: nat)
    requires a < b
    ensures a * v + v <= b * v
    decreases b
  {
    if a < b - 1 {
      MulLess(a, b - 1, v);
    }
    assert b * v == (b - 1) * v + v;
  }

  lemma DivisionIs(x: nat, v: nat, q: nat, r: nat)
    requires v > 0 && r < v && x == q * v + r
    ensures x / v == q
  {
    var d := x / v;
    assert x == d * v + x % v;
    if d > q {
      MulLess(q, d, v);
    } else if d < q {
      MulLess(d, q, v);
    }
  }

  /** The significand has 53 bits. */
  lemma {:induction false} Significand(x: nat)
    ensures Ulp(x) >= 1
    ensures x >= EXACT / 2 ==> x / Ulp(x) >= EXACT / 2
    ensures x >= EXACT ==> Ulp(x) >= 2
  {
    if x >= EXACT {
      Significand(x / 2);
      HalveDivision(x, Ulp(x / 2));
    }
  }

  /** Two or more times at least half is at least the whole. */
  lemma StaysLarge(m: nat, u: nat)
    requires m >= EXACT / 2 && u >= 2
    ensures m * u >= EXACT && (m + 1) * u >= EXACT
  {
    MulAtLeast(m, u);
    MulAtLeast(m + 1, u);
  }

  lemma MulAtLeast(m: nat, u: nat)
    requires u >= 2
    ensures m * u >= 2 * m
  {
    assert m * u == 2 * m + m * (u - 2);
  }

  lemma Float64Meaning(x: nat)
    ensures x < EXACT ==> Float64(x) == x
    ensures x >= EXACT ==> Float64(x) >= EXACT
  {
    Significand(x);
    if x >= EXACT {
      StaysLarge(x / Ulp(x), Ulp(x));
    } else {
      assert x / 1 == x && x % 1 == 0;
    }
  }

  /** Every call the loop makes has an exact argument, and then the float64 detour is invisible. */
  lemma DurationsAreExact(a: nat, b: nat)
    requires a < EXACT
    ensures MinDuration(a, b) == Min(a, b)
    ensures b < EXACT ==> MaxDuration(a, b) == Max(a, b)
  {
    Float64Meaning(a);
    Float64Meaning(b);
  }

  // ----- One round -----

  /** The reads of a round: the clock, the stamp, the clock again, the stamp again. */
  datatype Reading = Reading(now: int, last1: int, until: int, last2: int)

  datatype Reason = Expired | Idle

  datatype Decision = Close(reason: Reason, at: int) | Sleep(duration: nat)

  /** A round, given how durations are compared. */
  function DecideWith(min: (nat, nat) -> nat, max: (nat, nat) -> nat, expiresAt: Option<int>, idleTimeout: nat,
                      r: Reading)
    : Decision
  {
    if expiresAt.Some? && r.now >= expiresAt.value then Close(Expired, r.now)
    else if idleTimeout > 0 && r.now - r.last1 >= idleTimeout then Close(Idle, r.now)
    else if expiresAt.Some? && expiresAt.value - r.until <= 0 then Close(Expired, r.until)
    else
      var sleep := if expiresAt.Some? then min(MAX_SLEEP, expiresAt.value - r.until) else MAX_SLEEP;
      if idleTimeout > 0 && idleTimeout - (r.now - r.last2) <= 0 then Close(Idle, r.until)
      else
        var sleep' := if idleTimeout > 0 then min(sleep, idleTimeout - (r.now - r.last2)) else sleep;
        Sleep(max(MIN_SLEEP, sleep'))
  }

  /** The round as it is, with durations compared as float64 values. */
  function Decide(expiresAt: Option<int>, idleTimeout: nat, r: Reading): Decision {
    DecideWith(MinDuration, MaxDuration, expiresAt, idleTimeout, r)
  }

  function MinNat(a: nat, b: nat): nat {
    Min(a, b)
  }

  function MaxNat(a: nat, b: nat): nat {
    Max(a, b)
  }

  /** The comparisons are right where the loop uses them: one side is at most five seconds. */
  ghost predicate ExactWhereUsed(min: (nat, nat) -> nat, max: (nat, nat) -> nat) {
    && (forall a: nat, b: nat :: a <= MAX_SLEEP ==> min(a, b) == Min(a, b))
    && (forall a: nat, b: nat :: a <= MAX_SLEEP && b <= MAX_SLEEP ==> max(a, b) == Max(a, b))
  }

  lemma DecideAgrees(min: (nat, nat) -> nat, max: (nat, nat) -> nat, expiresAt: Option<int>, idleTimeout: nat,
                     r: Reading)
    requires ExactWhereUsed(min, max)
    ensures DecideWith(min, max, expiresAt, idleTimeout, r) == DecideWith(MinNat, MaxNat, expiresAt, idleTimeout, r)
  {
  }

  lemma Float64IsExactWhereUsed()
    ensures ExactWhereUsed(MinDuration, MaxDuration)
  {
    forall a: nat, b: nat | a <= MAX_SLEEP ensures MinDuration(a, b) == Min(a, b) {
      DurationsAreExact(a, b);
    }
    forall a: nat, b: nat | a <= MAX_SLEEP && b <= MAX_SLEEP ensures MaxDuration(a, b) == Max(a, b) {
      DurationsAreExact(a, b);
    }
  }

  /** On every input a round decides as if it compared integers, however far away the limits are. */
  lemma DecideIsExact(expiresAt: Option<int>, idleTimeout: nat, r: Reading)
    ensures Decide(expiresAt, idleTimeout, r) == DecideWith(MinNat, MaxNat, expiresAt, idleTimeout, r)
  {
    Float64IsExactWhereUsed();
    DecideAgrees(MinDuration, MaxDuration, expiresAt, idleTimeout, r);
  }

  /** A limit holds at these reads. */
  predicate Due(expiresAt: Option<int>, idleTimeout: nat, r: Reading) {
    || (expiresAt.Some? && (expiresAt.value <= r.now || expiresAt.value <= r.until))
    || (idleTimeout > 0 && (r.now - r.last1 >= idleTimeout || r.now - r.last2 >= idleTimeout))
  }

  /** The times at which a round should look again. */
  function LookAgain(expiresAt: Option<int>, idleTimeout: nat, r: Reading): seq<int> {
    [5_000_000_000]
    + (if expiresAt.Some? then [expiresAt.value - r.until] else [])
    + (if idleTimeout > 0 then [r.last2 + idleTimeout - r.now] else [])
  }

  function LeastTime(expiresAt: Option<int>, idleTimeout: nat, r: Reading): int {
    var byExpiry := if expiresAt.Some? then Min(MAX_SLEEP, expiresAt.value - r.until) else MAX_SLEEP;
    if idleTimeout > 0 then Min(byExpiry, r.last2 + idleTimeout - r.now) else byExpiry
  }

  predicate Least(xs: seq<int>, x: int) {
    x in xs && forall i :: 0 <= i < |xs| ==> x <= xs[i]
  }

  lemma LeastIs(expiresAt: Option<int>, idleTimeout: nat, r: Reading, x: int)
    requires Least(LookAgain(expiresAt, idleTimeout, r), x)
    ensures x == LeastTime(expiresAt, idleTimeout, r)
  {
    var xs := LookAgain(expiresAt, idleTimeout, r);
    if expiresAt.Some? && idleTimeout > 0 {
      assert xs == [MAX_SLEEP, expiresAt.value - r.until, r.last2 + idleTimeout - r.now];
      assert x <= xs[0] && x <= xs[1] && x <= xs[2];
    } else if expiresAt.Some? {
      assert xs == [MAX_SLEEP, expiresAt.value - r.until];
      assert x <= xs[0] && x <= xs[1];
    } else if idleTimeout > 0 {
      assert xs == [MAX_SLEEP, r.last2 + idleTimeout - r.now];
      assert x <= xs[0] && x <= xs[1];
    } else {
      assert xs == [MAX_SLEEP];
    }
  }

  lemma SleepsUntilLeast(expiresAt: Option<int>, idleTimeout: nat, r: Reading)
    ensures var d := Decide(expiresAt, idleTimeout, r);
            && (d.Sleep? <==> !Due(expiresAt, idleTimeout, r))
            && (d.Sleep? ==> d.duration == Max(500_000_000, LeastTime(expiresAt, idleTimeout, r)))
  {
    DecideIsExact(expiresAt, idleTimeout, r);
  }

  /** A round sleeps exactly when no limit holds at its reads: until the first of its limits or for five seconds,
      whichever is least, but never less than half a second. */
  lemma SleepLaw(expiresAt: Option<int>, idleTimeout: nat, r: Reading)
    ensures var d := Decide(expiresAt, idleTimeout, r);
            && (d.Sleep? <==> !Due(expiresAt, idleTimeout, r))
            && (d.Sleep? ==> exists x :: Least(LookAgain(expiresAt, idleTimeout, r), x)
                                         && d.duration == if x < 500_000_000 then 500_000_000 else x)
  {
    SleepsUntilLeast(expiresAt, idleTimeout, r);
    LeastOf(LookAgain(expiresAt, idleTimeout, r));
    var x :| Least(LookAgain(expiresAt, idleTimeout, r), x);
    LeastIs(expiresAt, idleTimeout, r, x);
  }

  lemma {:induction false} LeastOf(xs: seq<int>)
    requires xs != []
    ensures exists x :: Least(xs, x)
    decreases |xs|
  {
    if |xs| == 1 {
      assert Least(xs, xs[0]);
    } else {
      LeastOf(xs[1..]);
      var x :| Least(xs[1..], x);
      assert forall i :: 1 <= i < |xs| ==> xs[i] == xs[1..][i - 1];
      assert Least(xs, if xs[0] <= x then xs[0] else x);
    }
  }

  /** How long a round sleeps: between half a second and five, and never past a limit by more than the minimum. */
  lemma SleepBounds(expiresAt: Option<int>, idleTimeout: nat, r: Reading)
    requires Decide(expiresAt, idleTimeout, r).Sleep?
    ensures var d := Decide(expiresAt, idleTimeout, r).duration;
            && 500_000_000 <= d <= 5_000_000_000
            && (expiresAt.Some? ==> r.now < expiresAt.value && d <= Max(MIN_SLEEP, expiresAt.value - r.until))
            && (idleTimeout > 0 ==>
                  r.now < r.last1 + idleTimeout && r.now < r.last2 + idleTimeout
                  && d <= Max(MIN_SLEEP, r.last2 + idleTimeout - r.now))
  {
    DecideIsExact(expiresAt, idleTimeout, r);
  }

  /** A round closes only when a limit holds at what it read. */
  lemma CloseLaw(expiresAt: Option<int>, idleTimeout: nat, r: Reading)
    requires Decide(expiresAt, idleTimeout, r).Close? && r.now <= r.until
    ensures var c := Decide(expiresAt, idleTimeout, r);
            && r.now <= c.at <= r.until
            && (c.reason.Expired? ==> expiresAt.Some? && expiresAt.value <= c.at)
            && (c.reason.Idle? ==>
                  idleTimeout > 0 && (r.now - r.last1 >= idleTimeout || r.now - r.last2 >= idleTimeout))
            && (c.at > r.now ==> (expiresAt.Some? ==> r.now < expiresAt.value)
                                 && (idleTimeout > 0 ==> r.now < r.last1 + idleTimeout))
  {
  }

  // ----- Whole runs -----

  /** Rounds follow each other promptly: apart from sleeping, a round takes at most `delay`. */
  ghost predicate Timely(sched: nat -> Reading, expiresAt: Option<int>, idleTimeout: nat, delay: nat) {
    forall i: nat ::
      && sched(i).now <= sched(i).until <= sched(i).now + delay
      && (Decide(expiresAt, idleTimeout, sched(i)).Sleep? ==>
            var d := Decide(expiresAt, idleTimeout, sched(i)).duration;
            sched(i).now + d <= sched(i + 1).now <= sched(i).now + d + delay)
  }

  /** No stamp read in any round is later than `last`. */
  ghost predicate LastActivity(sched: nat -> Reading, last: int) {
    forall i: nat :: sched(i).last1 <= last && sched(i).last2 <= last
  }

  /** One round later, neither limit has been passed by more than the minimum sleep. */
  lemma NextRound(sched: nat -> Reading, expiresAt: int, idleTimeout: nat, delay: nat, i: nat)
    requires Timely(sched, Some(expiresAt), idleTimeout, delay)
    requires Decide(Some(expiresAt), idleTimeout, sched(i)).Sleep?
    ensures sched(i).now + MIN_SLEEP <= sched(i + 1).now < expiresAt + MIN_SLEEP + delay
    ensures idleTimeout > 0 ==> forall last :: LastActivity(sched, last) ==>
              sched(i + 1).now < last + idleTimeout + MIN_SLEEP + delay
  {
    SleepBounds(Some(expiresAt), idleTimeout, sched(i));
    if idleTimeout > 0 {
      forall last | LastActivity(sched, last)
        ensures sched(i + 1).now < last + idleTimeout + MIN_SLEEP + delay
      {
        assert sched(i).last2 <= last;
      }
    }
  }

  /** `enforceSessionLimits` with an expiry, for every schedule of activity stamps. It ends, within one round
      per half second; it closes before expiry + 500 ms and before the last activity + idle timeout + 500 ms,
      plus the scheduling delay, unless a limit had passed before the first round; and it closes only when a
      limit held at its own reads. */
  method EnforceSessionLimits(expiresAt: int, idleTimeout: nat, sched: nat -> Reading, ghost delay: nat)
    returns (reason: Reason, closedAt: int, round: nat)
    requires Timely(sched, Some(expiresAt), idleTimeout, delay)
    ensures sched(round).now <= closedAt <= sched(round).until
    ensures reason.Expired? ==> expiresAt <= closedAt
    ensures reason.Idle? ==> idleTimeout > 0
                             && (sched(round).now - sched(round).last1 >= idleTimeout
                                 || sched(round).now - sched(round).last2 >= idleTimeout)
    ensures closedAt < expiresAt + 500_000_000 + delay || closedAt == sched(0).now
    ensures sched(0).now >= expiresAt ==> round == 0 && closedAt == sched(0).now
    ensures idleTimeout > 0 ==> forall last :: LastActivity(sched, last) ==>
              closedAt < last + idleTimeout + 500_000_000 + delay || closedAt == sched(0).now
    ensures sched(0).now + round * MIN_SLEEP <= sched(round).now
  {
    round := 0;
    while true
      invariant round > 0 ==> sched(0).now < expiresAt && sched(round).now < expiresAt + MIN_SLEEP + delay
      invariant round > 0 && idleTimeout > 0 ==>
                  forall last :: LastActivity(sched, last) ==> sched(round).now < last + idleTimeout + MIN_SLEEP + delay
      invariant sched(0).now + round * MIN_SLEEP <= sched(round).now
      decreases expiresAt - sched(round).now
    {
      var r := sched(round);
      var decision := Decide(Some(expiresAt), idleTimeout, r);
      match decision
      case Close(why, at) =>
        CloseLaw(Some(expiresAt), idleTimeout, r);
        assert idleTimeout > 0 ==> forall last :: LastActivity(sched, last) ==> r.last1 <= last;
        return why, at, round;
      case Sleep(d) =>
        SleepBounds(Some(expiresAt), idleTimeout, r);
        NextRound(sched, expiresAt, idleTimeout, delay, round);
        round := round + 1;
    }
  }
}
