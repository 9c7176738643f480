/**
 The re-attaching long-poll of the permission hook (omnigent/claude_native_hook.py):
 a consecutive-failure cap, exponential backoff and a wall-clock deadline. Replies,
 their timing and the clock are adversarial; durations are reals.
 */
module Reattach {
  import opened Common

  type Duration = r: real | r >= 0.0

  datatype Outcome =
    | Response(status: int, loginLocation: bool)
    | NeverConnected
    | Dropped

  /** One POST: time before it, how long it ran, and how far the sleep after it overran. */
  datatype Attempt = Attempt(outcome: Outcome, lag: Duration, held: Duration, oversleep: Duration)

  type World = nat -> Attempt

  const PERMISSION_TIMEOUT: real := 86400.0
  const INITIAL_BACKOFF: real := 1.0
  const MAX_BACKOFF: real := 30.0
  const DEFAULT_MAX_FAILURES: int := 8
  const DEFAULT_HELD_FLOOR: real := 10.0

  /**
   `maxFailures` and `heldFloor` come from the environment and are clamped; `reauth` is
   absent, or yields fresh headers or nothing.
   */
  datatype Config = Config(maxFailures: int, heldFloor: real, reauth: Option<bool>) {
    function Cap(): (r: int) ensures r >= 1 {
      if maxFailures < 1 then 1 else maxFailures
    }

    function Floor(): (r: real) ensures r >= 0.0 {
      if heldFloor < 0.0 then 0.0 else heldFloor
    }
  }

  // ---------------------------------------------------------- classification

  /** What one POST amounts to. `Bounced` is an auth bounce answered with fresh headers. */
  datatype Kind = Answered | Refused | Bounced | Hard | Held

  predicate IsFailure(k: Kind) {
    k.Hard? || k.Held?
  }

  predicate IsLoginRedirectOrUnauthorized(o: Outcome) {
    o.Response? && (o.status == 401 || o.status == 403 || (300 <= o.status < 400 && o.loginLocation))
  }

  function Classify(c: Config, a: Attempt, reauthed: bool): (k: Kind) {
    match a.outcome
    case Response(status, _) =>
      if c.reauth == Some(true) && !reauthed && IsLoginRedirectOrUnauthorized(a.outcome) then Bounced
      else if 200 <= status < 300 then Answered
      else if status < 500 then Refused
      else Hard
    case NeverConnected => Hard
    case Dropped => if a.held < c.Floor() then Hard else Held
  }

  // ------------------------------------------------- measures of a run so far

  type Log = seq<Kind>

  function Failures(log: Log): (r: Log)
    ensures |r| <= |log| && forall k :: k in r ==> IsFailure(k)
  {
    if log == [] then []
    else
      var last := log[|log| - 1];
      Failures(log[..|log| - 1]) + if IsFailure(last) then [last] else []
  }

  /** The number of hard failures since the last held poll. */
  function HardRun(log: Log): (n: nat) {
    if log == [] then 0
    else
      var before := HardRun(log[..|log| - 1]);
      match log[|log| - 1]
      case Hard => before + 1
      case Held => 0
      case _ => before
  }

  function HeldCount(log: Log): (n: nat) {
    if log == [] then 0 else HeldCount(log[..|log| - 1]) + if log[|log| - 1].Held? then 1 else 0
  }

  function BounceCount(log: Log): (n: nat) {
    if log == [] then 0 else BounceCount(log[..|log| - 1]) + if log[|log| - 1].Bounced? then 1 else 0
  }

  /** The pause after failure number `i`: 1, 2, 4, 8, 16, then 30 for ever. */
  function Backoff(i: nat): (r: real)
    ensures INITIAL_BACKOFF <= r <= MAX_BACKOFF
  {
    if i == 0 then INITIAL_BACKOFF
    else if 2.0 * Backoff(i - 1) < MAX_BACKOFF then 2.0 * Backoff(i - 1)
    else MAX_BACKOFF
  }

  /** Time since the call began, once everything in the log has happened. */
  function Clock(w: World, log: Log): (t: real) {
    if log == [] then 0.0
    else
      var k := |log| - 1;
      var before := log[..k];
      Clock(w, before) + w(k).lag + w(k).held
      + if IsFailure(log[k]) then Backoff(|Failures(before)|) + w(k).oversleep else 0.0
  }

  // -------------------------------------------------------------- legal runs

  datatype Result = Success(post: nat) | Rejected | CapReached | DeadlinePassed

  /** Every entry is the classification of its POST, given whether headers were re-minted before. */
  ghost predicate Faithful(c: Config, w: World, log: Log) {
    log != [] ==>
      var before := log[..|log| - 1];
      Faithful(c, w, before) && log[|log| - 1] == Classify(c, w(|before|), Bounced in before)
  }

  /** The loop goes on after this log: within both budgets, unless it was a bounce. */
  ghost predicate GoesOn(c: Config, w: World, log: Log) {
    log != [] &&
    var last := log[|log| - 1];
    last.Bounced? || (IsFailure(last) && HardRun(log) < c.Cap() && Clock(w, log) < PERMISSION_TIMEOUT)
  }

  /** A faithful log after every entry of which the loop goes on. */
  ghost predicate Continued(c: Config, w: World, log: Log) {
    log != [] ==>
      var before := log[..|log| - 1];
      Continued(c, w, before) && log[|log| - 1] == Classify(c, w(|before|), Bounced in before) && GoesOn(c, w, log)
  }

  /** The reason for stopping is the only one that applies. */
  ghost predicate Ended(c: Config, w: World, log: Log, r: Result) {
    && log != [] && !GoesOn(c, w, log)
    && var last := log[|log| - 1];
    && (r == Success(|log| - 1) <==> last.Answered?)
    && (r.Success? ==> last.Answered?)
    && (r.Rejected? <==> last.Refused?)
    && (r.CapReached? <==> last.Hard? && HardRun(log) >= c.Cap())
    && (r.DeadlinePassed? <==> IsFailure(last) && HardRun(log) < c.Cap() && Clock(w, log) >= PERMISSION_TIMEOUT)
  }

  ghost predicate IsRun(c: Config, w: World, log: Log, r: Result) {
    && Ended(c, w, log, r)
    && Continued(c, w, log[..|log| - 1])
    && Faithful(c, w, log)
  }

  // -------------------------------------------------------------- the budgets

  function SumBackoff(n: nat): (r: real) {
    if n == 0 then 0.0 else SumBackoff(n - 1) + Backoff(n - 1)
  }

  lemma {:induction false} BackoffSettles(i: nat)
    requires i >= 5
    ensures Backoff(i) == MAX_BACKOFF
  {
    if i > 5 {
      BackoffSettles(i - 1);
    } else {
      assert Backoff(1) == 2.0;
      assert Backoff(2) == 4.0;
      assert Backoff(3) == 8.0;
      assert Backoff(4) == 16.0;
    }
  }

  lemma {:induction false} SumBackoffClosed(n: nat)
    requires n >= 5
    ensures SumBackoff(n) == 31.0 + 30.0 * (n - 5) as real
  {
    if n > 5 {
      SumBackoffClosed(n - 1);
      BackoffSettles(n - 1);
    } else {
      assert Backoff(1) == 2.0;
      assert Backoff(2) == 4.0;
      assert Backoff(3) == 8.0;
      assert Backoff(4) == 16.0;
      assert SumBackoff(2) == 3.0;
      assert SumBackoff(4) == 15.0;
    }
  }

  lemma {:induction false} ContinuedIsFaithful(c: Config, w: World, log: Log)
    requires Continued(c, w, log)
    ensures Faithful(c, w, log)
  {
    if log != [] {
      ContinuedIsFaithful(c, w, log[..|log| - 1]);
    }
  }

  /** The clock pays for every pause and, at the held floor, for every held poll. */
  lemma {:induction false} ClockPays(c: Config, w: World, log: Log)
    requires Faithful(c, w, log)
    ensures Clock(w, log) >= SumBackoff(|Failures(log)|) + Paid(c, log)
  {
    if log != [] {
      ClockPays(c, w, log[..|log| - 1]);
    }
  }

  function Paid(c: Config, log: Log): (r: real) {
    if log == [] then 0.0 else Paid(c, log[..|log| - 1]) + if log[|log| - 1].Held? then c.Floor() else 0.0
  }

  /** Fresh headers are minted at most once. */
  lemma {:induction false} ReauthenticatesAtMostOnce(c: Config, w: World, log: Log)
    requires Faithful(c, w, log)
    ensures BounceCount(log) == if Bounced in log then 1 else 0
    ensures Bounced in log ==> c.reauth == Some(true)
  {
    if log != [] {
      ReauthenticatesAtMostOnce(c, w, log[..|log| - 1]);
      assert log == log[..|log| - 1] + [log[|log| - 1]];
    }
  }

  lemma {:induction false} PostsAreFailuresAndBounces(c: Config, w: World, log: Log)
    requires Continued(c, w, log)
    ensures |log| == |Failures(log)| + BounceCount(log)
  {
    if log != [] {
      PostsAreFailuresAndBounces(c, w, log[..|log| - 1]);
    }
  }

  lemma {:induction false} WithinBudget(c: Config, w: World, log: Log)
    requires Continued(c, w, log)
    ensures SumBackoff(|Failures(log)|) + Paid(c, log) < PERMISSION_TIMEOUT
  {
    if log != [] {
      if log[|log| - 1].Bounced? {
        WithinBudget(c, w, log[..|log| - 1]);
      } else {
        assert Clock(w, log) < PERMISSION_TIMEOUT;
        ContinuedIsFaithful(c, w, log);
        ClockPays(c, w, log);
      }
    }
  }

  /** Fewer than `cap` hard failures separate one held poll from the next. */
  lemma {:induction false} HeldPollsAreFrequent(c: Config, w: World, log: Log)
    requires Continued(c, w, log)
    ensures |Failures(log)| <= c.Cap() * HeldCount(log) + HardRun(log) && HardRun(log) < c.Cap()
  {
    if log != [] {
      var before := log[..|log| - 1];
      HeldPollsAreFrequent(c, w, before);
      OneMore(c.Cap(), HeldCount(before));
    }
  }

  lemma {:induction false} OneMore(cap: int, n: nat)
    ensures cap * (n + 1) == cap * n + cap
  {
  }

  lemma {:induction false} PaidIsNonNegative(c: Config, log: Log)
    ensures Paid(c, log) >= 0.0
  {
    if log != [] {
      PaidIsNonNegative(c, log[..|log| - 1]);
    }
  }

  /** The backoffs alone bound the attempts, for every floor and cap an operator may set. */
  lemma {:induction false} ContinuedBound(c: Config, w: World, log: Log)
    requires Continued(c, w, log)
    ensures |log| <= 2884
  {
    WithinBudget(c, w, log);
    PostsAreFailuresAndBounces(c, w, log);
    PaidIsNonNegative(c, log);
    ContinuedIsFaithful(c, w, log);
    ReauthenticatesAtMostOnce(c, w, log);
    if |Failures(log)| >= 5 {
      SumBackoffClosed(|Failures(log)|);
    }
  }

  lemma {:induction false} PostBound(c: Config, w: World, log: Log, r: Result)
    requires IsRun(c, w, log, r)
    ensures |log| <= 2885
  {
    ContinuedBound(c, w, log[..|log| - 1]);
  }

  lemma {:induction false} PaidAtDefaultFloor(c: Config, log: Log)
    requires c.Floor() == DEFAULT_HELD_FLOOR
    ensures Paid(c, log) == 10.0 * HeldCount(log) as real
  {
    if log != [] {
      PaidAtDefaultFloor(c, log[..|log| - 1]);
    }
  }

  lemma {:induction false} DefaultArithmetic(failures: nat, held: nat)
    requires failures >= 5 && 31.0 + 30.0 * (failures - 5) as real + 10.0 * held as real < 86400.0
    requires failures <= 8 * held + 7
    ensures failures <= 2768
  {
    assert (31 + 30 * (failures - 5) + 10 * held) as real < 86400.0;
  }

  /** With the default cap and floor every eighth failure is a poll held for ten seconds. */
  lemma {:induction false} DefaultPostBound(c: Config, w: World, log: Log, r: Result)
    requires c.maxFailures == DEFAULT_MAX_FAILURES && c.heldFloor == DEFAULT_HELD_FLOOR && IsRun(c, w, log, r)
    ensures |log| <= 2770
  {
    var before := log[..|log| - 1];
    WithinBudget(c, w, before);
    PostsAreFailuresAndBounces(c, w, before);
    HeldPollsAreFrequent(c, w, before);
    PaidAtDefaultFloor(c, before);
    ContinuedIsFaithful(c, w, before);
    ReauthenticatesAtMostOnce(c, w, before);
    if |Failures(before)| >= 5 {
      SumBackoffClosed(|Failures(before)|);
      DefaultArithmetic(|Failures(before)|, HeldCount(before));
    }
  }

  // ---------------------------------------------------------------- the loop

  /** The loop's variables say what the log says. */
  ghost predicate Tracks(w: World, log: Log, backoff: real, hard: int, reauthed: bool, now: real) {
    && backoff == Backoff(|Failures(log)|) && hard == HardRun(log)
    && reauthed == (Bounced in log) && now == Clock(w, log)
  }

  lemma {:induction false} ContinuedSnoc(c: Config, w: World, log: Log, k: Kind)
    requires Continued(c, w, log) && k == Classify(c, w(|log|), Bounced in log)
    ensures Faithful(c, w, log + [k])
    ensures GoesOn(c, w, log + [k]) ==> Continued(c, w, log + [k])
  {
    ContinuedIsFaithful(c, w, log);
    assert (log + [k])[..|log|] == log;
  }

  lemma {:induction false} MeasuresSnoc(w: World, log: Log, k: Kind)
    ensures Failures(log + [k]) == Failures(log) + if IsFailure(k) then [k] else []
    ensures HardRun(log + [k]) == if k.Hard? then HardRun(log) + 1 else if k.Held? then 0 else HardRun(log)
    ensures Clock(w, log + [k]) ==
              Clock(w, log) + w(|log|).lag + w(|log|).held
              + if IsFailure(k) then Backoff(|Failures(log)|) + w(|log|).oversleep else 0.0
  {
    assert (log + [k])[..|log|] == log;
  }

  function Doubled(backoff: real): (r: real) {
    if backoff * 2.0 < MAX_BACKOFF then backoff * 2.0 else MAX_BACKOFF
  }

  /** The reading of the clock after a POST and the sleep that follows its failure. */
  function Awake(now: real, a: Attempt, backoff: real): (r: real) {
    now + a.lag + a.held + (backoff + a.oversleep)
  }

  lemma {:induction false} FailureTracks(w: World, log: Log, backoff: real, hard: int, reauthed: bool, now: real,
                                         k: Kind)
    requires Tracks(w, log, backoff, hard, reauthed, now) && IsFailure(k)
    ensures Tracks(w, log + [k], Doubled(backoff), if k.Hard? then hard + 1 else 0, reauthed,
                   Awake(now, w(|log|), backoff))
  {
    MeasuresSnoc(w, log, k);
  }

  lemma {:induction false} BounceTracks(w: World, log: Log, backoff: real, hard: int, reauthed: bool, now: real)
    requires Tracks(w, log, backoff, hard, reauthed, now)
    ensures Tracks(w, log + [Bounced], backoff, hard, true, now + w(|log|).lag + w(|log|).held)
  {
    MeasuresSnoc(w, log, Bounced);
  }

  lemma {:induction false} EndsRun(c: Config, w: World, log: Log, k: Kind, r: Result)
    requires Continued(c, w, log) && k == Classify(c, w(|log|), Bounced in log)
    requires Ended(c, w, log + [k], r)
    ensures IsRun(c, w, log + [k], r)
  {
    ContinuedSnoc(c, w, log, k);
    assert (log + [k])[..|log|] == log;
  }

  /** A failure either exhausts a budget or leaves the loop going. */
  lemma {:induction false} FailureStep(c: Config, w: World, log: Log, k: Kind, hard: int, now: real)
    requires Continued(c, w, log) && k == Classify(c, w(|log|), Bounced in log) && IsFailure(k)
    requires hard == HardRun(log + [k]) && now == Clock(w, log + [k])
    ensures hard >= c.Cap() ==> IsRun(c, w, log + [k], CapReached)
    ensures hard < c.Cap() && now >= PERMISSION_TIMEOUT ==> IsRun(c, w, log + [k], DeadlinePassed)
    ensures hard < c.Cap() && now < PERMISSION_TIMEOUT ==> Continued(c, w, log + [k])
  {
    ContinuedSnoc(c, w, log, k);
    assert HardRun(log + [k]) > 0 ==> k.Hard?;
    if hard >= c.Cap() {
      EndsRun(c, w, log, k, CapReached);
    } else if now >= PERMISSION_TIMEOUT {
      EndsRun(c, w, log, k, DeadlinePassed);
    }
  }

  lemma {:induction false} FinalStep(c: Config, w: World, log: Log, k: Kind)
    requires Continued(c, w, log) && k == Classify(c, w(|log|), Bounced in log) && !IsFailure(k)
    ensures k.Answered? ==> IsRun(c, w, log + [k], Success(|log|))
    ensures k.Refused? ==> IsRun(c, w, log + [k], Rejected)
    ensures k.Bounced? ==> Continued(c, w, log + [k])
  {
    ContinuedSnoc(c, w, log, k);
    if !k.Bounced? {
      EndsRun(c, w, log, k, if k.Answered? then Success(|log|) else Rejected);
    }
  }

  /** A reply that means the bearer is no good: 401, 403, or a redirect to the login flow. */
  predicate IsAuthBounce(o: Outcome)
    requires o.Response?
  {
    o.status == 401 || o.status == 403 || (300 <= o.status <= 399 && o.loginLocation)
  }

  /** One POST as the loop sees it: re-mint once on a bounce, raise on a bad status, sort the failure. */
  method PostOnce(c: Config, a: Attempt, reauthed: bool) returns (k: Kind)
    ensures k == Classify(c, a, reauthed)
    ensures k.Held? <==> a.outcome.Dropped? && a.held >= c.Floor()
    ensures k.Hard? <==>
              || a.outcome.NeverConnected?
              || (a.outcome.Response? && a.outcome.status >= 500)
              || (a.outcome.Dropped? && a.held < c.Floor())
    ensures k.Bounced? <==> !reauthed && c.reauth == Some(true) && a.outcome.Response? && IsAuthBounce(a.outcome)
    ensures k.Answered? <==> a.outcome.Response? && 200 <= a.outcome.status <= 299
    ensures k.Refused? <==>
              && a.outcome.Response? && (a.outcome.status <= 199 || 300 <= a.outcome.status <= 499)
              && (reauthed || c.reauth != Some(true) || !IsAuthBounce(a.outcome))
  {
    if a.outcome.Response? {
      if c.reauth.Some? && !reauthed && IsLoginRedirectOrUnauthorized(a.outcome) {
        var refreshed := c.reauth.value;
        if refreshed {
          return Bounced;
        }
      }
      var status := a.outcome.status;
      if 200 <= status < 300 {
        return Answered;
      }
      return if status < 500 then Refused else Hard;
    }
    var isHardFailure := a.outcome.NeverConnected? || a.held < c.Floor();
    k := if isHardFailure then Hard else Held;
  }

  /**
   The tail of the loop: count the failure, give up at the cap, else sleep and give up
   at the deadline. `now'` is the time after that sleep; at the cap nobody reads it.
   */
  method AfterFailure(c: Config, w: World, log: Log, kind: Kind, backoff: real, hard: int, ghost reauthed: bool,
                      now: real)
    returns (r: Option<Result>, backoff': real, hard': int, now': real)
    requires Continued(c, w, log) && kind == Classify(c, w(|log|), Bounced in log) && IsFailure(kind)
    requires Tracks(w, log, backoff, hard, reauthed, now)
    ensures r.Some? ==> IsRun(c, w, log + [kind], r.value)
    ensures r.None? ==> Continued(c, w, log + [kind]) && Tracks(w, log + [kind], backoff', hard', reauthed, now')
  {
    r := None;
    hard' := if kind.Hard? then hard + 1 else 0;
    now', backoff' := Awake(now, w(|log|), backoff), Doubled(backoff);
    FailureTracks(w, log, backoff, hard, reauthed, now, kind);
    FailureStep(c, w, log, kind, hard', now');
    if hard' >= c.Cap() {
      r := Some(CapReached);
    } else if now' >= PERMISSION_TIMEOUT {
      r := Some(DeadlinePassed);
    }
  }

  /**
   The re-attach loop, on every world and every configuration. It terminates, its
   log is a legal run, and its result names the budget that ran out.
   */
  method PostHookWithReattach(c: Config, w: World) returns (r: Result, log: Log)
    ensures IsRun(c, w, log, r)
  {
    var backoff, hard, reauthed, now := INITIAL_BACKOFF, 0, false, 0.0;
    log := [];
    while true
      invariant Continued(c, w, log) && Tracks(w, log, backoff, hard, reauthed, now)
      decreases 2885 - |log|
    {
      ContinuedBound(c, w, log);
      var attempt := w(|log|);
      var kind := PostOnce(c, attempt, reauthed);
      var before := log;
      log := log + [kind];
      var stop: Option<Result>;
      if IsFailure(kind) {
        stop, backoff, hard, now := AfterFailure(c, w, before, kind, backoff, hard, reauthed, now);
      } else {
        FinalStep(c, w, before, kind);
        BounceTracks(w, before, backoff, hard, reauthed, now);
        now := now + attempt.lag + attempt.held;
        reauthed := reauthed || kind.Bounced?;
        stop := match kind case Answered => Some(Success(|before|)) case Refused => Some(Rejected) case _ => None;
      }
      if stop.Some? {
        return stop.value, log;
      }
    }
  }

  // ---------------------------------------------------- what the run tells

  predicate LastHard(failures: Log, n: nat) {
    n <= |failures| && forall i :: |failures| - n <= i < |failures| ==> failures[i].Hard?
  }

  lemma {:induction false} LastHardSnoc(failures: Log, k: Kind, n: nat)
    requires n > 0
    ensures LastHard(failures + [k], n) <==> k.Hard? && LastHard(failures, n - 1)
  {
    var all := failures + [k];
    assert all[|failures|] == k && forall i :: 0 <= i < |failures| ==> all[i] == failures[i];
    if k.Hard? && LastHard(failures, n - 1) {
      forall i | |all| - n <= i < |all| ensures all[i].Hard? {
      }
    }
  }

  /** The counter says that the last `n` failures were all hard. */
  lemma {:induction false} HardRunMeaning(log: Log, n: nat)
    ensures HardRun(log) >= n <==> LastHard(Failures(log), n)
  {
    if log != [] && n > 0 {
      var before, last := log[..|log| - 1], log[|log| - 1];
      if IsFailure(last) {
        LastHardSnoc(Failures(before), last, n);
        HardRunMeaning(before, n - 1);
      } else {
        HardRunMeaning(before, n);
        assert Failures(before) + [] == Failures(before);
      }
    }
  }

  /** The cap ends a run only after that many hard failures in a row, and never a run whose last failure was held. */
  lemma {:induction false} CapNeedsHardFailures(c: Config, w: World, log: Log)
    requires IsRun(c, w, log, CapReached)
    ensures LastHard(Failures(log), if c.maxFailures < 1 then 1 else c.maxFailures)
  {
    HardRunMeaning(log, c.Cap());
  }

  /** One auth bounce, then polls dropped at once under a zero floor, on a clock that only sleeps. */
  ghost predicate InstantDrops(c: Config, w: World) {
    && c.reauth == Some(true) && c.heldFloor == 0.0
    && forall k: nat :: w(k) == Attempt(if k == 0 then Response(401, false) else Dropped, 0.0, 0.0, 0.0)
  }

  lemma {:induction false} SumBackoffFits(n: nat)
    ensures n <= 2883 <==> SumBackoff(n) < PERMISSION_TIMEOUT
  {
    if n >= 5 {
      SumBackoffClosed(n);
    } else {
      assert SumBackoff(1) <= 30.0;
      assert SumBackoff(2) <= 60.0;
      assert SumBackoff(3) <= 90.0;
      assert SumBackoff(4) <= 120.0;
    }
  }

  /** A bounce and `n` drops so far. */
  ghost predicate DropsSoFar(w: World, log: Log, n: nat) {
    && |log| == n + 1 && Bounced in log
    && |Failures(log)| == n && HardRun(log) == 0 && Clock(w, log) == SumBackoff(n)
  }

  lemma {:induction false} FirstBounce(c: Config, w: World)
    requires InstantDrops(c, w)
    ensures Continued(c, w, [] + [Bounced]) && DropsSoFar(w, [] + [Bounced], 0)
  {
    assert Classify(c, w(0), false) == Bounced;
    FinalStep(c, w, [], Bounced);
    MeasuresSnoc(w, [], Bounced);
  }

  lemma {:induction false} DropMeasures(c: Config, w: World, log: Log, n: nat)
    requires InstantDrops(c, w) && DropsSoFar(w, log, n)
    ensures DropsSoFar(w, log + [Held], n + 1)
  {
    MeasuresSnoc(w, log, Held);
  }

  lemma {:induction false} NextDrop(c: Config, w: World, log: Log, n: nat)
    requires InstantDrops(c, w) && DropsSoFar(w, log, n) && Continued(c, w, log)
    ensures DropsSoFar(w, log + [Held], n + 1)
    ensures n < 2883 ==> Continued(c, w, log + [Held])
    ensures n == 2883 ==> IsRun(c, w, log + [Held], DeadlinePassed)
  {
    DropMeasures(c, w, log, n);
    SumBackoffFits(n + 1);
    assert Classify(c, w(n + 1), true) == Held;
    FailureStep(c, w, log, Held, 0, SumBackoff(n + 1));
  }

  /** The bound of `PostBound` is reached. */
  lemma {:induction false} PostBoundAttained(c: Config, w: World) returns (log: Log)
    requires InstantDrops(c, w)
    ensures IsRun(c, w, log, DeadlinePassed) && |log| == 2885
  {
    FirstBounce(c, w);
    log := [] + [Bounced];
    for n := 0 to 2883
      invariant DropsSoFar(w, log, n) && Continued(c, w, log)
    {
      NextDrop(c, w, log, n);
      log := log + [Held];
    }
    NextDrop(c, w, log, 2883);
    log := log + [Held];
  }

  // ------------------------------------------------- the default bound is reached

  /** One auth bounce, then cycles of seven failed connects and one poll held for the default floor. */
  ghost predicate EighthHeld(c: Config, w: World) {
    && c.reauth == Some(true) && c.maxFailures == DEFAULT_MAX_FAILURES && c.heldFloor == DEFAULT_HELD_FLOOR
    && w(0) == Attempt(Response(401, false), 0.0, 0.0, 0.0)
    && forall k: nat :: k > 0 ==>
         w(k) == if k % 8 == 0 then Attempt(Dropped, 0.0, DEFAULT_HELD_FLOOR, 0.0)
             else Attempt(NeverConnected, 0.0, 0.0, 0.0)
  }

  /** A bounce and `n` failures so far, every eighth of them held. */
  ghost predicate CyclesSoFar(w: World, log: Log, n: nat) {
    && |log| == n + 1 && Bounced in log
    && |Failures(log)| == n && HardRun(log) == n % 8
    && Clock(w, log) == SumBackoff(n) + 10.0 * (n / 8) as real
  }

  lemma {:induction false} CycleStart(c: Config, w: World)
    requires EighthHeld(c, w)
    ensures Continued(c, w, [] + [Bounced]) && CyclesSoFar(w, [] + [Bounced], 0)
  {
    assert Classify(c, w(0), false) == Bounced;
    FinalStep(c, w, [], Bounced);
    MeasuresSnoc(w, [], Bounced);
  }

  lemma {:induction false} CycleMeasures(c: Config, w: World, log: Log, n: nat, k: Kind)
    requires EighthHeld(c, w) && CyclesSoFar(w, log, n) && k == if (n + 1) % 8 == 0 then Held else Hard
    ensures CyclesSoFar(w, log + [k], n + 1)
  {
    MeasuresSnoc(w, log, k);
    assert (n + 1) / 8 == n / 8 + if (n + 1) % 8 == 0 then 1 else 0;
  }

  /** The clock of such a run stays below the ceiling for 2768 failures and no more. */
  lemma {:induction false} CycleClock(n: nat)
    ensures n <= 2768 ==> SumBackoff(n) + 10.0 * (n / 8) as real < PERMISSION_TIMEOUT
    ensures n == 2769 ==> SumBackoff(n) + 10.0 * (n / 8) as real >= PERMISSION_TIMEOUT
  {
    if n >= 5 {
      SumBackoffClosed(n);
      assert 30.0 * (n - 5) as real + 10.0 * (n / 8) as real == (30 * (n - 5) + 10 * (n / 8)) as real;
    } else {
      SumBackoffFits(n);
      assert n / 8 == 0;
    }
  }

  lemma {:induction false} CycleStep(c: Config, w: World, log: Log, n: nat) returns (k: Kind)
    requires EighthHeld(c, w) && CyclesSoFar(w, log, n) && Continued(c, w, log) && n <= 2768
    ensures CyclesSoFar(w, log + [k], n + 1)
    ensures n < 2768 ==> Continued(c, w, log + [k])
    ensures n == 2768 ==> IsRun(c, w, log + [k], DeadlinePassed)
  {
    k := if (n + 1) % 8 == 0 then Held else Hard;
    CycleMeasures(c, w, log, n, k);
    CycleClock(n + 1);
    assert Classify(c, w(n + 1), true) == k;
    FailureStep(c, w, log, k, (n + 1) % 8, SumBackoff(n + 1) + 10.0 * ((n + 1) / 8) as real);
  }

  /** The bound of `DefaultPostBound` is reached. */
  lemma {:induction false} DefaultPostBoundAttained(c: Config, w: World) returns (log: Log)
    requires EighthHeld(c, w)
    ensures IsRun(c, w, log, DeadlinePassed) && |log| == 2770
  {
    CycleStart(c, w);
    log := [] + [Bounced];
    for n := 0 to 2768
      invariant CyclesSoFar(w, log, n) && Continued(c, w, log)
    {
      var k := CycleStep(c, w, log, n);
      log := log + [k];
    }
    var last := CycleStep(c, w, log, 2768);
    log := log + [last];
  }

  // ------------------------------------------------ what the ceiling bounds

  /** Every re-POST follows a clock reading below the ceiling. */
  ghost predicate OnTime(w: World, log: Log) {
    forall k :: 0 < k < |log| ==> Clock(w, log[..k]) < PERMISSION_TIMEOUT
  }

  lemma {:induction false} NoBounceOnTime(c: Config, w: World, log: Log, k: nat)
    requires Continued(c, w, log) && c.reauth != Some(true) && 0 < k <= |log|
    ensures Clock(w, log[..k]) < PERMISSION_TIMEOUT
  {
    if k == |log| {
      assert log[..k] == log;
    } else {
      NoBounceOnTime(c, w, log[..|log| - 1], k);
      assert log[..|log| - 1][..k] == log[..k];
    }
  }

  /** After an auth bounce the deadline is not looked at: the retry goes out however late it is. */
  lemma {:induction false} BounceIgnoresDeadline(c: Config, w: World)
    requires c.reauth == Some(true) && w(0).outcome == Response(401, false) && w(1).outcome == Response(200, false)
    ensures IsRun(c, w, [Bounced] + [Answered], Success(1))
    ensures Clock(w, [Bounced]) == w(0).lag + w(0).held
  {
    assert [] + [Bounced] == [Bounced];
    FinalStep(c, w, [], Bounced);
    MeasuresSnoc(w, [], Bounced);
    FinalStep(c, w, [Bounced], Answered);
  }

  /** A bounce answered after the ceiling. */
  function LateBounce(k: nat): (a: Attempt) {
    Attempt(Response(if k == 0 then 401 else 200, false), 0.0, 86410.0, 0.0)
  }

  /** Re-POSTs are on time on every world if and only if fresh headers cannot be minted. */
  lemma {:induction false} RepostsOnTimeIff(c: Config)
    ensures (forall w, log, r :: IsRun(c, w, log, r) ==> OnTime(w, log)) <==> c.reauth != Some(true)
  {
    if c.reauth == Some(true) {
      var w: World := LateBounce;
      BounceIgnoresDeadline(c, w);
      var log := [Bounced] + [Answered];
      assert log[..1] == [Bounced];
      assert IsRun(c, w, log, Success(1)) && !OnTime(w, log);
    } else {
      forall w, log, r | IsRun(c, w, log, r) ensures OnTime(w, log) {
        RunOnTime(c, w, log, r);
      }
    }
  }

  lemma {:induction false} RunOnTime(c: Config, w: World, log: Log, r: Result)
    requires IsRun(c, w, log, r) && c.reauth != Some(true)
    ensures OnTime(w, log)
  {
    var before := log[..|log| - 1];
    forall k | 0 < k < |log| ensures Clock(w, log[..k]) < PERMISSION_TIMEOUT {
      NoBounceOnTime(c, w, before, k);
      assert before[..k] == log[..k];
    }
  }

  /** How long POST `k` took, with the time before it. */
  function Hold(w: World, k: nat): (t: real) {
    w(k).lag + w(k).held
  }

  /** When the call returns: it sleeps once more only on the way to a passed deadline. */
  function Wait(w: World, log: Log, r: Result): (t: real)
    requires log != []
  {
    var n := |log| - 1;
    Clock(w, log[..n]) + Hold(w, n) + if r.DeadlinePassed? then Backoff(|Failures(log[..n])|) + w(n).oversleep else 0.0
  }

  /** The ceiling, the last POST, a bounced POST right before it, and one last sleep: nothing else can be waited for. */
  lemma {:induction false} WaitBound(c: Config, w: World, log: Log, r: Result)
    requires IsRun(c, w, log, r)
    ensures var n := |log| - 1;
            Wait(w, log, r) < PERMISSION_TIMEOUT + Hold(w, n)
                              + (if n > 0 && log[n - 1].Bounced? then Hold(w, n - 1) else 0.0)
                              + (if r.DeadlinePassed? then MAX_BACKOFF + w(n).oversleep else 0.0)
  {
    ContinuedClock(c, w, log[..|log| - 1]);
  }

  /** When no POST takes longer than `h`, the call returns within the ceiling, two POSTs and one last sleep. */
  lemma {:induction false} WaitBoundHeld(c: Config, w: World, log: Log, r: Result, h: Duration)
    requires IsRun(c, w, log, r) && forall k: nat :: Hold(w, k) <= h
    ensures Wait(w, log, r) <
            PERMISSION_TIMEOUT + 2.0 * h + if r.DeadlinePassed? then MAX_BACKOFF + w(|log| - 1).oversleep else 0.0
    ensures Bounced !in log ==>
              Wait(w, log, r) < PERMISSION_TIMEOUT + h + if r.DeadlinePassed? then MAX_BACKOFF + w(|log| - 1).oversleep
                  else 0.0
  {
    WaitBound(c, w, log, r);
    var n := |log| - 1;
    assert Hold(w, n) <= h;
    if n > 0 {
      assert Hold(w, n - 1) <= h && log[n - 1] in log;
    }
  }

  lemma {:induction false} ContinuedClock(c: Config, w: World, log: Log)
    requires Continued(c, w, log)
    ensures var n := |log|;
            Clock(w, log) < PERMISSION_TIMEOUT + if n > 0 && log[n - 1].Bounced? then Hold(w, n - 1) else 0.0
  {
    if log != [] && log[|log| - 1].Bounced? {
      var before := log[..|log| - 1];
      if before != [] {
        ContinuedIsFaithful(c, w, log);
        ReauthenticatesAtMostOnce(c, w, log);
        ReauthenticatesAtMostOnce(c, w, before);
        assert before[|before| - 1] in before;
        assert GoesOn(c, w, before);
      }
    }
  }

  /** The ceiling does not bound the total wait, bounce or no bounce: a first POST may be answered at any time. */
  lemma {:induction false} WaitIsUnbounded(c: Config, w: World, t: Duration)
    requires w(0) == Attempt(Response(200, false), 0.0, t, 0.0)
    ensures IsRun(c, w, [] + [Answered], Success(0)) && Wait(w, [] + [Answered], Success(0)) == t
  {
    FinalStep(c, w, [], Answered);
    assert ([] + [Answered])[..0] == [];
  }

  /** Two held polls exceed it without a bounce: one dropped just before the ceiling, the next answered. */
  lemma {:induction false} HeldPollsExceedCeiling(c: Config, w: World)
    requires c == Config(DEFAULT_MAX_FAILURES, DEFAULT_HELD_FLOOR, None)
    requires w(0) == Attempt(Dropped, 0.0, 86390.0, 0.0) && w(1) == Attempt(Response(200, false), 0.0, 86000.0, 0.0)
    ensures IsRun(c, w, [] + [Held] + [Answered], Success(1))
    ensures Wait(w, [] + [Held] + [Answered], Success(1)) > 172000.0
  {
    MeasuresSnoc(w, [], Held);
    FailureStep(c, w, [], Held, 0, Clock(w, [] + [Held]));
    FinalStep(c, w, [] + [Held], Answered);
    assert ([] + [Held] + [Answered])[..1] == [] + [Held];
  }
}
