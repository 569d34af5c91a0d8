/**
 The login lockout: a failure counter and the time of the last failure, saved after every failed
 password challenge. Attempts on one account are handled one after the other.
 */
module LoginLockout {
  import opened Options

  /** The two fields of the account, as saved. */
  datatype Account = Account(failures: int, lastFailedAt: Option<int>)

  /** `checkedAt` is the time read by the lock check, `failedAt` the one stored by a failure. */
  datatype Attempt = Attempt(checkedAt: int, failedAt: int, passwordOk: bool)

  datatype Outcome = Refused | Failed | Succeeded

  datatype Policy = Policy(threshold: int, lockTime: int)

  const MAX_COUNT := 127

  /** The clamp every save applies. */
  function Clamped(n: int): int {
    if n > MAX_COUNT then MAX_COUNT else if n < 0 then 0 else n
  }

  predicate IsLocked(u: Account, p: Policy, now: int) {
    u.failures != 0 && u.lastFailedAt.Some? && u.failures >= p.threshold && u.lastFailedAt.value + p.lockTime > now
  }

  /** The count a challenge starts from: reset when a lock has expired. */
  function CountBefore(u: Account, p: Policy): int {
    if u.failures != 0 && u.lastFailedAt.Some? && u.failures >= p.threshold then 0 else u.failures
  }

  function OutcomeOf(u: Account, p: Policy, a: Attempt): Outcome {
    if IsLocked(u, p, a.checkedAt) then Refused else if a.passwordOk then Succeeded else Failed
  }

  function After(u: Account, p: Policy, a: Attempt): Account {
    match OutcomeOf(u, p, a)
    case Refused => u
    case Succeeded => u.(failures := 0)
    case Failed => Account(Clamped(CountBefore(u, p) + 1), Some(a.failedAt))
  }

  class User {
    var failedLoginCount: int
    var lastLoginFailedAt: Option<int>

    ghost function Saved(): Account
      reads this
    {
      Account(failedLoginCount, lastLoginFailedAt)
    }

    constructor ()
      ensures Saved() == Account(0, None)
    {
      failedLoginCount, lastLoginFailedAt := 0, None;
    }

    method Save()
      modifies this`failedLoginCount
      ensures failedLoginCount == Clamped(old(failedLoginCount))
      ensures 0 <= failedLoginCount <= 127
      ensures 0 <= old(failedLoginCount) <= 127 ==> failedLoginCount == old(failedLoginCount)
    {
      if failedLoginCount > MAX_COUNT {
        failedLoginCount := MAX_COUNT;
      }
      if failedLoginCount < 0 {
        failedLoginCount := 0;
      }
    }

    method Authenticate(p: Policy, a: Attempt) returns (outcome: Outcome)
      requires 0 <= failedLoginCount <= MAX_COUNT
      modifies this
      ensures outcome == OutcomeOf(old(Saved()), p, a)
      ensures Saved() == After(old(Saved()), p, a)
      ensures outcome == Refused <==>
                && old(failedLoginCount) != 0 && old(failedLoginCount) >= p.threshold
                && old(lastLoginFailedAt).Some? && old(lastLoginFailedAt).value + p.lockTime > a.checkedAt
      ensures outcome == Refused ==> Saved() == old(Saved())
      ensures outcome == Succeeded ==>
                a.passwordOk && failedLoginCount == 0 && lastLoginFailedAt == old(lastLoginFailedAt)
      ensures outcome == Failed ==>
                var expired := old(failedLoginCount) >= p.threshold && old(lastLoginFailedAt).Some?;
                var counted := 1 + if expired then 0 else old(failedLoginCount);
                && !a.passwordOk && lastLoginFailedAt == Some(a.failedAt)
                && failedLoginCount == if counted > 127 then 127 else counted
      ensures 0 <= failedLoginCount <= MAX_COUNT
    {
      if failedLoginCount != 0 && lastLoginFailedAt.Some? {
        if failedLoginCount >= p.threshold {
          if lastLoginFailedAt.value + p.lockTime > a.checkedAt {
            return Refused;
          } else {
            failedLoginCount := 0;
            Save();
          }
        }
      }
      if a.passwordOk {
        failedLoginCount := 0;
        Save();
        return Succeeded;
      }
      failedLoginCount := failedLoginCount + 1;
      lastLoginFailedAt := Some(a.failedAt);
      Save();
      return Failed;
    }
  }

  // ---- Runs ----------------------------------------------------------------------------------------

  /** Times never run backwards, within an attempt or from one to the next. */
  ghost predicate InOrder(since: int, attempts: seq<Attempt>)
    decreases |attempts|
  {
    attempts != [] ==>
      since <= attempts[0].checkedAt <= attempts[0].failedAt && InOrder(attempts[0].failedAt, attempts[1..])
  }

  function Outcomes(u: Account, p: Policy, attempts: seq<Attempt>): seq<Outcome>
    decreases |attempts|
  {
    if attempts == [] then [] else [OutcomeOf(u, p, attempts[0])] + Outcomes(After(u, p, attempts[0]), p, attempts[1..])
  }

  function FinalState(u: Account, p: Policy, attempts: seq<Attempt>): Account
    decreases |attempts|
  {
    if attempts == [] then u else FinalState(After(u, p, attempts[0]), p, attempts[1..])
  }

  /** The times of the failed password challenges of a run. */
  function FailureTimes(u: Account, p: Policy, attempts: seq<Attempt>): seq<int>
    decreases |attempts|
  {
    if attempts == [] then []
    else
      (if OutcomeOf(u, p, attempts[0]) == Failed then [attempts[0].failedAt] else [])
      + FailureTimes(After(u, p, attempts[0]), p, attempts[1..])
  }

  ghost predicate NeverSucceeds(u: Account, p: Policy, attempts: seq<Attempt>)
    decreases |attempts|
  {
    attempts != [] ==>
      OutcomeOf(u, p, attempts[0]) != Succeeded && NeverSucceeds(After(u, p, attempts[0]), p, attempts[1..])
  }

  ghost predicate WellFormed(u: Account, since: int) {
    0 <= u.failures <= MAX_COUNT && (u.lastFailedAt.Some? ==> u.lastFailedAt.value <= since)
  }

  predicate IsUsual(p: Policy) {
    1 <= p.threshold <= MAX_COUNT && p.lockTime >= 1
  }

  /** Failures allowed before the next reset: how many more may come within one lock time of the last. */
  ghost function Room(u: Account, p: Policy): int {
    if u.failures >= p.threshold then 0 else p.threshold - u.failures
  }

  /** The times are in order, and none precedes `since`. */
  ghost predicate OrderedFrom(since: int, times: seq<int>) {
    && (forall i :: 0 <= i < |times| ==> since <= times[i])
    && (forall i, j :: 0 <= i < j < |times| ==> times[i] <= times[j])
  }

  lemma PrependTime(since: int, t: int, times: seq<int>)
    requires since <= t && OrderedFrom(t, times)
    ensures OrderedFrom(since, [t] + times) && OrderedFrom(since, times)
  {
  }

  lemma {:induction false} FailuresAreOrdered(u: Account, p: Policy, since: int, attempts: seq<Attempt>)
    requires InOrder(since, attempts)
    ensures OrderedFrom(since, FailureTimes(u, p, attempts))
    decreases |attempts|
  {
    if attempts != [] {
      var a := attempts[0];
      var later := FailureTimes(After(u, p, a), p, attempts[1..]);
      FailuresAreOrdered(After(u, p, a), p, a.failedAt, attempts[1..]);
      PrependTime(since, a.failedAt, later);
      assert [] + later == later;
    }
  }

  /**
   After a failure at time `t` that left the counter at `u.failures`, at most `Room` further
   failures fall before `t + lockTime`.
   */
  lemma {:induction false} RoomBounds(u: Account, p: Policy, since: int, attempts: seq<Attempt>)
    requires IsUsual(p) && WellFormed(u, since) && u.failures >= 1 && u.lastFailedAt.Some?
    requires InOrder(since, attempts) && NeverSucceeds(u, p, attempts)
    ensures var f := FailureTimes(u, p, attempts);
            |f| > Room(u, p) ==> f[Room(u, p)] >= u.lastFailedAt.value + p.lockTime
    decreases |attempts|
  {
    if attempts != [] {
      var a := attempts[0];
      var u' := After(u, p, a);
      FailuresAreOrdered(u', p, a.failedAt, attempts[1..]);
      if OutcomeOf(u, p, a) == Refused || u.failures < p.threshold {
        RoomBounds(u', p, a.failedAt, attempts[1..]);
      }
    }
  }

  lemma FirstFailureSpaced(u: Account, p: Policy, since: int, a: Attempt, rest: seq<Attempt>)
    requires IsUsual(p) && WellFormed(u, since) && InOrder(a.failedAt, rest) && since <= a.failedAt
    requires OutcomeOf(u, p, a) == Failed && NeverSucceeds(After(u, p, a), p, rest)
    ensures var later := FailureTimes(After(u, p, a), p, rest);
            |later| >= p.threshold ==> later[p.threshold - 1] >= a.failedAt + p.lockTime
  {
    var u' := After(u, p, a);
    RoomBounds(u', p, a.failedAt, rest);
    FailuresAreOrdered(u', p, a.failedAt, rest);
  }

  /** Any `threshold` consecutive failures and the next one span at least a lock time. */
  lemma {:induction false} FailuresAreSpaced(u: Account, p: Policy, since: int, attempts: seq<Attempt>, i: nat)
    requires IsUsual(p) && WellFormed(u, since) && InOrder(since, attempts) && NeverSucceeds(u, p, attempts)
    ensures var f := FailureTimes(u, p, attempts);
            i + p.threshold < |f| ==> f[i + p.threshold] >= f[i] + p.lockTime
    decreases |attempts|
  {
    if attempts != [] {
      var a := attempts[0];
      var u' := After(u, p, a);
      if OutcomeOf(u, p, a) == Failed {
        var later := FailureTimes(u', p, attempts[1..]);
        assert FailureTimes(u, p, attempts) == [a.failedAt] + later;
        if i == 0 {
          FirstFailureSpaced(u, p, since, a, attempts[1..]);
        } else {
          FailuresAreSpaced(u', p, a.failedAt, attempts[1..], i - 1);
        }
      } else {
        FailuresAreSpaced(u', p, a.failedAt, attempts[1..], i);
      }
    }
  }

  /** How many times lie in the half-open window from `from` to `to`. */
  function CountIn(times: seq<int>, from: int, to: int): nat {
    if times == [] then 0 else (if from <= times[0] < to then 1 else 0) + CountIn(times[1..], from, to)
  }

  lemma {:induction false} CountSplits(times: seq<int>, from: int, mid: int, to: int)
    requires from <= mid <= to
    ensures CountIn(times, from, to) == CountIn(times, from, mid) + CountIn(times, mid, to)
  {
    if times != [] {
      CountSplits(times[1..], from, mid, to);
    }
  }

  lemma {:induction false} CountAtMostLength(times: seq<int>, from: int, to: int)
    ensures CountIn(times, from, to) <= |times|
  {
    if times != [] {
      CountAtMostLength(times[1..], from, to);
    }
  }

  lemma {:induction false} NoneLate(times: seq<int>, from: int, to: int)
    requires forall i :: 0 <= i < |times| ==> times[i] >= to
    ensures CountIn(times, from, to) == 0
  {
    if times != [] {
      NoneLate(times[1..], from, to);
    }
  }

  lemma {:induction false} CountConcat(a: seq<int>, b: seq<int>, from: int, to: int)
    ensures CountIn(a + b, from, to) == CountIn(a, from, to) + CountIn(b, from, to)
  {
    if a == [] {
      assert a + b == b;
    } else {
      assert (a + b)[0] == a[0] && (a + b)[1..] == a[1..] + b;
      CountConcat(a[1..], b, from, to);
    }
  }

  /** Ordered times whose every `n` + 1 span at least `width` have at most `n` in a window of that width. */
  lemma {:induction false} SpacedTimesAreRare(times: seq<int>, n: nat, from: int, width: int)
    requires n >= 1 && width >= 1
    requires forall i, j :: 0 <= i < j < |times| ==> times[i] <= times[j]
    requires forall i :: 0 <= i && i + n < |times| ==> times[i + n] >= times[i] + width
    ensures CountIn(times, from, from + width) <= n
  {
    if times != [] {
      if times[0] < from {
        forall i | 0 <= i && i + n < |times| - 1
          ensures times[1..][i + n] >= times[1..][i] + width
        {
          assert times[i + 1 + n] >= times[i + 1] + width;
        }
        SpacedTimesAreRare(times[1..], n, from, width);
      } else if |times| <= n {
        CountAtMostLength(times, from, from + width);
      } else {
        assert times[0 + n] >= times[0] + width;
        assert times == times[..n] + times[n..];
        CountConcat(times[..n], times[n..], from, from + width);
        CountAtMostLength(times[..n], from, from + width);
        NoneLate(times[n..], from, from + width);
      }
    }
  }

  /** Without a successful login, any window of one lock time sees at most `threshold` failed challenges. */
  lemma FailuresPerWindow(u: Account, p: Policy, since: int, attempts: seq<Attempt>, from: int)
    requires IsUsual(p) && WellFormed(u, since) && InOrder(since, attempts) && NeverSucceeds(u, p, attempts)
    ensures CountIn(FailureTimes(u, p, attempts), from, from + p.lockTime) <= p.threshold
  {
    var f := FailureTimes(u, p, attempts);
    FailuresAreOrdered(u, p, since, attempts);
    forall i | 0 <= i && i + p.threshold < |f|
      ensures f[i + p.threshold] >= f[i] + p.lockTime
    {
      FailuresAreSpaced(u, p, since, attempts, i);
    }
    SpacedTimesAreRare(f, p.threshold, from, p.lockTime);
  }

  lemma {:induction false} FailuresPerWindows(u: Account, p: Policy, since: int, attempts: seq<Attempt>,
                                              from: int, k: nat)
    requires IsUsual(p) && WellFormed(u, since) && InOrder(since, attempts) && NeverSucceeds(u, p, attempts)
    ensures k * p.lockTime >= 0
    ensures CountIn(FailureTimes(u, p, attempts), from, from + k * p.lockTime) <= k * p.threshold
  {
    var f := FailureTimes(u, p, attempts);
    if k == 0 {
      CountSplits(f, from, from, from);
    } else {
      FailuresPerWindows(u, p, since, attempts, from, k - 1);
      var mid := from + (k - 1) * p.lockTime;
      assert from + k * p.lockTime == mid + p.lockTime;
      assert k * p.threshold == (k - 1) * p.threshold + p.threshold;
      FailuresPerWindow(u, p, since, attempts, mid);
      CountSplits(f, from, mid, mid + p.lockTime);
    }
  }

  /** In `span` time units, ends included, at most threshold * (span / lockTime + 1) failed challenges. */
  lemma FailureRate(u: Account, p: Policy, since: int, attempts: seq<Attempt>, from: int, span: nat)
    requires IsUsual(p) && WellFormed(u, since) && InOrder(since, attempts) && NeverSucceeds(u, p, attempts)
    ensures CountIn(FailureTimes(u, p, attempts), from, from + span + 1) <= p.threshold * (span / p.lockTime + 1)
  {
    var k := span / p.lockTime + 1;
    FailuresPerWindows(u, p, since, attempts, from, k);
    assert span < k * p.lockTime by {
      assert span == (span / p.lockTime) * p.lockTime + span % p.lockTime;
      assert k * p.lockTime == (span / p.lockTime) * p.lockTime + p.lockTime;
    }
    CountSplits(FailureTimes(u, p, attempts), from, from + span + 1, from + k * p.lockTime);
    assert k * p.threshold == p.threshold * k;
  }

  // ---- When the lock triggers ------------------------------------------------------------------------

  /** Refused attempts change nothing: they neither extend the lock nor count as failures. */
  lemma {:induction false} RefusedAttemptsChangeNothing(u: Account, p: Policy, attempts: seq<Attempt>)
    requires forall i :: 0 <= i < |attempts| ==> IsLocked(u, p, attempts[i].checkedAt)
    ensures FinalState(u, p, attempts) == u && FailureTimes(u, p, attempts) == []
    decreases |attempts|
  {
    if attempts != [] {
      assert IsLocked(u, p, attempts[0].checkedAt);
      assert forall i :: 0 <= i < |attempts| - 1 ==> attempts[1..][i] == attempts[i + 1];
      RefusedAttemptsChangeNothing(u, p, attempts[1..]);
    }
  }

  /** The counter after a run of failures from a clean account. */
  lemma {:induction false} CountOfFailures(p: Policy, u: Account, attempts: seq<Attempt>)
    requires 0 <= u.failures && u.failures + |attempts| <= MAX_COUNT
    requires u.failures + |attempts| <= p.threshold
    requires forall i :: 0 <= i < |attempts| ==> !attempts[i].passwordOk
    ensures FinalState(u, p, attempts).failures == u.failures + |attempts|
    ensures attempts != [] ==> FinalState(u, p, attempts).lastFailedAt == Some(attempts[|attempts| - 1].failedAt)
    decreases |attempts|
  {
    if attempts != [] {
      CountOfFailures(p, After(u, p, attempts[0]), attempts[1..]);
    }
  }

  /** After `threshold` failures in a row the account is locked for the whole lock time, and no longer. */
  lemma LockFollowsThreshold(p: Policy, u: Account, attempts: seq<Attempt>, now: int)
    requires IsUsual(p) && u.failures == 0 && |attempts| == p.threshold
    requires forall i :: 0 <= i < |attempts| ==> !attempts[i].passwordOk
    ensures IsLocked(FinalState(u, p, attempts), p, now) <==> now < attempts[|attempts| - 1].failedAt + p.lockTime
  {
    CountOfFailures(p, u, attempts);
  }

  lemma {:induction false} NeverLockedAbove(u: Account, p: Policy, attempts: seq<Attempt>, k: nat)
    requires p.threshold > MAX_COUNT && 0 <= u.failures <= MAX_COUNT
    requires k < |Outcomes(u, p, attempts)|
    ensures Outcomes(u, p, attempts)[k] != Refused
    decreases |attempts|
  {
    if k > 0 {
      NeverLockedAbove(After(u, p, attempts[0]), p, attempts[1..], k - 1);
    }
  }

  function Failing(n: nat): seq<Attempt> {
    seq(n, i => Attempt(0, 0, false))
  }

  lemma {:induction false} NeverLockedWithoutTime(u: Account, p: Policy, since: int, attempts: seq<Attempt>, k: nat)
    requires p.lockTime <= 0 && InOrder(since, attempts)
    requires u.lastFailedAt.Some? ==> u.lastFailedAt.value <= since
    requires k < |Outcomes(u, p, attempts)|
    ensures Outcomes(u, p, attempts)[k] != Refused
    decreases |attempts|
  {
    if k > 0 {
      NeverLockedWithoutTime(After(u, p, attempts[0]), p, attempts[0].failedAt, attempts[1..], k - 1);
    }
  }

  /** Enough failures for the threshold, and one attempt more: it is refused. */
  lemma FailuresLock(p: Policy)
    requires p.threshold <= MAX_COUNT && p.lockTime >= 1
    ensures exists attempts :: InOrder(0, attempts) && Refused in Outcomes(Account(0, None), p, attempts)
  {
    var u, n := Account(0, None), if p.threshold >= 1 then p.threshold else 1;
    var attempts := Failing(n);
    if p.threshold >= 1 {
      CountOfFailures(p, u, attempts);
    } else {
      assert attempts == [Attempt(0, 0, false)] && attempts[1..] == [];
      assert FinalState(u, p, attempts) == Account(1, Some(0));
    }
    OutcomeAppended(u, p, attempts, Attempt(0, 0, false));
    FailingInOrder(n + 1);
    assert attempts + [Attempt(0, 0, false)] == Failing(n + 1);
  }

  /** Because saves clamp the counter, some run is refused exactly for thresholds up to 127 and positive lock times. */
  lemma LockCanTriggerIff(p: Policy)
    ensures (exists attempts :: InOrder(0, attempts) && Refused in Outcomes(Account(0, None), p, attempts))
       <==> p.threshold <= 127 && p.lockTime >= 1
  {
    var u := Account(0, None);
    if p.threshold <= MAX_COUNT && p.lockTime >= 1 {
      FailuresLock(p);
    } else {
      forall attempts | InOrder(0, attempts)
        ensures Refused !in Outcomes(u, p, attempts)
      {
        forall k | 0 <= k < |Outcomes(u, p, attempts)|
          ensures Outcomes(u, p, attempts)[k] != Refused
        {
          if p.threshold > MAX_COUNT {
            NeverLockedAbove(u, p, attempts, k);
          } else {
            NeverLockedWithoutTime(u, p, 0, attempts, k);
          }
        }
      }
    }
  }

  lemma {:induction false} FailingInOrder(n: nat)
    ensures InOrder(0, Failing(n))
  {
    if n > 0 {
      assert Failing(n)[1..] == Failing(n - 1);
      FailingInOrder(n - 1);
    }
  }

  lemma {:induction false} OutcomeAppended(u: Account, p: Policy, attempts: seq<Attempt>, a: Attempt)
    ensures Outcomes(u, p, attempts + [a]) == Outcomes(u, p, attempts) + [OutcomeOf(FinalState(u, p, attempts), p, a)]
    decreases |attempts|
  {
    var all := attempts + [a];
    if attempts == [] {
      assert all == [a] && all[1..] == [];
    } else {
      assert all[0] == attempts[0] && all[1..] == attempts[1..] + [a];
      OutcomeAppended(After(u, p, attempts[0]), p, attempts[1..], a);
    }
  }

  // ---- Runs with successes -------------------------------------------------------------------------

  /** The failed challenges since the last successful login, if there was one. */
  function FailedSinceSuccess(outcomes: seq<Outcome>): nat {
    if outcomes == [] then 0
    else
      var before := FailedSinceSuccess(outcomes[..|outcomes| - 1]);
      match outcomes[|outcomes| - 1]
      case Succeeded => 0
      case Failed => before + 1
      case Refused => before
  }

  lemma {:induction false} FinalAppended(u: Account, p: Policy, attempts: seq<Attempt>, a: Attempt)
    ensures FinalState(u, p, attempts + [a]) == After(FinalState(u, p, attempts), p, a)
    decreases |attempts|
  {
    var all := attempts + [a];
    if attempts == [] {
      assert all == [a] && all[1..] == [];
    } else {
      assert all[0] == attempts[0] && all[1..] == attempts[1..] + [a];
      FinalAppended(After(u, p, attempts[0]), p, attempts[1..], a);
    }
  }

  /** The counter never runs ahead of the failures that count. */
  lemma {:induction false} CounterIsEarned(u: Account, p: Policy, attempts: seq<Attempt>)
    requires u.failures >= 0
    ensures |Outcomes(u, p, attempts)| == |attempts|
    ensures FinalState(u, p, attempts).failures <= u.failures + FailedSinceSuccess(Outcomes(u, p, attempts))
    ensures Succeeded in Outcomes(u, p, attempts) ==>
              FinalState(u, p, attempts).failures <= FailedSinceSuccess(Outcomes(u, p, attempts))
    ensures FinalState(u, p, attempts).failures >= 0
    decreases |attempts|
  {
    if attempts != [] {
      var n := |attempts| - 1;
      var front, a := attempts[..n], attempts[n];
      assert attempts == front + [a];
      CounterIsEarned(u, p, front);
      FinalAppended(u, p, front, a);
      OutcomeAppended(u, p, front, a);
      var outcomes := Outcomes(u, p, attempts);
      assert outcomes[..|outcomes| - 1] == Outcomes(u, p, front);
    }
  }

  lemma {:induction false} OutcomesOfPrefix(u: Account, p: Policy, attempts: seq<Attempt>, k: nat)
    requires k < |attempts|
    ensures |Outcomes(u, p, attempts)| == |attempts| && Outcomes(u, p, attempts)[..k] == Outcomes(u, p, attempts[..k])
    ensures Outcomes(u, p, attempts)[k] == OutcomeOf(FinalState(u, p, attempts[..k]), p, attempts[k])
    decreases |attempts|
  {
    CounterLength(u, p, attempts);
    if k == 0 {
      assert attempts[..0] == [];
    } else {
      var u' := After(u, p, attempts[0]);
      OutcomesOfPrefix(u', p, attempts[1..], k - 1);
      assert attempts[..k] == [attempts[0]] + attempts[1..][..k - 1];
    }
  }

  lemma {:induction false} CounterLength(u: Account, p: Policy, attempts: seq<Attempt>)
    ensures |Outcomes(u, p, attempts)| == |attempts|
    decreases |attempts|
  {
    if attempts != [] {
      CounterLength(After(u, p, attempts[0]), p, attempts[1..]);
    }
  }

  /** From a clean account, whatever the passwords: a refused attempt has `threshold` failures since the last
      success. */
  lemma RefusalIsEarned(u: Account, p: Policy, attempts: seq<Attempt>, k: nat)
    requires u.failures == 0 && k < |attempts|
    ensures k < |Outcomes(u, p, attempts)|
    ensures Outcomes(u, p, attempts)[k] == Refused ==>
              && FailedSinceSuccess(Outcomes(u, p, attempts)[..k]) >= p.threshold
              && FailedSinceSuccess(Outcomes(u, p, attempts)[..k]) >= 1
  {
    OutcomesOfPrefix(u, p, attempts, k);
    CounterIsEarned(u, p, attempts[..k]);
  }

  lemma {:induction false} FewFailures(outcomes: seq<Outcome>)
    ensures FailedSinceSuccess(outcomes) <= |outcomes|
  {
    if outcomes != [] {
      FewFailures(outcomes[..|outcomes| - 1]);
    }
  }

  /** None of the `threshold` attempts after a success is refused, whatever came before it. */
  lemma SuccessStartsAfresh(u: Account, p: Policy, a: Attempt, later: seq<Attempt>, k: nat)
    requires OutcomeOf(u, p, a) == Succeeded && k < |later| && k < p.threshold
    ensures k < |Outcomes(After(u, p, a), p, later)| && Outcomes(After(u, p, a), p, later)[k] != Refused
  {
    RefusalIsEarned(After(u, p, a), p, later, k);
    FewFailures(Outcomes(After(u, p, a), p, later)[..k]);
  }

  /** Nor is any of the `threshold` attempts from the one that finds a lock expired. */
  lemma ExpiredLockStartsAfresh(u: Account, p: Policy, a: Attempt, later: seq<Attempt>, k: nat)
    requires u.failures >= p.threshold >= 1 && u.lastFailedAt.Some? && u.lastFailedAt.value + p.lockTime <= a.checkedAt
    requires k < |later| && k + 1 < p.threshold
    ensures OutcomeOf(u, p, a) != Refused
    ensures k < |Outcomes(After(u, p, a), p, later)| && Outcomes(After(u, p, a), p, later)[k] != Refused
  {
    var u' := After(u, p, a);
    OutcomesOfPrefix(u', p, later, k);
    CounterIsEarned(u', p, later[..k]);
    FewFailures(Outcomes(u', p, later[..k]));
  }

  /** A failure, a good login and another failure do not lock an account that takes two failures in a row. */
  lemma FailuresAroundASuccess()
    ensures var wrong, right := Attempt(0, 0, false), Attempt(0, 0, true);
            Outcomes(Account(0, None), Policy(2, 300), [wrong, right, wrong, right, wrong, wrong, right])
            == [Failed, Succeeded, Failed, Succeeded, Failed, Failed, Refused]
  {
    var wrong, right := Attempt(0, 0, false), Attempt(0, 0, true);
    var p := Policy(2, 300);
    var none, one, two := Account(0, Some(0)), Account(1, Some(0)), Account(2, Some(0));
    assert [right][1..] == [] && Outcomes(two, p, [right]) == [Refused];
    assert [wrong, right][1..] == [right] && Outcomes(one, p, [wrong, right]) == [Failed, Refused];
    var tail := [wrong, wrong, right];
    assert tail[1..] == [wrong, right] && Outcomes(none, p, tail) == [Failed, Failed, Refused];
    assert ([right] + tail)[1..] == tail;
    assert Outcomes(one, p, [right] + tail) == [Succeeded, Failed, Failed, Refused];
    var half := [wrong, right] + tail;
    assert half[1..] == [right] + tail;
    assert Outcomes(none, p, half) == [Failed, Succeeded, Failed, Failed, Refused];
    assert ([right] + half)[1..] == half;
    assert Outcomes(one, p, [right] + half) == [Succeeded, Failed, Succeeded, Failed, Failed, Refused];
    var all := [wrong, right, wrong, right, wrong, wrong, right];
    assert all[1..] == [right] + half;
  }
}
