/**
 * The second generation's model gateway, `api_call_with_retry` in
 * market_research_toolRV2.py: up to `max_retries` attempts, each behind
 * the 4.5-second throttle; a quota-like failure before the last attempt
 * backs off exponentially and tries again, any other failure (and a quota
 * failure on the last attempt) is re-raised. Attempt `a`'s reply is the
 * oracle `call(a)`, and the seconds that call takes before its failure is
 * handled are the oracle `busy(a)`; the clock is otherwise ideal, so a
 * retry reaches the throttle exactly when its backoff sleep ends.
 */
module Gateway {
  import opened Wrappers
  import opened Strings
  import opened Throttle

  /** `MAX_RETRIES` */
  const MaxRetries := 3

  /** The longest backoff, five minutes. */
  const MaxBackoff := 300

  /** The message raised when no attempt was made. */
  const AllRetriesFailed := "API call failed after all retries"

  /** `"quota" in e or "429" in e or "rate" in e` over the lower-cased message. */
  predicate IsQuota(msg: string) {
    var e := Lower(msg);
    Contains(e, "quota") || Contains(e, "429") || Contains(e, "rate")
  }

  function Pow2(n: nat): (r: nat)
    ensures r >= 1
  {
    if n == 0 then 1 else 2 * Pow2(n - 1)
  }

  /** The seconds slept after a quota failure of attempt `a`: `min(60 * 2**a, 300)`. */
  function Backoff(a: nat): (r: int)
    ensures 60 <= r <= MaxBackoff
    ensures r == MaxBackoff || r == 60 * Pow2(a)
    ensures r <= 60 * Pow2(a)
  {
    var w := 60 * Pow2(a);
    if w < MaxBackoff then w else MaxBackoff
  }

  /** After a reply at attempt `a`, the loop stops: a success, a non-quota failure, or the last attempt. */
  predicate Settles(maxRetries: int, reply: Result<string>, a: nat) {
    reply.Ok? || !IsQuota(reply.msg) || a >= maxRetries - 1
  }

  /** The attempt at which the loop stops, searching from `a`. */
  function FirstSettled(maxRetries: int, call: nat -> Result<string>, a: nat): (k: nat)
    requires a < maxRetries
    ensures a <= k < maxRetries && Settles(maxRetries, call(k), k)
    ensures forall j :: a <= j < k ==> !Settles(maxRetries, call(j), j)
    decreases maxRetries - a
  {
    if Settles(maxRetries, call(a), a) then a else FirstSettled(maxRetries, call, a + 1)
  }

  /** How many attempts are made. */
  function Attempts(maxRetries: int, call: nat -> Result<string>): nat {
    if maxRetries <= 0 then 0 else FirstSettled(maxRetries, call, 0) + 1
  }

  /**
   * What the call returns or raises: the reply of the attempt at which the
   * loop stops, or the catch-all error when `max_retries` allows no attempt.
   */
  function RetryResult(maxRetries: int, call: nat -> Result<string>): Result<string> {
    if maxRetries <= 0 then Raised(AllRetriesFailed) else call(FirstSettled(maxRetries, call, 0))
  }

  /** The stopping attempt is unique: the first one that settles. */
  lemma FirstSettledIs(maxRetries: int, call: nat -> Result<string>, a: nat)
    requires 0 <= a < maxRetries && Settles(maxRetries, call(a), a)
    requires forall j :: 0 <= j < a ==> !Settles(maxRetries, call(j), j)
    ensures FirstSettled(maxRetries, call, 0) == a
  {
  }

  /**
   * When a retry reaches the throttle: attempt `a` passed it at `start`, its
   * call took `busy(a)` seconds to fail, and the backoff was slept after that.
   */
  function Wake(start: real, busy: nat -> real, a: nat): real {
    start + busy(a) + Backoff(a) as real
  }

  /**
   * `api_call_with_retry(prompt, max_retries)`: the result, the number of
   * attempts, the backoff sleeps in order, when each attempt passed the
   * throttle, and the throttle afterwards. The first attempt reaches the
   * throttle at `now`; every later one after the previous call and its backoff.
   */
  method ApiCallWithRetry(throttle: Limiter, now: real, busy: nat -> real, maxRetries: int, call: nat -> Result<string>)
    returns (result: Result<string>, attempts: nat, backoffs: seq<int>, starts: seq<real>, after: Limiter)
    ensures result == RetryResult(maxRetries, call)
    ensures attempts == Attempts(maxRetries, call)
    ensures attempts <= if maxRetries < 0 then 0 else maxRetries
    ensures |backoffs| == if attempts == 0 then 0 else attempts - 1
    ensures forall a :: 0 <= a < |backoffs| ==> backoffs[a] == Backoff(a)
    ensures forall a :: 0 <= a < |backoffs| ==> call(a).Raised? && IsQuota(call(a).msg)
    ensures |starts| == attempts
    ensures attempts > 0 ==> starts[0] == Admit(throttle, now).0
    ensures forall a :: 0 <= a < |backoffs| ==>
              starts[a + 1] == Admit(Limiter(throttle.minInterval, starts[a]), Wake(starts[a], busy, a)).0
    ensures forall a :: 0 <= a < |backoffs| ==>
              starts[a + 1] >= starts[a] + busy(a) + backoffs[a] as real && starts[a + 1] >= starts[a] + throttle.minInterval
    ensures after == if attempts == 0 then throttle else Limiter(throttle.minInterval, starts[attempts - 1])
  {
    var a: nat := 0;
    var l := throttle;
    var clock := now;
    backoffs := [];
    starts := [];
    attempts := 0;
    while a < maxRetries
      invariant attempts == a == |backoffs| == |starts|
      invariant a > 0 ==> a < maxRetries
      invariant a > 0 ==> FirstSettled(maxRetries, call, 0) >= a
      invariant forall j :: 0 <= j < a ==> backoffs[j] == Backoff(j)
      invariant a == 0 ==> l == throttle && clock == now
      invariant a > 0 ==> starts[0] == Admit(throttle, now).0
      invariant a > 0 ==> l == Limiter(throttle.minInterval, starts[a - 1]) && clock == Wake(starts[a - 1], busy, a - 1)
      invariant forall j :: 0 <= j < a - 1 ==>
                  starts[j + 1] == Admit(Limiter(throttle.minInterval, starts[j]), Wake(starts[j], busy, j)).0
      decreases maxRetries - a
    {
      var (start, next) := Admit(l, clock);
      l := next;
      starts := starts + [start];
      attempts := a + 1;
      var reply := call(a);
      if Settles(maxRetries, reply, a) {
        FirstSettledIs(maxRetries, call, a);
        result := reply;
        after := l;
        return;
      }
      backoffs := backoffs + [Backoff(a)];
      clock := Wake(start, busy, a);
      a := a + 1;
    }
    result := Raised(AllRetriesFailed);
    after := l;
  }

  // --------------------------------------------------------------- properties

  /** A failure that is not quota-like is raised at once, after a single attempt. */
  lemma NonQuotaRaisedAtOnce(maxRetries: int, call: nat -> Result<string>)
    requires maxRetries >= 1 && call(0).Raised? && !IsQuota(call(0).msg)
    ensures RetryResult(maxRetries, call) == call(0)
    ensures Attempts(maxRetries, call) == 1
  {
    FirstSettledIs(maxRetries, call, 0);
  }

  /**
   * Success: the call returns the first successful reply exactly when every
   * earlier attempt failed with a quota-like error and it lies within the budget.
   */
  lemma SucceedsAfterQuotaFailures(maxRetries: int, call: nat -> Result<string>, k: nat)
    requires k < maxRetries && call(k).Ok?
    requires forall j :: 0 <= j < k ==> call(j).Raised? && IsQuota(call(j).msg)
    ensures RetryResult(maxRetries, call) == call(k)
    ensures Attempts(maxRetries, call) == k + 1
  {
    FirstSettledIs(maxRetries, call, k);
  }

  /** When every attempt hits the quota, the last attempt's error is re-raised after `max_retries` attempts. */
  lemma QuotaExhaustionReraisesLast(maxRetries: int, call: nat -> Result<string>)
    requires maxRetries >= 1
    requires forall j :: 0 <= j < maxRetries ==> call(j).Raised? && IsQuota(call(j).msg)
    ensures RetryResult(maxRetries, call) == call(maxRetries - 1)
    ensures Attempts(maxRetries, call) == maxRetries
  {
    FirstSettledIs(maxRetries, call, maxRetries - 1);
  }

  /** With no attempts allowed the catch-all error is raised, and the reply oracle is never consulted. */
  lemma NoAttemptsAllowed(maxRetries: int, call: nat -> Result<string>)
    requires maxRetries <= 0
    ensures RetryResult(maxRetries, call) == Raised(AllRetriesFailed)
    ensures Attempts(maxRetries, call) == 0
  {
  }

  /** The default budget sleeps 60 s and then 120 s; from the fourth failure on the sleep is capped at 300 s. */
  lemma BackoffSchedule(a: nat)
    ensures Backoff(0) == 60 && Backoff(1) == 120 && Backoff(2) == 240
    ensures a >= 3 ==> Backoff(a) == MaxBackoff
  {
    if a >= 3 {
      Pow2Grows(a);
    }
  }

  lemma {:induction false} Pow2Grows(n: nat)
    requires n >= 3
    ensures Pow2(n) >= 8
  {
    if n > 3 {
      Pow2Grows(n - 1);
    }
  }

  /**
   * The quota test is a bare substring test, so any error whose message
   * mentions "generate" (which contains "rate") is retried as a quota error.
   */
  lemma GenerateLooksLikeQuota(prefix: string, suffix: string)
    ensures IsQuota(prefix + "generate" + suffix)
  {
    var msg := prefix + "generate" + suffix;
    var e := Lower(msg);
    var i := |prefix| + 4;
    assert e[i..i + 4] == "rate";
    ContainsAt(e, "rate", i);
  }
}
