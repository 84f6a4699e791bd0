/**
 * The call throttle both generations put in front of the language model
 * (market-research-tool/src/rate_limiter.py and `rate_limited_delay` in
 * market_research_toolRV2.py): before a call, sleep until at least
 * `minInterval` seconds have passed since the previous call's stamp, then
 * stamp the clock. The clock is an explicit reading; the model's clock is
 * ideal, so a sleep of `d` seconds started at `now` wakes at `now + d`.
 * Python floats are modelled as reals.
 */
module Throttle {
  import opened Wrappers

  /** A limiter's state: the interval it enforces and the previous call's stamp. */
  datatype Limiter = Limiter(minInterval: real, lastCall: real)

  /** `RateLimiter(calls_per_minute)`: interval `60 / calls_per_minute`, no previous call (stamp 0). */
  function NewLimiter(callsPerMinute: int): (r: Result<Limiter>)
    ensures r.Ok? <==> callsPerMinute != 0
    ensures r.Ok? ==> r.value.lastCall == 0.0 && r.value.minInterval * callsPerMinute as real == 60.0
    ensures r.Raised? ==> r.msg == "float division by zero"
  {
    if callsPerMinute == 0 then Raised("float division by zero")
    else Ok(Limiter(60.0 / callsPerMinute as real, 0.0))
  }

  /** `gemini_limiter`, the limiter shared by every decorated call: ten calls a minute. */
  const GeminiLimiter: Limiter := Limiter(6.0, 0.0)

  /** The second generation's module-level throttle: `MIN_API_CALL_INTERVAL` 4.5 s, `LAST_API_CALL_TIME` 0. */
  const Rv2Throttle: Limiter := Limiter(4.5, 0.0)

  lemma GeminiLimiterIsTenPerMinute()
    ensures NewLimiter(10) == Ok(GeminiLimiter)
  {
  }

  /**
   * How long `wait()` sleeps when called at `now`: the shortest pause that
   * puts the call `minInterval` after the previous stamp, and no pause when
   * that much time has already gone by.
   */
  function Pause(l: Limiter, now: real): (r: real)
    ensures r >= 0.0
    ensures now + r >= l.lastCall + l.minInterval
    ensures r > 0.0 ==> now + r == l.lastCall + l.minInterval
    ensures now - l.lastCall >= l.minInterval ==> r == 0.0
  {
    var sinceLast := now - l.lastCall;
    if sinceLast < l.minInterval then l.minInterval - sinceLast else 0.0
  }

  /**
   * One throttled call arriving at `now`, on the ideal clock: when it
   * starts, and the limiter stamped with that time. `wait()`,
   * `rate_limited_sync` and `rate_limited_delay` all take this step.
   */
  function Admit(l: Limiter, now: real): (r: (real, Limiter))
    ensures r.0 >= now && r.0 >= l.lastCall + l.minInterval
    ensures r.1 == Limiter(l.minInterval, r.0)
  {
    var start := now + Pause(l, now);
    (start, l.(lastCall := start))
  }

  /**
   * A call through the `rate_limited` decorator arriving at `now`: `wait()`
   * on the shared limiter, then the wrapped function, run once at the
   * clock reading the wait left (`f` is the function's outcome as a
   * function of that reading), its result handed back unchanged.
   */
  function AsyncRateLimited<T>(shared: Limiter, now: real, f: real -> T): (r: (T, Limiter))
    ensures r.1.minInterval == shared.minInterval
    ensures r.1.lastCall >= now && r.1.lastCall >= shared.lastCall + shared.minInterval
    ensures r.0 == f(r.1.lastCall)
  {
    var (start, next) := Admit(shared, now);
    (f(start), next)
  }

  /**
   * A call through `rate_limited_sync`, written out as that wrapper does it:
   * it reads and stamps the shared limiter's fields itself instead of
   * calling `wait()`.
   */
  function SyncRateLimited<T>(shared: Limiter, now: real, f: real -> T): (r: (T, Limiter))
    ensures r.1.minInterval == shared.minInterval
  {
    var sinceLast := now - shared.lastCall;
    var woke := if sinceLast < shared.minInterval then now + (shared.minInterval - sinceLast) else now;
    (f(woke), shared.(lastCall := woke))
  }

  /**
   * The two decorators behave alike and leave the shared limiter in the
   * same state, so calls through either kind throttle each other.
   */
  lemma WrappersAgree<T>(shared: Limiter, now: real, f: real -> T)
    ensures SyncRateLimited(shared, now, f) == AsyncRateLimited(shared, now, f)
  {
  }

  /** The start times of calls arriving at `arrivals` in turn, each stamping the limiter for the next. */
  function Schedule(l: Limiter, arrivals: seq<real>): (r: seq<real>)
    ensures |r| == |arrivals|
    decreases |arrivals|
  {
    if |arrivals| == 0 then []
    else
      var (start, next) := Admit(l, arrivals[0]);
      [start] + Schedule(next, arrivals[1..])
  }

  /** Splitting a schedule after `k` calls: the rest runs on the limiter as the first `k` left it. */
  lemma {:induction false} ScheduleSplit(l: Limiter, xs: seq<real>, ys: seq<real>)
    ensures Schedule(l, xs + ys) == Schedule(l, xs) + Schedule(AfterAll(l, xs), ys)
    decreases |xs|
  {
    if |xs| > 0 {
      assert (xs + ys)[0] == xs[0] && (xs + ys)[1..] == xs[1..] + ys;
      ScheduleSplit(Admit(l, xs[0]).1, xs[1..], ys);
    } else {
      assert xs + ys == ys;
    }
  }

  /** The limiter after a run of calls. */
  function AfterAll(l: Limiter, xs: seq<real>): (r: Limiter)
    ensures r.minInterval == l.minInterval
    ensures |xs| > 0 ==> r.lastCall == Schedule(l, xs)[|xs| - 1]
    decreases |xs|
  {
    if |xs| == 0 then l
    else
      var r := AfterAll(Admit(l, xs[0]).1, xs[1..]);
      assert |xs| > 1 ==> Schedule(l, xs)[|xs| - 1] == Schedule(Admit(l, xs[0]).1, xs[1..])[|xs| - 2];
      r
  }

  /**
   * Every call starts no earlier than it arrives, at least `minInterval`
   * after the one before it (the first: after the initial stamp), and
   * exactly when it arrives if that is already late enough.
   */
  lemma {:induction false} ScheduleSpacing(l: Limiter, arrivals: seq<real>)
    ensures var r := Schedule(l, arrivals);
            && (forall i :: 0 <= i < |r| ==> r[i] >= arrivals[i])
            && (forall i :: 0 < i < |r| ==> r[i] >= r[i - 1] + l.minInterval)
            && (|r| > 0 ==> r[0] >= l.lastCall + l.minInterval)
            && (forall i :: 0 < i < |r| && arrivals[i] >= r[i - 1] + l.minInterval ==> r[i] == arrivals[i])
    decreases |arrivals|
  {
    if |arrivals| > 0 {
      var r := Schedule(l, arrivals);
      var next := Admit(l, arrivals[0]).1;
      ScheduleSpacing(next, arrivals[1..]);
      var tail := Schedule(next, arrivals[1..]);
      assert r == [Admit(l, arrivals[0]).0] + tail;
      forall i | 0 < i < |r|
        ensures r[i] >= arrivals[i] && r[i] >= r[i - 1] + l.minInterval
        ensures arrivals[i] >= r[i - 1] + l.minInterval ==> r[i] == arrivals[i]
      {
        assert r[i] == tail[i - 1] && arrivals[i] == arrivals[1..][i - 1];
        if i > 1 {
          assert r[i - 1] == tail[i - 2];
        }
      }
    }
  }

  /** Over `k + 1` throttled calls, at least `k` intervals elapse between the first start and the last. */
  lemma {:induction false} ScheduleSpan(l: Limiter, arrivals: seq<real>, k: nat)
    requires k < |arrivals|
    ensures Schedule(l, arrivals)[k] - Schedule(l, arrivals)[0] >= k as real * l.minInterval
    decreases k
  {
    if k > 0 {
      ScheduleSpan(l, arrivals, k - 1);
      ScheduleSpacing(l, arrivals);
      var r := Schedule(l, arrivals);
      var m := l.minInterval;
      assert r[k] >= r[k - 1] + m;
      assert r[k - 1] - r[0] >= (k - 1) as real * m;
      assert k as real * m == (k - 1) as real * m + m;
    }
  }

  /** A fresh limiter lets its first call through at once whenever the clock reads at least the interval. */
  lemma FirstCallImmediate(callsPerMinute: int, now: real)
    requires NewLimiter(callsPerMinute).Ok? && now >= NewLimiter(callsPerMinute).value.minInterval
    ensures Pause(NewLimiter(callsPerMinute).value, now) == 0.0
    ensures Admit(NewLimiter(callsPerMinute).value, now).0 == now
  {
  }
}
