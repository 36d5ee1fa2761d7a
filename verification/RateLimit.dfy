/**
 * The two fixed-window rate limiters: rust/src/rate_limit.rs and python/src/rate_limit.py.
 *
 * Clocks are readings in seconds. Of the locks only that they can be poisoned is part of the model.
 */
module RateLimits {
  import opened Common

  const WINDOW := 60.0

  /** When a client's window began and how many requests were granted in it. */
  datatype Window = Window(start: real, count: nat)

  type Windows = map<string, Window>

  // ---- the two programs ----

  /** `RateLimiter::allow`; `duration_since` is zero for a clock that went back. */
  class RustLimiter {
    const limitPerMinute: nat
    var windows: Windows
    /** A thread has panicked while it held the lock. */
    var poisoned: bool

    constructor (limit: nat)
      ensures limitPerMinute == limit && windows == map[] && !poisoned
    {
      limitPerMinute := limit;
      windows := map[];
      poisoned := false;
    }

    method Allow(client: string, now: real) returns (ok: bool)
      modifies this`windows
      ensures limitPerMinute == 0 ==> ok && windows == old(windows)
      ensures limitPerMinute > 0 && poisoned ==> !ok && windows == old(windows)
      ensures limitPerMinute > 0 && !poisoned ==> (windows, ok) == Allowed(limitPerMinute, old(windows), client, now)
    {
      if limitPerMinute == 0 {
        return true;
      }
      if poisoned {
        return false;
      }
      if client !in windows {
        windows := windows[client := Window(now, 0)];
      }
      var elapsed := if now < windows[client].start then 0.0 else now - windows[client].start;
      if elapsed >= WINDOW {
        windows := windows[client := Window(now, 0)];
      }
      assert windows == old(windows)[client := Current(WindowOf(old(windows), client), now)];
      if windows[client].count >= limitPerMinute {
        return false;
      }
      windows := windows[client := windows[client].(count := windows[client].count + 1)];
      assert windows == old(windows)[client := After(limitPerMinute, WindowOf(old(windows), client), now)];
      return true;
    }
  }

  /** `FixedWindowRateLimiter.allow`. */
  class PythonLimiter {
    const limitPerMinute: nat
    var windows: Windows

    constructor (limit: nat)
      ensures limitPerMinute == limit && windows == map[]
    {
      limitPerMinute := limit;
      windows := map[];
    }

    method Allow(client: string, now: real) returns (ok: bool)
      modifies this
      ensures limitPerMinute == 0 ==> ok && windows == old(windows)
      ensures (windows, ok) == Allowed(limitPerMinute, old(windows), client, now)
    {
      if limitPerMinute == 0 {
        return true;
      }
      var windowStart, count := now, 0;
      if client in windows {
        windowStart, count := windows[client].start, windows[client].count;
      }
      if now - windowStart >= WINDOW {
        windowStart := now;
        count := 0;
      }
      if count >= limitPerMinute {
        windows := windows[client := Window(windowStart, count)];
        return false;
      }
      windows := windows[client := Window(windowStart, count + 1)];
      return true;
    }
  }

  // ---- one client ----

  /** The window a request falls into. */
  function Current(w: Option<Window>, now: real): Window {
    if w.None? || now - w.value.start >= WINDOW then Window(now, 0) else w.value
  }

  predicate Grants(limit: nat, w: Option<Window>, now: real) {
    Current(w, now).count < limit
  }

  function After(limit: nat, w: Option<Window>, now: real): Window {
    var cur := Current(w, now);
    if cur.count < limit then cur.(count := cur.count + 1) else cur
  }

  function WindowOf(windows: Windows, client: string): Option<Window> {
    if client in windows then Some(windows[client]) else None
  }

  /** What both programs do: one window per client, a limit of zero switching the limiter off. */
  function Allowed(limit: nat, windows: Windows, client: string, now: real): (Windows, bool) {
    if limit == 0 then (windows, true)
    else
      var w := WindowOf(windows, client);
      (windows[client := After(limit, w, now)], Grants(limit, w, now))
  }

  /** A client's window after its first `n` requests. */
  function WindowAfter(limit: nat, times: seq<real>, n: nat): Option<Window>
    requires n <= |times|
  {
    if n == 0 then None else Some(After(limit, WindowAfter(limit, times, n - 1), times[n - 1]))
  }

  predicate Granted(limit: nat, times: seq<real>, i: nat)
    requires i < |times|
  {
    Grants(limit, WindowAfter(limit, times, i), times[i])
  }

  // ---- clients do not affect each other ----

  datatype Request = Request(client: string, now: real)

  function TimesOf(trace: seq<Request>, client: string, n: nat): seq<real>
    requires n <= |trace|
  {
    if n == 0 then []
    else TimesOf(trace, client, n - 1) + if trace[n - 1].client == client then [trace[n - 1].now] else []
  }

  /** The limiter's windows after `n` requests of a trace. */
  function WindowsAfter(limit: nat, trace: seq<Request>, n: nat): Windows
    requires n <= |trace|
  {
    if n == 0 then map[]
    else Allowed(limit, WindowsAfter(limit, trace, n - 1), trace[n - 1].client, trace[n - 1].now).0
  }

  /** With a limit of zero every request of every trace is granted and nothing is recorded. */
  lemma {:induction false} ZeroGrantsAll(trace: seq<Request>, n: nat)
    requires n <= |trace|
    ensures WindowsAfter(0, trace, n) == map[]
    ensures n < |trace| ==> Allowed(0, WindowsAfter(0, trace, n), trace[n].client, trace[n].now) == (map[], true)
  {
    if n > 0 {
      ZeroGrantsAll(trace, n - 1);
    }
  }

  lemma {:induction false} WindowAgrees(limit: nat, a: seq<real>, b: seq<real>, n: nat)
    requires n <= |a| && n <= |b| && forall i :: 0 <= i < n ==> a[i] == b[i]
    ensures WindowAfter(limit, a, n) == WindowAfter(limit, b, n)
  {
    if n > 0 {
      WindowAgrees(limit, a, b, n - 1);
    }
  }

  /** Every client is treated as if it were alone. */
  lemma {:induction false} ClientsAreIndependent(limit: nat, trace: seq<Request>, client: string, n: nat)
    requires limit > 0 && n <= |trace|
    ensures var times := TimesOf(trace, client, n);
            WindowOf(WindowsAfter(limit, trace, n), client) == WindowAfter(limit, times, |times|)
    ensures n < |trace| && trace[n].client == client ==>
              var times := TimesOf(trace, client, n + 1);
              Allowed(limit, WindowsAfter(limit, trace, n), client, trace[n].now).1 ==
              Granted(limit, times, |times| - 1)
  {
    if n > 0 {
      ClientsAreIndependent(limit, trace, client, n - 1);
      var before, times := TimesOf(trace, client, n - 1), TimesOf(trace, client, n);
      WindowAgrees(limit, before, times, |before|);
    }
    if n < |trace| && trace[n].client == client {
      var times, longer := TimesOf(trace, client, n), TimesOf(trace, client, n + 1);
      WindowAgrees(limit, times, longer, |times|);
    }
  }

  // ---- the rate ----

  ghost predicate Clockwise(times: seq<real>) {
    forall i, j :: 0 <= i < j < |times| ==> times[i] <= times[j]
  }

  /** Grants among the first `n` requests at times from `lo` to before `hi`. */
  function Count(limit: nat, times: seq<real>, n: nat, lo: real, hi: real): nat
    requires n <= |times|
  {
    if n == 0 then 0
    else Count(limit, times, n - 1, lo, hi) + if Granted(limit, times, n - 1) && lo <= times[n - 1] < hi then 1 else 0
  }

  lemma {:induction false} CountWider(limit: nat, times: seq<real>, n: nat, lo: real, hi: real, lo': real, hi': real)
    requires n <= |times|
    requires forall i :: 0 <= i < n && Granted(limit, times, i) && lo <= times[i] < hi ==> lo' <= times[i] < hi'
    ensures Count(limit, times, n, lo, hi) <= Count(limit, times, n, lo', hi')
  {
    if n > 0 {
      CountWider(limit, times, n - 1, lo, hi, lo', hi');
    }
  }

  lemma {:induction false} CountSplits(limit: nat, times: seq<real>, n: nat, lo: real, mid: real, hi: real)
    requires n <= |times| && lo <= mid <= hi
    ensures Count(limit, times, n, lo, hi) == Count(limit, times, n, lo, mid) + Count(limit, times, n, mid, hi)
  {
    if n > 0 {
      CountSplits(limit, times, n - 1, lo, mid, hi);
    }
  }

  /** What the window knows about all grants so far. */
  ghost predicate Accounted(limit: nat, times: seq<real>, n: nat)
    requires n <= |times|
  {
    n > 0 ==>
      var w := WindowAfter(limit, times, n).value;
      && w.count <= limit && w.start <= times[n - 1] < w.start + WINDOW
      && w.count == Count(limit, times, n, w.start, w.start + WINDOW)
      && (forall t: real :: t > w.start - WINDOW ==> Count(limit, times, n, t, w.start) <= limit)
  }

  lemma {:induction false} AllBeforeEnd(limit: nat, times: seq<real>, n: nat)
    requires 0 < n <= |times| && Clockwise(times) && Accounted(limit, times, n)
    ensures forall i :: 0 <= i < n ==> times[i] < WindowAfter(limit, times, n).value.start + WINDOW
  {
  }

  lemma {:induction false} AccountedStays(limit: nat, times: seq<real>, n: nat)
    requires limit > 0 && 0 < n < |times| && Clockwise(times) && Accounted(limit, times, n)
    requires times[n] - WindowAfter(limit, times, n).value.start < WINDOW
    ensures Accounted(limit, times, n + 1)
  {
    var w, n' := WindowAfter(limit, times, n).value, n + 1;
    forall t: real | t > w.start - WINDOW ensures Count(limit, times, n', t, w.start) <= limit {
      assert Count(limit, times, n', t, w.start) == Count(limit, times, n, t, w.start);
    }
  }

  lemma {:induction false} AccountedRenews(limit: nat, times: seq<real>, n: nat)
    requires limit > 0 && 0 < n < |times| && Clockwise(times) && Accounted(limit, times, n)
    requires times[n] - WindowAfter(limit, times, n).value.start >= WINDOW
    ensures Accounted(limit, times, n + 1)
  {
    var w, now, n' := WindowAfter(limit, times, n).value, times[n], n + 1;
    AllBeforeEnd(limit, times, n);
    CountWider(limit, times, n, now, now + WINDOW, now, now);
    CountNothing(limit, times, n, now);
    forall t: real | t > now - WINDOW ensures Count(limit, times, n', t, now) <= limit {
      assert Count(limit, times, n', t, now) == Count(limit, times, n, t, now);
      CountWider(limit, times, n, t, now, w.start, w.start + WINDOW);
    }
  }

  lemma {:induction false} CountNothing(limit: nat, times: seq<real>, n: nat, t: real)
    requires n <= |times|
    ensures Count(limit, times, n, t, t) == 0
  {
    if n > 0 {
      CountNothing(limit, times, n - 1, t);
    }
  }

  lemma {:induction false} AlwaysAccounted(limit: nat, times: seq<real>, n: nat)
    requires limit > 0 && n <= |times| && Clockwise(times)
    ensures Accounted(limit, times, n)
  {
    if n == 1 {
      assert WindowAfter(limit, times, 1).value == Window(times[0], 1);
      forall t: real ensures Count(limit, times, 1, t, times[0]) == 0 {
        assert Count(limit, times, 0, t, times[0]) == 0;
      }
      assert Count(limit, times, 0, times[0], times[0] + WINDOW) == 0;
    } else if n > 1 {
      AlwaysAccounted(limit, times, n - 1);
      if times[n - 1] - WindowAfter(limit, times, n - 1).value.start < WINDOW {
        AccountedStays(limit, times, n - 1);
      } else {
        AccountedRenews(limit, times, n - 1);
      }
    }
  }

  /** A request is refused only after `limit` grants in the window it falls into. */
  lemma {:induction false} RefusedOnlyWhenSpent(limit: nat, times: seq<real>, i: nat)
    requires limit > 0 && i < |times| && Clockwise(times) && !Granted(limit, times, i)
    ensures i > 0
    ensures var start := WindowAfter(limit, times, i).value.start;
            start <= times[i] < start + WINDOW && Count(limit, times, i, start, start + WINDOW) == limit
  {
    AlwaysAccounted(limit, times, i);
  }

  /** A window stays current until its time is up. */
  lemma {:induction false} WindowLasts(limit: nat, times: seq<real>, i: nat, n: nat)
    requires 0 < i <= n <= |times| && Clockwise(times)
    requires i < n ==> times[n - 1] < WindowAfter(limit, times, i).value.start + WINDOW
    ensures WindowAfter(limit, times, n).value.start == WindowAfter(limit, times, i).value.start
  {
    if i < n {
      WindowLasts(limit, times, i, n - 1);
    }
  }

  /** No window, whatever follows it, ever holds more than `limit` grants. */
  lemma {:induction false} AtMostLimitPerWindow(limit: nat, times: seq<real>, i: nat, n: nat)
    requires limit > 0 && 0 < i <= n <= |times| && Clockwise(times)
    ensures var start := WindowAfter(limit, times, i).value.start;
            Count(limit, times, n, start, start + WINDOW) <= limit
  {
    if i == n || times[n - 1] < WindowAfter(limit, times, i).value.start + WINDOW {
      WindowLasts(limit, times, i, n);
      AlwaysAccounted(limit, times, n);
    } else {
      AtMostLimitPerWindow(limit, times, i, n - 1);
    }
  }

  /** No half-open interval of one window's length ever holds more than twice the limit. */
  lemma {:induction false} AtMostTwiceTheLimit(limit: nat, times: seq<real>, n: nat, t: real)
    requires limit > 0 && n <= |times| && Clockwise(times)
    ensures Count(limit, times, n, t, t + WINDOW) <= 2 * limit
  {
    if n > 0 {
      AtMostTwiceTheLimit(limit, times, n - 1, t);
      AlwaysAccounted(limit, times, n);
      AllBeforeEnd(limit, times, n);
      var w := WindowAfter(limit, times, n).value;
      if Granted(limit, times, n - 1) && t <= times[n - 1] < t + WINDOW {
        if t <= w.start {
          CountSplits(limit, times, n, t, w.start, w.start + WINDOW);
          CountWider(limit, times, n, t, t + WINDOW, t, w.start + WINDOW);
        } else {
          CountWider(limit, times, n, t, t + WINDOW, w.start, w.start + WINDOW);
        }
      }
    }
  }
}
