/** The gateway's fixed-window rate limit: a counter per driver that expires a minute after its first request. */
module RateLimiter {
  const WINDOW := 60 * 1_000_000
  const LIMIT := 100

  /** The stored counter; `start` is when it was created, so it expires at `start + WINDOW`. */
  datatype Counter = Absent | Counting(start: int, count: nat)

  /** INCR at `now`, with EXPIRE when the result is 1. */
  function Increment(c: Counter, now: int): Counter {
    if c.Absent? || now >= c.start + WINDOW then Counting(now, 1) else Counting(c.start, c.count + 1)
  }

  /** The counter after the first `n` requests. */
  function After(times: seq<int>, n: nat): Counter
    requires n <= |times|
  {
    if n == 0 then Absent else Increment(After(times, n - 1), times[n - 1])
  }

  predicate Allowed(times: seq<int>, i: nat)
    requires i < |times|
  {
    After(times, i + 1).count <= LIMIT
  }

  /** Start of the window request `i` falls in. */
  function StartOf(times: seq<int>, i: nat): int
    requires i < |times|
  {
    After(times, i + 1).start
  }

  predicate Sorted(times: seq<int>) {
    forall i, j :: 0 <= i < j < |times| ==> times[i] <= times[j]
  }

  class Limiter {
    var counter: Counter

    constructor ()
      ensures counter == Absent
    {
      counter := Absent;
    }

    /** `redisDown` is the connection error on which every request is let through. */
    method CheckRateLimit(now: int, redisDown: bool) returns (allowed: bool)
      modifies this
      ensures counter == if redisDown then old(counter) else Increment(old(counter), now)
      ensures allowed <==> redisDown || counter.count <= 100
      // a counter lives for a minute from its first request
      ensures !redisDown ==>
        counter == if old(counter).Counting? && now < old(counter).start + 60_000_000
                   then Counting(old(counter).start, old(counter).count + 1) else Counting(now, 1)
    {
      if redisDown {
        return true;
      }
      counter := if counter.Absent? || now >= counter.start + WINDOW then Counting(now, 0) else counter;
      counter := counter.(count := counter.count + 1);
      allowed := counter.count <= LIMIT;
    }
  }

  /** Requests admitted among the first `n` with window start `start`. */
  function InWindow(times: seq<int>, n: nat, start: int): nat
    requires n <= |times|
  {
    if n == 0 then 0
    else InWindow(times, n - 1, start) + if Allowed(times, n - 1) && StartOf(times, n - 1) == start then 1 else 0
  }

  /** Requests admitted among the first `n` at instants in [lo, hi). */
  function Admitted(times: seq<int>, n: nat, lo: int, hi: int): nat
    requires n <= |times|
  {
    if n == 0 then 0
    else Admitted(times, n - 1, lo, hi) + if Allowed(times, n - 1) && lo <= times[n - 1] < hi then 1 else 0
  }

  lemma {:induction false} CounterFollowsTime(times: seq<int>, n: nat)
    requires Sorted(times) && 0 < n <= |times|
    ensures After(times, n).Counting? && After(times, n).count >= 1
    ensures After(times, n).start <= times[n - 1] < After(times, n).start + WINDOW
  {
    if n > 1 {
      CounterFollowsTime(times, n - 1);
    }
  }

  /** At most 100 requests are admitted per window; the current one has admitted exactly its count, up to 100. */
  lemma {:induction false} WindowAdmitsLimit(times: seq<int>, n: nat, start: int)
    requires Sorted(times) && n <= |times|
    ensures InWindow(times, n, start) <= LIMIT == 100
    ensures n > 0 && start == After(times, n).start ==>
      InWindow(times, n, start) == if After(times, n).count < LIMIT then After(times, n).count else LIMIT
    ensures n > 0 && start > After(times, n).start ==> InWindow(times, n, start) == 0
  {
    if n > 0 {
      WindowAdmitsLimit(times, n - 1, start);
      CounterFollowsTime(times, n);
      if n > 1 {
        CounterFollowsTime(times, n - 1);
      }
    }
  }

  /** Windows are at least a minute apart, and a later window starts after every request of an earlier one. */
  lemma {:induction false} WindowsApart(times: seq<int>, i: nat, j: nat)
    requires Sorted(times) && i <= j < |times|
    ensures StartOf(times, j) == StartOf(times, i)
         || (StartOf(times, j) >= StartOf(times, i) + WINDOW && StartOf(times, j) >= times[i])
  {
    if i < j {
      WindowsApart(times, i, j - 1);
      CounterFollowsTime(times, j);
      assert times[i] <= times[j];
    }
  }

  /** Between two requests less than a minute apart there are only their own two windows. */
  lemma OnlyTwoWindows(times: seq<int>, f: nat, k: nat, l: nat)
    requires Sorted(times) && f <= k <= l < |times| && times[l] < times[f] + WINDOW
    ensures StartOf(times, k) == StartOf(times, f) || StartOf(times, k) == StartOf(times, l)
  {
    WindowsApart(times, f, k);
    WindowsApart(times, k, l);
    CounterFollowsTime(times, l + 1);
  }

  /** If all admitted requests of the interval fall in two windows, there are at most twice the limit. */
  lemma {:induction false} TwoWindowsBound(times: seq<int>, n: nat, lo: int, hi: int, a: int, b: int)
    requires Sorted(times) && n <= |times|
    requires forall i :: 0 <= i < n && lo <= times[i] < hi ==> StartOf(times, i) == a || StartOf(times, i) == b
    ensures Admitted(times, n, lo, hi) <= InWindow(times, n, a) + InWindow(times, n, b)
  {
    if n > 0 {
      TwoWindowsBound(times, n - 1, lo, hi, a, b);
    }
  }

  lemma {:induction false} NothingAdmitted(times: seq<int>, n: nat, lo: int, hi: int)
    requires n <= |times| && forall i :: 0 <= i < n ==> !(lo <= times[i] < hi)
    ensures Admitted(times, n, lo, hi) == 0
  {
    if n > 0 {
      NothingAdmitted(times, n - 1, lo, hi);
    }
  }

  lemma {:induction false} FirstIn(times: seq<int>, n: nat, lo: int, hi: int) returns (f: nat)
    requires n <= |times| && exists i :: 0 <= i < n && lo <= times[i] < hi
    ensures f < n && lo <= times[f] < hi && forall i :: 0 <= i < f ==> !(lo <= times[i] < hi)
  {
    if exists i :: 0 <= i < n - 1 && lo <= times[i] < hi {
      f := FirstIn(times, n - 1, lo, hi);
    } else {
      f := n - 1;
    }
  }

  lemma {:induction false} LastIn(times: seq<int>, n: nat, lo: int, hi: int) returns (l: nat)
    requires n <= |times| && exists i :: 0 <= i < n && lo <= times[i] < hi
    ensures l < n && lo <= times[l] < hi && forall i :: l < i < n ==> !(lo <= times[i] < hi)
  {
    if lo <= times[n - 1] < hi {
      l := n - 1;
    } else {
      l := LastIn(times, n - 1, lo, hi);
    }
  }

  /** Over any request sequence, any interval of one minute admits at most 200 requests. */
  lemma AnyMinuteAdmitsTwiceLimit(times: seq<int>, lo: int)
    requires Sorted(times)
    ensures Admitted(times, |times|, lo, lo + 60_000_000) <= 200
  {
    var n, hi := |times|, lo + WINDOW;
    if exists i :: 0 <= i < n && lo <= times[i] < hi {
      var f := FirstIn(times, n, lo, hi);
      var l := LastIn(times, n, lo, hi);
      var a, b := StartOf(times, f), StartOf(times, l);
      forall i | 0 <= i < n && lo <= times[i] < hi ensures StartOf(times, i) == a || StartOf(times, i) == b {
        OnlyTwoWindows(times, f, i, l);
      }
      TwoWindowsBound(times, n, lo, hi, a, b);
      WindowAdmitsLimit(times, n, a);
      WindowAdmitsLimit(times, n, b);
    } else {
      NothingAdmitted(times, n, lo, hi);
    }
  }
}
