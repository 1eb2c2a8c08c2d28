/**
 The fixed-window rate limiter: which calls of an arbitrary sequence are allowed, and how many in any span of
 one window length. A counter is reset only by its expiry, which is judged on the callers' clock.
 */
module RateLimit {
  import opened Domain

  datatype Key = Key(scope: string, id: string, bucket: int)

  type Count = n: int | n > 0 witness 1

  /** A counter without an expiry was created by a call that failed before setting it. */
  datatype Counter = Counter(n: Count, expiresAt: Option<Time>)

  /** `failing`: the expiry command fails, and the call with it. */
  datatype Call = Call(scope: string, id: string, max: nat, windowSec: nat, now: Time, failing: bool)

  type Counters = map<Key, Counter>

  predicate WellFormed(c: Call) { c.windowSec > 0 }

  function KeyOf(c: Call): Key
    requires WellFormed(c)
  {
    Key(c.scope, c.id, c.now / (c.windowSec * 1000))
  }

  predicate Live(counters: Counters, key: Key, now: Time) {
    key in counters && (counters[key].expiresAt.Some? ==> now <= counters[key].expiresAt.value)
  }

  /** The number INCR returns; an expired counter starts again. */
  function Incremented(counters: Counters, key: Key, now: Time): Count {
    if Live(counters, key, now) then counters[key].n + 1 else 1
  }

  function Counted(counters: Counters, c: Call): Counters
    requires WellFormed(c)
  {
    var key, n := KeyOf(c), Incremented(counters, KeyOf(c), c.now);
    counters[key := Counter(n,
      if n != 1 then counters[key].expiresAt
      else if c.failing then None
      else Some(c.now + c.windowSec * 1000))]
  }

  /** The answer is true. A failing call gives no answer at all, and it is its caller that refuses or goes on. */
  predicate Allowed(counters: Counters, c: Call)
    requires WellFormed(c)
  {
    var n := Incremented(counters, KeyOf(c), c.now);
    n <= c.max && !(n == 1 && c.failing)
  }

  // ------------------------------------------------- sequences of calls

  predicate AllWellFormed(calls: seq<Call>) { forall i :: 0 <= i < |calls| ==> WellFormed(calls[i]) }

  /** The counters after a sequence of calls. */
  function State(calls: seq<Call>): Counters
    requires AllWellFormed(calls)
  {
    if calls == [] then map[] else Counted(State(calls[..|calls| - 1]), calls[|calls| - 1])
  }

  /** Calls that fall into one window. */
  function CallsIn(calls: seq<Call>, key: Key): nat
    requires AllWellFormed(calls)
  {
    if calls == [] then 0
    else CallsIn(calls[..|calls| - 1], key) + if KeyOf(calls[|calls| - 1]) == key then 1 else 0
  }

  /** A scope is always used with the same window and the same maximum. */
  predicate Uniform(calls: seq<Call>, scope: string, max: nat, windowSec: nat) {
    forall i :: 0 <= i < |calls| && calls[i].scope == scope ==> calls[i].max == max && calls[i].windowSec == windowSec
  }

  /** The counter of a window counts its calls and expires in the course of the next window, if its expiry was set. */
  predicate CounterExact(counters: Counters, key: Key, windowSec: nat, calls: nat) {
    if calls == 0 then key !in counters
    else
      && key in counters && counters[key].n == calls
      && (counters[key].expiresAt.Some? ==>
            (key.bucket + 1) * (windowSec * 1000) <= counters[key].expiresAt.value < (key.bucket + 2) * (windowSec * 1000))
  }

  lemma {:induction false} InsideWindow(now: Time, w: int)
    requires w > 0
    ensures now / w * w <= now < (now / w + 1) * w
  {
  }

  lemma {:induction false} CounterNeverExpires(calls: seq<Call>, key: Key, max: nat, windowSec: nat)
    requires AllWellFormed(calls) && windowSec > 0 && Uniform(calls, key.scope, max, windowSec)
    ensures CounterExact(State(calls), key, windowSec, CallsIn(calls, key))
    decreases |calls|
  {
    if calls != [] {
      var prefix, c := calls[..|calls| - 1], calls[|calls| - 1];
      assert Uniform(prefix, key.scope, max, windowSec);
      CounterNeverExpires(prefix, key, max, windowSec);
      if KeyOf(c) == key {
        assert c.windowSec == windowSec;
        InsideWindow(c.now, windowSec * 1000);
        WindowOver(c.now, key.bucket, windowSec * 1000);
      }
    }
  }

  lemma {:induction false} WindowOver(now: Time, bucket: int, w: int)
    requires w > 0 && now / w == bucket
    ensures now < (bucket + 1) * w <= now + w < (bucket + 2) * w
  {
    InsideWindow(now, w);
    assert (bucket + 1) * w == bucket * w + w && (bucket + 2) * w == (bucket + 1) * w + w;
  }

  /** A call is allowed exactly when fewer than `max` calls came before it in its window. */
  lemma {:induction false} AllowedExactly(calls: seq<Call>, max: nat, windowSec: nat, k: nat)
    requires k < |calls| && AllWellFormed(calls) && windowSec > 0 && Uniform(calls, calls[k].scope, max, windowSec)
    ensures var before := CallsIn(calls[..k], KeyOf(calls[k]));
      Allowed(State(calls[..k]), calls[k]) <==> before < max && !(before == 0 && calls[k].failing)
  {
    var c := calls[k];
    assert Uniform(calls[..k], c.scope, max, windowSec);
    CounterNeverExpires(calls[..k], KeyOf(c), max, windowSec);
    InsideWindow(c.now, windowSec * 1000);
    WindowOver(c.now, KeyOf(c).bucket, windowSec * 1000);
  }

  /** Allowed calls of one caller with `from <= now < until`. */
  function AllowedIn(calls: seq<Call>, scope: string, id: string, from: Time, until: Time): nat
    requires AllWellFormed(calls)
  {
    if calls == [] then 0
    else
      var prefix, c := calls[..|calls| - 1], calls[|calls| - 1];
      AllowedIn(prefix, scope, id, from, until)
      + if c.scope == scope && c.id == id && from <= c.now < until && Allowed(State(prefix), c) then 1 else 0
  }

  /** At most `max` calls are allowed per window. */
  lemma {:induction false} WindowBound(calls: seq<Call>, scope: string, id: string, max: nat, windowSec: nat, bucket: int)
    requires AllWellFormed(calls) && windowSec > 0 && Uniform(calls, scope, max, windowSec)
    ensures var w := windowSec * 1000;
      && AllowedIn(calls, scope, id, bucket * w, (bucket + 1) * w) <= max
      && AllowedIn(calls, scope, id, bucket * w, (bucket + 1) * w) <= CallsIn(calls, Key(scope, id, bucket))
    decreases |calls|
  {
    if calls != [] {
      var n, w := |calls| - 1, windowSec * 1000;
      var prefix, c := calls[..n], calls[n];
      assert Uniform(prefix, scope, max, windowSec);
      WindowBound(prefix, scope, id, max, windowSec, bucket);
      if c.scope == scope && c.id == id && bucket * w <= c.now < (bucket + 1) * w {
        BucketOf(c.now, bucket, w);
        AllowedExactly(calls, max, windowSec, n);
      }
    }
  }

  lemma {:induction false} BucketOf(now: Time, bucket: int, w: int)
    requires w > 0 && bucket * w <= now < (bucket + 1) * w
    ensures now / w == bucket
  {
    InsideWindow(now, w);
    var b := now / w;
    assert b < bucket ==> (b + 1) * w <= bucket * w;
    assert b > bucket ==> (bucket + 1) * w <= b * w;
  }

  /** A span is covered by the spans that cover it. */
  lemma {:induction false} SpanSplits(calls: seq<Call>, scope: string, id: string, a: Time, b: Time, m: Time, c: Time, d: Time)
    requires AllWellFormed(calls) && a <= b <= m <= c <= d
    ensures AllowedIn(calls, scope, id, b, c) <= AllowedIn(calls, scope, id, a, m) + AllowedIn(calls, scope, id, m, d)
    decreases |calls|
  {
    if calls != [] { SpanSplits(calls[..|calls| - 1], scope, id, a, b, m, c, d); }
  }

  /** At most `2 * max` calls are allowed in any half-open span of one window length. */
  lemma {:induction false} SpanBound(calls: seq<Call>, scope: string, id: string, max: nat, windowSec: nat, from: Time)
    requires AllWellFormed(calls) && windowSec > 0 && Uniform(calls, scope, max, windowSec)
    ensures AllowedIn(calls, scope, id, from, from + windowSec * 1000) <= 2 * max
  {
    var w := windowSec * 1000;
    var b := from / w;
    InsideWindow(from, w);
    WindowBound(calls, scope, id, max, windowSec, b);
    WindowBound(calls, scope, id, max, windowSec, b + 1);
    assert (b + 1) * w == b * w + w && (b + 2) * w == (b + 1) * w + w;
    SpanSplits(calls, scope, id, b * w, from, (b + 1) * w, from + w, (b + 2) * w);
  }

  /** One more call of a window that still has room. */
  lemma {:induction false} OneMoreAllowed(calls: seq<Call>, c: Call, from: Time, until: Time, other: Key)
    requires AllWellFormed(calls) && WellFormed(c) && !c.failing && from <= c.now < until
    requires Uniform(calls, c.scope, c.max, c.windowSec) && CallsIn(calls, KeyOf(c)) < c.max
    ensures var all := calls + [c];
      && AllWellFormed(all) && Uniform(all, c.scope, c.max, c.windowSec)
      && AllowedIn(all, c.scope, c.id, from, until) == AllowedIn(calls, c.scope, c.id, from, until) + 1
      && CallsIn(all, KeyOf(c)) == CallsIn(calls, KeyOf(c)) + 1
      && (other != KeyOf(c) ==> CallsIn(all, other) == CallsIn(calls, other))
  {
    var all := calls + [c];
    assert all[..|all| - 1] == calls && all[|all| - 1] == c;
    AllowedExactly(all, c.max, c.windowSec, |all| - 1);
  }

  /** The same call `n` times in succession. */
  function Burst(c: Call, n: nat): (s: seq<Call>)
    ensures |s| == n && forall i :: 0 <= i < n ==> s[i] == c
  {
    if n == 0 then [] else Burst(c, n - 1) + [c]
  }

  /** `allowed` calls of this caller were allowed in the span, and `used` calls fell into the window of `other`. */
  ghost predicate Tally(calls: seq<Call>, c: Call, from: Time, until: Time, allowed: nat, other: Key, used: nat) {
    && AllWellFormed(calls) && WellFormed(c) && Uniform(calls, c.scope, c.max, c.windowSec)
    && AllowedIn(calls, c.scope, c.id, from, until) == allowed
    && CallsIn(calls, other) == used
  }

  lemma {:induction false} TallyOne(calls: seq<Call>, c: Call, from: Time, until: Time, allowed: nat, other: Key, used: nat, n: nat)
    requires Tally(calls, c, from, until, allowed, other, used) && Tally(calls, c, from, until, allowed, KeyOf(c), n)
    requires !c.failing && from <= c.now < until && n < c.max && other != KeyOf(c)
    ensures Tally(calls + [c], c, from, until, allowed + 1, other, used)
    ensures Tally(calls + [c], c, from, until, allowed + 1, KeyOf(c), n + 1)
  {
    OneMoreAllowed(calls, c, from, until, other);
  }

  lemma {:induction false} BurstAllowed(
    calls: seq<Call>, c: Call, n: nat, from: Time, until: Time, allowed: nat, other: Key, used: nat)
    requires Tally(calls, c, from, until, allowed, other, used) && Tally(calls, c, from, until, allowed, KeyOf(c), 0)
    requires !c.failing && from <= c.now < until && n <= c.max && other != KeyOf(c)
    ensures Tally(calls + Burst(c, n), c, from, until, allowed + n, other, used)
    ensures Tally(calls + Burst(c, n), c, from, until, allowed + n, KeyOf(c), n)
    decreases n
  {
    if n == 0 {
      assert calls + Burst(c, n) == calls;
    } else {
      BurstAllowed(calls, c, n - 1, from, until, allowed, other, used);
      TallyOne(calls + Burst(c, n - 1), c, from, until, allowed + n - 1, other, used, n - 1);
      assert calls + Burst(c, n) == (calls + Burst(c, n - 1)) + [c];
    }
  }

  /** Two bursts in different windows are allowed in full. */
  lemma {:induction false} TwoBursts(d: Call, c: Call, from: Time, until: Time)
    requires WellFormed(c) && !c.failing && d == c.(now := d.now) && KeyOf(d) != KeyOf(c)
    requires from <= c.now < until && from <= d.now < until
    ensures Tally(Burst(d, c.max) + Burst(c, c.max), c, from, until, c.max + c.max, KeyOf(c), c.max)
  {
    BurstAllowed([], d, c.max, from, until, 0, KeyOf(c), 0);
    var first := Burst(d, c.max);
    assert [] + first == first;
    BurstAllowed(first, c, c.max, from, until, c.max, KeyOf(d), c.max);
  }

  lemma {:induction false} AcrossBoundary(c: Call)
    requires WellFormed(c) && c.now == c.windowSec * 1000
    ensures KeyOf(c.(now := c.now - 1)) != KeyOf(c)
  {
    BucketOf(c.now - 1, 0, c.now);
    BucketOf(c.now, 1, c.now);
  }

  /** The bound is reached: a burst at the end of a window and one at the start of the next, a millisecond apart. */
  lemma {:induction false} SpanBoundReached(c: Call)
    requires WellFormed(c) && !c.failing && c.now == c.windowSec * 1000
    ensures var calls := Burst(c.(now := c.now - 1), c.max) + Burst(c, c.max);
      Tally(calls, c, c.now - 1, c.now + 1, 2 * c.max, KeyOf(c), c.max)
  {
    AcrossBoundary(c);
    TwoBursts(c.(now := c.now - 1), c, c.now - 1, c.now + 1);
  }
}

/** The limiter as it runs against the shared counters. */
module RateLimiterClass {
  import opened Domain
  import opened RateLimit

  class RateLimiter {
    var counters: Counters

    constructor ()
      ensures counters == map[]
    {
      counters := map[];
    }

    method Incr(key: Key, now: Time) returns (n: Count)
      modifies this
      ensures n == Incremented(old(counters), key, now)
      ensures counters == old(counters)[key :=
        Counter(n, if Live(old(counters), key, now) then old(counters)[key].expiresAt else None)]
    {
      var expiry: Option<Time> := None;
      n := 1;
      if Live(counters, key, now) {
        n := counters[key].n + 1;
        expiry := counters[key].expiresAt;
      }
      counters := counters[key := Counter(n, expiry)];
    }

    method Expire(key: Key, at: Time)
      requires key in counters
      modifies this
      ensures counters == old(counters)[key := old(counters)[key].(expiresAt := Some(at))]
    {
      counters := counters[key := counters[key].(expiresAt := Some(at))];
    }

    /** `None` when a command fails; `c.failing` says that setting the expiry would. */
    method Check(c: Call) returns (r: Option<bool>)
      requires WellFormed(c)
      modifies this
      ensures counters == Counted(old(counters), c)
      ensures r == Some(true) <==> Allowed(old(counters), c)
      ensures r.None? <==> c.failing && !Live(old(counters), KeyOf(c), c.now)
    {
      var key := KeyOf(c);
      var n := Incr(key, c.now);
      if n == 1 {
        if c.failing { return None; }
        Expire(key, c.now + c.windowSec * 1000);
      }
      r := Some(n <= c.max);
    }
  }
}
