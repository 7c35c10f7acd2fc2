/** The fixed-window rate limiter: counters shared by every instance, and their purge. */
module Limiter {

  datatype Option<T> = None | Some(value: T)

  /** A counter row: the limited endpoint and client, and the window's start in epoch seconds. */
  type Counter = (string, int)
  type Counters = map<Counter, nat>

  datatype Period = Second | Minute | Hour | Day

  datatype Limit = Limit(max: nat, period: Period)

  const DAY := 86400

  function Seconds(period: Period): (w: nat)
    ensures 0 < w <= DAY
  {
    match period
    case Second => 1
    case Minute => 60
    case Hour => 3600
    case Day => DAY
  }

  lemma PeriodsNest()
    ensures Seconds(Second) == 1 && Seconds(Minute) == 60 * Seconds(Second)
    ensures Seconds(Hour) == 60 * Seconds(Minute) && Seconds(Day) == 24 * Seconds(Hour)
  {
  }

  /** The window a moment falls in: aligned, as wide as the period, and around it. */
  function WindowStart(now: real, w: nat): (start: int)
    requires w > 0
    ensures start <= now.Floor < start + w && start == now.Floor / w * w
  {
    now.Floor - now.Floor % w
  }

  function CountOf(counters: Counters, counter: Counter): nat {
    if counter in counters then counters[counter] else 0
  }

  function Incremented(counters: Counters, counter: Counter): Counters {
    counters[counter := CountOf(counters, counter) + 1]
  }

  function Purged(counters: Counters, now: real): Counters {
    map counter | counter in counters && !((counter.1 as real) < now - DAY as real) :: counters[counter]
  }

  // ── The store and the wrapper ─────────────────────────────────────────────────────────────────

  datatype Verdict = Admitted | Refused(retryAfter: nat)

  class CounterStore {
    var counters: Counters

    constructor ()
      ensures counters == map[]
    {
      counters := map[];
    }

    /** Hits in the current window, this one included; `None` when the store failed. */
    method Increment(key: string, w: nat, now: real, answers: bool) returns (hits: Option<nat>)
      requires w > 0
      modifies this
      ensures !answers ==> hits == None && counters == old(counters)
      ensures answers ==> counters == Incremented(old(counters), (key, WindowStart(now, w)))
      ensures answers ==>
        var counter := (key, WindowStart(now, w));
        && counters == old(counters)[counter := CountOf(old(counters), counter) + 1]
        && hits == Some(CountOf(old(counters), counter) + 1)
    {
      var epoch := now.Floor;
      var counter := (key, epoch - epoch % w);
      if !answers {
        return None;
      }
      if counter in counters {
        counters := counters[counter := counters[counter] + 1];
      } else {
        counters := counters[counter := 1];
      }
      hits := Some(counters[counter]);
    }

    /** A counter is kept, with its count, exactly when its window started at most a day ago. */
    method PurgeCounters(now: real)
      modifies this
      ensures forall counter :: counter in counters <==>
        counter in old(counters) && counter.1 as real >= now - DAY as real
      ensures forall counter :: counter in counters ==> counters[counter] == old(counters)[counter]
      ensures counters == Purged(old(counters), now)
    {
      counters := Purged(counters, now);
    }

    /** The wrapper around a limited endpoint: refused exactly when the counted hits exceed the limit. */
    method Call(key: string, limit: Limit, now: real, answers: bool) returns (verdict: Verdict)
      modifies this
      ensures var after := Next(old(counters), key, limit, now, answers);
              counters == after.0 && verdict == after.1
      ensures !answers ==> counters == old(counters) && verdict == Admitted
      ensures var counter := (key, WindowStart(now, Seconds(limit.period)));
              var hits := CountOf(old(counters), counter) + 1;
              answers ==>
                && counters == old(counters)[counter := hits]
                && verdict == if hits > limit.max then Refused(Seconds(limit.period)) else Admitted
    {
      var w := Seconds(limit.period);
      var hits := Increment(key, w, now, answers);
      if hits.Some? && hits.value > limit.max {
        return Refused(w);
      }
      verdict := Admitted;
    }
  }

  function Next(counters: Counters, key: string, limit: Limit, now: real, answers: bool): (Counters, Verdict) {
    if !answers then (counters, Admitted)
    else
      var counter := (key, WindowStart(now, Seconds(limit.period)));
      var after := Incremented(counters, counter);
      (after, if after[counter] > limit.max then Refused(Seconds(limit.period)) else Admitted)
  }

  // ── Runs ──────────────────────────────────────────────────────────────────────────────────────

  datatype Act = Call(key: string, now: real, answers: bool) | Purge(now: real)

  /** One limited call: whether the store counted it, and whether it was let through. */
  datatype Entry = Entry(key: string, now: real, counted: bool, admitted: bool)

  datatype State = State(counters: Counters, clock: real, log: seq<Entry>)

  /** Every key's limit: a key names one endpoint, which has one limit. */
  type Limits = string -> Limit

  function Apply(s: State, limits: Limits, a: Act): State {
    match a
    case Call(key, now, answers) =>
      var after := Next(s.counters, key, limits(key), now, answers);
      State(after.0, now, s.log + [Entry(key, now, answers, after.1.Admitted?)])
    case Purge(now) => State(Purged(s.counters, now), now, s.log)
  }

  /** Time does not go backwards. */
  predicate Enabled(s: State, a: Act) { s.clock <= a.now }

  predicate IsRun(s: State, limits: Limits, acts: seq<Act>)
    decreases |acts|
  {
    acts == [] || (Enabled(s, acts[0]) && IsRun(Apply(s, limits, acts[0]), limits, acts[1..]))
  }

  function After(s: State, limits: Limits, acts: seq<Act>): State
    decreases |acts|
  {
    if acts == [] then s else After(Apply(s, limits, acts[0]), limits, acts[1..])
  }

  function Init(): State { State(map[], 0.0, []) }

  predicate InWindow(e: Entry, key: string, limits: Limits, start: int) {
    e.key == key && WindowStart(e.now, Seconds(limits(key).period)) == start
  }

  /** The calls the store counted in one window, and those of them let through. */
  function Counted(log: seq<Entry>, limits: Limits, key: string, start: int): nat {
    if log == [] then 0
    else
      var e := log[|log| - 1];
      Counted(log[..|log| - 1], limits, key, start) + if e.counted && InWindow(e, key, limits, start) then 1 else 0
  }

  function LetThrough(log: seq<Entry>, limits: Limits, key: string, start: int): nat {
    if log == [] then 0
    else
      var e := log[|log| - 1];
      LetThrough(log[..|log| - 1], limits, key, start)
      + if e.counted && e.admitted && InWindow(e, key, limits, start) then 1 else 0
  }

  function Min(a: nat, b: nat): nat { if a < b then a else b }

  /** A live window's counter is the number of calls it counted; a missing counter is a window that is
      over for good. */
  ghost predicate WindowInv(s: State, limits: Limits, key: string, start: int) {
    && LetThrough(s.log, limits, key, start) == Min(limits(key).max, Counted(s.log, limits, key, start))
    && (|| CountOf(s.counters, (key, start)) == Counted(s.log, limits, key, start)
        || (start as real) < s.clock - DAY as real)
  }

  ghost predicate Inv(s: State, limits: Limits) {
    forall key, start :: WindowInv(s, limits, key, start)
  }

  /** The window a moment falls in is never one a purge at or before that moment deletes. */
  lemma LiveWindowIsKept(now: real, w: nat)
    requires 0 < w <= DAY
    ensures !((WindowStart(now, w) as real) < now - DAY as real)
  {
    assert now < now.Floor as real + 1.0;
    assert now.Floor % w <= w - 1;
    assert WindowStart(now, w) >= now.Floor - DAY + 1;
  }

  lemma CallKeepsWindow(s: State, limits: Limits, a: Act, key: string, start: int)
    requires WindowInv(s, limits, key, start) && Enabled(s, a) && a.Call?
    ensures WindowInv(Apply(s, limits, a), limits, key, start)
  {
    var after := Apply(s, limits, a);
    assert after.log[..|after.log| - 1] == s.log;
    LiveWindowIsKept(a.now, Seconds(limits(a.key).period));
  }

  lemma ApplyKeepsInv(s: State, limits: Limits, a: Act)
    requires Inv(s, limits) && Enabled(s, a)
    ensures Inv(Apply(s, limits, a), limits)
  {
    forall key, start ensures WindowInv(Apply(s, limits, a), limits, key, start) {
      assert WindowInv(s, limits, key, start);
      if a.Call? {
        CallKeepsWindow(s, limits, a, key, start);
      }
    }
  }

  lemma {:induction false} RunKeepsInv(s: State, limits: Limits, acts: seq<Act>)
    requires Inv(s, limits) && IsRun(s, limits, acts)
    ensures Inv(After(s, limits, acts), limits)
    decreases |acts|
  {
    if acts != [] {
      ApplyKeepsInv(s, limits, acts[0]);
      RunKeepsInv(Apply(s, limits, acts[0]), limits, acts[1..]);
    }
  }

  /** In every run, purges included, a window lets through exactly the first `max` of the calls it
      counted, and a counter of a window that can still be hit is never purged. */
  lemma WindowLetsThroughItsLimit(limits: Limits, acts: seq<Act>, key: string, start: int)
    requires IsRun(Init(), limits, acts)
    ensures var s := After(Init(), limits, acts);
            && LetThrough(s.log, limits, key, start) == Min(limits(key).max, Counted(s.log, limits, key, start))
            && (start >= WindowStart(s.clock, Seconds(limits(key).period)) ==>
                  CountOf(s.counters, (key, start)) == Counted(s.log, limits, key, start))
  {
    RunKeepsInv(Init(), limits, acts);
    var s := After(Init(), limits, acts);
    assert WindowInv(s, limits, key, start);
    LiveWindowIsKept(s.clock, Seconds(limits(key).period));
  }

  // ── Any span of one window's length ───────────────────────────────────────────────────────────

  predicate InSpan(e: Entry, key: string, from: real, to: real) { e.key == key && from <= e.now <= to }

  function LetThroughIn(log: seq<Entry>, key: string, from: real, to: real): nat {
    if log == [] then 0
    else
      var e := log[|log| - 1];
      LetThroughIn(log[..|log| - 1], key, from, to)
      + if e.counted && e.admitted && InSpan(e, key, from, to) then 1 else 0
  }

  lemma NextWindow(epoch: int, w: nat, q: int)
    requires w > 0 && q * w <= epoch < (q + 1) * w
    ensures epoch - epoch % w == q * w
  {
    assert epoch == (epoch / w) * w + epoch % w;
    if epoch / w < q {
      Scaled(epoch / w + 1, q, w);
    }
  }

  lemma Scaled(a: int, b: int, w: nat)
    requires a <= b
    ensures a * w <= b * w
  {
  }

  /** A moment at most one window length after `from` is in the window of `from` or the next. */
  lemma TwoWindows(from: real, now: real, w: nat)
    requires w > 0 && from <= now <= from + w as real
    ensures WindowStart(now, w) == WindowStart(from, w) || WindowStart(now, w) == WindowStart(from, w) + w
  {
    var f, n := from.Floor, now.Floor;
    var q := f / w;
    assert f == q * w + f % w;
    assert f <= n <= f + w;
    if n < (q + 1) * w {
      NextWindow(n, w, q);
    } else {
      assert (q + 2) * w == q * w + 2 * w;
      NextWindow(n, w, q + 1);
    }
  }

  lemma {:induction false} SpanIsTwoWindows(log: seq<Entry>, limits: Limits, key: string, from: real)
    ensures var w := Seconds(limits(key).period);
            LetThroughIn(log, key, from, from + w as real) <=
            LetThrough(log, limits, key, WindowStart(from, w)) + LetThrough(log, limits, key, WindowStart(from, w) + w)
  {
    if log != [] {
      var w := Seconds(limits(key).period);
      SpanIsTwoWindows(log[..|log| - 1], limits, key, from);
      if InSpan(log[|log| - 1], key, from, from + w as real) {
        TwoWindows(from, log[|log| - 1].now, w);
      }
    }
  }

  /** In every run, any span as long as one window lets through at most twice the limit. */
  lemma SpanLetsThroughTwiceItsLimit(limits: Limits, acts: seq<Act>, key: string, from: real)
    requires IsRun(Init(), limits, acts)
    ensures LetThroughIn(After(Init(), limits, acts).log, key, from, from + Seconds(limits(key).period) as real)
         <= 2 * limits(key).max
  {
    var w := Seconds(limits(key).period);
    WindowLetsThroughItsLimit(limits, acts, key, WindowStart(from, w));
    WindowLetsThroughItsLimit(limits, acts, key, WindowStart(from, w) + w);
    SpanIsTwoWindows(After(Init(), limits, acts).log, limits, key, from);
  }

  // ── The bound is reached ──────────────────────────────────────────────────────────────────────

  function CounterAt(limits: Limits, key: string, at: real): Counter {
    (key, WindowStart(at, Seconds(limits(key).period)))
  }

  function Burst(key: string, at: real, n: nat): seq<Act> {
    if n == 0 then [] else [Act.Call(key, at, true)] + Burst(key, at, n - 1)
  }

  lemma BurstNext(key: string, at: real, n: nat)
    requires n > 0
    ensures Burst(key, at, n)[0] == Act.Call(key, at, true) && Burst(key, at, n)[1..] == Burst(key, at, n - 1)
  {
  }

  lemma {:induction false} BurstRuns(s: State, limits: Limits, key: string, at: real, n: nat, rest: seq<Act>)
    requires s.clock <= at
    ensures IsRun(s, limits, Burst(key, at, n) + rest) <==> IsRun(After(s, limits, Burst(key, at, n)), limits, rest)
    ensures After(s, limits, Burst(key, at, n) + rest) == After(After(s, limits, Burst(key, at, n)), limits, rest)
    decreases n
  {
    if n == 0 {
      assert Burst(key, at, n) + rest == rest;
    } else {
      var act := Act.Call(key, at, true);
      var all := Burst(key, at, n) + rest;
      BurstNext(key, at, n);
      assert all[0] == act && all[1..] == Burst(key, at, n - 1) + rest;
      BurstRuns(Apply(s, limits, act), limits, key, at, n - 1, rest);
    }
  }

  /** While the limit has room for all of a burst, all of it is let through; it counts in no other window. */
  lemma {:induction false} BurstLetsThrough(s: State, limits: Limits, key: string, at: real, n: nat)
    requires s.clock <= at
    ensures var after := After(s, limits, Burst(key, at, n));
            && after.clock <= at
            && (forall to, from ::
                  from <= at <= to && CountOf(s.counters, CounterAt(limits, key, at)) + n <= limits(key).max ==>
                  LetThroughIn(after.log, key, from, to) == LetThroughIn(s.log, key, from, to) + n)
            && (forall c: Counter :: c != CounterAt(limits, key, at) ==>
                  CountOf(after.counters, c) == CountOf(s.counters, c))
    decreases n
  {
    if n > 0 {
      BurstNext(key, at, n);
      var next := Apply(s, limits, Act.Call(key, at, true));
      assert next.log[..|next.log| - 1] == s.log;
      BurstLetsThrough(next, limits, key, at, n - 1);
    }
  }

  /** For every limit whose window is longer than a second, a burst at a window's last second and one
      at the next window's start let through twice the limit within one second. */
  lemma TwiceTheLimitIsReached(limits: Limits, key: string) returns (acts: seq<Act>)
    requires Seconds(limits(key).period) > 1
    ensures IsRun(Init(), limits, acts)
    ensures var w := Seconds(limits(key).period);
            LetThroughIn(After(Init(), limits, acts).log, key, (w - 1) as real, w as real) == 2 * limits(key).max
  {
    var w, max := Seconds(limits(key).period), limits(key).max;
    var last, first := (w - 1) as real, w as real;
    NextWindow(w - 1, w, 0);
    NextWindow(w, w, 1);
    acts := Burst(key, last, max) + Burst(key, first, max);
    BurstRuns(Init(), limits, key, last, max, Burst(key, first, max));
    BurstLetsThrough(Init(), limits, key, last, max);
    var middle := After(Init(), limits, Burst(key, last, max));
    BurstRuns(middle, limits, key, first, max, []);
    BurstLetsThrough(middle, limits, key, first, max);
    assert Burst(key, first, max) + [] == Burst(key, first, max);
    assert LetThroughIn(middle.log, key, last, first) == max;
    assert CountOf(middle.counters, (key, WindowStart(first, w))) == 0;
  }

  // ── The keys ──────────────────────────────────────────────────────────────────────────────────

  function KeyOf(scope: string, ip: string): string { scope + ":" + ip }

  /** Endpoints and clients never share a counter: module paths hold no colon. */
  lemma KeysAreDistinct(scope: string, ip: string, otherScope: string, otherIp: string)
    requires ':' !in scope && ':' !in otherScope
    requires KeyOf(scope, ip) == KeyOf(otherScope, otherIp)
    ensures scope == otherScope && ip == otherIp
  {
    var a, b := KeyOf(scope, ip), KeyOf(otherScope, otherIp);
    assert a[|scope|] == ':' && b[|otherScope|] == ':';
    assert forall i :: 0 <= i < |scope| ==> a[i] == scope[i] != ':';
    assert forall i :: 0 <= i < |otherScope| ==> b[i] == otherScope[i] != ':';
    assert a[..|scope|] == scope && b[..|scope|] == otherScope;
    assert a[|scope| + 1..] == ip && b[|scope| + 1..] == otherIp;
  }
}
