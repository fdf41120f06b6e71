/** The process-local sliding-window limiter (rate_limit.py `InMemoryRateLimiter`): lazy trimming,
    LRU eviction and an amortised sweep, refined to "count the log". */
module SlidingWindow {
  import opened Sequences

  datatype Admission = Admission(key: string, at: real)

  // ---------------------------------------------------------------- the naive limiter

  /** Times at which the key was admitted, oldest first. */
  function Times(log: seq<Admission>, key: string): seq<real> {
    if log == [] then []
    else Times(log[..|log| - 1], key) + (if log[|log| - 1].key == key then [log[|log| - 1].at] else [])
  }

  /** How many of these lie after the cutoff. */
  function CountAfter(times: seq<real>, cutoff: real): nat {
    if times == [] then 0 else (if times[0] > cutoff then 1 else 0) + CountAfter(times[1..], cutoff)
  }

  /** Admissions of the key, from log entry `from` on, after the cutoff. */
  function InWindow(log: seq<Admission>, from: nat, key: string, cutoff: real): nat {
    CountAfter(Times(From(log, from), key), cutoff)
  }

  function From(log: seq<Admission>, from: nat): seq<Admission> {
    if from <= |log| then log[from..] else []
  }

  ghost predicate Sorted(times: seq<real>) {
    forall i, j | 0 <= i < j < |times| :: times[i] <= times[j]
  }

  ghost predicate Ordered(log: seq<Admission>, clock: real) {
    && (forall i, j | 0 <= i < j < |log| :: log[i].at <= log[j].at)
    && (forall i | 0 <= i < |log| :: log[i].at <= clock)
  }

  lemma {:induction false} TimesSorted(log: seq<Admission>, key: string, clock: real)
    requires Ordered(log, clock)
    ensures Sorted(Times(log, key)) && forall i | 0 <= i < |Times(log, key)| :: Times(log, key)[i] <= clock
  {
    if log != [] {
      var last := log[|log| - 1];
      TimesSorted(log[..|log| - 1], key, last.at);
    }
  }

  lemma {:induction false} CountConcat(a: seq<real>, b: seq<real>, cutoff: real)
    ensures CountAfter(a + b, cutoff) == CountAfter(a, cutoff) + CountAfter(b, cutoff)
  {
    if a == [] {
      assert a + b == b;
    } else {
      assert (a + b)[1..] == a[1..] + b;
      CountConcat(a[1..], b, cutoff);
    }
  }

  lemma {:induction false} CountNone(a: seq<real>, cutoff: real)
    requires forall i | 0 <= i < |a| :: a[i] <= cutoff
    ensures CountAfter(a, cutoff) == 0
  {
    if a != [] { CountNone(a[1..], cutoff); }
  }

  lemma {:induction false} CountAll(a: seq<real>, cutoff: real)
    requires forall i | 0 <= i < |a| :: a[i] > cutoff
    ensures CountAfter(a, cutoff) == |a|
  {
    if a != [] { CountAll(a[1..], cutoff); }
  }

  lemma {:induction false} CountLower(a: seq<real>, high: real, low: real)
    requires low <= high
    ensures CountAfter(a, high) <= CountAfter(a, low) <= |a|
  {
    if a != [] { CountLower(a[1..], high, low); }
  }

  lemma {:induction false} TimesConcat(a: seq<Admission>, b: seq<Admission>, key: string)
    ensures Times(a + b, key) == Times(a, key) + Times(b, key)
  {
    if b == [] {
      assert a + b == a;
    } else {
      assert (a + b)[..|a + b| - 1] == a + b[..|b| - 1];
      TimesConcat(a, b[..|b| - 1], key);
    }
  }

  // ---------------------------------------------------------------- what the dict holds

  /** The held times are the newest of the recorded ones; what is missing had left the window. */
  ghost predicate Tracks(held: seq<real>, times: seq<real>, floor: real) {
    && |held| <= |times| && held == times[|times| - |held|..]
    && forall i | 0 <= i < |times| - |held| :: times[i] <= floor
  }

  lemma TracksLater(held: seq<real>, times: seq<real>, floor: real, later: real)
    requires Tracks(held, times, floor) && floor <= later
    ensures Tracks(held, times, later)
  {
  }

  lemma TracksPush(held: seq<real>, times: seq<real>, floor: real, now: real)
    requires Tracks(held, times, floor)
    ensures Tracks(held + [now], times + [now], floor)
  {
  }

  /** Once trimmed, the deque's length is the naive count. */
  lemma TrimmedIsCount(held: seq<real>, times: seq<real>, cutoff: real)
    requires Tracks(held, times, cutoff) && Sorted(times)
    requires held == [] || held[0] > cutoff
    ensures |held| == CountAfter(times, cutoff)
  {
    var n := |times| - |held|;
    assert times == times[..n] + held;
    CountConcat(times[..n], held, cutoff);
    CountNone(times[..n], cutoff);
    forall i | 0 <= i < |held| ensures held[i] > cutoff {
      assert held[i] == times[n + i] && held[0] == times[n];
    }
    CountAll(held, cutoff);
  }

  /** What is missing from the front is counted in `pops`, or went with an eviction. */
  ghost predicate KeyState(held: seq<real>, log: seq<Admission>, since: nat, pops: nat, key: string,
                           floor: real, maxRequests: int)
  {
    && since <= |log|
    && Tracks(held, Times(log[since..], key), floor)
    && (held == [] || |held| <= maxRequests)
    && pops + |held| <= |Times(log, key)|
  }

  /** No admission of a key since its last eviction ever overfilled its window. */
  ghost predicate NeverOverfull(log: seq<Admission>, i: nat, since: nat, width: real, maxRequests: int)
    requires i < |log|
  {
    since <= i ==> InWindow(log[..i + 1], since, log[i].key, log[i].at - width) <= maxRequests
  }

  lemma KeyStateLater(held: seq<real>, log: seq<Admission>, since: nat, pops: nat, key: string,
                      floor: real, later: real, maxRequests: int)
    requires KeyState(held, log, since, pops, key, floor, maxRequests) && floor <= later
    ensures KeyState(held, log, since, pops, key, later, maxRequests)
  {
    TracksLater(held, Times(log[since..], key), floor, later);
  }

  /** Dropping expired entries from the front keeps the key's state right. */
  lemma KeyStatePop(held: seq<real>, n: nat, log: seq<Admission>, since: nat, pops: nat, key: string,
                    floor: real, maxRequests: int)
    requires KeyState(held, log, since, pops, key, floor, maxRequests)
    requires n <= |held| && forall i | 0 <= i < n :: held[i] <= floor
    ensures KeyState(held[n..], log, since, pops + n, key, floor, maxRequests)
  {
    hide Times;
  }

  /** An admission of another key changes nothing for this one. */
  lemma KeyStateOther(held: seq<real>, log: seq<Admission>, since: nat, pops: nat, key: string,
                      floor: real, maxRequests: int, a: Admission)
    requires KeyState(held, log, since, pops, key, floor, maxRequests) && a.key != key
    ensures KeyState(held, log + [a], since, pops, key, floor, maxRequests)
  {
    assert (log + [a])[since..] == log[since..] + [a];
    TimesConcat(log[since..], [a], key);
    TimesConcat(log, [a], key);
    assert Times([a], key) == [];
  }

  lemma KeyStatePush(held: seq<real>, log: seq<Admission>, since: nat, pops: nat, key: string,
                     floor: real, maxRequests: int, now: real)
    requires KeyState(held, log, since, pops, key, floor, maxRequests) && |held| < maxRequests
    ensures KeyState(held + [now], log + [Admission(key, now)], since, pops, key, floor, maxRequests)
  {
    var a := Admission(key, now);
    assert (log + [a])[since..] == log[since..] + [a];
    TimesConcat(log[since..], [a], key);
    TimesConcat(log, [a], key);
    assert Times([a], key) == [now] by { assert [a][..0] == []; }
    TracksPush(held, Times(log[since..], key), floor, now);
  }

  /** A trimmed deque answers the naive question. */
  lemma TrimmedAnswers(held: seq<real>, log: seq<Admission>, since: nat, pops: nat, key: string,
                       cutoff: real, maxRequests: int, now: real)
    requires KeyState(held, log, since, pops, key, cutoff, maxRequests) && Ordered(log, now)
    requires held == [] || held[0] > cutoff
    ensures |held| == InWindow(log, since, key, cutoff) <= InWindow(log, 0, key, cutoff)
  {
    TimesSorted(log[since..], key, now);
    TrimmedIsCount(held, Times(log[since..], key), cutoff);
    assert log == log[..since] + log[since..] && log[0..] == log;
    TimesConcat(log[..since], log[since..], key);
    CountConcat(Times(log[..since], key), Times(log[since..], key), cutoff);
  }

  /** The admission just made did not overfill the window it was counted in. */
  lemma AdmissionFits(log: seq<Admission>, since: nat, key: string, now: real, width: real, maxRequests: int)
    requires since <= |log| && InWindow(log, since, key, now - width) < maxRequests
    ensures NeverOverfull(log + [Admission(key, now)], |log|, since, width, maxRequests)
  {
    var a := Admission(key, now);
    assert (log + [a])[..|log| + 1] == log + [a];
    assert (log + [a])[since..] == log[since..] + [a];
    TimesConcat(log[since..], [a], key);
    assert Times([a], key) == [now] by { assert [a][..0] == []; }
    CountConcat(Times(log[since..], key), [now], now - width);
  }

  lemma NeverOverfullKept(log: seq<Admission>, i: nat, since: nat, width: real, maxRequests: int, a: Admission)
    requires i < |log| && NeverOverfull(log, i, since, width, maxRequests)
    ensures NeverOverfull(log + [a], i, since, width, maxRequests)
  {
    assert (log + [a])[..i + 1] == log[..i + 1];
  }

  /** Any interval of one window's length, wherever it ends, holds at most `maxRequests` admissions
      made since the key was last evicted. */
  lemma {:induction false} AnyWindowIsLimited(log: seq<Admission>, key: string, since: nat, width: real,
                                              maxRequests: nat, clock: real, t: real)
    requires Ordered(log, clock) && since <= |log| && width >= 0.0
    requires forall i | since <= i < |log| && log[i].key == key :: NeverOverfull(log, i, since, width, maxRequests)
    ensures InWindow(log, since, key, t - width) - InWindow(log, since, key, t) <= maxRequests
  {
    hide NeverOverfull, Times, CountAfter, Ordered, InWindow;
    if since < |log| {
      var n := |log| - 1;
      var shorter, last := log[..n], log[n];
      OneMore(shorter, last, since, key, t - width);
      OneMore(shorter, last, since, key, t);
      assert log == shorter + [last];
      if last.key == key && last.at <= t {
        LastFits(log, since, width, maxRequests, clock, t);
      } else {
        FrontFits(log, key, since, width, maxRequests, clock);
        AnyWindowIsLimited(shorter, key, since, width, maxRequests, clock, t);
      }
    } else {
      NothingYet(log, key, t - width);
      NothingYet(log, key, t);
    }
  }

  lemma NothingYet(log: seq<Admission>, key: string, cutoff: real)
    ensures InWindow(log, |log|, key, cutoff) == 0
  {
    assert log[|log|..] == [];
  }

  lemma NeverOverfullShorter(log: seq<Admission>, n: nat, i: nat, since: nat, width: real, maxRequests: int)
    requires i < n <= |log| && NeverOverfull(log, i, since, width, maxRequests)
    ensures NeverOverfull(log[..n], i, since, width, maxRequests)
  {
    assert log[..n][..i + 1] == log[..i + 1];
  }

  lemma FrontFits(log: seq<Admission>, key: string, since: nat, width: real, maxRequests: int, clock: real)
    requires Ordered(log, clock) && since < |log|
    requires forall i | since <= i < |log| && log[i].key == key :: NeverOverfull(log, i, since, width, maxRequests)
    ensures var front := log[..|log| - 1];
      && Ordered(front, clock)
      && forall i | since <= i < |front| && front[i].key == key :: NeverOverfull(front, i, since, width, maxRequests)
  {
    hide NeverOverfull;
    var n := |log| - 1;
    forall i | since <= i < n && log[..n][i].key == key
      ensures NeverOverfull(log[..n], i, since, width, maxRequests)
    {
      assert log[i].key == key && NeverOverfull(log, i, since, width, maxRequests);
      NeverOverfullShorter(log, n, i, since, width, maxRequests);
    }
  }

  /** How the count grows when an admission is recorded. */
  lemma OneMore(log: seq<Admission>, a: Admission, since: nat, key: string, cutoff: real)
    requires since <= |log|
    ensures InWindow(log + [a], since, key, cutoff) ==
      InWindow(log, since, key, cutoff) + if a.key == key && a.at > cutoff then 1 else 0
  {
    assert (log + [a])[since..] == log[since..] + [a];
    TimesConcat(log[since..], [a], key);
    assert [a][..0] == [];
    assert Times([a], key) == if a.key == key then [a.at] else [];
    CountConcat(Times(log[since..], key), Times([a], key), cutoff);
  }

  lemma LastFits(log: seq<Admission>, since: nat, width: real, maxRequests: nat, clock: real, t: real)
    requires Ordered(log, clock) && since < |log| && log[|log| - 1].at <= t
    requires NeverOverfull(log, |log| - 1, since, width, maxRequests)
    ensures InWindow(log, since, log[|log| - 1].key, t - width) <= maxRequests
  {
    var last := log[|log| - 1];
    assert log[..|log| - 1 + 1] == log;
    CountLower(Times(log[since..], last.key), t - width, last.at - width);
  }

  /** The admissions of a key after the cutoff, as places in the log. */
  function Places(log: seq<Admission>, from: nat, key: string, cutoff: real): set<nat> {
    set i: nat | from <= i < |log| && log[i].key == key && log[i].at > cutoff
  }

  /** The naive count is the number of log entries of the key later than the cutoff, nothing less. */
  lemma {:induction false} InWindowIsCount(log: seq<Admission>, from: nat, key: string, cutoff: real)
    requires from <= |log|
    ensures InWindow(log, from, key, cutoff) == |Places(log, from, key, cutoff)|
    decreases |log|
  {
    hide InWindow;
    if |log| == from {
      NothingYet(log, key, cutoff);
      assert Places(log, from, key, cutoff) == {};
    } else {
      var n := |log| - 1;
      InWindowIsCount(log[..n], from, key, cutoff);
      assert log == log[..n] + [log[n]];
      OneMore(log[..n], log[n], from, key, cutoff);
      assert Places(log, from, key, cutoff) == Places(log[..n], from, key, cutoff)
        + if log[n].key == key && log[n].at > cutoff then {n} else {};
    }
  }

  // ---------------------------------------------------------------- the recency order

  function IsNot(key: string): string -> bool { k => k != key }

  function Without(order: seq<string>, key: string): seq<string> { Filter(IsNot(key), order) }

  function Count(m: map<string, nat>, key: string): nat {
    if key in m then m[key] else 0
  }

  /** The key that would be evicted to make room for `key`. */
  function Oldest(order: seq<string>, key: string): string {
    if order == [] then key else order[0]
  }

  /** Strictly older to newer use. */
  ghost predicate ByRecency(order: seq<string>, used: map<string, nat>, calls: nat) {
    && (forall i, j | 0 <= i < j < |order| :: Count(used, order[i]) < Count(used, order[j]))
    && (forall k | k in order :: Count(used, k) < calls)
  }

  lemma {:induction false} WithoutKeepsRecency(order: seq<string>, key: string, used: map<string, nat>, calls: nat)
    requires ByRecency(order, used, calls)
    ensures ByRecency(Without(order, key), used, calls)
    ensures |Without(order, key)| == |order| - (if key in order then 1 else 0)
    ensures key !in order ==> Without(order, key) == order
  {
    if order != [] {
      hide Count, ByRecency;
      FirstLeaves(order, used, calls);
      WithoutKeepsRecency(order[1..], key, used, calls);
      if order[0] != key {
        FirstArrives(order[0], Without(order[1..], key), used, calls);
      }
    }
  }

  lemma FirstArrives(k: string, rest: seq<string>, used: map<string, nat>, calls: nat)
    requires ByRecency(rest, used, calls) && Count(used, k) < calls
    requires forall e | e in rest :: Count(used, k) < Count(used, e)
    ensures ByRecency([k] + rest, used, calls)
  {
    hide Count;
    var all := [k] + rest;
    forall i, j | 0 <= i < j < |all| ensures Count(used, all[i]) < Count(used, all[j]) {
      assert all[j] == rest[j - 1];
      if i > 0 { assert all[i] == rest[i - 1]; }
    }
  }

  /** The least recently used key leaves; the others keep their order. */
  lemma FirstLeaves(order: seq<string>, used: map<string, nat>, calls: nat)
    requires ByRecency(order, used, calls) && order != []
    ensures ByRecency(order[1..], used, calls) && Count(used, order[0]) < calls
    ensures order[0] !in order[1..]
    ensures forall k | k in order[1..] :: k in order && Count(used, order[0]) < Count(used, k)
    ensures forall k | k in order && k != order[0] :: k in order[1..]
  {
    hide Count;
    forall k | k in order[1..] ensures k in order && Count(used, order[0]) < Count(used, k) {
      var j :| 0 <= j < |order[1..]| && order[1..][j] == k;
      assert order[1 + j] == k;
    }
  }

  /** `move_to_end`. */
  lemma TouchedLast(order: seq<string>, key: string, used: map<string, nat>, calls: nat)
    requires ByRecency(order, used, calls)
    ensures ByRecency(Without(order, key) + [key], used[key := calls], calls + 1)
  {
    WithoutKeepsRecency(order, key, used, calls);
    var rest := Without(order, key);
    assert forall k | k in rest :: k in order && k != key;
    hide Without;
    CountAfterTouch(used, key, calls);
    hide Count;
    var all := rest + [key];
    forall i, j | 0 <= i < j < |all| ensures Count(used[key := calls], all[i]) < Count(used[key := calls], all[j]) {
      assert all[i] == rest[i] && rest[i] in rest;
    }
  }

  lemma CountAfterTouch(used: map<string, nat>, key: string, calls: nat)
    ensures forall k :: Count(used[key := calls], k) == if k == key then calls else Count(used, k)
  {
    forall k ensures Count(used[key := calls], k) == if k == key then calls else Count(used, k) {
      assert k != key ==> (k in used[key := calls] <==> k in used);
    }
  }

  // ---------------------------------------------------------------- all keys at once

  function HeldIn(events: map<string, seq<real>>, key: string): seq<real> {
    if key in events then events[key] else []
  }

  ghost predicate KeyFits(key: string, events: map<string, seq<real>>, log: seq<Admission>, since: map<string, nat>,
                          pops: map<string, nat>, floor: real, maxRequests: int)
  {
    KeyState(HeldIn(events, key), log, Count(since, key), Count(pops, key), key, floor, maxRequests)
  }

  ghost predicate KeysFit(events: map<string, seq<real>>, log: seq<Admission>, since: map<string, nat>,
                          pops: map<string, nat>, floor: real, maxRequests: int)
  {
    forall key :: KeyFits(key, events, log, since, pops, floor, maxRequests)
  }

  ghost predicate NeverOver(log: seq<Admission>, since: map<string, nat>, width: real, maxRequests: int) {
    forall i | 0 <= i < |log| :: NeverOverfull(log, i, Count(since, log[i].key), width, maxRequests)
  }

  lemma KeysFitTrim(key: string, n: nat, events: map<string, seq<real>>, log: seq<Admission>,
                    since: map<string, nat>, pops: map<string, nat>, floor: real, maxRequests: int)
    requires KeysFit(events, log, since, pops, floor, maxRequests)
    requires key in events && n <= |events[key]| && forall i | 0 <= i < n :: events[key][i] <= floor
    ensures KeysFit(events[key := events[key][n..]], log, since, pops[key := Count(pops, key) + n], floor, maxRequests)
  {
    hide KeyState;
    var e, p := events[key := events[key][n..]], pops[key := Count(pops, key) + n];
    forall k ensures KeyFits(k, e, log, since, p, floor, maxRequests) {
      assert KeyFits(k, events, log, since, pops, floor, maxRequests);
      if k == key {
        KeyStatePop(events[key], n, log, Count(since, key), Count(pops, key), key, floor, maxRequests);
      }
    }
  }

  lemma KeysFitEvict(key: string, events: map<string, seq<real>>, log: seq<Admission>,
                     since: map<string, nat>, pops: map<string, nat>, floor: real, maxRequests: int)
    requires KeysFit(events, log, since, pops, floor, maxRequests)
    ensures KeysFit(events - {key}, log, since[key := |log|], pops, floor, maxRequests)
  {
    hide KeyState;
    var e, sn := events - {key}, since[key := |log|];
    forall k ensures KeyFits(k, e, log, sn, pops, floor, maxRequests) {
      assert KeyFits(k, events, log, since, pops, floor, maxRequests);
      if k == key {
        EvictedState(HeldIn(events, k), log, Count(since, k), Count(pops, k), k, floor, maxRequests);
      }
    }
  }

  lemma EvictedState(held: seq<real>, log: seq<Admission>, since: nat, pops: nat, key: string,
                     floor: real, maxRequests: int)
    requires KeyState(held, log, since, pops, key, floor, maxRequests)
    ensures KeyState([], log, |log|, pops, key, floor, maxRequests)
  {
    assert log[|log|..] == [];
  }

  lemma NeverOverEvict(key: string, log: seq<Admission>, since: map<string, nat>, width: real, maxRequests: int)
    requires NeverOver(log, since, width, maxRequests)
    ensures NeverOver(log, since[key := |log|], width, maxRequests)
  {
    hide InWindow;
    forall i | 0 <= i < |log|
      ensures NeverOverfull(log, i, Count(since[key := |log|], log[i].key), width, maxRequests)
    {
      assert NeverOverfull(log, i, Count(since, log[i].key), width, maxRequests);
    }
  }

  /** Deleting an empty window, or inserting one, and letting time pass. */
  lemma KeysFitLater(events: map<string, seq<real>>, same: map<string, seq<real>>, log: seq<Admission>,
                     since: map<string, nat>, pops: map<string, nat>, floor: real, later: real, maxRequests: int)
    requires KeysFit(events, log, since, pops, floor, maxRequests) && floor <= later
    requires forall k :: HeldIn(same, k) == HeldIn(events, k)
    ensures KeysFit(same, log, since, pops, later, maxRequests)
  {
    hide KeyState;
    forall k ensures KeyFits(k, same, log, since, pops, later, maxRequests) {
      assert KeyFits(k, events, log, since, pops, floor, maxRequests);
      KeyStateLater(HeldIn(events, k), log, Count(since, k), Count(pops, k), k, floor, later, maxRequests);
    }
  }

  lemma KeysFitAdmit(key: string, now: real, events: map<string, seq<real>>, log: seq<Admission>,
                     since: map<string, nat>, pops: map<string, nat>, floor: real, maxRequests: int)
    requires KeysFit(events, log, since, pops, floor, maxRequests)
    requires key in events && |events[key]| < maxRequests
    ensures KeysFit(events[key := events[key] + [now]], log + [Admission(key, now)], since, pops, floor, maxRequests)
  {
    hide KeyState;
    var a := Admission(key, now);
    var e := events[key := events[key] + [now]];
    forall k ensures KeyFits(k, e, log + [a], since, pops, floor, maxRequests) {
      assert KeyFits(k, events, log, since, pops, floor, maxRequests);
      if k == key {
        KeyStatePush(events[key], log, Count(since, k), Count(pops, k), k, floor, maxRequests, now);
      } else {
        KeyStateOther(HeldIn(events, k), log, Count(since, k), Count(pops, k), k, floor, maxRequests, a);
      }
    }
  }

  lemma NeverOverAdmit(key: string, now: real, log: seq<Admission>, since: map<string, nat>, width: real,
                       maxRequests: int)
    requires NeverOver(log, since, width, maxRequests)
    requires Count(since, key) <= |log| && InWindow(log, Count(since, key), key, now - width) < maxRequests
    ensures NeverOver(log + [Admission(key, now)], since, width, maxRequests)
  {
    hide InWindow, NeverOverfull;
    var a := Admission(key, now);
    forall i | 0 <= i < |log + [a]|
      ensures NeverOverfull(log + [a], i, Count(since, (log + [a])[i].key), width, maxRequests)
    {
      if i < |log| {
        NeverOverfullKept(log, i, Count(since, log[i].key), width, maxRequests, a);
      } else {
        AdmissionFits(log, Count(since, key), key, now, width, maxRequests);
      }
    }
  }

  lemma OthersKeepCount(m: map<string, nat>, key: string, other: string, n: nat)
    ensures Count(m[other := n], key) == if key == other then n else Count(m, key)
  {
  }

  class InMemoryRateLimiter {
    const maxRequests: int
    const windowSeconds: real
    const maxKeys: nat
    const compactEvery: int
    var order: seq<string>               // dict order: least recently used first
    var events: map<string, seq<real>>
    var sinceSweep: int
    ghost var log: seq<Admission>        // every admission ever made
    ghost var since: map<string, nat>    // log length when the key was last evicted
    ghost var pops: map<string, nat>     // front-pops so far, per key
    ghost var used: map<string, nat>     // number of the last call that served the key
    ghost var calls: nat
    ghost var clock: real

    constructor (maxRequests: int, windowSeconds: real, maxKeys: nat, compactEvery: int)
      ensures Valid() && log == [] && since == map[]
    {
      this.maxRequests, this.windowSeconds := maxRequests, windowSeconds;
      this.maxKeys, this.compactEvery := maxKeys, compactEvery;
      order, events, sinceSweep := [], map[], 0;
      log, since, pops, used, calls, clock := [], map[], map[], map[], 0, 0.0;
    }

    ghost predicate Structured()
      reads this
    {
      (forall k :: k in order <==> k in events) && ByRecency(order, used, calls)
    }

    ghost predicate Accurate()
      reads this
    {
      && Ordered(log, clock)
      && KeysFit(events, log, since, pops, clock - windowSeconds, maxRequests)
      && NeverOver(log, since, windowSeconds, maxRequests)
    }

    ghost predicate Valid()
      reads this
    {
      Structured() && Accurate() && |order| <= maxKeys
    }

    method Allow(key: string, now: real) returns (allowed: bool)
      requires Valid() && clock <= now
      modifies this
      ensures Valid() && clock == now
      ensures allowed <==> InWindow(old(log), Count(old(since), key), key, now - windowSeconds) < maxRequests
      ensures !allowed ==> InWindow(old(log), 0, key, now - windowSeconds) >= maxRequests
      ensures log == old(log) + if allowed then [Admission(key, now)] else []
      ensures since == old(since) ||
        (old(key !in events && |order| == maxKeys) && since == old(since)[Oldest(old(order), key) := |log|])
      ensures maxKeys >= 1 ==> Count(since, key) == Count(old(since), key)
      ensures maxKeys == 0 ==> order == [] && Count(since, key) == |log| && (allowed <==> maxRequests > 0)
      ensures used == old(used)[key := old(calls)] && calls == old(calls) + 1
      ensures var due := old(sinceSweep) + 1 >= (if compactEvery > 1 then compactEvery else 1);
        && sinceSweep == (if due then 0 else old(sinceSweep) + 1)
        && (due ==> forall k | k in events :: Live(k, now - windowSeconds))
        && (!due && (key in old(events) || old(|order|) < maxKeys) ==>
              forall k | k in old(events) && k != key :: k in events && events[k] == old(events)[k])
    {
      hide Structured, Accurate, InWindow, Without, Count;
      if maxKeys == 0 { NobodyIsHeld(key); }
      allowed := Admit(key, now);
      ghost var victim := order[0];
      OthersKeepCount(since, key, victim, |log|);
      EvictOverCap();
      assert since == old(since) || (victim == Oldest(old(order), key) && since == old(since)[victim := |log|]);
      MaybeSweep(now);
    }

    /** The key an eviction takes, the first in dict order, is the one whose last call is longest ago. */
    lemma OldestIsLeastRecent(key: string, other: string)
      requires Valid() && other in events && other != Oldest(order, key)
      ensures order != [] && Count(used, Oldest(order, key)) < Count(used, other) < calls
    {
      hide Count, Accurate;
      FirstLeaves(order, used, calls);
    }

    lemma NobodyIsHeld(key: string)
      requires Valid() && maxKeys == 0
      ensures key !in events && order == []
    {
    }

    /** Serves the key before anything is reclaimed. */
    method Admit(key: string, now: real) returns (allowed: bool)
      requires Valid() && clock <= now
      modifies this`order, this`events, this`pops, this`used, this`calls, this`clock, this`log
      ensures Structured() && Accurate() && clock == now
      ensures order == Without(old(order), key) + [key] && |order| <= maxKeys + 1
      ensures |order| > maxKeys ==>
        && key !in old(events) && old(|order|) == maxKeys && order[0] == Oldest(old(order), key)
        && (maxKeys >= 1 ==> order[0] != key)
      ensures allowed <==> InWindow(old(log), Count(since, key), key, now - windowSeconds) < maxRequests
      ensures !allowed ==> InWindow(old(log), 0, key, now - windowSeconds) >= maxRequests
      ensures log == old(log) + if allowed then [Admission(key, now)] else []
      ensures key !in old(events) ==> (allowed <==> maxRequests > 0)
      ensures used == old(used)[key := old(calls)] && calls == old(calls) + 1
      ensures forall k | k in old(events) && k != key :: k in events && events[k] == old(events)[k]
    {
      hide KeysFit, NeverOver, ByRecency, Ordered, InWindow, Without, Count;
      Touch(key, now);
      var cutoff := now - windowSeconds;
      Trim(key, cutoff);
      FitsAnswer(key, cutoff);
      allowed := |events[key]| < maxRequests;
      if allowed {
        Append(key, now);
      }
    }

    /** Whatever calls led here: a deque is sorted, in bounds and free of anything but the newest
        admissions, and its front-pops never outnumber the key's admissions. */
    lemma DequesAreSound(key: string)
      requires Valid()
      ensures Sorted(HeldIn(events, key)) && (HeldIn(events, key) == [] || |HeldIn(events, key)| <= maxRequests)
      ensures Count(pops, key) + |HeldIn(events, key)| <= |Times(log, key)|
      ensures Count(since, key) <= |log|
    {
      hide Times, NeverOver;
      assert KeyFits(key, events, log, since, pops, clock - windowSeconds, maxRequests);
      TimesSorted(log[Count(since, key)..], key, clock);
    }

    /** In no interval of one window's length were more than `maxRequests` calls of a key admitted,
        counting from its last eviction. */
    lemma RateIsLimited(key: string, t: real)
      requires Valid() && maxRequests >= 0 && windowSeconds >= 0.0
      ensures InWindow(log, Count(since, key), key, t - windowSeconds) - InWindow(log, Count(since, key), key, t)
        <= maxRequests
    {
      hide InWindow, NeverOverfull, KeysFit;
      DequesAreSound(key);
      forall i | Count(since, key) <= i < |log| && log[i].key == key
        ensures NeverOverfull(log, i, Count(since, key), windowSeconds, maxRequests)
      {
        assert NeverOverfull(log, i, Count(since, log[i].key), windowSeconds, maxRequests);
      }
      AnyWindowIsLimited(log, key, Count(since, key), windowSeconds, maxRequests, clock, t);
    }

    /** The trimmed deque of the served key answers the naive question. */
    lemma FitsAnswer(key: string, cutoff: real)
      requires Accurate() && key in events && cutoff == clock - windowSeconds
      requires events[key] == [] || events[key][0] > cutoff
      ensures Count(since, key) <= |log|
      ensures |events[key]| == InWindow(log, Count(since, key), key, cutoff) <= InWindow(log, 0, key, cutoff)
    {
      assert KeyFits(key, events, log, since, pops, cutoff, maxRequests);
      hide Times, CountAfter;
      TrimmedAnswers(events[key], log, Count(since, key), Count(pops, key), key, cutoff, maxRequests, clock);
    }

    /** Looks the key up, inserting an empty window, and marks it most recently used. */
    method Touch(key: string, now: real)
      requires Valid() && clock <= now
      modifies this`order, this`events, this`used, this`calls, this`clock
      ensures Structured() && Accurate() && clock == now && key in events
      ensures order == Without(old(order), key) + [key]
      ensures |order| == old(|order|) + if key in old(events) then 0 else 1
      ensures order[0] == Oldest(old(order), key) || key in old(events)
      ensures key !in old(events) ==> events[key] == []
      ensures used == old(used)[key := old(calls)] && calls == old(calls) + 1
      ensures forall k | k in old(events) && k != key :: k in events && events[k] == old(events)[k]
    {
      hide KeysFit, NeverOver, ByRecency, Count;
      WithoutKeepsRecency(order, key, used, calls);
      TouchedLast(order, key, used, calls);
      ghost var before, was := events, clock;
      if key !in events {
        events := events[key := []];
      }
      order := Without(order, key) + [key];
      used, calls, clock := used[key := calls], calls + 1, now;
      KeysFitLater(before, events, log, since, pops, was - windowSeconds, now - windowSeconds, maxRequests);
    }

    /** `while window and window[0] <= cutoff: window.popleft()` */
    method Trim(key: string, cutoff: real)
      requires key in events && Structured() && Accurate() && cutoff == clock - windowSeconds
      modifies this`events, this`pops
      ensures Structured() && Accurate() && events.Keys == old(events.Keys)
      ensures |events[key]| <= |old(events)[key]| && (events[key] == [] || events[key][0] > cutoff)
      ensures forall k | k in events && k != key :: events[k] == old(events)[k]
    {
      hide KeysFit, NeverOver, ByRecency;
      var window := events[key];
      ghost var n := 0;
      while window != [] && window[0] <= cutoff
        invariant 0 <= n <= |events[key]| && window == events[key][n..]
        invariant forall i | 0 <= i < n :: events[key][i] <= cutoff
      {
        assert window[0] == events[key][n];
        window := window[1..];
        n := n + 1;
      }
      KeysFitTrim(key, n, events, log, since, pops, cutoff, maxRequests);
      events := events[key := window];
      pops := pops[key := Count(pops, key) + n];
    }

    method Append(key: string, now: real)
      requires Structured() && Accurate() && clock == now && key in events && |events[key]| < maxRequests
      requires Count(since, key) <= |log| && InWindow(log, Count(since, key), key, now - windowSeconds) < maxRequests
      modifies this`events, this`log
      ensures Structured() && Accurate() && log == old(log) + [Admission(key, now)]
      ensures events == old(events[key := events[key] + [now]])
    {
      hide KeysFit, NeverOver, ByRecency, InWindow;
      KeysFitAdmit(key, now, events, log, since, pops, now - windowSeconds, maxRequests);
      NeverOverAdmit(key, now, log, since, windowSeconds, maxRequests);
      events := events[key := events[key] + [now]];
      log := log + [Admission(key, now)];
    }

    /** `popitem(last=False)` while over the cap: a dropped key starts afresh. */
    method EvictOverCap()
      requires Structured() && Accurate()
      modifies this`events, this`order, this`since
      ensures Valid()
      ensures old(|order|) <= maxKeys ==> order == old(order) && events == old(events) && since == old(since)
      ensures old(|order|) == maxKeys + 1 ==>
        order == old(order)[1..] && since == old(since)[old(order)[0] := |log|]
      ensures |order| <= old(|order|) && order == old(order)[old(|order|) - |order|..]
    {
      hide Structured, Accurate;
      ghost var evicted := 0;
      while |order| > maxKeys
        invariant Structured() && Accurate()
        invariant evicted <= |old(order)| && order == old(order)[evicted..]
        invariant evicted == 0 ==> events == old(events) && since == old(since)
        invariant evicted == 1 ==> since == old(since)[old(order)[0] := |log|]
        invariant evicted > 0 ==> |order| >= maxKeys
        decreases |order|
      {
        EvictOldest();
        evicted := evicted + 1;
      }
    }

    method EvictOldest()
      requires Structured() && Accurate() && order != []
      modifies this`events, this`order, this`since
      ensures Structured() && Accurate() && order == old(order)[1..]
      ensures events == old(events) - {old(order)[0]} && since == old(since)[old(order)[0] := |log|]
    {
      hide KeysFit, NeverOver, Ordered, ByRecency, Count;
      var key := order[0];
      KeysFitEvict(key, events, log, since, pops, clock - windowSeconds, maxRequests);
      NeverOverEvict(key, log, since, windowSeconds, maxRequests);
      FirstLeaves(order, used, calls);
      events := events - {key};
      order := order[1..];
      since := since[key := |log|];
    }

    /** The amortised sweep of idle keys: it reclaims every key with an empty window and, since it
        loses no live admission, changes no answer. */
    method MaybeSweep(now: real)
      requires Valid() && clock == now
      modifies this`events, this`order, this`pops, this`sinceSweep
      ensures Valid()
      ensures var due := old(sinceSweep) + 1 >= (if compactEvery > 1 then compactEvery else 1);
        && sinceSweep == (if due then 0 else old(sinceSweep) + 1)
        && (!due ==> events == old(events) && order == old(order))
        && (due ==> forall k | k in events :: events[k] != [] && events[k][0] > now - windowSeconds)
    {
      hide KeysFit, NeverOver, ByRecency, Ordered;
      sinceSweep := sinceSweep + 1;
      if sinceSweep < (if compactEvery > 1 then compactEvery else 1) {
        return;
      }
      sinceSweep := 0;
      SweepAll(now - windowSeconds);
    }

    method SweepAll(cutoff: real)
      requires Valid() && cutoff == clock - windowSeconds
      modifies this`events, this`order, this`pops
      ensures Valid() && forall k | k in events :: events[k] != [] && events[k][0] > cutoff
    {
      hide Structured, Accurate;
      var keys := order;
      KeysAreDistinct();
      var i := 0;
      while i < |keys|
        invariant 0 <= i <= |keys| && Valid()
        invariant forall k | k in events :: k in keys
        invariant forall j | i <= j < |keys| :: keys[j] in events
        invariant forall j | 0 <= j < i :: Live(keys[j], cutoff)
      {
        SweepKey(keys[i], cutoff);
        i := i + 1;
      }
    }

    lemma StillValid()
      requires Structured() && Accurate() && |order| <= maxKeys
      ensures Valid()
    {
    }

    lemma KeysAreDistinct()
      requires Structured()
      ensures forall i, j | 0 <= i < j < |order| :: order[i] != order[j]
      ensures forall k | k in events :: k in order
      ensures forall j | 0 <= j < |order| :: order[j] in events
    {
      hide Count;
    }

    predicate Live(key: string, cutoff: real)
      reads this
    {
      key in events ==> events[key] != [] && events[key][0] > cutoff
    }

    /** Trims one window and forgets the key if nothing is left. */
    method SweepKey(key: string, cutoff: real)
      requires Valid() && key in events && cutoff == clock - windowSeconds
      modifies this`events, this`order, this`pops
      ensures Valid() && Live(key, cutoff)
      ensures forall k | k != key :: k in events <==> k in old(events)
      ensures forall k | k != key && k in events :: events[k] == old(events)[k]
    {
      hide Structured, Accurate, Without;
      Trim(key, cutoff);
      StillValid();
      if events[key] == [] {
        Forget(key);
      }
    }

    /** Deletes a key whose window is empty: not an eviction, nothing is lost. */
    method Forget(key: string)
      requires Valid() && key in events && events[key] == []
      modifies this`events, this`order
      ensures Valid() && order == Without(old(order), key) && events == old(events) - {key}
    {
      hide KeysFit, NeverOver, ByRecency;
      WithoutKeepsRecency(order, key, used, calls);
      KeysFitLater(events, events - {key}, log, since, pops, clock - windowSeconds, clock - windowSeconds, maxRequests);
      events := events - {key};
      order := Without(order, key);
    }
  }
}
