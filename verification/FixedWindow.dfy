/** The fixed-window limiter with refunds (rate_limit.py `InProcessWindowLimiter`) and the daily
    quota that creating a turn spends through it (agent_quota.py, controller.py `create_turn`). */
module FixedWindow {
  import opened Sequences
  import opened EvidenceModels
  import Protocol = TurnProtocol

  datatype Bucket = Bucket(count: int, reset: real)

  datatype Call =
    | Allow(key: string, limit: int, width: real, at: real)
    | Refund(key: string, at: real)

  // ---------------------------------------------------------------- one bucket

  /** What the window open at that time has counted. */
  function Live(b: Option<Bucket>, now: real): int {
    if b.Some? && now < b.value.reset then b.value.count else 0
  }

  function BucketStep(b: Option<Bucket>, c: Call): Option<Bucket> {
    match c
    case Allow(_, _, width, now) =>
      if b.None? || now >= b.value.reset then Some(Bucket(1, now + width))
      else Some(Bucket(b.value.count + 1, b.value.reset))
    case Refund(_, now) =>
      if b.None? || now >= b.value.reset then b
      else if b.value.count <= 1 then None
      else Some(Bucket(b.value.count - 1, b.value.reset))
  }

  predicate Admits(b: Option<Bucket>, c: Call) {
    c.Allow? && Live(b, c.at) + 1 <= c.limit
  }

  function Get(buckets: map<string, Bucket>, key: string): Option<Bucket> {
    if key in buckets then Some(buckets[key]) else None
  }

  function Step(buckets: map<string, Bucket>, c: Call): map<string, Bucket> {
    match BucketStep(Get(buckets, c.key), c)
    case Some(b) => buckets[c.key := b]
    case None => buckets - {c.key}
  }

  class InProcessWindowLimiter {
    var buckets: map<string, Bucket>

    constructor ()
      ensures buckets == map[]
    {
      buckets := map[];
    }

    method Allow(key: string, limit: int, width: real, now: real) returns (allowed: bool)
      modifies this
      ensures buckets == Step(old(buckets), Call.Allow(key, limit, width, now))
      ensures allowed <==> Live(Get(old(buckets), key), now) < limit
      ensures key in buckets && buckets - {key} == old(buckets) - {key}
      ensures buckets[key] == if key in old(buckets) && now < old(buckets)[key].reset
                              then Bucket(old(buckets)[key].count + 1, old(buckets)[key].reset)
                              else Bucket(1, now + width)
    {
      var bucket := if key in buckets then buckets[key] else Bucket(0, now + width);
      var count, reset := bucket.count, bucket.reset;
      if now >= reset {
        count, reset := 0, now + width;
      }
      count := count + 1;
      // A width that is not positive opens a window that is over at once.
      buckets := buckets[key := Bucket(count, reset)];
      allowed := count <= limit;
    }

    method Refund(key: string, now: real)
      modifies this
      ensures buckets == Step(old(buckets), Call.Refund(key, now))
      ensures key !in old(buckets) || now >= old(buckets)[key].reset ==> buckets == old(buckets)
      ensures key in old(buckets) && now < old(buckets)[key].reset ==>
        buckets == if old(buckets)[key].count <= 1 then old(buckets) - {key}
                   else old(buckets)[key := Bucket(old(buckets)[key].count - 1, old(buckets)[key].reset)]
    {
      if key !in buckets {
        assert buckets - {key} == buckets;
        return;
      }
      var bucket := buckets[key];
      if now >= bucket.reset {
        return;
      }
      if bucket.count <= 1 {
        buckets := buckets - {key};
      } else {
        buckets := buckets[key := Bucket(bucket.count - 1, bucket.reset)];
      }
    }
  }

  // ---------------------------------------------------------------- runs

  function RunAll(buckets: map<string, Bucket>, calls: seq<Call>): map<string, Bucket>
    decreases |calls|
  {
    if calls == [] then buckets else RunAll(Step(buckets, calls[0]), calls[1..])
  }

  function Run(b: Option<Bucket>, calls: seq<Call>): Option<Bucket>
    decreases |calls|
  {
    if calls == [] then b else Run(BucketStep(b, calls[0]), calls[1..])
  }

  function Answers(b: Option<Bucket>, calls: seq<Call>): seq<bool>
    decreases |calls|
  {
    if calls == [] then []
    else [Admits(b, calls[0])] + Answers(BucketStep(b, calls[0]), calls[1..])
  }

  function OfKey(key: string): Call -> bool { (c: Call) => c.key == key }

  /** Interleaved calls on other keys never show in a key's bucket. */
  lemma {:induction false} KeysAreIndependent(buckets: map<string, Bucket>, calls: seq<Call>, key: string)
    ensures Get(RunAll(buckets, calls), key) == Run(Get(buckets, key), Filter(OfKey(key), calls))
    decreases |calls|
  {
    if calls != [] {
      KeysAreIndependent(Step(buckets, calls[0]), calls[1..], key);
      if calls[0].key == key {
        var mine := Filter(OfKey(key), calls);
        assert mine[0] == calls[0] && mine[1..] == Filter(OfKey(key), calls[1..]);
      }
    }
  }

  ghost predicate Monotone(calls: seq<Call>, start: real) {
    && (forall i | 0 <= i < |calls| :: calls[i].at >= start)
    && (forall i, j | 0 <= i < j < |calls| :: calls[i].at <= calls[j].at)
  }

  /** Two buckets nobody can tell apart from `now` on: equal, or neither counts any more. */
  predicate Alike(a: Option<Bucket>, b: Option<Bucket>, now: real) {
    a == b || ((a.None? || a.value.reset <= now) && (b.None? || b.value.reset <= now))
  }

  lemma {:induction false} AlikeAnswerAlike(a: Option<Bucket>, b: Option<Bucket>, calls: seq<Call>, now: real)
    requires Alike(a, b, now) && Monotone(calls, now)
    ensures Answers(a, calls) == Answers(b, calls)
    decreases |calls|
  {
    if calls != [] {
      assert Admits(a, calls[0]) == Admits(b, calls[0]);
      AlikeAnswerAlike(BucketStep(a, calls[0]), BucketStep(b, calls[0]), calls[1..], calls[0].at);
    }
  }

  predicate Positive(b: Option<Bucket>) {
    b.Some? ==> b.value.count >= 1
  }

  lemma {:induction false} RunPositive(b: Option<Bucket>, calls: seq<Call>)
    requires Positive(b)
    ensures Positive(Run(b, calls))
    decreases |calls|
  {
    if calls != [] {
      RunPositive(BucketStep(b, calls[0]), calls[1..]);
    }
  }

  /** A call that tells two buckets apart. */
  function Probe(a: Option<Bucket>, b: Option<Bucket>, now: real): Call {
    var la, lb := Live(a, now), Live(b, now);
    if la != lb then Allow("", (if la < lb then la else lb) + 1, 1.0, now)
    else if a.Some? && b.Some? && a.value.reset < b.value.reset then Allow("", 1, 1.0, a.value.reset)
    else if a.Some? && b.Some? then Allow("", 1, 1.0, b.value.reset)
    else Allow("", 1, 1.0, now)
  }

  /** Buckets that are not alike are told apart by one call. */
  lemma ProbeTells(a: Option<Bucket>, b: Option<Bucket>, now: real)
    requires Positive(a) && Positive(b) && !Alike(a, b, now)
    ensures Probe(a, b, now).at >= now && Admits(a, Probe(a, b, now)) != Admits(b, Probe(a, b, now))
  {
  }

  /** From `now` on two buckets give the same answers for ever if and only if they are alike. */
  lemma SameAnswersIff(a: Option<Bucket>, b: Option<Bucket>, now: real)
    requires Positive(a) && Positive(b)
    ensures (forall rest | Monotone(rest, now) :: Answers(a, rest) == Answers(b, rest)) <==> Alike(a, b, now)
  {
    if Alike(a, b, now) {
      forall rest | Monotone(rest, now) ensures Answers(a, rest) == Answers(b, rest) {
        AlikeAnswerAlike(a, b, rest, now);
      }
    } else {
      var rest := [Probe(a, b, now)];
      ProbeTells(a, b, now);
      assert Monotone(rest, now) && Answers(a, rest)[0] != Answers(b, rest)[0];
    }
  }

  // ---------------------------------------------------------------- what a refund undoes

  /** The bucket without some call counts one less than the one with it, in the same window, or both
      count nothing. */
  predicate OneLess(with: Option<Bucket>, without: Option<Bucket>, now: real) {
    var n, m := Live(with, now), Live(without, now);
    m == (if n > 0 then n - 1 else 0) && (m > 0 ==> with.value.reset == without.value.reset)
  }

  /** Whatever calls and refunds of the key come in between, of whatever windows, and whenever the
      refund comes: every later answer is as if the refunded call had never been made, if and only if
      without it the key would count one less in the same window when the refund comes. */
  lemma RefundLeavesNoTraceIff(b: Option<Bucket>, allow: Call, between: seq<Call>, refund: Call)
    requires Positive(b) && allow.Allow? && refund.Refund?
    ensures (forall rest | Monotone(rest, refund.at) ::
               Answers(BucketStep(Run(BucketStep(b, allow), between), refund), rest) == Answers(Run(b, between), rest))
            <==> OneLess(Run(BucketStep(b, allow), between), Run(b, between), refund.at)
  {
    RunPositive(b, between);
    RunPositive(BucketStep(b, allow), between);
    hide Run, Answers, Monotone;
    SameAnswersIff(BucketStep(Run(BucketStep(b, allow), between), refund), Run(b, between), refund.at);
  }

  /** Calls counted less calls refunded. */
  function Net(calls: seq<Call>): int {
    if calls == [] then 0
    else Net(calls[..|calls| - 1]) + if calls[|calls| - 1].Allow? then 1 else -1
  }

  /** One window width, and no more refunds than the n calls the window had counted and those made
      since: refunds of earlier requests may fall in between. */
  ghost predicate Paired(n: int, calls: seq<Call>, width: real) {
    && (forall c | c in calls :: c.Allow? ==> c.width == width)
    && forall k | 0 <= k <= |calls| :: Covered(n, calls, k)
  }

  predicate Covered(n: int, calls: seq<Call>, k: nat)
    requires k <= |calls|
  {
    n + Net(calls[..k]) >= 0
  }

  lemma PairedFront(n: int, calls: seq<Call>, width: real)
    requires Paired(n, calls, width)
    ensures n + Net(calls) >= 0
    ensures calls != [] ==> var m := |calls| - 1;
      && Paired(n, calls[..m], width)
      && Net(calls) == Net(calls[..m]) + (if calls[m].Allow? then 1 else -1)
      && (calls[m].Allow? ==> calls[m].width == width)
  {
    hide Net;
    assert Covered(n, calls, |calls|) && calls[..|calls|] == calls;
    if calls != [] {
      var m := |calls| - 1;
      NetLast(calls);
      CoveredFront(n, calls, width);
      assert calls[m] in calls && forall c | c in calls[..m] :: c in calls;
    }
  }

  lemma NetLast(calls: seq<Call>)
    requires calls != []
    ensures var m := |calls| - 1; Net(calls) == Net(calls[..m]) + if calls[m].Allow? then 1 else -1
  {
  }

  lemma CoveredFront(n: int, calls: seq<Call>, width: real)
    requires Paired(n, calls, width) && calls != []
    ensures var m := |calls| - 1; forall k | 0 <= k <= m :: Covered(n, calls[..m], k)
  {
    hide Net;
    var m := |calls| - 1;
    forall k | 0 <= k <= m ensures Covered(n, calls[..m], k) {
      assert Covered(n, calls, k);
      assert calls[..m][..k] == calls[..k];
    }
  }

  /** The refund finds the window of its own call, with these calls in between; no window of the key is
      longer than the call's. */
  ghost predicate InItsWindow(b: Option<Bucket>, allow: Call, between: seq<Call>, refund: Call) {
    && allow.Allow? && allow.width > 0.0 && refund.Refund? && Positive(b)
    && (b.Some? ==> b.value.reset <= allow.at + allow.width)
    && Monotone(between, allow.at) && (forall c | c in between :: c.at <= refund.at)
    && allow.at <= refund.at < BucketStep(b, allow).value.reset
  }

  lemma InItsWindowFront(b: Option<Bucket>, allow: Call, between: seq<Call>, refund: Call)
    requires InItsWindow(b, allow, between, refund) && between != []
    ensures var m := |between| - 1;
      && InItsWindow(b, allow, between[..m], refund)
      && allow.at <= between[m].at < BucketStep(b, allow).value.reset
  {
    var m := |between| - 1;
    assert between[m] in between && forall c | c in between[..m] :: c in between;
  }

  /** The bucket with the call that will be refunded, and without it, when without it m calls count. */
  ghost predicate OneApart(with: Option<Bucket>, without: Option<Bucket>, m: int, reset: real, now: real) {
    && with == Some(Bucket(m + 1, reset))
    && (m == 0 ==> without.None? || without.value.reset <= now)
    && (m > 0 ==> without.Some? && without.value.count == m && without.value.reset >= reset)
  }

  lemma OneApartStep(with: Option<Bucket>, without: Option<Bucket>, m: int, reset: real, now: real, c: Call)
    requires OneApart(with, without, m, reset, now) && m >= 0 && now <= c.at < reset
    requires (c.Allow? ==> now + c.width >= reset) && (c.Refund? ==> m > 0)
    ensures OneApart(BucketStep(with, c), BucketStep(without, c), m + (if c.Allow? then 1 else -1), reset, now)
  {
  }

  /** Both worlds after the calls in between. */
  lemma {:induction false} WithAndWithout(b: Option<Bucket>, allow: Call, between: seq<Call>, refund: Call)
    requires InItsWindow(b, allow, between, refund) && Paired(Live(b, allow.at), between, allow.width)
    ensures Live(b, allow.at) + Net(between) >= 0
    ensures OneApart(Run(BucketStep(b, allow), between), Run(b, between), Live(b, allow.at) + Net(between),
                     BucketStep(b, allow).value.reset, allow.at)
    decreases |between|
  {
    hide OneApart, BucketStep, Live, Paired, InItsWindow, Net;
    AllowOpens(b, allow, between, refund);
    PairedFront(Live(b, allow.at), between, allow.width);
    if between == [] {
      NothingBetween(b, allow);
    } else {
      var m := |between| - 1;
      var front, last := between[..m], between[m];
      assert between == front + [last];
      InItsWindowFront(b, allow, between, refund);
      WithAndWithout(b, allow, front, refund);
      RunSnoc(b, front, last);
      RunSnoc(BucketStep(b, allow), front, last);
      OneApartStep(Run(BucketStep(b, allow), front), Run(b, front), Live(b, allow.at) + Net(front),
                   BucketStep(b, allow).value.reset, allow.at, last);
    }
  }

  lemma NothingBetween(b: Option<Bucket>, allow: Call)
    requires allow.Allow? && Positive(b)
    ensures Net([]) == 0
    ensures OneApart(BucketStep(b, allow), b, Live(b, allow.at), BucketStep(b, allow).value.reset, allow.at)
  {
  }

  lemma AllowOpens(b: Option<Bucket>, allow: Call, between: seq<Call>, refund: Call)
    requires InItsWindow(b, allow, between, refund)
    ensures allow.Allow? && Positive(b) && BucketStep(b, allow).Some?
    ensures BucketStep(b, allow).value.reset <= allow.at + allow.width
  {
  }

  /** When the refund finds its call's window: nothing else counts there, or without the call the same
      window would be open. It is not when the call opened the window, or the calls before it were
      refunded meanwhile, and something after it still counts that would have opened a later one. */
  predicate LeavesNoTrace(b: Option<Bucket>, allow: Call, between: seq<Call>)
    requires allow.Allow?
  {
    || Live(b, allow.at) + Net(between) == 0
    || (Run(b, between).Some? && Run(b, between).value.reset == BucketStep(b, allow).value.reset)
  }

  /** A refund in the window of its call, with calls and refunds of overlapping requests in between. */
  lemma RefundUndoesAllowIff(b: Option<Bucket>, allow: Call, between: seq<Call>, refund: Call)
    requires InItsWindow(b, allow, between, refund) && Paired(Live(b, allow.at), between, allow.width)
    ensures (forall rest | Monotone(rest, refund.at) ::
               Answers(BucketStep(Run(BucketStep(b, allow), between), refund), rest) == Answers(Run(b, between), rest))
            <==> LeavesNoTrace(b, allow, between)
  {
    hide Run, Net, Answers, Monotone, Paired;
    WithAndWithout(b, allow, between, refund);
    RefundLeavesNoTraceIff(b, allow, between, refund);
  }

  /** A refund that comes when its call's window is over, all other calls of the key too having come
      since then: it takes one off the window that is open now, unless that counts nothing. */
  lemma LateRefundIff(b: Option<Bucket>, allow: Call, between: seq<Call>, refund: Call)
    requires Positive(b) && allow.Allow? && refund.Refund?
    requires Monotone(between, BucketStep(b, allow).value.reset) && refund.at >= BucketStep(b, allow).value.reset
    requires b.Some? && allow.at >= b.value.reset ==> allow.width >= 0.0
    requires forall c | c in between :: c.at <= refund.at
    ensures (forall rest | Monotone(rest, refund.at) ::
               Answers(BucketStep(Run(BucketStep(b, allow), between), refund), rest) == Answers(Run(b, between), rest))
            <==> Live(Run(b, between), refund.at) == 0
  {
    hide Answers, Run;
    var over := BucketStep(b, allow).value.reset;
    AlikeRunAlike(BucketStep(b, allow), b, between, over, refund.at);
    RefundLeavesNoTraceIff(b, allow, between, refund);
  }

  lemma {:induction false} AlikeRunAlike(a: Option<Bucket>, b: Option<Bucket>, calls: seq<Call>, now: real, end: real)
    requires Alike(a, b, now) && Monotone(calls, now) && now <= end && forall c | c in calls :: c.at <= end
    ensures Alike(Run(a, calls), Run(b, calls), end)
    decreases |calls|
  {
    if calls != [] {
      assert calls[0] in calls && forall c | c in calls[1..] :: c in calls;
      AlikeRunAlike(BucketStep(a, calls[0]), BucketStep(b, calls[0]), calls[1..], calls[0].at, end);
    }
  }

  /** With nothing in between the refund always undoes its call. */
  lemma RefundUndoesAllow(b: Option<Bucket>, allow: Call, refund: Call, rest: seq<Call>)
    requires Positive(b) && allow.Allow? && refund.Refund? && allow.at <= refund.at < BucketStep(b, allow).value.reset
    requires Monotone(rest, refund.at)
    ensures Answers(BucketStep(BucketStep(b, allow), refund), rest) == Answers(b, rest)
  {
    AlikeAnswerAlike(BucketStep(BucketStep(b, allow), refund), b, rest, refund.at);
  }

  /** A run in which the refunded call keeps a trace: it opened the window the next request counts in. */
  lemma RefundedCallKeptItsWindow(key: string)
    ensures var allow, other, refund := Allow(key, 2, 10.0, 0.0), Allow(key, 2, 10.0, 5.0), Refund(key, 6.0);
      var later := [Allow(key, 2, 10.0, 9.0), Allow(key, 2, 10.0, 11.0)];
      && Answers(BucketStep(Run(BucketStep(None, allow), [other]), refund), later) == [true, true]
      && Answers(Run(None, [other]), later) == [true, false]
  {
    var other := Allow(key, 2, 10.0, 5.0);
    var a, b := Allow(key, 2, 10.0, 9.0), Allow(key, 2, 10.0, 11.0);
    assert [other][1..] == [] && [a, b][1..] == [b] && [b][1..] == [];
    assert Run(Some(Bucket(1, 10.0)), [other]) == Some(Bucket(2, 10.0));
    assert Run(None, [other]) == Some(Bucket(1, 15.0));
    assert Answers(Some(Bucket(2, 10.0)), [b]) == [true];
    assert Answers(Some(Bucket(2, 15.0)), [b]) == [false];
  }

  /** Two requests that overlap and are both given back, and one that is not: the second request had
      opened no window, and yet it shows. */
  lemma OverlappingRefundsKeepATrace(key: string)
    ensures var before := Run(None, [Allow(key, 2, 10.0, 0.0)]);
      var allow, refund := Allow(key, 2, 10.0, 1.0), Refund(key, 4.0);
      var between := [Refund(key, 2.0), Allow(key, 2, 10.0, 3.0)];
      var later := [Allow(key, 2, 10.0, 9.0), Allow(key, 2, 10.0, 11.0)];
      && Live(before, allow.at) > 0
      && Answers(BucketStep(Run(BucketStep(before, allow), between), refund), later) == [true, true]
      && Answers(Run(before, between), later) == [true, false]
  {
    var x, y, r := Allow(key, 2, 10.0, 0.0), Allow(key, 2, 10.0, 3.0), Refund(key, 2.0);
    var a, b := Allow(key, 2, 10.0, 9.0), Allow(key, 2, 10.0, 11.0);
    assert [x][1..] == [] && [r, y][1..] == [y] && [y][1..] == [] && [a, b][1..] == [b] && [b][1..] == [];
    assert Run(None, [x]) == Some(Bucket(1, 10.0));
    assert Run(Some(Bucket(1, 10.0)), [y]) == Some(Bucket(2, 10.0));
    assert Run(Some(Bucket(2, 10.0)), [r, y]) == Some(Bucket(2, 10.0));
    assert Run(None, [y]) == Some(Bucket(1, 13.0));
    assert Run(Some(Bucket(1, 10.0)), [r, y]) == Some(Bucket(1, 13.0));
    assert Answers(Some(Bucket(2, 10.0)), [b]) == [true];
    assert Answers(Some(Bucket(2, 13.0)), [b]) == [false];
  }

  /** A refund that comes after its window takes back somebody else's call. */
  lemma LateRefundTakesAnother(key: string)
    ensures var allow, refund := Allow(key, 1, 10.0, 0.0), Refund(key, 12.0);
      var between, later := [Allow(key, 1, 10.0, 11.0)], [Allow(key, 1, 10.0, 13.0)];
      && Answers(BucketStep(Run(BucketStep(None, allow), between), refund), later) == [true]
      && Answers(Run(None, between), later) == [false]
  {
    var other, l := Allow(key, 1, 10.0, 11.0), Allow(key, 1, 10.0, 13.0);
    assert [other][1..] == [] && [l][1..] == [];
    assert Run(Some(Bucket(1, 10.0)), [other]) == Some(Bucket(1, 21.0)) == Run(None, [other]);
  }

  // ---------------------------------------------------------------- what a key was granted

  /** The open window's history of a key, and every admission with the start of its window. */
  datatype Ledger = Ledger(
    bucket: Option<Bucket>,
    admitted: nat, denied: nat, refunds: nat,
    times: seq<real>, starts: seq<real>)

  const FRESH := Ledger(None, 0, 0, 0, [], [])

  function LedgerStep(l: Ledger, c: Call): Ledger {
    var b := BucketStep(l.bucket, c);
    match c
    case Allow(_, _, width, now) =>
      var window := if l.bucket.None? || now >= l.bucket.value.reset
                    then l.(admitted := 0, denied := 0, refunds := 0) else l;
      if Admits(l.bucket, c)
      then window.(bucket := b, admitted := window.admitted + 1,
                   times := l.times + [now], starts := l.starts + [b.value.reset - width])
      else window.(bucket := b, denied := window.denied + 1)
    case Refund(_, now) =>
      if b.None? then l.(bucket := b, admitted := 0, denied := 0, refunds := 0)
      else if b != l.bucket then l.(bucket := b, refunds := l.refunds + 1)
      else l
  }

  function Book(l: Ledger, calls: seq<Call>): Ledger
    decreases |calls|
  {
    if calls == [] then l
    else LedgerStep(Book(l, calls[..|calls| - 1]), calls[|calls| - 1])
  }

  predicate Fixed(c: Call, limit: nat, width: real) {
    c.Allow? ==> c.limit == limit && c.width == width
  }

  predicate Counted(l: Ledger, limit: nat) {
    && l.admitted - l.refunds <= limit
    && (l.bucket.None? ==> l.admitted == 0 && l.denied == 0 && l.refunds == 0)
    && (l.bucket.Some? ==>
          l.bucket.value.count >= 1 && l.bucket.value.count == l.admitted + l.denied - l.refunds)
  }

  lemma CountedStep(l: Ledger, c: Call, limit: nat, width: real)
    requires Counted(l, limit) && Fixed(c, limit, width)
    ensures Counted(LedgerStep(l, c), limit)
  {
  }

  /** In every window admissions less refunds stay within the limit, although denied calls are
      counted too; and while the window is open the next call is admitted exactly when admitted and
      denied calls less refunds leave room for it. */
  lemma {:induction false} NetAdmissionsAreLimited(calls: seq<Call>, limit: nat, width: real)
    requires forall c | c in calls :: Fixed(c, limit, width)
    ensures var l := Book(FRESH, calls);
      && Counted(l, limit) && l.bucket == Run(None, calls)
      && forall key, at | Live(l.bucket, at) > 0 ::
           Admits(l.bucket, Allow(key, limit, width, at)) <==> l.admitted + l.denied - l.refunds < limit
  {
    if calls != [] {
      var n := |calls| - 1;
      NetAdmissionsAreLimited(calls[..n], limit, width);
      CountedStep(Book(FRESH, calls[..n]), calls[n], limit, width);
      RunSnoc(None, calls[..n], calls[n]);
      assert calls == calls[..n] + [calls[n]];
    }
  }

  lemma {:induction false} RunSnoc(b: Option<Bucket>, calls: seq<Call>, c: Call)
    ensures Run(b, calls + [c]) == BucketStep(Run(b, calls), c)
    decreases |calls|
  {
    if calls != [] {
      assert (calls + [c])[1..] == calls[1..] + [c];
      RunSnoc(BucketStep(b, calls[0]), calls[1..], c);
    }
  }

  /** The price of counting denied calls: the refund of the one admitted call frees no slot while the
      denied one is still counted. */
  lemma DenialOutlivesRefund(key: string)
    ensures Answers(None, [Allow(key, 1, 10.0, 0.0), Allow(key, 1, 10.0, 1.0), Refund(key, 2.0),
                           Allow(key, 1, 10.0, 3.0)])
      == [true, false, false, false]
  {
    var b1 := Some(Bucket(1, 10.0));
    var b2 := Some(Bucket(2, 10.0));
    assert Answers(b1, [Allow(key, 1, 10.0, 3.0)]) == [false];
    assert Answers(b2, [Refund(key, 2.0), Allow(key, 1, 10.0, 3.0)]) == [false, false];
    assert Answers(b1, [Allow(key, 1, 10.0, 1.0), Refund(key, 2.0), Allow(key, 1, 10.0, 3.0)]) == [false, false, false];
  }

  // ---------------------------------------------------------------- bursts across two windows

  /** Admissions lie in their windows, each window opens with one, holds at most `limit` of them
      and is over before the next one starts. */
  ghost predicate Spread(times: seq<real>, starts: seq<real>, limit: nat, width: real) {
    && |times| == |starts|
    && (forall i | 0 <= i < |times| :: starts[i] <= times[i] < starts[i] + width)
    && (forall i | 0 <= i < |times| :: times[i] == starts[i] || (i > 0 && starts[i - 1] == starts[i]))
    && (forall i, j | 0 <= i < j < |starts| :: starts[i] <= starts[j])
    && (forall i, j | 0 <= i && j == i + limit < |starts| :: starts[j] >= starts[i] + width)
  }

  /** The last m admissions belong to the window that starts at `start`. */
  ghost predicate Current(starts: seq<real>, m: nat, start: real, width: real) {
    && m <= |starts|
    && (forall i | |starts| - m <= i < |starts| :: starts[i] == start)
    && (forall i | 0 <= i < |starts| - m :: starts[i] + width <= start)
  }

  lemma SpreadPush(times: seq<real>, starts: seq<real>, m: nat, start: real, now: real, limit: nat, width: real)
    requires Spread(times, starts, limit, width) && Current(starts, m, start, width)
    requires m < limit && start <= now < start + width && (m == 0 ==> now == start)
    ensures Spread(times + [now], starts + [start], limit, width)
    ensures Current(starts + [start], m + 1, start, width)
  {
    var n, ts, ss := |starts|, times + [now], starts + [start];
    assert forall i | 0 <= i < n :: ts[i] == times[i] && ss[i] == starts[i] && starts[i] <= start;
    assert m > 0 ==> starts[n - 1] == start;
    assert limit <= n ==> starts[n - limit] + width <= start;
  }

  ghost predicate Windowed(l: Ledger, limit: nat, width: real) {
    && Spread(l.times, l.starts, limit, width)
    && match l.bucket
       case None => l.starts == []
       case Some(b) =>
         1 <= b.count && Current(l.starts, if b.count <= limit then b.count else limit, b.reset - width, width)
  }

  lemma WindowedStep(l: Ledger, c: Call, limit: nat, width: real)
    requires Windowed(l, limit, width) && c.Allow? && Fixed(c, limit, width)
    requires width > 0.0 && limit >= 1 && (l.bucket.Some? ==> c.at >= l.bucket.value.reset - width)
    ensures Windowed(LedgerStep(l, c), limit, width)
  {
    hide Spread;
    if l.bucket.None? || c.at >= l.bucket.value.reset {
      SpreadPush(l.times, l.starts, 0, c.at, c.at, limit, width);
    } else if l.bucket.value.count < limit {
      var b := l.bucket.value;
      SpreadPush(l.times, l.starts, b.count, b.reset - width, c.at, limit, width);
    }
  }

  /** With no refunds, of any 2 * limit consecutive admissions the last comes at least one window
      after the first: every interval (t - width, t] holds fewer than 2 * limit of them. */
  lemma {:induction false} BurstsAreLimited(calls: seq<Call>, limit: nat, width: real, i: nat)
    requires forall c | c in calls :: c.Allow? && Fixed(c, limit, width)
    requires Monotone(calls, 0.0) && width > 0.0 && limit >= 1
    requires i + 2 * limit - 1 < |Book(FRESH, calls).times|
    ensures var times := Book(FRESH, calls).times; times[i + 2 * limit - 1] >= times[i] + width
  {
    BookIsWindowed(calls, limit, width);
    var l := Book(FRESH, calls);
    if l.times[i] == l.starts[i] {
      assert l.starts[i + limit] >= l.starts[i] + width;
    } else {
      assert l.starts[i - 1 + limit] >= l.starts[i - 1] + width;
      assert l.starts[i - 1 + limit + limit] >= l.starts[i - 1 + limit] + width;
    }
  }

  lemma {:induction false} BookIsWindowed(calls: seq<Call>, limit: nat, width: real)
    requires forall c | c in calls :: c.Allow? && Fixed(c, limit, width)
    requires Monotone(calls, 0.0) && width > 0.0 && limit >= 1
    ensures var l := Book(FRESH, calls);
      && Windowed(l, limit, width) && (calls == [] ==> l.bucket.None?)
      && (calls != [] ==> l.bucket.Some? && l.bucket.value.reset - width <= calls[|calls| - 1].at)
  {
    hide Windowed;
    if calls == [] {
      FreshIsWindowed(limit, width);
    } else {
      var n := |calls| - 1;
      BookIsWindowed(calls[..n], limit, width);
      WindowedStep(Book(FRESH, calls[..n]), calls[n], limit, width);
    }
  }

  lemma FreshIsWindowed(limit: nat, width: real)
    ensures Windowed(FRESH, limit, width)
  {
  }

  /** The bound is attained: limit 2, three admissions inside (0, 10]. */
  lemma BurstBoundIsTight(key: string)
    ensures Book(FRESH, [Allow(key, 2, 10.0, 0.0), Allow(key, 2, 10.0, 9.0), Allow(key, 2, 10.0, 10.0),
                         Allow(key, 2, 10.0, 10.0)]).times == [0.0, 9.0, 10.0, 10.0]
  {
    var a, b, c := Allow(key, 2, 10.0, 0.0), Allow(key, 2, 10.0, 9.0), Allow(key, 2, 10.0, 10.0);
    var l1 := LedgerStep(FRESH, a);
    var l2 := LedgerStep(l1, b);
    assert [a][..0] == [] && [a, b][..1] == [a] && [a, b, c][..2] == [a, b] && [a, b, c, c][..3] == [a, b, c];
    assert Book(FRESH, [a]) == l1;
    assert Book(FRESH, [a, b]) == l2;
    assert Book(FRESH, [a, b, c]) == LedgerStep(l2, c);
  }

  // ---------------------------------------------------------------- the daily turn quota

  datatype Reply =
    | Accepted202(tid: Uuid)
    | QuotaExceeded429 | BadAttachment422 | NoExecutor503 | SessionNotFound404
    | SessionBusy409 | DispatchFailed503 | InternalError500

  predicate GivenBack(r: Reply) {
    r.NoExecutor503? || r.SessionBusy409? || r.DispatchFailed503?
  }

  /** `create_turn` behind its quota. `outcome` is what `accept_turn` does, None when it raises
      anything else; `later` is when a refund would reach the limiter. */
  method CreateTurn(limiter: InProcessWindowLimiter, key: string, limit: int, width: real, now: real, later: real,
                    attachmentsResolve: bool, executorPresent: bool, outcome: Option<Protocol.Outcome>,
                    others: seq<Call>)
    returns (reply: Reply)
    modifies limiter
    ensures reply.QuotaExceeded429? <==> Live(Get(old(limiter.buckets), key), now) >= limit
    ensures !reply.QuotaExceeded429? ==> (reply.BadAttachment422? <==> !attachmentsResolve)
    ensures !reply.QuotaExceeded429? && attachmentsResolve ==> (reply.NoExecutor503? <==> !executorPresent)
    ensures !reply.QuotaExceeded429? && attachmentsResolve && executorPresent ==>
      match outcome
      case None => reply == InternalError500
      case Some(NotFound) => reply == SessionNotFound404
      case Some(SessionBusy) => reply == SessionBusy409
      case Some(DispatchFailed(_)) => reply == DispatchFailed503
      case Some(Accepted(tid)) => reply == Accepted202(tid)
    ensures GivenBack(reply) <==>
      && Live(Get(old(limiter.buckets), key), now) < limit && attachmentsResolve
      && (executorPresent ==> outcome.Some? && (outcome.value.SessionBusy? || outcome.value.DispatchFailed?))
    ensures limiter.buckets == RunAll(old(limiter.buckets),
      [Allow(key, limit, width, now)] + (if reply.QuotaExceeded429? then [] else others)
      + if GivenBack(reply) then [Refund(key, later)] else [])
  {
    var allowed := limiter.Allow(key, limit, width, now);
    RunOne(old(limiter.buckets), Allow(key, limit, width, now));
    if !allowed {
      return QuotaExceeded429;
    }
    Meanwhile(limiter, others);
    RunAllConcat(old(limiter.buckets), [Allow(key, limit, width, now)], others);
    ghost var calls := [Allow(key, limit, width, now)] + others;
    RunAllConcat(old(limiter.buckets), calls, [Refund(key, later)]);
    RunOne(limiter.buckets, Refund(key, later));
    assert calls + [] == calls;
    if !attachmentsResolve {
      return BadAttachment422;
    }
    if !executorPresent {
      limiter.Refund(key, later);
      return NoExecutor503;
    }
    match outcome {
      case None =>
        return InternalError500;
      case Some(NotFound) =>
        return SessionNotFound404;
      case Some(SessionBusy) =>
        limiter.Refund(key, later);
        return SessionBusy409;
      case Some(DispatchFailed(_)) =>
        limiter.Refund(key, later);
        return DispatchFailed503;
      case Some(Accepted(tid)) =>
        return Accepted202(tid);
    }
  }

  /** What other requests do to the limiter while this one awaits its thread pool. */
  method Meanwhile(limiter: InProcessWindowLimiter, others: seq<Call>)
    modifies limiter
    ensures limiter.buckets == RunAll(old(limiter.buckets), others)
  {
    var i := 0;
    assert others[0..] == others;
    while i < |others|
      invariant 0 <= i <= |others|
      invariant RunAll(old(limiter.buckets), others) == RunAll(limiter.buckets, others[i..])
    {
      match others[i] {
        case Allow(key, limit, width, at) =>
          var _ := limiter.Allow(key, limit, width, at);
        case Refund(key, at) =>
          limiter.Refund(key, at);
      }
      assert others[i..][1..] == others[i + 1..];
      i := i + 1;
    }
  }

  lemma RunOne(buckets: map<string, Bucket>, c: Call)
    ensures RunAll(buckets, [c]) == Step(buckets, c)
  {
    assert [c][1..] == [];
  }

  lemma {:induction false} RunAllConcat(buckets: map<string, Bucket>, a: seq<Call>, b: seq<Call>)
    ensures RunAll(buckets, a + b) == RunAll(RunAll(buckets, a), b)
    decreases |a|
  {
    if a == [] {
      assert a + b == b;
    } else {
      assert (a + b)[1..] == a[1..] + b;
      RunAllConcat(Step(buckets, a[0]), a[1..], b);
    }
  }

  lemma FilterSnoc(key: string, calls: seq<Call>, c: Call)
    requires c.key == key
    ensures Filter(OfKey(key), [c] + calls) == [c] + Filter(OfKey(key), calls)
    ensures Filter(OfKey(key), calls + [c]) == Filter(OfKey(key), calls) + [c]
  {
    assert ([c] + calls)[1..] == calls && [c][1..] == [];
    FilterConcat(OfKey(key), calls, [c]);
    assert Filter(OfKey(key), [c]) == [c];
  }

  /** A quota given back, as the user sees it: whatever requests of whatever users come in between and
      whenever the refund arrives, every later answer is as if the turn had never been asked for if and
      only if without it the user's bucket would count one less in the same window. */
  lemma QuotaGivenBackIff(buckets: map<string, Bucket>, key: string, limit: int, width: real, now: real, later: real,
                          others: seq<Call>)
    requires Positive(Get(buckets, key))
    ensures var allow := Allow(key, limit, width, now);
      var before := RunAll(buckets, [allow] + others);
      var after := RunAll(buckets, [allow] + others + [Refund(key, later)]);
      (forall rest | Monotone(rest, later) ::
         Answers(Get(after, key), rest) == Answers(Get(RunAll(buckets, others), key), rest))
      <==> OneLess(Get(before, key), Get(RunAll(buckets, others), key), later)
  {
    hide Answers, Filter, RunAll;
    QuotaRuns(buckets, key, limit, width, now, later, others);
    RefundLeavesNoTraceIff(Get(buckets, key), Allow(key, limit, width, now), Filter(OfKey(key), others),
                           Refund(key, later));
  }

  /** The three databases of the statement, as runs of the user's own calls. */
  lemma QuotaRuns(buckets: map<string, Bucket>, key: string, limit: int, width: real, now: real, later: real,
                  others: seq<Call>)
    ensures var allow, refund := Allow(key, limit, width, now), Refund(key, later);
      var mine, b := Filter(OfKey(key), others), Get(buckets, key);
      && Get(RunAll(buckets, others), key) == Run(b, mine)
      && Get(RunAll(buckets, [allow] + others), key) == Run(BucketStep(b, allow), mine)
      && Get(RunAll(buckets, [allow] + others + [refund]), key) == BucketStep(Run(BucketStep(b, allow), mine), refund)
  {
    hide Filter, RunAll;
    var allow, refund := Allow(key, limit, width, now), Refund(key, later);
    var mine := Filter(OfKey(key), others);
    FilterSnoc(key, others, allow);
    FilterSnoc(key, [allow] + others, refund);
    KeysAreIndependent(buckets, [allow] + others + [refund], key);
    KeysAreIndependent(buckets, [allow] + others, key);
    KeysAreIndependent(buckets, others, key);
    RunSnoc(Get(buckets, key), [allow] + mine, refund);
    assert ([allow] + mine)[1..] == mine;
  }

  /** The same when the refund arrives in its call's window. */
  lemma QuotaGivenBackInTimeIff(buckets: map<string, Bucket>, key: string, limit: int, width: real, now: real,
                                later: real, others: seq<Call>)
    requires var mine := Filter(OfKey(key), others);
      && InItsWindow(Get(buckets, key), Allow(key, limit, width, now), mine, Refund(key, later))
      && Paired(Live(Get(buckets, key), now), mine, width)
    ensures var mine := Filter(OfKey(key), others);
      var allow := Allow(key, limit, width, now);
      var after := RunAll(buckets, [allow] + others + [Refund(key, later)]);
      (forall rest | Monotone(rest, later) ::
         Answers(Get(after, key), rest) == Answers(Get(RunAll(buckets, others), key), rest))
      <==> LeavesNoTrace(Get(buckets, key), allow, mine)
  {
    hide Answers, Net, Paired, InItsWindow, Filter, RunAll;
    QuotaRuns(buckets, key, limit, width, now, later, others);
    RefundUndoesAllowIff(Get(buckets, key), Allow(key, limit, width, now), Filter(OfKey(key), others),
                         Refund(key, later));
  }
}
