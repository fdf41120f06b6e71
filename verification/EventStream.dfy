/** Tailing one turn over server-sent events: the executor commits trace rows and then the result,
    a connection polls, the client reconnects with the last seq it received
    (controller.py `turn_events`, streaming.py `turn_events_stream`). */
module EventStream {
  import opened EvidenceModels
  import opened Sequences
  import S = TurnStore
  import Mem = InMemoryRepository

  datatype Frame = Progress(seqNo: nat) | Result

  /** Where the generator of one connection stands. A poll reads the turn's state first and its
      rows second; rows are then yielded one at a time, and `cursor` follows them. */
  datatype Phase =
    | Idle
    | SawState(terminal: bool)
    | Yielding(rows: seq<nat>, thenResult: bool)
    | Ended

  datatype Connection = Connection(cursor: nat, phase: Phase, wire: seq<Frame>)

  datatype State = State(
    committed: seq<nat>,         // seq of every committed trace row, oldest first
    closedAt: nat,               // rows committed when the turn became terminal
    terminal: bool,
    conn: seq<Connection>,       // the open connection, if any
    received: seq<nat>,          // rows the client has received, over all connections
    finished: bool)              // the client has received the result frame

  datatype Event =
    | CommitRow(seqNo: nat)
    | Close                      // the executor's result, or an orphan close by any reader
    | Connect
    | ReadState
    | ReadRows
    | Yield
    | Deliver
    | Drop                       // time limit, client gone, error: frames on the wire are lost

  function LastSeq(rows: seq<nat>): nat {
    if rows == [] then 0 else rows[|rows| - 1]
  }

  /** `list_trace_after`: rows past the cursor, in order. */
  function After(rows: seq<nat>, cursor: nat): seq<nat> {
    if rows == [] then []
    else if rows[0] > cursor then [rows[0]] + After(rows[1..], cursor)
    else After(rows[1..], cursor)
  }

  function Max(a: nat, b: nat): nat {
    if a < b then b else a
  }

  function Open(s: State): bool {
    |s.conn| == 1
  }

  function Apply(s: State, e: Event): State {
    match e
    case CommitRow(n) =>
      // one executor numbers its rows 1, 2, ..; a failed (advisory) append leaves a gap
      if n <= LastSeq(s.committed) then s else s.(committed := s.committed + [n])
    case Close => if s.terminal then s else s.(terminal := true, closedAt := |s.committed|)
    case Connect =>
      if s.conn != [] || s.finished then s
      else s.(conn := [Connection(LastSeq(s.received), Idle, [])])
    case ReadState =>
      if !Open(s) || s.conn[0].phase != Idle then s
      else s.(conn := [s.conn[0].(phase := SawState(s.terminal))])
    case ReadRows =>
      if !Open(s) || !s.conn[0].phase.SawState? then s
      else s.(conn := [s.conn[0].(phase :=
        Yielding(After(s.committed, s.conn[0].cursor), s.conn[0].phase.terminal))])
    case Yield =>
      if !Open(s) || !s.conn[0].phase.Yielding? then s
      else
        var c := s.conn[0];
        if c.phase.rows != [] then
          s.(conn := [Connection(Max(c.cursor, c.phase.rows[0]),
                                 Yielding(c.phase.rows[1..], c.phase.thenResult),
                                 c.wire + [Progress(c.phase.rows[0])])])
        else if c.phase.thenResult then
          s.(conn := [Connection(c.cursor, Ended, c.wire + [Result])])
        else s.(conn := [c.(phase := Idle)])
    case Deliver =>
      if !Open(s) || s.conn[0].wire == [] then s
      else
        var frame := s.conn[0].wire[0];
        var s' := s.(conn := [s.conn[0].(wire := s.conn[0].wire[1..])]);
        if frame.Progress? then s'.(received := s.received + [frame.seqNo])
        else s'.(finished := true, conn := [])
    case Drop => s.(conn := [])
  }

  function Run(s: State, es: seq<Event>): State
    decreases |es|
  {
    if es == [] then s else Run(Apply(s, es[0]), es[1..])
  }

  const START := State([], 0, false, [], [], false)

  // ---------------------------------------------------------------- invariant

  ghost predicate Increasing(rows: seq<nat>) {
    (forall i | 0 <= i < |rows| :: 0 < rows[i]) && forall i, j | 0 <= i < j < |rows| :: rows[i] < rows[j]
  }

  /** Rows on the wire, in order. */
  function Rows(wire: seq<Frame>): seq<nat> {
    if wire == [] then []
    else (if wire[0].Progress? then [wire[0].seqNo] else []) + Rows(wire[1..])
  }

  function PendingRows(c: Connection): seq<nat> {
    if c.phase.Yielding? then c.phase.rows else []
  }

  /** Received, then on the wire, then about to be yielded: together a prefix of what is committed.
      Once terminal was seen before the rows were read, that prefix covers everything committed
      up to the close; and a result frame on the wire has all of that in front of it. */
  ghost predicate ConnInv(s: State, c: Connection) {
    var sent := s.received + Rows(c.wire);
    && sent + PendingRows(c) <= s.committed
    && c.cursor == LastSeq(sent)
    && (c.phase.SawState? && c.phase.terminal ==> s.terminal)
    && (c.phase.Yielding? && c.phase.thenResult ==> s.terminal && s.closedAt <= |sent + PendingRows(c)|)
    && (Result in c.wire ==> s.terminal && s.closedAt <= |sent| && c.wire[|c.wire| - 1] == Result
                             && c.phase == Ended
                             && forall i | 0 <= i < |c.wire| - 1 :: c.wire[i].Progress?)
  }

  ghost predicate Inv(s: State) {
    && Increasing(s.committed)
    && s.received <= s.committed
    && |s.conn| <= 1
    && s.closedAt <= |s.committed|
    && (s.conn != [] ==> ConnInv(s, s.conn[0]))
    && (s.finished ==> s.terminal && s.closedAt <= |s.received| && s.conn == [])
  }

  /** What the cursor query returns when the cursor is the last seq of what was already sent. */
  lemma {:induction false} AfterPrefix(rows: seq<nat>, n: nat)
    requires Increasing(rows) && n <= |rows|
    ensures After(rows, LastSeq(rows[..n])) == rows[n..]
  {
    if rows != [] {
      if n == 0 {
        AfterAll(rows, 0);
      } else {
        AfterBelow(rows, n, rows[n - 1]);
      }
    }
  }

  lemma {:induction false} AfterAll(rows: seq<nat>, cursor: nat)
    requires forall i | 0 <= i < |rows| :: rows[i] > cursor
    ensures After(rows, cursor) == rows
  {
    if rows != [] { AfterAll(rows[1..], cursor); }
  }

  lemma {:induction false} AfterBelow(rows: seq<nat>, n: nat, cursor: nat)
    requires n <= |rows|
    requires forall i | 0 <= i < n :: rows[i] <= cursor
    requires forall i | n <= i < |rows| :: rows[i] > cursor
    ensures After(rows, cursor) == rows[n..]
  {
    if n == 0 {
      AfterAll(rows, cursor);
    } else {
      AfterBelow(rows[1..], n - 1, cursor);
    }
  }

  lemma {:induction false} RowsSnoc(wire: seq<Frame>, f: Frame)
    ensures Rows(wire + [f]) == Rows(wire) + (if f.Progress? then [f.seqNo] else [])
  {
    if wire != [] {
      assert (wire + [f])[1..] == wire[1..] + [f];
      RowsSnoc(wire[1..], f);
    }
  }

  lemma PollReadsTheRest(s: State)
    requires Inv(s) && Open(s) && s.conn[0].phase.SawState?
    ensures ConnInv(Apply(s, ReadRows), Apply(s, ReadRows).conn[0])
  {
    var c := s.conn[0];
    var sent := s.received + Rows(c.wire);
    assert sent + [] == sent;
    assert s.committed[..|sent|] == sent;
    AfterPrefix(s.committed, |sent|);
    assert sent + s.committed[|sent|..] == s.committed;
  }

  lemma YieldRowKeeps(s: State)
    requires Inv(s) && Open(s) && s.conn[0].phase.Yielding? && s.conn[0].phase.rows != []
    ensures ConnInv(Apply(s, Yield), Apply(s, Yield).conn[0])
  {
    var c := s.conn[0];
    var sent, r := s.received + Rows(c.wire), c.phase.rows[0];
    RowsSnoc(c.wire, Progress(r));
    assert s.received + (Rows(c.wire) + [r]) == sent + [r];
    assert sent + c.phase.rows == (sent + [r]) + c.phase.rows[1..];
    assert (sent + c.phase.rows)[|sent|] == r == s.committed[|sent|];
    if sent != [] { assert sent[|sent| - 1] == s.committed[|sent| - 1]; }
  }

  lemma YieldEndKeeps(s: State)
    requires Inv(s) && Open(s) && s.conn[0].phase.Yielding? && s.conn[0].phase.rows == []
    ensures ConnInv(Apply(s, Yield), Apply(s, Yield).conn[0])
  {
    var c := s.conn[0];
    var sent := s.received + Rows(c.wire);
    RowsSnoc(c.wire, Result);
    assert Rows(c.wire) + [] == Rows(c.wire) && sent + [] == sent;
    assert forall i | 0 <= i < |c.wire| :: c.wire[i] in c.wire;
  }

  lemma DeliverKeeps(s: State)
    requires Inv(s) && Open(s) && s.conn[0].wire != []
    ensures Inv(Apply(s, Deliver))
  {
    var c := s.conn[0];
    var s' := Apply(s, Deliver);
    var rest := Rows(c.wire[1..]);
    if c.wire[0].Progress? {
      assert s.received + ([c.wire[0].seqNo] + rest) == s'.received + rest;
      assert s'.received <= s.committed;
      if Result in c.wire[1..] {
        assert c.wire[1..][|c.wire| - 2] == Result;
      }
    } else {
      assert |c.wire| == 1;
      assert s.received + Rows(c.wire) == s.received;
    }
  }

  lemma CommitKeeps(s: State, n: nat)
    requires Inv(s)
    ensures Inv(Apply(s, CommitRow(n)))
  {
    if s.conn != [] {
      var c := s.conn[0];
      assert (s.received + Rows(c.wire) + PendingRows(c)) <= s.committed;
    }
  }

  lemma InvStep(s: State, e: Event)
    requires Inv(s)
    ensures Inv(Apply(s, e))
  {
    match e
    case CommitRow(n) => CommitKeeps(s, n);
    case Close =>
    case Connect => assert s.received + [] + [] == s.received;
    case ReadState =>
    case ReadRows => if Open(s) && s.conn[0].phase.SawState? { PollReadsTheRest(s); }
    case Yield => if Open(s) && s.conn[0].phase.Yielding? {
      if s.conn[0].phase.rows != [] { YieldRowKeeps(s); } else { YieldEndKeeps(s); }
    }
    case Deliver => if Open(s) && s.conn[0].wire != [] { DeliverKeeps(s); }
    case Drop =>
  }

  lemma {:induction false} InvRun(s: State, es: seq<Event>)
    requires Inv(s)
    ensures Inv(Run(s, es))
    decreases |es|
  {
    if es != [] {
      InvStep(s, es[0]);
      InvRun(Apply(s, es[0]), es[1..]);
    }
  }

  // ---------------------------------------------------------------- exactly once

  /** At any point of any run, over any number of dropped connections, the client has received each
      committed row at most once, in order and without holes; and once it has the result it has
      every row committed before the turn closed. */
  lemma ExactlyOnce(es: seq<Event>)
    ensures var s := Run(START, es);
      && s.received <= s.committed
      && (forall i, j | 0 <= i < j < |s.received| :: s.received[i] < s.received[j])
      && (s.finished ==> s.terminal && s.closedAt <= |s.committed| && s.committed[..s.closedAt] <= s.received)
  {
    InvRun(START, es);
    var s := Run(START, es);
    assert s.received == s.committed[..|s.received|];
    if s.finished {
      assert s.committed[..s.closedAt] == s.received[..s.closedAt];
    }
  }

  /** The single-executor form: nothing is committed after the result, so at the result frame the
      client holds all of it. */
  lemma AllOfIt(es: seq<Event>)
    requires Run(START, es).finished && |Run(START, es).committed| == Run(START, es).closedAt
    ensures Run(START, es).received == Run(START, es).committed
  {
    InvRun(START, es);
  }

  // ---------------------------------------------------------------- and the result does arrive

  /** What a connection does of itself: none of these is a loss or the executor's. */
  predicate Serves(e: Event) {
    e.ReadState? || e.ReadRows? || e.Yield? || e.Deliver? || e.Connect?
  }

  /** Rows committed that the connection has not read yet. */
  function Unread(s: State): int
    requires Open(s)
  {
    var c := s.conn[0];
    |s.committed| - |s.received| - |Rows(c.wire)| - |PendingRows(c)|
  }

  /** Steps the open connection of a closed turn still needs until the client has its result. */
  function Left(s: State): int {
    if !Open(s) then 0
    else
      var c := s.conn[0];
      var n := 2 * Unread(s) + |c.wire|;
      match c.phase
      case Idle => n + 4                      // state, rows, each row twice, the result twice
      case SawState(true) => n + 3
      case SawState(false) => n + 6           // read before the close: one more poll
      case Yielding(rows, true) => 2 * |rows| + |c.wire| + 2
      case Yielding(rows, false) => 2 * |rows| + n + 5
      case Ended => |c.wire|
  }

  lemma {:induction false} RowsAreProgress(wire: seq<Frame>)
    ensures |Rows(wire)| <= |wire|
    ensures Result !in wire ==> |Rows(wire)| == |wire|
  {
    if wire != [] {
      RowsAreProgress(wire[1..]);
      assert Result !in wire ==> wire[0].Progress?;
    }
  }

  /** The turn is closed and its client is being served. */
  ghost predicate Tailing(s: State) {
    && Inv(s) && s.terminal && (s.finished || Open(s))
    && (Open(s) && s.conn[0].phase.Ended? ==> s.conn[0].wire != [] && s.conn[0].wire[|s.conn[0].wire| - 1] == Result)
  }

  lemma PollIsCounted(s: State)
    requires Tailing(s) && Open(s) && s.conn[0].phase.SawState?
    ensures Tailing(Apply(s, ReadRows)) && Left(Apply(s, ReadRows)) == Left(s) - 1
  {
    var c := s.conn[0];
    var sent := s.received + Rows(c.wire);
    InvStep(s, ReadRows);
    assert sent + [] == sent && s.committed[..|sent|] == sent;
    AfterPrefix(s.committed, |sent|);
    assert |PendingRows(Apply(s, ReadRows).conn[0])| == |s.committed| - |sent|;
  }

  lemma YieldIsCounted(s: State)
    requires Tailing(s) && Open(s) && s.conn[0].phase.Yielding?
    ensures Tailing(Apply(s, Yield)) && Left(Apply(s, Yield)) == Left(s) - 1
  {
    var c := s.conn[0];
    InvStep(s, Yield);
    if c.phase.rows != [] {
      RowsSnoc(c.wire, Progress(c.phase.rows[0]));
    } else {
      RowsSnoc(c.wire, Result);
    }
  }

  lemma DeliveryIsCounted(s: State)
    requires Tailing(s) && Open(s) && s.conn[0].wire != []
    ensures Tailing(Apply(s, Deliver)) && Left(Apply(s, Deliver)) == Left(s) - 1
  {
    var c := s.conn[0];
    InvStep(s, Deliver);
    if c.wire[0].Result? {
      assert Result in c.wire && |c.wire| == 1;
    }
  }

  /** Once the turn is closed, every step a connection takes brings the result frame one step nearer. */
  lemma EveryStepCounts(s: State, e: Event)
    requires Tailing(s) && Serves(e)
    ensures Tailing(Apply(s, e))
    ensures Apply(s, e) == s || Left(Apply(s, e)) == Left(s) - 1
  {
    hide Inv;
    if Open(s) && !s.finished {
      match e
      case ReadState => if s.conn[0].phase.Idle? { StateIsCounted(s); }
      case ReadRows => if s.conn[0].phase.SawState? { PollIsCounted(s); }
      case Yield => if s.conn[0].phase.Yielding? { YieldIsCounted(s); }
      case Deliver => if s.conn[0].wire != [] { DeliveryIsCounted(s); }
      case Connect =>
    } else {
      FinishedIsAlone(s);
    }
  }

  lemma StateIsCounted(s: State)
    requires Tailing(s) && Open(s) && s.conn[0].phase.Idle?
    ensures Tailing(Apply(s, ReadState)) && Left(Apply(s, ReadState)) == Left(s) - 1
  {
    InvStep(s, ReadState);
  }

  lemma FinishedIsAlone(s: State)
    requires Tailing(s) && (s.finished || !Open(s))
    ensures s.finished && s.conn == []
  {
  }

  /** There is nothing left exactly when the client has its result, and until then some step is enabled. */
  lemma NeverStuck(s: State) returns (e: Event)
    requires Tailing(s)
    ensures Left(s) >= 0 && (Left(s) == 0 <==> s.finished)
    ensures Serves(e) && (!s.finished ==> Apply(s, e) != s)
  {
    e := Connect;
    if Open(s) {
      var c := s.conn[0];
      RowsAreProgress(c.wire);
      assert |s.received + Rows(c.wire) + PendingRows(c)| <= |s.committed|;
      e := if c.wire != [] then Deliver
           else if c.phase.Idle? then ReadState
           else if c.phase.SawState? then ReadRows
           else Yield;
    }
  }

  /** How many events of a run changed anything. */
  function Taken(s: State, es: seq<Event>): nat
    decreases |es|
  {
    if es == [] then 0 else (if Apply(s, es[0]) == s then 0 else 1) + Taken(Apply(s, es[0]), es[1..])
  }

  /** Whatever order its steps are taken in, a connection that is not dropped brings the result of a
      closed turn after exactly `Left` of them, and not before. */
  lemma {:induction false} AnyScheduleFinishes(s: State, es: seq<Event>)
    requires Tailing(s) && forall e | e in es :: Serves(e)
    ensures Tailing(Run(s, es))
    ensures Taken(s, es) <= Left(s)
    ensures Run(s, es).finished <==> Taken(s, es) == Left(s)
    decreases |es|
  {
    hide Inv, Apply, Left, Tailing;
    if es == [] {
      var e := NeverStuck(s);
    } else {
      EveryStepCounts(s, es[0]);
      AnyScheduleFinishes(Apply(s, es[0]), es[1..]);
    }
  }

  lemma {:induction false} ServeToTheEnd(s: State) returns (es: seq<Event>)
    requires Tailing(s)
    ensures (forall e | e in es :: Serves(e)) && Run(s, es).finished
    decreases Left(s)
  {
    hide Inv, Apply, Left, Tailing;
    es := [];
    var e := NeverStuck(s);
    if !s.finished {
      EveryStepCounts(s, e);
      var rest := ServeToTheEnd(Apply(s, e));
      es := [e] + rest;
      assert es[1..] == rest;
    }
  }

  lemma Reconnected(s: State)
    requires Inv(s) && !s.finished
    ensures var s' := Apply(Apply(s, Drop), Connect);
      && Inv(s') && s'.received == s.received && s'.committed == s.committed && s'.terminal == s.terminal
      && s'.conn == [Connection(LastSeq(s.received), Idle, [])] && !s'.finished && s'.closedAt == s.closedAt
  {
    InvStep(s, Drop);
    InvStep(Apply(s, Drop), Connect);
  }

  lemma {:induction false} RunConcat(s: State, a: seq<Event>, b: seq<Event>)
    ensures Run(s, a + b) == Run(Run(s, a), b)
    decreases |a|
  {
    hide Apply;
    if a == [] {
      assert a + b == b;
    } else {
      assert (a + b)[1..] == a[1..] + b;
      RunConcat(Apply(s, a[0]), a[1..], b);
    }
  }

  lemma {:induction false} ServingCommitsNothing(s: State, es: seq<Event>)
    requires forall e | e in es :: Serves(e)
    ensures Run(s, es).committed == s.committed && Run(s, es).closedAt == s.closedAt && Run(s, es).terminal == s.terminal
    decreases |es|
  {
    hide Apply;
    if es != [] {
      assert Serves(es[0]) && forall e | e in es[1..] :: e in es;
      ServeStep(s, es[0]);
      ServingCommitsNothing(Apply(s, es[0]), es[1..]);
    }
  }

  lemma ServeStep(s: State, e: Event)
    requires Serves(e)
    ensures var s' := Apply(s, e);
      s'.committed == s.committed && s'.closedAt == s.closedAt && s'.terminal == s.terminal
  {
  }

  /** From wherever a run has led, once the turn is closed a client that reconnects gets its result, and
      with it every row committed before the close: all of them if nothing was committed after it. */
  lemma ResultArrives(before: seq<Event>) returns (es: seq<Event>)
    requires Run(START, before).terminal
    ensures var s, s' := Run(START, before), Run(START, before + es);
      && s'.finished && s'.committed == s.committed && s.closedAt <= |s.committed|
      && s.committed[..s.closedAt] <= s'.received <= s.committed
      && (|s.committed| == s.closedAt ==> s'.received == s.committed)
      && forall e | e in es :: Serves(e) || e.Drop?
  {
    hide Apply, Inv;
    var s := Run(START, before);
    StartIsRight();
    InvRun(START, before);
    if s.finished {
      es := [];
      assert before + es == before;
    } else {
      var s1 := Apply(Apply(s, Drop), Connect);
      Reconnected(s);
      TailsWhenOpen(s1);
      var rest := ServeToTheEnd(s1);
      es := [Drop, Connect] + rest;
      assert es[1..] == [Connect] + rest && ([Connect] + rest)[1..] == rest;
      assert Run(s, es) == Run(s1, rest) by {
        assert Run(s, es) == Run(Apply(s, Drop), [Connect] + rest);
      }
      ServingCommitsNothing(s1, rest);
    }
    RunConcat(START, before, es);
    ExactlyOnce(before + es);
    if |s.committed| == s.closedAt { assert s.committed[..s.closedAt] == s.committed; }
    ClosedWithin(s);
  }

  /** From commit to client: a row the executor commits while the turn runs is there once the client has
      the result, whatever had happened before. */
  lemma RowArrives(before: seq<Event>, n: nat) returns (es: seq<Event>)
    requires !Run(START, before).terminal && n > LastSeq(Run(START, before).committed)
    ensures var s' := Run(START, before + [CommitRow(n), Close] + es);
      s'.finished && s'.committed == s'.received == Run(START, before).committed + [n]
  {
    var s := Run(START, before);
    var closed := [CommitRow(n), Close];
    RunConcat(START, before, closed);
    assert closed[1..] == [Close] && [Close][1..] == [];
    assert Run(s, closed) == Apply(Apply(s, CommitRow(n)), Close) by {
      assert Run(s, closed) == Run(Apply(s, CommitRow(n)), [Close]);
      assert Run(Apply(s, CommitRow(n)), [Close]) == Run(Apply(Apply(s, CommitRow(n)), Close), []);
    }
    es := ResultArrives(before + closed);
  }

  lemma StartIsRight()
    ensures Inv(START)
  {
  }

  lemma ClosedWithin(s: State)
    requires Inv(s)
    ensures s.closedAt <= |s.committed|
  {
  }

  lemma TailsWhenOpen(s: State)
    requires Inv(s) && s.terminal && Open(s) && s.conn[0].phase.Idle?
    ensures Tailing(s)
  {
  }

  // ---------------------------------------------------------------- before the close

  function Times(e: Event, n: nat): (es: seq<Event>)
    ensures |es| == n && forall i | 0 <= i < n :: es[i] == e
  {
    if n == 0 then [] else [e] + Times(e, n - 1)
  }

  /** One poll of an idle connection: state, rows, each row yielded and the end of them, all delivered. */
  function Round(n: nat): seq<Event> {
    [ReadState, ReadRows] + Times(Yield, n + 1) + Times(Deliver, n)
  }

  function FramesOf(rows: seq<nat>): seq<Frame> {
    seq(|rows|, i requires 0 <= i < |rows| => Progress(rows[i]))
  }

  lemma {:induction false} YieldAll(s: State)
    requires Open(s) && s.conn[0].phase.Yielding? && !s.conn[0].phase.thenResult
    ensures var c := s.conn[0]; var s' := Run(s, Times(Yield, |c.phase.rows| + 1));
      && Open(s') && s' == s.(conn := [Connection(s'.conn[0].cursor, Idle, c.wire + FramesOf(c.phase.rows))])
    decreases |s.conn[0].phase.rows|
  {
    var c := s.conn[0];
    var s1 := Apply(s, Yield);
    assert Times(Yield, |c.phase.rows| + 1)[1..] == Times(Yield, |c.phase.rows|);
    if c.phase.rows == [] {
      assert Run(s1, []) == s1 && c.wire + FramesOf([]) == c.wire;
    } else {
      YieldAll(s1);
      assert c.wire + [Progress(c.phase.rows[0])] + FramesOf(c.phase.rows[1..]) == c.wire + FramesOf(c.phase.rows);
    }
  }

  lemma {:induction false} DeliverAll(s: State, rows: seq<nat>)
    requires Open(s) && s.conn[0].wire == FramesOf(rows)
    ensures Run(s, Times(Deliver, |rows|)) == s.(conn := [s.conn[0].(wire := [])], received := s.received + rows)
    decreases |rows|
  {
    if rows == [] {
      assert s.received + rows == s.received && s.conn == [s.conn[0].(wire := [])];
    } else {
      var s1 := Apply(s, Deliver);
      assert Times(Deliver, |rows|)[1..] == Times(Deliver, |rows| - 1);
      assert FramesOf(rows)[1..] == FramesOf(rows[1..]);
      DeliverAll(s1, rows[1..]);
      assert s.received + [rows[0]] + rows[1..] == s.received + rows;
    }
  }

  /** While the turn runs, one poll of an idle connection brings the client up to date, and the
      connection is ready for the next. */
  lemma PollCatchesUp(s: State)
    requires Inv(s) && !s.terminal && Open(s) && s.conn[0].phase.Idle? && s.conn[0].wire == []
    ensures |s.received| <= |s.committed|
    ensures var s' := Run(s, Round(|s.committed| - |s.received|));
      && s'.received == s'.committed == s.committed && !s'.finished
      && Open(s') && s'.conn[0].phase == Idle && s'.conn[0].wire == []
  {
    var n := |s.committed| - |s.received|;
    var s2 := Apply(Apply(s, ReadState), ReadRows);
    PollReads(s);
    YieldAll(s2);
    var s3 := Run(s2, Times(Yield, n + 1));
    hide Apply, Inv;
    var rows := s.committed[|s.received|..];
    assert [] + FramesOf(rows) == FramesOf(rows);
    DeliverAll(s3, rows);
    RunConcat(s2, Times(Yield, n + 1), Times(Deliver, n));
    RoundSteps(s, n);
    assert s.received + rows == s.committed;
  }

  lemma RoundSteps(s: State, n: nat)
    ensures Run(s, Round(n)) == Run(Apply(Apply(s, ReadState), ReadRows), Times(Yield, n + 1) + Times(Deliver, n))
  {
    hide Apply;
    var rest := Times(Yield, n + 1) + Times(Deliver, n);
    assert Round(n) == [ReadState] + ([ReadRows] + rest);
    assert Round(n)[1..] == [ReadRows] + rest && ([ReadRows] + rest)[1..] == rest;
    assert Run(s, Round(n)) == Run(Apply(s, ReadState), [ReadRows] + rest);
  }

  lemma PollReads(s: State)
    requires Inv(s) && !s.terminal && Open(s) && s.conn[0].phase.Idle? && s.conn[0].wire == []
    ensures |s.received| <= |s.committed| && s.received == s.committed[..|s.received|]
    ensures var c := s.conn[0];
      Apply(Apply(s, ReadState), ReadRows) ==
        s.(conn := [Connection(c.cursor, Yielding(s.committed[|s.received|..], false), [])])
  {
    assert s.received + [] == s.received == s.committed[..|s.received|];
    AfterPrefix(s.committed, |s.received|);
  }

  /** Why rows must come from one executor: a row numbered at or below the cursor is never read. */
  lemma {:induction false} OnlyRowsPastCursor(rows: seq<nat>, cursor: nat, n: nat)
    ensures n in After(rows, cursor) <==> n in rows && n > cursor
  {
    if rows != [] {
      OnlyRowsPastCursor(rows[1..], cursor, n);
    }
  }

  // ---------------------------------------------------------------- the query behind a poll

  function SeqNos(rows: seq<TraceRow>): (r: seq<nat>)
    ensures |r| == |rows|
  {
    seq(|rows|, i requires 0 <= i < |rows| => rows[i].seqNo)
  }

  function Past(cursor: nat): TraceRow -> bool {
    (r: TraceRow) => r.seqNo > cursor
  }

  lemma {:induction false} PastIsAfter(rows: seq<TraceRow>, cursor: nat)
    ensures SeqNos(Filter(Past(cursor), rows)) == After(SeqNos(rows), cursor)
  {
    if rows != [] {
      PastIsAfter(rows[1..], cursor);
      assert SeqNos(rows)[1..] == SeqNos(rows[1..]);
      var rest := Filter(Past(cursor), rows[1..]);
      assert SeqNos([rows[0]] + rest) == [rows[0].seqNo] + SeqNos(rest);
    }
  }

  /** What a poll reads is the store's `list_trace_after` for the turn's rows, committed in order. */
  lemma PollIsTheQuery(st: S.Store, owner: Uuid, tid: Uuid, cursor: nat)
    requires S.Increasing(Filter(S.TailOf(owner, tid, 0), st.trace))
    ensures SeqNos(S.ListTraceAfter(st, owner, tid, cursor))
         == After(SeqNos(Filter(S.TailOf(owner, tid, 0), st.trace)), cursor)
  {
    var all := Filter(S.TailOf(owner, tid, 0), st.trace);
    FilterFilter(S.TailOf(owner, tid, 0), Past(cursor), st.trace);
    FilterSame(Both(S.TailOf(owner, tid, 0), Past(cursor)), S.TailOf(owner, tid, cursor), st.trace);
    Mem.FilterIncreasing(Past(cursor), all);
    S.OrderTraceIncreasing(Filter(Past(cursor), all));
    PastIsAfter(all, cursor);
  }
}
