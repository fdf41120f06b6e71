/** The turn protocol as interleaved transactions: accepting tasks, executors, readers and
    cancellations all touch the row store in short atomic steps (`in_transaction`), in any order.
    `Apply` is total, an event that is not enabled changes nothing, so a run is any sequence of
    events whatsoever. A task that never moves again has crashed. */
module TurnProtocol {
  import opened EvidenceModels
  import opened Sequences
  import S = TurnStore

  /** How many times longer a turn nobody picked up may wait (`_UNPICKED_STALE_FACTOR`). */
  const UNPICKED_STALE_FACTOR := 3

  datatype Outcome = Accepted(tid: Uuid) | SessionBusy | NotFound | DispatchFailed(tid: Uuid)

  /** Where one `accept_turn` call stands. `SawActive` holds a copy of the row it read. */
  datatype Accept =
    | Loaded(owner: Uuid, sid: Uuid)
    | SawActive(owner: Uuid, sid: Uuid, copy: TurnRow, readAt: nat)
    | Cleared(owner: Uuid, sid: Uuid)
    | Inserted(owner: Uuid, sid: Uuid, tid: Uuid)
    | Done(outcome: Outcome)

  /** Where one polling read stands: it copies the row, then judges the copy. */
  datatype Reader =
    | Holding(owner: Uuid, copy: TurnRow, readAt: nat)
    | Answered(owner: Uuid, tid: Uuid, result: TurnResult)

  datatype State = State(
    store: S.Store,
    now: nat,
    staleAfter: nat,
    accepts: map<nat, Accept>,
    readers: map<nat, Reader>,
    dispatched: set<Uuid>)

  datatype Event =
    | Tick(d: nat)
    | OpenSession(task: nat, owner: Uuid, sid: Uuid)
    | LoadSession(task: nat, owner: Uuid, sid: Uuid)
    | CheckActive(task: nat)
    | CloseStale(task: nat, snapshot: Option<Terminal>)
    | InsertTurn(task: nat, tid: Uuid, topic: string, cachedLive: bool)
    | Dispatch(task: nat, ok: bool)
    | ReadTurn(reader: nat, owner: Uuid, tid: Uuid)
    | FinalizeRead(reader: nat, snapshot: Option<Terminal>)
    | CancelTurn(owner: Uuid, tid: Uuid)
    | Beat(owner: Uuid, tid: Uuid)
    | Finish(owner: Uuid, tid: Uuid, result: Terminal)
    | AppendTrace(row: TraceRow)
    | Fold(owner: Uuid, sid: Uuid, ids: set<Uuid>, summary: string)
    | StampPruned(ids: set<Uuid>)
    | DeleteSession(owner: Uuid, sid: Uuid)

  // ---------------------------------------------------------------- finalize_if_stale

  function LastSeen(t: TurnRow): nat {
    if t.heartbeat == None then t.created else t.heartbeat.value
  }

  function StaleLimit(t: TurnRow, staleAfter: nat): nat {
    if t.heartbeat == None then staleAfter * UNPICKED_STALE_FACTOR else staleAfter
  }

  predicate IsStale(t: TurnRow, now: nat, staleAfter: nat) {
    t.result == Pending && now - LastSeen(t) >= StaleLimit(t, staleAfter)
  }

  /** No snapshot (no checkpointer, died before the first step, or it raised) means an error. */
  function ClosingResult(snapshot: Option<Terminal>): Terminal {
    if snapshot.Some? then snapshot.value else Error("internal_error")
  }

  // ---------------------------------------------------------------- one step

  function Apply(s: State, e: Event): State {
    match e
    case Tick(d) => s.(now := s.now + d)
    case OpenSession(task, owner, sid) =>
      if sid in s.store.sessions || task in s.accepts then s
      else s.(store := S.CreateSession(s.store, owner, sid), accepts := s.accepts[task := Loaded(owner, sid)])
    case LoadSession(task, owner, sid) =>
      if task in s.accepts then s
      else s.(accepts := s.accepts[task :=
        if S.GetSession(s.store, owner, sid).Some? then Loaded(owner, sid) else Done(NotFound)])
    case CheckActive(task) =>
      if !(task in s.accepts && s.accepts[task].Loaded?) then s
      else
        var a := s.accepts[task];
        var active := S.ActiveTurn(s.store, a.owner, a.sid);
        s.(accepts := s.accepts[task :=
          if active.None? then Cleared(a.owner, a.sid)
          else SawActive(a.owner, a.sid, active.value, s.now)])
    case CloseStale(task, snapshot) =>
      if !(task in s.accepts && s.accepts[task].SawActive?) then s
      else
        var a := s.accepts[task];
        if IsStale(a.copy, s.now, s.staleAfter)
        then s.(store := S.UpdateTurnResult(s.store, a.owner, a.copy.id, ClosingResult(snapshot)),
                accepts := s.accepts[task := Cleared(a.owner, a.sid)])
        else s.(accepts := s.accepts[task := Done(SessionBusy)])
    case InsertTurn(task, tid, topic, cachedLive) =>
      if !(task in s.accepts && s.accepts[task].Cleared?) || S.IndexOf(s.store.turns, tid) < |s.store.turns| then s
      else
        var a := s.accepts[task];
        (match S.AddTurn(s.store, NewTurn(a.owner, a.sid, tid, topic, s.now), cachedLive)
         case SessionMissing => s.(accepts := s.accepts[task := Done(NotFound)])
         case SessionBusy => s.(accepts := s.accepts[task := Done(SessionBusy)])
         case Added(after) => s.(store := after, accepts := s.accepts[task := Inserted(a.owner, a.sid, tid)]))
    case Dispatch(task, ok) =>
      if !(task in s.accepts && s.accepts[task].Inserted?) then s
      else
        var a := s.accepts[task];
        if ok
        then s.(dispatched := s.dispatched + {a.tid}, accepts := s.accepts[task := Done(Accepted(a.tid))])
        else s.(store := S.UpdateTurnResult(s.store, a.owner, a.tid, Error("dispatch_failed")),
                accepts := s.accepts[task := Done(DispatchFailed(a.tid))])
    case ReadTurn(reader, owner, tid) =>
      (match S.GetTurn(s.store, owner, tid)
       case None => s
       case Some(t) => s.(readers := s.readers[reader := Holding(owner, t, s.now)]))
    case FinalizeRead(reader, snapshot) =>
      if !(reader in s.readers && s.readers[reader].Holding?) then s
      else
        var r := s.readers[reader];
        if IsStale(r.copy, s.now, s.staleAfter)
        then s.(store := S.UpdateTurnResult(s.store, r.owner, r.copy.id, ClosingResult(snapshot)),
                readers := s.readers[reader := Answered(r.owner, r.copy.id, ClosingResult(snapshot))])
        else s.(readers := s.readers[reader := Answered(r.owner, r.copy.id, r.copy.result)])
    case CancelTurn(owner, tid) =>
      (match S.RequestCancel(s.store, owner, tid)
       case None => s
       case Some((_, after)) => s.(store := after))
    case Beat(owner, tid) =>
      (match S.Heartbeat(s.store, owner, tid, s.now)
       case None => s
       case Some((_, after)) => s.(store := after))
    case Finish(owner, tid, result) => s.(store := S.UpdateTurnResult(s.store, owner, tid, result))
    case AppendTrace(row) => s.(store := S.AppendTrace(s.store, row))
    case Fold(owner, sid, ids, summary) =>
      if S.GetSession(s.store, owner, sid).None? then s
      else s.(store := S.MarkSummarized(S.SetSummary(s.store, sid, summary), owner, ids))
    case StampPruned(ids) => s.(store := S.MarkCheckpointsPruned(s.store, ids))
    case DeleteSession(owner, sid) => s.(store := S.SoftDelete(s.store, owner, sid))
  }

  function NewTurn(owner: Uuid, sid: Uuid, tid: Uuid, topic: string, now: nat): TurnRow {
    TurnRow(tid, sid, owner, topic, Pending, now, false, None, false, false)
  }

  function Run(s: State, es: seq<Event>): State
    decreases |es|
  {
    if es == [] then s else Run(Apply(s, es[0]), es[1..])
  }

  // ---------------------------------------------------------------- safety over every run

  ghost predicate InFlight(s: State, tid: Uuid) {
    exists task | task in s.accepts :: s.accepts[task].Inserted? && s.accepts[task].tid == tid
  }

  /** A task past the session check holds the session's own owner; one past the insert, its row's. */
  ghost predicate TaskSound(s: State, a: Accept) {
    && (a.Loaded? || a.SawActive? || a.Cleared? || a.Inserted? ==>
          a.sid in s.store.sessions && s.store.sessions[a.sid].owner == a.owner)
    && (a.Inserted? ==> S.GetTurn(s.store, a.owner, a.tid).Some?)
    && (a.SawActive? ==> S.GetTurn(s.store, a.owner, a.copy.id).Some?)
  }

  /** No pending row is lost: its message was sent, or its accepting task still has to send it. */
  ghost predicate Accounted(s: State) {
    forall i | 0 <= i < |s.store.turns| && s.store.turns[i].result == Pending ::
      s.store.turns[i].id in s.dispatched || InFlight(s, s.store.turns[i].id)
  }

  ghost predicate Safe(s: State) {
    && S.Inv(s.store)
    && (forall task | task in s.accepts :: TaskSound(s, s.accepts[task]))
    && Accounted(s)
  }

  lemma {:induction false} GetTurnEvolves(a: S.Store, b: S.Store, owner: Uuid, tid: Uuid)
    requires S.Evolves(a, b) && S.GetTurn(a, owner, tid).Some?
    ensures S.GetTurn(b, owner, tid).Some?
    ensures S.RowEvolves(S.GetTurn(a, owner, tid).value, S.GetTurn(b, owner, tid).value)
  {
    var k := S.IndexOf(a.turns, tid);
    assert S.RowEvolves(a.turns[k], b.turns[k]);
    S.SameIndex(a.turns, b.turns[..|a.turns|], tid);
    S.SameIndex(b.turns[..|a.turns|], b.turns, tid);
  }

  lemma InsertStep(s: State, task: nat, tid: Uuid, topic: string, cachedLive: bool)
    requires Safe(s)
    ensures var s' := Apply(s, InsertTurn(task, tid, topic, cachedLive));
            S.Inv(s'.store) && S.Evolves(s.store, s'.store)
  {
    hide TaskSound, Accounted;
    if task in s.accepts && s.accepts[task].Cleared? && S.IndexOf(s.store.turns, tid) == |s.store.turns| {
      var turn := NewTurn(s.accepts[task].owner, s.accepts[task].sid, tid, topic, s.now);
      if S.AddTurn(s.store, turn, cachedLive).Added? {
        S.AddTurnSafe(s.store, turn, cachedLive);
      }
    }
  }

  lemma FoldStep(st: S.Store, owner: Uuid, sid: Uuid, ids: set<Uuid>, summary: string)
    requires S.Inv(st) && sid in st.sessions
    ensures var st' := S.MarkSummarized(S.SetSummary(st, sid, summary), owner, ids);
            S.Inv(st') && S.Evolves(st, st')
  {
    var mid := S.SetSummary(st, sid, summary);
    S.MarkSummarizedSafe(mid, owner, ids);
    S.EvolvesTransitive(st, mid, S.MarkSummarized(mid, owner, ids));
  }

  lemma SessionStep(st: S.Store, owner: Uuid, sid: Uuid)
    requires S.Inv(st)
    ensures S.Inv(S.SoftDelete(st, owner, sid)) && S.Evolves(st, S.SoftDelete(st, owner, sid))
    ensures sid !in st.sessions ==>
      S.Inv(S.CreateSession(st, owner, sid)) && S.Evolves(st, S.CreateSession(st, owner, sid))
  {
  }

  /** Every write of the protocol keeps the row invariant and only evolves rows. */
  lemma StoreStep(s: State, e: Event)
    requires Safe(s)
    ensures S.Inv(Apply(s, e).store) && S.Evolves(s.store, Apply(s, e).store)
  {
    hide TaskSound, Accounted, S.GetTurn, S.ActiveTurn;
    match e {
      case Tick(d) =>
      case OpenSession(task, owner, sid) => SessionStep(s.store, owner, sid);
      case LoadSession(task, owner, sid) =>
      case CheckActive(task) =>
      case CloseStale(task, snapshot) =>
        if task in s.accepts && s.accepts[task].SawActive? {
          S.UpdateTurnResultSafe(s.store, s.accepts[task].owner, s.accepts[task].copy.id, ClosingResult(snapshot));
        }
      case InsertTurn(task, tid, topic, cachedLive) => InsertStep(s, task, tid, topic, cachedLive);
      case Dispatch(task, ok) =>
        if task in s.accepts && s.accepts[task].Inserted? {
          S.UpdateTurnResultSafe(s.store, s.accepts[task].owner, s.accepts[task].tid, Error("dispatch_failed"));
        }
      case ReadTurn(reader, owner, tid) =>
      case FinalizeRead(reader, snapshot) =>
        if reader in s.readers && s.readers[reader].Holding? {
          S.UpdateTurnResultSafe(s.store, s.readers[reader].owner, s.readers[reader].copy.id, ClosingResult(snapshot));
        }
      case CancelTurn(owner, tid) =>
        if S.RequestCancel(s.store, owner, tid).Some? { S.RequestCancelSafe(s.store, owner, tid); }
      case Beat(owner, tid) =>
        if S.Heartbeat(s.store, owner, tid, s.now).Some? { S.HeartbeatSafe(s.store, owner, tid, s.now); }
      case Finish(owner, tid, result) => S.UpdateTurnResultSafe(s.store, owner, tid, result);
      case AppendTrace(row) => assert S.Inv(S.AppendTrace(s.store, row));
      case Fold(owner, sid, ids, summary) =>
        if S.GetSession(s.store, owner, sid).Some? { FoldStep(s.store, owner, sid, ids, summary); }
      case StampPruned(ids) => S.MarkCheckpointsPrunedSafe(s.store, ids);
      case DeleteSession(owner, sid) => SessionStep(s.store, owner, sid);
    }
  }

  lemma TaskSoundStable(s: State, s': State, a: Accept)
    requires TaskSound(s, a) && S.Evolves(s.store, s'.store)
    ensures TaskSound(s', a)
  {
    if a.Inserted? { GetTurnEvolves(s.store, s'.store, a.owner, a.tid); }
    if a.SawActive? { GetTurnEvolves(s.store, s'.store, a.owner, a.copy.id); }
  }

  function ActingTask(e: Event): Option<nat> {
    match e
    case OpenSession(task, _, _) => Some(task)
    case LoadSession(task, _, _) => Some(task)
    case CheckActive(task) => Some(task)
    case CloseStale(task, _) => Some(task)
    case InsertTurn(task, _, _, _) => Some(task)
    case Dispatch(task, _) => Some(task)
    case _ => None
  }

  /** A task only moves by its own events. */
  lemma OnlyOwnSteps(s: State, e: Event, task: nat)
    requires ActingTask(e) != Some(task)
    ensures task in Apply(s, e).accepts <==> task in s.accepts
    ensures task in s.accepts ==> Apply(s, e).accepts[task] == s.accepts[task]
  {
  }

  lemma ActiveIsAPendingRow(st: S.Store, owner: Uuid, sid: Uuid)
    requires S.Inv(st) && S.ActiveTurn(st, owner, sid).Some?
    ensures var t := S.ActiveTurn(st, owner, sid).value;
            t in st.turns && S.Mine(owner, sid)(t) && t.result == Pending && S.GetTurn(st, owner, t.id) == Some(t)
  {
    var t := S.ActiveTurn(st, owner, sid).value;
    assert t in Filter(S.MineActive(owner, sid), st.turns);
    var k :| 0 <= k < |st.turns| && st.turns[k] == t;
    assert S.IndexOf(st.turns, t.id) == k;
  }

  /** The actor's new place is a refusal, a checked session, or the old place one statement on. */
  lemma ActorPlace(s: State, e: Event, task: nat)
    requires ActingTask(e) == Some(task) && task in Apply(s, e).accepts
    ensures var a' := Apply(s, e).accepts[task];
      || a'.Done?
      || (task in s.accepts && s.accepts[task] == a')
      || (a'.Loaded? && S.GetSession(Apply(s, e).store, a'.owner, a'.sid).Some?)
      || (e.CheckActive? && task in s.accepts && s.accepts[task] == Loaded(a'.owner, a'.sid)
          && (a'.SawActive? ==> S.ActiveTurn(s.store, a'.owner, a'.sid) == Some(a'.copy)) && !a'.Inserted?)
      || (e.CloseStale? && task in s.accepts && s.accepts[task].SawActive?
          && a' == Cleared(s.accepts[task].owner, s.accepts[task].sid))
      || (e.InsertTurn? && task in s.accepts && s.accepts[task].Cleared?
          && a' == Inserted(s.accepts[task].owner, s.accepts[task].sid, e.tid))
  {
  }

  lemma ActorSound(s: State, e: Event, task: nat)
    requires Safe(s) && ActingTask(e) == Some(task) && task in Apply(s, e).accepts
    requires S.Evolves(s.store, Apply(s, e).store)
    ensures TaskSound(Apply(s, e), Apply(s, e).accepts[task])
  {
    ActorPlace(s, e, task);
    var s', a' := Apply(s, e), Apply(s, e).accepts[task];
    if task in s.accepts {
      TaskSoundStable(s, s', s.accepts[task]);
      if a'.SawActive? && s.accepts[task] != a' {
        ActiveIsAPendingRow(s.store, a'.owner, a'.sid);
      }
      if a'.Inserted? && s.accepts[task] != a' {
        InsertedRow(s, task, e.tid, e.topic, e.cachedLive);
      }
    }
  }

  lemma InsertedRow(s: State, task: nat, tid: Uuid, topic: string, cachedLive: bool)
    requires Safe(s) && task in s.accepts && s.accepts[task].Cleared?
    requires Apply(s, InsertTurn(task, tid, topic, cachedLive)).accepts[task].Inserted?
    ensures var s' := Apply(s, InsertTurn(task, tid, topic, cachedLive)); var a := s.accepts[task];
            && s'.store.turns == s.store.turns + [NewTurn(a.owner, a.sid, tid, topic, s.now)]
            && S.IndexOf(s.store.turns, tid) == |s.store.turns|
            && S.IndexOf(s'.store.turns, tid) == |s.store.turns|
            && S.GetTurn(s'.store, a.owner, tid) == Some(NewTurn(a.owner, a.sid, tid, topic, s.now))
  {
    var s' := Apply(s, InsertTurn(task, tid, topic, cachedLive));
    S.SameIndex(s.store.turns, s'.store.turns, tid);
    assert s'.store.turns[|s.store.turns|].id == tid;
  }

  lemma StillInFlight(s: State, e: Event, i: nat, task: nat)
    requires Safe(s) && S.Evolves(s.store, Apply(s, e).store) && i < |s.store.turns|
    requires task in s.accepts && s.accepts[task].Inserted? && s.accepts[task].tid == s.store.turns[i].id
    requires Apply(s, e).store.turns[i].result == Pending
    ensures s.store.turns[i].id in Apply(s, e).dispatched || InFlight(Apply(s, e), s.store.turns[i].id)
  {
    var s' := Apply(s, e);
    if ActingTask(e) != Some(task) {
      OnlyOwnSteps(s, e, task);
      assert s'.accepts[task].Inserted?;
    } else if !e.Dispatch? {
      assert s'.accepts[task] == s.accepts[task];
    } else if !e.ok {
      DispatchFailureCloses(s, task, i);
    }
  }

  lemma StillAccounted(s: State, e: Event, i: nat)
    requires Safe(s) && S.Evolves(s.store, Apply(s, e).store)
    requires i < |Apply(s, e).store.turns| && Apply(s, e).store.turns[i].result == Pending
    ensures Apply(s, e).store.turns[i].id in Apply(s, e).dispatched
         || InFlight(Apply(s, e), Apply(s, e).store.turns[i].id)
  {
    hide TaskSound, S.Inv;
    var s' := Apply(s, e);
    if i < |s.store.turns| {
      assert S.RowEvolves(s.store.turns[i], s'.store.turns[i]);
      if s.store.turns[i].id in s.dispatched {
        OnlyMoreDispatched(s, e);
      } else {
        var task :| task in s.accepts && s.accepts[task].Inserted? && s.accepts[task].tid == s.store.turns[i].id;
        StillInFlight(s, e, i, task);
      }
    } else {
      OnlyInsertAdds(s, e);
      InsertedRow(s, e.task, e.tid, e.topic, e.cachedLive);
      assert s'.accepts[e.task].Inserted?;
    }
  }

  lemma OnlyMoreDispatched(s: State, e: Event)
    ensures s.dispatched <= Apply(s, e).dispatched
  {
  }

  lemma OnlyInsertAdds(s: State, e: Event)
    requires |Apply(s, e).store.turns| > |s.store.turns|
    ensures e.InsertTurn? && e.task in s.accepts && s.accepts[e.task].Cleared?
    ensures Apply(s, e).accepts[e.task].Inserted?
  {
  }

  /** `accept_turn` closes the row whose message it could not send: as a failed dispatch if it is still
      pending, and otherwise it keeps what it has. The caller is told. */
  lemma DispatchFailureCloses(s: State, task: nat, i: nat)
    requires Safe(s) && task in s.accepts && s.accepts[task].Inserted?
    requires i < |s.store.turns| && s.store.turns[i].id == s.accepts[task].tid
    ensures var s' := Apply(s, Dispatch(task, false));
      && |s'.store.turns| == |s.store.turns|
      && s'.store.turns[i].result ==
           (if s.store.turns[i].result == Pending then Error("dispatch_failed") else s.store.turns[i].result)
      && task in s'.accepts && s'.accepts[task] == Done(DispatchFailed(s.store.turns[i].id))
  {
    assert TaskSound(s, s.accepts[task]);
    assert S.IndexOf(s.store.turns, s.accepts[task].tid) == i;
  }

  lemma SafeStep(s: State, e: Event)
    requires Safe(s)
    ensures Safe(Apply(s, e)) && S.Evolves(s.store, Apply(s, e).store)
  {
    var s' := Apply(s, e);
    StoreStep(s, e);
    forall task | task in s'.accepts ensures TaskSound(s', s'.accepts[task]) {
      if ActingTask(e) == Some(task) {
        ActorSound(s, e, task);
      } else {
        OnlyOwnSteps(s, e, task);
        TaskSoundStable(s, s', s.accepts[task]);
      }
    }
    forall i | 0 <= i < |s'.store.turns| && s'.store.turns[i].result == Pending
      ensures s'.store.turns[i].id in s'.dispatched || InFlight(s', s'.store.turns[i].id)
    {
      StillAccounted(s, e, i);
    }
  }

  /** Over every interleaving: one pending turn per session, every turn owned by its session's
      owner, no pending turn lost, and rows only ever evolve. */
  lemma {:induction false} EveryRunIsSafe(s: State, es: seq<Event>)
    requires Safe(s)
    ensures Safe(Run(s, es)) && S.Evolves(s.store, Run(s, es).store)
    decreases |es|
  {
    if es != [] {
      SafeStep(s, es[0]);
      EveryRunIsSafe(Apply(s, es[0]), es[1..]);
      S.EvolvesTransitive(s.store, Apply(s, es[0]).store, Run(s, es).store);
    }
  }

  function Boot(staleAfter: nat): State {
    State(S.Store(map[], [], []), 0, staleAfter, map[], map[], {})
  }

  lemma BootIsSafe(staleAfter: nat, es: seq<Event>)
    ensures Safe(Run(Boot(staleAfter), es))
  {
    EveryRunIsSafe(Boot(staleAfter), es);
  }

  /** A terminal turn keeps its result for ever, whatever is redelivered, cancelled or finalized. */
  lemma TerminalIsFinal(s: State, es: seq<Event>, owner: Uuid, tid: Uuid)
    requires Safe(s) && S.GetTurn(s.store, owner, tid).Some?
    requires S.GetTurn(s.store, owner, tid).value.result != Pending
    ensures S.GetTurn(Run(s, es).store, owner, tid).Some?
    ensures S.GetTurn(Run(s, es).store, owner, tid).value.result == S.GetTurn(s.store, owner, tid).value.result
  {
    EveryRunIsSafe(s, es);
    GetTurnEvolves(s.store, Run(s, es).store, owner, tid);
  }

  // ---------------------------------------------------------------- the session lock under races

  function Place(s: State, task: nat): Option<Accept> {
    if task in s.accepts then Some(s.accepts[task]) else None
  }

  predicate Live(st: S.Store, sid: Uuid) {
    sid in st.sessions && !st.sessions[sid].deleted
  }

  lemma {:induction false} RunKeepsTask(s: State, es: seq<Event>, task: nat)
    requires task in s.accepts && forall e | e in es :: ActingTask(e) != Some(task)
    ensures task in Run(s, es).accepts && Run(s, es).accepts[task] == s.accepts[task]
    decreases |es|
  {
    if es != [] {
      OnlyOwnSteps(s, es[0], task);
      RunKeepsTask(Apply(s, es[0]), es[1..], task);
    }
  }

  /** Two tasks passed the check on one idle session. Whichever inserts first is admitted; the other
      is refused for as long as that turn stays pending, whatever else happens in between. */
  lemma RacingAccepts(s: State, a: nat, b: nat, ta: Uuid, tb: Uuid, topicA: string, topicB: string,
                      between: seq<Event>, owner: Uuid, sid: Uuid)
    requires Safe(s) && a != b
    requires Place(s, a) == Some(Cleared(owner, sid)) && Place(s, b) == Some(Cleared(owner, sid))
    requires Live(s.store, sid) && !S.HasPending(s.store.turns, sid)
    requires S.IndexOf(s.store.turns, ta) == |s.store.turns|
    requires forall e | e in between :: ActingTask(e) != Some(b)
    ensures var s1 := Apply(s, InsertTurn(a, ta, topicA, false));
            var s2 := Run(s1, between);
            var s3 := Apply(s2, InsertTurn(b, tb, topicB, false));
      && Place(s1, a) == Some(Inserted(owner, sid, ta))
      && S.GetTurn(s2.store, owner, ta).Some?
      && (S.GetTurn(s2.store, owner, ta).value.result == Pending
          && S.IndexOf(s2.store.turns, tb) == |s2.store.turns| && Live(s2.store, sid) ==>
            Place(s3, b) == Some(Done(SessionBusy)) && s3.store == s2.store)
      && (Place(s3, b) == Some(Inserted(owner, sid, tb)) ==> S.GetTurn(s2.store, owner, ta).value.result != Pending)
  {
    hide TaskSound, Accounted, S.Evolves, Run;
    var s1 := Apply(s, InsertTurn(a, ta, topicA, false));
    var s2 := Run(s1, between);
    SafeStep(s, InsertTurn(a, ta, topicA, false));
    InsertedRow(s, a, ta, topicA, false);
    OnlyOwnSteps(s, InsertTurn(a, ta, topicA, false), b);
    EveryRunIsSafe(s1, between);
    GetTurnEvolves(s1.store, s2.store, owner, ta);
    RunKeepsTask(s1, between, b);
    if S.GetTurn(s2.store, owner, ta).value.result == Pending {
      assert s2.store.turns[S.IndexOf(s2.store.turns, ta)].session == sid;
      assert S.HasPending(s2.store.turns, sid);
    }
  }

  // ---------------------------------------------------------------- orphans never block

  ghost predicate PendingWithin(st: S.Store, sid: Uuid, ids: set<Uuid>) {
    forall i | 0 <= i < |st.turns| && st.turns[i].session == sid && st.turns[i].result == Pending ::
      st.turns[i].id in ids
  }

  /** Nothing acts on the task, deletes the session or inserts a rival turn into it. */
  ghost predicate Unrivalled(s: State, es: seq<Event>, task: nat, sid: Uuid)
    decreases |es|
  {
    es == [] || (
      && ActingTask(es[0]) != Some(task)
      && !(es[0].DeleteSession? && es[0].sid == sid)
      && !(es[0].InsertTurn? && es[0].task in s.accepts && s.accepts[es[0].task].Cleared?
           && s.accepts[es[0].task].sid == sid)
      && Unrivalled(Apply(s, es[0]), es[1..], task, sid))
  }

  lemma QuietStep(s: State, e: Event, task: nat, sid: Uuid, ids: set<Uuid>)
    requires Safe(s) && task in s.accepts && sid in s.store.sessions && Unrivalled(s, [e], task, sid)
    requires PendingWithin(s.store, sid, ids)
    ensures PendingWithin(Apply(s, e).store, sid, ids)
    ensures sid in Apply(s, e).store.sessions
    ensures Apply(s, e).store.sessions[sid].deleted == s.store.sessions[sid].deleted
    ensures Apply(s, e).now >= s.now && Apply(s, e).staleAfter == s.staleAfter
  {
    QuietSession(s, e, task, sid);
    hide S.Inv, TaskSound, Accounted, Unrivalled;
    var s' := Apply(s, e);
    SafeStep(s, e);
    forall i | 0 <= i < |s'.store.turns| && s'.store.turns[i].session == sid && s'.store.turns[i].result == Pending
      ensures s'.store.turns[i].id in ids
    {
      if i < |s.store.turns| {
        assert S.RowEvolves(s.store.turns[i], s'.store.turns[i]);
      } else {
        OnlyInsertAdds(s, e);
        InsertedRow(s, e.task, e.tid, e.topic, e.cachedLive);
      }
    }
  }

  predicate NotRival(s: State, e: Event, sid: Uuid) {
    !(e.InsertTurn? && e.task in s.accepts && s.accepts[e.task].Cleared? && s.accepts[e.task].sid == sid)
  }

  lemma QuietSession(s: State, e: Event, task: nat, sid: Uuid)
    requires Safe(s) && task in s.accepts && sid in s.store.sessions && Unrivalled(s, [e], task, sid)
    ensures sid in Apply(s, e).store.sessions && NotRival(s, e, sid)
    ensures Apply(s, e).store.sessions[sid].deleted == s.store.sessions[sid].deleted
    ensures Apply(s, e).now >= s.now && Apply(s, e).staleAfter == s.staleAfter
  {
    hide S.Inv, TaskSound, Accounted;
    SafeStep(s, e);
  }

  lemma {:induction false} QuietRun(s: State, es: seq<Event>, task: nat, sid: Uuid, ids: set<Uuid>)
    requires Safe(s) && task in s.accepts && sid in s.store.sessions && Unrivalled(s, es, task, sid)
    requires PendingWithin(s.store, sid, ids)
    ensures Safe(Run(s, es)) && PendingWithin(Run(s, es).store, sid, ids)
    ensures sid in Run(s, es).store.sessions
    ensures Run(s, es).store.sessions[sid].deleted == s.store.sessions[sid].deleted
    ensures Run(s, es).now >= s.now && Run(s, es).staleAfter == s.staleAfter
    ensures task in Run(s, es).accepts && Run(s, es).accepts[task] == s.accepts[task]
    decreases |es|
  {
    if es != [] {
      assert Unrivalled(Apply(s, es[0]), [], task, sid);
      assert [es[0]][1..] == [];
      QuietStep(s, es[0], task, sid, ids);
      SafeStep(s, es[0]);
      OnlyOwnSteps(s, es[0], task);
      QuietRun(Apply(s, es[0]), es[1..], task, sid, ids);
    }
  }

  lemma InsertIntoIdle(s: State, task: nat, tid: Uuid, topic: string, owner: Uuid, sid: Uuid)
    requires Safe(s) && Place(s, task) == Some(Cleared(owner, sid))
    requires Live(s.store, sid) && PendingWithin(s.store, sid, {})
    requires S.IndexOf(s.store.turns, tid) == |s.store.turns|
    ensures Place(Apply(s, InsertTurn(task, tid, topic, false)), task) == Some(Inserted(owner, sid, tid))
    ensures S.GetTurn(Apply(s, InsertTurn(task, tid, topic, false)).store, owner, tid).Some?
    ensures S.GetTurn(Apply(s, InsertTurn(task, tid, topic, false)).store, owner, tid).value.result == Pending
  {
    assert !S.HasPending(s.store.turns, sid);
    InsertedRow(s, task, tid, topic, false);
  }

  lemma OnlyTheActiveTurn(st: S.Store, owner: Uuid, sid: Uuid)
    requires S.Inv(st) && S.ActiveTurn(st, owner, sid).Some?
    ensures PendingWithin(st, sid, {S.ActiveTurn(st, owner, sid).value.id})
  {
    ActiveIsAPendingRow(st, owner, sid);
  }

  lemma ClosedMeansIdle(st: S.Store, owner: Uuid, sid: Uuid, tid: Uuid, result: Terminal)
    requires S.Inv(st) && PendingWithin(st, sid, {tid}) && S.GetTurn(st, owner, tid).Some?
    ensures PendingWithin(S.UpdateTurnResult(st, owner, tid, result), sid, {})
  {
    var st' := S.UpdateTurnResult(st, owner, tid, result);
    forall i | 0 <= i < |st'.turns| && st'.turns[i].session == sid
      ensures st'.turns[i].result != Pending
    {
      if st.turns[i].result == Pending {
        assert st.turns[i].id == tid;
        assert S.IndexOf(st.turns, tid) == i;
      }
    }
  }

  /** The task holds a copy of the only turn that may still be pending in its session. */
  ghost predicate AboutToClose(s: State, task: nat, owner: Uuid, sid: Uuid, copy: TurnRow) {
    && Safe(s) && Live(s.store, sid) && PendingWithin(s.store, sid, {copy.id})
    && task in s.accepts && s.accepts[task].SawActive?
    && s.accepts[task].owner == owner && s.accepts[task].sid == sid && s.accepts[task].copy == copy
    && S.GetTurn(s.store, owner, copy.id).Some?
    && IsStale(copy, s.now, s.staleAfter)
  }

  lemma CheckSeesStale(s: State, task: nat, owner: Uuid, sid: Uuid)
    requires Safe(s) && Place(s, task) == Some(Loaded(owner, sid)) && Live(s.store, sid)
    requires S.ActiveTurn(s.store, owner, sid).Some?
    requires IsStale(S.ActiveTurn(s.store, owner, sid).value, s.now, s.staleAfter)
    ensures AboutToClose(Apply(s, CheckActive(task)), task, owner, sid, S.ActiveTurn(s.store, owner, sid).value)
  {
    SafeStep(s, CheckActive(task));
    ActiveIsAPendingRow(s.store, owner, sid);
    OnlyTheActiveTurn(s.store, owner, sid);
  }

  lemma QuietKeepsClosing(s: State, es: seq<Event>, task: nat, owner: Uuid, sid: Uuid, copy: TurnRow)
    requires AboutToClose(s, task, owner, sid, copy) && Unrivalled(s, es, task, sid)
    ensures AboutToClose(Run(s, es), task, owner, sid, copy)
  {
    QuietRun(s, es, task, sid, {copy.id});
    EveryRunIsSafe(s, es);
    GetTurnEvolves(s.store, Run(s, es).store, owner, copy.id);
  }

  lemma CloseFreesSession(s: State, task: nat, owner: Uuid, sid: Uuid, copy: TurnRow, snapshot: Option<Terminal>)
    requires AboutToClose(s, task, owner, sid, copy)
    ensures var s' := Apply(s, CloseStale(task, snapshot));
      && Safe(s') && Live(s'.store, sid) && PendingWithin(s'.store, sid, {})
      && Place(s', task) == Some(Cleared(owner, sid))
      && S.GetTurn(s'.store, owner, copy.id).Some? && S.GetTurn(s'.store, owner, copy.id).value.result != Pending
  {
    SafeStep(s, CloseStale(task, snapshot));
    ClosedMeansIdle(s.store, owner, sid, copy.id, ClosingResult(snapshot));
    S.UpdateCloses(s.store, owner, copy.id, ClosingResult(snapshot));
  }

  /** A pending turn last heard from `staleAfter` ago, or never picked up for three times as long, never
      blocks its session: the next accept nobody rivals closes it and is admitted, however the steps of
      all other tasks fall between its own. */
  lemma StaleTurnNeverBlocks(s: State, task: nat, owner: Uuid, sid: Uuid, es1: seq<Event>,
                             snapshot: Option<Terminal>, es2: seq<Event>, tid: Uuid, topic: string)
    requires Safe(s) && Place(s, task) == Some(Loaded(owner, sid)) && Live(s.store, sid)
    requires S.ActiveTurn(s.store, owner, sid).Some?
    requires match S.ActiveTurn(s.store, owner, sid).value.heartbeat
             case Some(heard) => s.now >= heard + s.staleAfter
             case None => s.now >= S.ActiveTurn(s.store, owner, sid).value.created + 3 * s.staleAfter
    requires Unrivalled(Apply(s, CheckActive(task)), es1, task, sid)
    requires var s3 := Apply(Run(Apply(s, CheckActive(task)), es1), CloseStale(task, snapshot));
             Unrivalled(s3, es2, task, sid) && S.IndexOf(Run(s3, es2).store.turns, tid) == |Run(s3, es2).store.turns|
    ensures var s3 := Apply(Run(Apply(s, CheckActive(task)), es1), CloseStale(task, snapshot));
            var s5 := Apply(Run(s3, es2), InsertTurn(task, tid, topic, false));
            var stale := S.ActiveTurn(s.store, owner, sid).value;
      && Place(s5, task) == Some(Inserted(owner, sid, tid))
      && S.GetTurn(s5.store, owner, stale.id).Some? && S.GetTurn(s5.store, owner, stale.id).value.result != Pending
      && S.GetTurn(s5.store, owner, tid).Some? && S.GetTurn(s5.store, owner, tid).value.result == Pending
  {
    var stale := S.ActiveTurn(s.store, owner, sid).value;
    ActiveIsAPendingRow(s.store, owner, sid);
    CheckSeesStale(s, task, owner, sid);
    QuietKeepsClosing(Apply(s, CheckActive(task)), es1, task, owner, sid, stale);
    CloseFreesSession(Run(Apply(s, CheckActive(task)), es1), task, owner, sid, stale, snapshot);
    var s3 := Apply(Run(Apply(s, CheckActive(task)), es1), CloseStale(task, snapshot));
    var s4 := Run(s3, es2);
    QuietRun(s3, es2, task, sid, {});
    InsertIntoIdle(s4, task, tid, topic, owner, sid);
    SafeStep(s4, InsertTurn(task, tid, topic, false));
    TerminalIsFinal(s3, es2, owner, stale.id);
    GetTurnEvolves(s4.store, Apply(s4, InsertTurn(task, tid, topic, false)).store, owner, stale.id);
  }

  // ---------------------------------------------------------------- live turns are never closed

  function GapBound(t: TurnRow, gap: nat, unpicked: nat): nat {
    if t.heartbeat == None then unpicked else gap
  }

  /** While pending, the turn has been heard from within `gap` (or created within `unpicked`). */
  ghost predicate HeardFrom(s: State, tid: Uuid, gap: nat, unpicked: nat) {
    forall t | t in s.store.turns && t.id == tid && t.result == Pending ::
      s.now - LastSeen(t) <= GapBound(t, gap, unpicked)
  }

  /** The copy, if any, that this event is about to judge. */
  function Judged(s: State, e: Event): Option<(TurnRow, nat)> {
    match e
    case CloseStale(task, _) =>
      if task in s.accepts && s.accepts[task].SawActive?
      then Some((s.accepts[task].copy, s.accepts[task].readAt)) else None
    case FinalizeRead(reader, _) =>
      if reader in s.readers && s.readers[reader].Holding?
      then Some((s.readers[reader].copy, s.readers[reader].readAt)) else None
    case _ => None
  }

  /** The turn's heartbeats keep their gaps and every reader judges within `delay` of reading. */
  ghost predicate Punctual(s: State, es: seq<Event>, tid: Uuid, gap: nat, unpicked: nat, delay: nat)
    decreases |es|
  {
    HeardFrom(s, tid, gap, unpicked) && (es == [] || (
      && (var j := Judged(s, es[0]); j.Some? && j.value.0.id == tid ==> s.now - j.value.1 <= delay)
      && Punctual(Apply(s, es[0]), es[1..], tid, gap, unpicked, delay)))
  }

  ghost predicate ReadersClose(s: State, es: seq<Event>, tid: Uuid)
    decreases |es|
  {
    es != [] && (
      || (var j := Judged(s, es[0]); j.Some? && j.value.0.id == tid && IsStale(j.value.0, s.now, s.staleAfter))
      || ReadersClose(Apply(s, es[0]), es[1..], tid))
  }

  predicate FreshCopy(t: TurnRow, readAt: nat, tid: Uuid, gap: nat, unpicked: nat) {
    t.id == tid && t.result == Pending ==> readAt - LastSeen(t) <= GapBound(t, gap, unpicked)
  }

  ghost predicate CopiesFresh(s: State, tid: Uuid, gap: nat, unpicked: nat) {
    && (forall k | k in s.accepts && s.accepts[k].SawActive? ::
          FreshCopy(s.accepts[k].copy, s.accepts[k].readAt, tid, gap, unpicked))
    && (forall k | k in s.readers && s.readers[k].Holding? ::
          FreshCopy(s.readers[k].copy, s.readers[k].readAt, tid, gap, unpicked))
  }

  lemma CopiesStayFresh(s: State, e: Event, tid: Uuid, gap: nat, unpicked: nat)
    requires Safe(s) && CopiesFresh(s, tid, gap, unpicked) && HeardFrom(s, tid, gap, unpicked)
    ensures CopiesFresh(Apply(s, e), tid, gap, unpicked)
  {
    hide TaskSound, Accounted, S.Evolves;
    if e.CheckActive? && e.task in s.accepts && s.accepts[e.task].Loaded?
       && S.ActiveTurn(s.store, s.accepts[e.task].owner, s.accepts[e.task].sid).Some? {
      ActiveIsAPendingRow(s.store, s.accepts[e.task].owner, s.accepts[e.task].sid);
    }
    if e.ReadTurn? && S.GetTurn(s.store, e.owner, e.tid).Some? {
      assert S.GetTurn(s.store, e.owner, e.tid).value in s.store.turns;
    }
  }

  /** If gaps plus the read-to-check delay stay under the limits, no reader ever closes the turn. */
  lemma {:induction false} LiveTurnNeverClosedByReaders(s: State, es: seq<Event>, tid: Uuid,
                                                        gap: nat, unpicked: nat, delay: nat)
    requires Safe(s) && CopiesFresh(s, tid, gap, unpicked) && Punctual(s, es, tid, gap, unpicked, delay)
    requires gap + delay < s.staleAfter && unpicked + delay < s.staleAfter * UNPICKED_STALE_FACTOR
    ensures !ReadersClose(s, es, tid)
    decreases |es|
  {
    if es != [] {
      SafeStep(s, es[0]);
      CopiesStayFresh(s, es[0], tid, gap, unpicked);
      assert Apply(s, es[0]).staleAfter == s.staleAfter;
      LiveTurnNeverClosedByReaders(Apply(s, es[0]), es[1..], tid, gap, unpicked, delay);
    }
  }

  // ---------------------------------------------------------------- exactly when an orphan is closed

  /** A poll judges the copy it holds, in numbers: it closes the turn if and only if that was last heard
      from `staleAfter` ago or, never picked up, was created three times as long ago. The row then holds
      the snapshot's result or an error, unless another had closed it; otherwise nothing is written and
      the answer is the copy's. */
  lemma PollVerdict(s: State, reader: nat, snapshot: Option<Terminal>)
    requires Safe(s) && reader in s.readers && s.readers[reader].Holding?
    requires S.GetTurn(s.store, s.readers[reader].owner, s.readers[reader].copy.id).Some?
    ensures var r := s.readers[reader];
      var late := match r.copy.heartbeat
                  case Some(heard) => s.now >= heard + s.staleAfter
                  case None => s.now >= r.copy.created + 3 * s.staleAfter;
      var verdict := if snapshot.Some? then snapshot.value else Error("internal_error");
      var before := S.GetTurn(s.store, r.owner, r.copy.id).value;
      var s' := Apply(s, FinalizeRead(reader, snapshot));
      && (r.copy.result == Pending && late ==>
            && s'.readers[reader] == Answered(r.owner, r.copy.id, verdict)
            && S.GetTurn(s'.store, r.owner, r.copy.id) ==
                 Some(if before.result == Pending then before.(result := verdict) else before))
      && (!(r.copy.result == Pending && late) ==>
            s' == s.(readers := s.readers[reader := Answered(r.owner, r.copy.id, r.copy.result)]))
  {
    hide TaskSound, Accounted;
    S.ResultRow(s.store, s.readers[reader].owner, s.readers[reader].copy.id, ClosingResult(snapshot));
  }

  /** The same of an accept that found an active turn: past the limit it closes it and goes on, below
      the limit it ends as busy and nothing is written. */
  lemma AcceptVerdict(s: State, task: nat, snapshot: Option<Terminal>)
    requires Safe(s) && task in s.accepts && s.accepts[task].SawActive?
    requires s.accepts[task].copy.result == Pending
    ensures var a := s.accepts[task];
      var late := match a.copy.heartbeat
                  case Some(heard) => s.now >= heard + s.staleAfter
                  case None => s.now >= a.copy.created + 3 * s.staleAfter;
      var verdict := if snapshot.Some? then snapshot.value else Error("internal_error");
      var s' := Apply(s, CloseStale(task, snapshot));
      && (late ==>
            && Place(s', task) == Some(Cleared(a.owner, a.sid))
            && S.GetTurn(s.store, a.owner, a.copy.id).Some?
            && var before := S.GetTurn(s.store, a.owner, a.copy.id).value;
               S.GetTurn(s'.store, a.owner, a.copy.id) ==
                 Some(if before.result == Pending then before.(result := verdict) else before))
      && (!late ==> s' == s.(accepts := s.accepts[task := Done(SessionBusy)]))
  {
    hide Accounted;
    assert TaskSound(s, s.accepts[task]);
    S.ResultRow(s.store, s.accepts[task].owner, s.accepts[task].copy.id, ClosingResult(snapshot));
  }

  /** From read to verdict: a poll that judges d after it read closes a pending turn if and only if d
      reaches what is left of its limit. */
  lemma PollClosesIff(s: State, reader: nat, owner: Uuid, tid: Uuid, d: nat, snapshot: Option<Terminal>)
    requires Safe(s) && S.GetTurn(s.store, owner, tid).Some? && S.GetTurn(s.store, owner, tid).value.result == Pending
    ensures var t := S.GetTurn(s.store, owner, tid).value;
      var s' := Apply(Apply(Apply(s, ReadTurn(reader, owner, tid)), Tick(d)), FinalizeRead(reader, snapshot));
      && S.GetTurn(s'.store, owner, tid).Some?
      && (S.GetTurn(s'.store, owner, tid).value.result != Pending <==>
            match t.heartbeat
            case Some(heard) => s.now + d >= heard + s.staleAfter
            case None => s.now + d >= t.created + 3 * s.staleAfter)
  {
    hide TaskSound, Accounted, S.GetTurn;
    var s1 := Apply(s, ReadTurn(reader, owner, tid));
    var s2 := Apply(s1, Tick(d));
    SafeStep(s, ReadTurn(reader, owner, tid));
    SafeStep(s1, Tick(d));
    S.GetTurnIff(s.store, owner, tid, S.GetTurn(s.store, owner, tid).value);
    PollVerdict(s2, reader, snapshot);
  }

  // ---------------------------------------------------------------- what a reader answers

  /** `finalize_if_stale` hands its own result to the caller even when the conditional UPDATE lost;
      the answer is the stored result exactly when the row was still pending or already said so. */
  lemma StaleAnswerIsStored(s: State, reader: nat, snapshot: Option<Terminal>)
    requires Safe(s) && reader in s.readers && s.readers[reader].Holding?
    requires IsStale(s.readers[reader].copy, s.now, s.staleAfter)
    requires S.GetTurn(s.store, s.readers[reader].owner, s.readers[reader].copy.id).Some?
    ensures var r := s.readers[reader];
            var before := S.GetTurn(s.store, r.owner, r.copy.id).value.result;
            var s' := Apply(s, FinalizeRead(reader, snapshot));
      && s'.readers[reader].Answered?
      && S.GetTurn(s'.store, r.owner, r.copy.id).Some?
      && (s'.readers[reader].result == S.GetTurn(s'.store, r.owner, r.copy.id).value.result
          <==> before == Pending || before == ClosingResult(snapshot))
  {
    S.UpdateCloses(s.store, s.readers[reader].owner, s.readers[reader].copy.id, ClosingResult(snapshot));
  }

  /** So a poll can contradict the store: let the executor's result land between the poll's read
      and its conditional UPDATE. */
  lemma PollMayContradictStore(s: State, reader: nat, snapshot: Option<Terminal>, result: Terminal)
    requires Safe(s) && reader in s.readers && s.readers[reader].Holding?
    requires IsStale(s.readers[reader].copy, s.now, s.staleAfter) && result != ClosingResult(snapshot)
    requires S.GetTurn(s.store, s.readers[reader].owner, s.readers[reader].copy.id).Some?
    requires S.GetTurn(s.store, s.readers[reader].owner, s.readers[reader].copy.id).value.result == Pending
    ensures var r := s.readers[reader];
            var s' := Apply(Apply(s, Finish(r.owner, r.copy.id, result)), FinalizeRead(reader, snapshot));
      && reader in s'.readers && s'.readers[reader] == Answered(r.owner, r.copy.id, ClosingResult(snapshot))
      && S.GetTurn(s'.store, r.owner, r.copy.id).Some?
      && S.GetTurn(s'.store, r.owner, r.copy.id).value.result == result
  {
    hide TaskSound, Accounted;
    var r := s.readers[reader];
    var mid := Apply(s, Finish(r.owner, r.copy.id, result));
    SafeStep(s, Finish(r.owner, r.copy.id, result));
    S.UpdateCloses(s.store, r.owner, r.copy.id, result);
    S.UpdateCloses(mid.store, r.owner, r.copy.id, ClosingResult(snapshot));
  }

  function PollScript(staleAfter: nat, owner: Uuid, sid: Uuid, tid: Uuid, topic: string, result: Terminal): seq<Event> {
    [OpenSession(0, owner, sid), CheckActive(0), InsertTurn(0, tid, topic, false), Dispatch(0, true),
     ReadTurn(0, owner, tid), Tick(staleAfter * UNPICKED_STALE_FACTOR), Finish(owner, tid, result),
     FinalizeRead(0, None)]
  }

  /** It happens: a turn that waited in the queue past its limit is read by a poll, then answered,
      and then the poll judges its copy. */
  lemma PollContradictionIsReachable(staleAfter: nat, owner: Uuid, sid: Uuid, tid: Uuid, topic: string,
                                     result: Terminal)
    requires result != Error("internal_error")
    ensures var s := Run(Boot(staleAfter), PollScript(staleAfter, owner, sid, tid, topic, result));
      && 0 in s.readers && s.readers[0] == Answered(owner, tid, Error("internal_error"))
      && S.GetTurn(s.store, owner, tid).Some? && S.GetTurn(s.store, owner, tid).value.result == result
  {
    hide Run, Apply;
    var es := PollScript(staleAfter, owner, sid, tid, topic, result);
    var s6 := Run(Boot(staleAfter), es[..6]);
    WaitingTurnIsHeld(staleAfter, owner, sid, tid, topic, result);
    assert es[..6] + es[6..] == es;
    RunConcat(Boot(staleAfter), es[..6], es[6..]);
    assert es[6..] == [es[6], es[7]];
    TwoEvents(s6, es[6], es[7]);
    BootIsSafe(staleAfter, es[..6]);
    PollMayContradictStore(s6, 0, None, result);
  }

  lemma {:induction false} RunConcat(s: State, a: seq<Event>, b: seq<Event>)
    ensures Run(s, a + b) == Run(Run(s, a), b)
    decreases |a|
  {
    hide Apply;
    if a == [] {
      assert a + b == b;
    } else {
      assert (a + b)[1..] == a[1..] + b;
      RunConcat(Apply(s, a[0]), a[1..], b);
    }
  }

  lemma TwoEvents(s: State, a: Event, b: Event)
    ensures Run(s, [a, b]) == Apply(Apply(s, a), b)
  {
    hide Apply;
    assert [a, b][1..] == [b] && [b][1..] == [];
    assert Run(s, [a, b]) == Run(Apply(s, a), [b]);
    assert Run(Apply(s, a), [b]) == Run(Apply(Apply(s, a), b), []);
  }

  /** After the first six events the poll holds a copy of the pending turn, past its limit. */
  lemma WaitingTurnIsHeld(staleAfter: nat, owner: Uuid, sid: Uuid, tid: Uuid, topic: string, result: Terminal)
    ensures var s := Run(Boot(staleAfter), PollScript(staleAfter, owner, sid, tid, topic, result)[..6]);
      && 0 in s.readers && s.readers[0] == Holding(owner, NewTurn(owner, sid, tid, topic, 0), 0)
      && IsStale(NewTurn(owner, sid, tid, topic, 0), s.now, s.staleAfter)
      && S.GetTurn(s.store, owner, tid) == Some(NewTurn(owner, sid, tid, topic, 0))
  {
    hide Run, Apply;
    var es := PollScript(staleAfter, owner, sid, tid, topic, result)[..6];
    var s0 := Boot(staleAfter);
    var s2, s4 := Apply(Apply(s0, es[0]), es[1]), Run(Run(s0, es[..2]), es[2..4]);
    assert es[..2] == [es[0], es[1]] && es[2..4] == [es[2], es[3]] && es[4..6] == [es[4], es[5]];
    TwoEvents(s0, es[0], es[1]);
    TwoEvents(s2, es[2], es[3]);
    TwoEvents(s4, es[4], es[5]);
    RunConcat(s0, es[..2], es[2..4]);
    RunConcat(s0, es[..2] + es[2..4], es[4..6]);
    assert es[..2] + es[2..4] + es[4..6] == es;
    OpenAndCheck(staleAfter, owner, sid);
    InsertAndDispatch(s2, owner, sid, tid, topic);
    ReadAndWait(s4, owner, sid, tid, topic);
  }

  lemma OpenAndCheck(staleAfter: nat, owner: Uuid, sid: Uuid)
    ensures var s := Apply(Apply(Boot(staleAfter), OpenSession(0, owner, sid)), CheckActive(0));
      && Place(s, 0) == Some(Cleared(owner, sid)) && s.store.turns == [] && s.now == 0 && s.staleAfter == staleAfter
      && sid in s.store.sessions && s.store.sessions[sid].owner == owner && !s.store.sessions[sid].deleted
  {
  }

  lemma InsertAndDispatch(s: State, owner: Uuid, sid: Uuid, tid: Uuid, topic: string)
    requires Place(s, 0) == Some(Cleared(owner, sid)) && s.store.turns == [] && s.now == 0
    requires sid in s.store.sessions && s.store.sessions[sid].owner == owner && !s.store.sessions[sid].deleted
    ensures var s' := Apply(Apply(s, InsertTurn(0, tid, topic, false)), Dispatch(0, true));
      s'.store.turns == [NewTurn(owner, sid, tid, topic, 0)] && s'.now == 0 && s'.staleAfter == s.staleAfter
  {
  }

  lemma ReadAndWait(s: State, owner: Uuid, sid: Uuid, tid: Uuid, topic: string)
    requires s.store.turns == [NewTurn(owner, sid, tid, topic, 0)] && s.now == 0
    ensures var row := NewTurn(owner, sid, tid, topic, 0);
      var s' := Apply(Apply(s, ReadTurn(0, owner, tid)), Tick(s.staleAfter * UNPICKED_STALE_FACTOR));
      && 0 in s'.readers && s'.readers[0] == Holding(owner, row, 0)
      && IsStale(row, s'.now, s'.staleAfter) && S.GetTurn(s'.store, owner, tid) == Some(row)
  {
  }
}
