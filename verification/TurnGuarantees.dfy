/** What the turn protocol promises its users, written out in terms of the rows: an accepted question is
    stored as asked, a cancellation reaches the executor, a heartbeat puts the orphan rule off, nobody
    else's requests touch a user's rows, and a deleted session stays deleted (service.py, repository.py). */
module TurnGuarantees {
  import opened EvidenceModels
  import opened Sequences
  import opened TurnProtocol
  import S = TurnStore
  import Q = StoreQueries

  // ---------------------------------------------------------------- one accept, from end to end

  /** The four transactions of an accept nobody disturbs, on a session of the caller. */
  function Accepting(task: nat, owner: Uuid, sid: Uuid, tid: Uuid, topic: string): seq<Event> {
    [LoadSession(task, owner, sid), CheckActive(task), InsertTurn(task, tid, topic, false), Dispatch(task, true)]
  }

  lemma FourEvents(s: State, a: Event, b: Event, c: Event, d: Event)
    ensures Run(s, [a, b, c, d]) == Apply(Apply(Apply(Apply(s, a), b), c), d)
  {
    hide Apply;
    assert [a, b, c, d] == [a, b] + [c, d];
    RunConcat(s, [a, b], [c, d]);
    TwoEvents(s, a, b);
    TwoEvents(Apply(Apply(s, a), b), c, d);
  }

  /** On an idle session the question is stored as one pending turn of the caller, exactly as asked and
      timed by the clock, and its message is sent; a session the caller cannot read is "not found". */
  lemma AcceptStoresTheQuestion(s: State, task: nat, owner: Uuid, sid: Uuid, tid: Uuid, topic: string)
    requires Safe(s) && task !in s.accepts && S.IndexOf(s.store.turns, tid) == |s.store.turns|
    requires forall t | t in s.store.turns && t.session == sid :: t.result != Pending
    ensures var s' := Run(s, Accepting(task, owner, sid, tid, topic));
      if Q.Readable(s.store, owner, sid) then
        && Place(s', task) == Some(Done(Accepted(tid)))
        && s'.store == s.store.(turns := s.store.turns
             + [TurnRow(tid, sid, owner, topic, Pending, s.now, false, None, false, false)])
        && s'.dispatched == s.dispatched + {tid}
      else Place(s', task) == Some(Done(NotFound)) && s'.store == s.store && s'.dispatched == s.dispatched
  {
    hide Apply, Run;
    var es := Accepting(task, owner, sid, tid, topic);
    FourEvents(s, es[0], es[1], es[2], es[3]);
    var s1 := Apply(s, es[0]);
    Loads(s, task, owner, sid);
    if Q.Readable(s.store, owner, sid) {
      FindsNobody(s1, task, owner, sid);
      Inserts(Apply(s1, es[1]), task, owner, sid, tid, topic);
      Dispatches(Apply(Apply(s1, es[1]), es[2]), task, owner, sid, tid);
    } else {
      DoneStays(s1, es[1], task);
      DoneStays(s1, es[2], task);
      DoneStays(s1, es[3], task);
    }
  }

  lemma Loads(s: State, task: nat, owner: Uuid, sid: Uuid)
    requires task !in s.accepts
    ensures Apply(s, LoadSession(task, owner, sid)) ==
      s.(accepts := s.accepts[task := if Q.Readable(s.store, owner, sid) then Loaded(owner, sid) else Done(NotFound)])
  {
  }

  lemma FindsNobody(s: State, task: nat, owner: Uuid, sid: Uuid)
    requires Place(s, task) == Some(Loaded(owner, sid))
    requires forall t | t in s.store.turns && t.session == sid :: t.result != Pending
    ensures Apply(s, CheckActive(task)) == s.(accepts := s.accepts[task := Cleared(owner, sid)])
  {
    FilterNone(S.MineActive(owner, sid), s.store.turns);
    assert forall i | 0 <= i < |s.store.turns| :: s.store.turns[i] in s.store.turns;
  }

  lemma Inserts(s: State, task: nat, owner: Uuid, sid: Uuid, tid: Uuid, topic: string)
    requires Place(s, task) == Some(Cleared(owner, sid)) && Q.Readable(s.store, owner, sid)
    requires S.IndexOf(s.store.turns, tid) == |s.store.turns|
    requires forall t | t in s.store.turns && t.session == sid :: t.result != Pending
    ensures Apply(s, InsertTurn(task, tid, topic, false)) ==
      s.(accepts := s.accepts[task := Inserted(owner, sid, tid)],
         store := s.store.(turns := s.store.turns
           + [TurnRow(tid, sid, owner, topic, Pending, s.now, false, None, false, false)]))
  {
    assert !S.HasPending(s.store.turns, sid);
  }

  lemma Dispatches(s: State, task: nat, owner: Uuid, sid: Uuid, tid: Uuid)
    requires Place(s, task) == Some(Inserted(owner, sid, tid))
    ensures Apply(s, Dispatch(task, true)) ==
      s.(accepts := s.accepts[task := Done(Accepted(tid))], dispatched := s.dispatched + {tid})
  {
  }

  lemma DoneStays(s: State, e: Event, task: nat)
    requires Place(s, task).Some? && Place(s, task).value.Done?
    requires e.CheckActive? || e.InsertTurn? || e.Dispatch?
    requires ActingTask(e) == Some(task)
    ensures Apply(s, e) == s
  {
  }

  // ---------------------------------------------------------------- cancellation

  /** What the next heartbeat of the owner's turn answers. */
  function Told(st: S.Store, owner: Uuid, tid: Uuid, now: nat): bool {
    S.Heartbeat(st, owner, tid, now).Some? && S.Heartbeat(st, owner, tid, now).value.0
  }

  /** A cancellation is accepted exactly while the turn is pending; then every later heartbeat of its
      executor is told so, whatever happens in between, and a refused one leaves nothing behind. */
  lemma CancelIsSeen(s: State, owner: Uuid, tid: Uuid, es: seq<Event>, now: nat)
    requires Safe(s) && S.GetTurn(s.store, owner, tid).Some?
    ensures var s' := Apply(s, CancelTurn(owner, tid));
      && S.RequestCancel(s.store, owner, tid).Some?
      && (S.RequestCancel(s.store, owner, tid).value.0 <==> S.GetTurn(s.store, owner, tid).value.result == Pending)
      && (if S.GetTurn(s.store, owner, tid).value.result == Pending
          then Told(Run(s', es).store, owner, tid, now)
          else s' == s)
  {
    hide Safe, Run;
    var t := S.GetTurn(s.store, owner, tid).value;
    var s' := Apply(s, CancelTurn(owner, tid));
    SafeStep(s, CancelTurn(owner, tid));
    S.SameIndex(s.store.turns, s'.store.turns, tid);
    if t.result == Pending {
      EveryRunIsSafe(s', es);
      GetTurnEvolves(s'.store, Run(s', es).store, owner, tid);
    } else {
      RefusedLeavesNothing(s, owner, tid);
    }
  }

  lemma RefusedLeavesNothing(s: State, owner: Uuid, tid: Uuid)
    requires Safe(s) && S.GetTurn(s.store, owner, tid).Some?
    requires S.GetTurn(s.store, owner, tid).value.result != Pending
    ensures Apply(s, CancelTurn(owner, tid)) == s
  {
    var k := S.IndexOf(s.store.turns, tid);
    var after := MapSeq(S.SetCancel(owner, tid), s.store.turns);
    forall i | 0 <= i < |s.store.turns| ensures after[i] == s.store.turns[i] {
      if s.store.turns[i].id == tid { assert i == k; }
    }
    assert after == s.store.turns;
  }

  /** And nothing else cancels it. */
  lemma {:induction false} OnlyCancelCancels(s: State, owner: Uuid, tid: Uuid, es: seq<Event>, now: nat)
    requires Safe(s) && S.GetTurn(s.store, owner, tid).Some? && CancelTurn(owner, tid) !in es
    ensures Told(Run(s, es).store, owner, tid, now) == Told(s.store, owner, tid, now)
    decreases |es|
  {
    hide Safe, Apply, Told;
    if es != [] {
      SafeStep(s, es[0]);
      GetTurnEvolves(s.store, Apply(s, es[0]).store, owner, tid);
      StepTells(s, owner, tid, es[0], now);
      OnlyCancelCancels(Apply(s, es[0]), owner, tid, es[1..], now);
    }
  }

  lemma StepTells(s: State, owner: Uuid, tid: Uuid, e: Event, now: nat)
    requires Safe(s) && S.GetTurn(s.store, owner, tid).Some? && e != CancelTurn(owner, tid)
    ensures Told(Apply(s, e).store, owner, tid, now) == Told(s.store, owner, tid, now)
  {
    var k := S.IndexOf(s.store.turns, tid);
    SafeStep(s, e);
    S.SameIndex(s.store.turns, Apply(s, e).store.turns, tid);
    FlagKept(s, e, owner, tid, k);
  }

  lemma FlagKept(s: State, e: Event, owner: Uuid, tid: Uuid, k: nat)
    requires k < |s.store.turns| && s.store.turns[k].id == tid && s.store.turns[k].owner == owner
    requires e != CancelTurn(owner, tid)
    ensures |Apply(s, e).store.turns| >= |s.store.turns|
    ensures Apply(s, e).store.turns[k].cancelRequested == s.store.turns[k].cancelRequested
    ensures Apply(s, e).store.turns[k].owner == owner
  {
    hide S.GetTurn, S.ActiveTurn, S.IndexOf, S.HasPending, IsStale, ClosingResult;
  }

  // ---------------------------------------------------------------- heartbeats

  /** A heartbeat starts the clock afresh: a poll that reads after it and judges d later closes the turn
      if and only if d has reached the limit of a running turn. The beat changes nothing else. */
  lemma BeatDefersTheOrphanRule(s: State, owner: Uuid, tid: Uuid, reader: nat, d: nat, snapshot: Option<Terminal>)
    requires Safe(s) && S.GetTurn(s.store, owner, tid).Some? && S.GetTurn(s.store, owner, tid).value.result == Pending
    ensures var s1 := Apply(s, Beat(owner, tid));
      var s' := Apply(Apply(Apply(s1, ReadTurn(reader, owner, tid)), Tick(d)), FinalizeRead(reader, snapshot));
      && S.GetTurn(s1.store, owner, tid) == Some(S.GetTurn(s.store, owner, tid).value.(heartbeat := Some(s.now)))
      && S.GetTurn(s'.store, owner, tid).Some?
      && (S.GetTurn(s'.store, owner, tid).value.result != Pending <==> d >= s.staleAfter)
  {
    hide Safe;
    var s1 := Apply(s, Beat(owner, tid));
    SafeStep(s, Beat(owner, tid));
    S.SameIndex(s.store.turns, s1.store.turns, tid);
    hide Apply;
    PollClosesIff(s1, reader, owner, tid, d, snapshot);
    NoTimePassed(s, owner, tid);
  }

  lemma NoTimePassed(s: State, owner: Uuid, tid: Uuid)
    ensures Apply(s, Beat(owner, tid)).now == s.now && Apply(s, Beat(owner, tid)).staleAfter == s.staleAfter
  {
  }

  // ---------------------------------------------------------------- isolation of owners

  /** On whose behalf an event acts; nobody's for the clock and the clean-up. */
  function ActsFor(s: State, e: Event): Option<Uuid> {
    match e
    case OpenSession(_, owner, _) => Some(owner)
    case LoadSession(_, owner, _) => Some(owner)
    case CheckActive(task) => OwnerOf(s, task)
    case CloseStale(task, _) => OwnerOf(s, task)
    case InsertTurn(task, _, _, _) => OwnerOf(s, task)
    case Dispatch(task, _) => OwnerOf(s, task)
    case ReadTurn(_, owner, _) => Some(owner)
    case FinalizeRead(reader, _) => if reader in s.readers then Some(s.readers[reader].owner) else None
    case CancelTurn(owner, _) => Some(owner)
    case Beat(owner, _) => Some(owner)
    case Finish(owner, _, _) => Some(owner)
    case AppendTrace(row) => Some(row.owner)
    case Fold(owner, _, _, _) => Some(owner)
    case DeleteSession(owner, _) => Some(owner)
    case _ => None
  }

  function OwnerOf(s: State, task: nat): Option<Uuid> {
    if task in s.accepts && !s.accepts[task].Done? then Some(s.accepts[task].owner) else None
  }

  /** This owner's turns, sessions and trace are as they were, but for the clean-up's stamp, and there are
      no new ones. */
  ghost predicate Untouched(a: S.Store, b: S.Store, owner: Uuid) {
    && |a.turns| <= |b.turns|
    && (forall i | 0 <= i < |a.turns| && a.turns[i].owner == owner ::
          b.turns[i] == a.turns[i] || b.turns[i] == a.turns[i].(pruned := true))
    && (forall i | 0 <= i < |a.turns| && b.turns[i].owner == owner :: a.turns[i].owner == owner)
    && (forall i | |a.turns| <= i < |b.turns| :: b.turns[i].owner != owner)
    && (forall sid | sid in a.sessions && a.sessions[sid].owner == owner ::
          sid in b.sessions && b.sessions[sid] == a.sessions[sid])
    && (forall sid | sid in b.sessions && b.sessions[sid].owner == owner ::
          sid in a.sessions && a.sessions[sid].owner == owner)
    && |a.trace| <= |b.trace| && a.trace == b.trace[..|a.trace|]
    && (forall i | |a.trace| <= i < |b.trace| :: b.trace[i].owner != owner)
  }

  lemma UpdateUntouched(st: S.Store, owner: Uuid, tid: Uuid, result: TurnResult, mine: Uuid)
    requires owner != mine
    ensures Untouched(st, S.UpdateTurnResult(st, owner, tid, result), mine)
  {
  }

  lemma CancelUntouched(st: S.Store, owner: Uuid, tid: Uuid, mine: Uuid)
    requires owner != mine && S.RequestCancel(st, owner, tid).Some?
    ensures Untouched(st, S.RequestCancel(st, owner, tid).value.1, mine)
  {
  }

  lemma BeatUntouched(st: S.Store, owner: Uuid, tid: Uuid, now: nat, mine: Uuid)
    requires owner != mine && S.Heartbeat(st, owner, tid, now).Some?
    ensures Untouched(st, S.Heartbeat(st, owner, tid, now).value.1, mine)
  {
  }

  lemma FoldUntouched(st: S.Store, owner: Uuid, sid: Uuid, ids: set<Uuid>, summary: string, mine: Uuid)
    requires owner != mine && S.GetSession(st, owner, sid).Some?
    ensures Untouched(st, S.MarkSummarized(S.SetSummary(st, sid, summary), owner, ids), mine)
  {
  }

  lemma SessionUntouched(st: S.Store, owner: Uuid, sid: Uuid, mine: Uuid)
    requires owner != mine
    ensures Untouched(st, S.SoftDelete(st, owner, sid), mine)
    ensures sid !in st.sessions ==> Untouched(st, S.CreateSession(st, owner, sid), mine)
  {
  }

  lemma StampUntouched(st: S.Store, ids: set<Uuid>, mine: Uuid)
    ensures Untouched(st, S.MarkCheckpointsPruned(st, ids), mine)
  {
  }

  lemma TraceUntouched(st: S.Store, row: TraceRow, mine: Uuid)
    requires row.owner != mine
    ensures Untouched(st, S.AppendTrace(st, row), mine)
  {
  }

  lemma SelfUntouched(st: S.Store, mine: Uuid)
    ensures Untouched(st, st, mine)
  {
  }

  lemma InsertUntouched(s: State, task: nat, tid: Uuid, topic: string, cachedLive: bool, mine: Uuid)
    requires Safe(s) && task in s.accepts && s.accepts[task].Cleared? && s.accepts[task].owner != mine
    ensures Untouched(s.store, Apply(s, InsertTurn(task, tid, topic, cachedLive)).store, mine)
  {
    TaskHasItsSession(s, task);
    InsertLeavesTheRest(s, task, tid, topic, cachedLive);
    hide Safe, S.IndexOf, S.GetTurn, Apply;
    if Apply(s, InsertTurn(task, tid, topic, cachedLive)).accepts[task].Inserted? {
      InsertedRow(s, task, tid, topic, cachedLive);
    } else {
      SelfUntouched(s.store, mine);
    }
  }

  lemma InsertLeavesTheRest(s: State, task: nat, tid: Uuid, topic: string, cachedLive: bool)
    requires task in s.accepts && s.accepts[task].Cleared?
    ensures var s' := Apply(s, InsertTurn(task, tid, topic, cachedLive));
      && s'.store.sessions == s.store.sessions && s'.store.trace == s.store.trace && task in s'.accepts
      && (!s'.accepts[task].Inserted? ==> s'.store == s.store)
  {
  }

  lemma TaskHasItsSession(s: State, task: nat)
    requires Safe(s) && task in s.accepts && s.accepts[task].Cleared?
    ensures var a := s.accepts[task]; a.sid in s.store.sessions && s.store.sessions[a.sid].owner == a.owner
  {
    assert TaskSound(s, s.accepts[task]);
  }

  lemma OneEventUntouched(s: State, e: Event, mine: Uuid)
    requires Safe(s) && ActsFor(s, e) != Some(mine)
    ensures Untouched(s.store, Apply(s, e).store, mine)
  {
    SelfUntouched(s.store, mine);
    if e.InsertTurn? {
      hide Untouched, S.AddTurn;
      if e.task in s.accepts && s.accepts[e.task].Cleared? {
        InsertUntouched(s, e.task, e.tid, e.topic, e.cachedLive, mine);
      }
    } else {
      OtherEventUntouched(s, e, mine);
    }
  }

  lemma OtherEventUntouched(s: State, e: Event, mine: Uuid)
    requires ActsFor(s, e) != Some(mine) && !e.InsertTurn?
    ensures Untouched(s.store, Apply(s, e).store, mine)
  {
    hide Untouched, IsStale, ClosingResult, S.UpdateTurnResult, S.RequestCancel, S.Heartbeat, S.MarkSummarized,
         S.SetSummary, S.SoftDelete, S.CreateSession, S.GetTurn, S.ActiveTurn, S.MarkCheckpointsPruned;
    SelfUntouched(s.store, mine);
    match e
    case OpenSession(_, owner, sid) => SessionUntouched(s.store, owner, sid, mine);
    case CloseStale(task, snapshot) =>
      if task in s.accepts && s.accepts[task].SawActive? {
        UpdateUntouched(s.store, s.accepts[task].owner, s.accepts[task].copy.id, ClosingResult(snapshot), mine);
      }
    case Dispatch(task, _) =>
      if task in s.accepts && s.accepts[task].Inserted? {
        UpdateUntouched(s.store, s.accepts[task].owner, s.accepts[task].tid, Error("dispatch_failed"), mine);
      }
    case FinalizeRead(reader, snapshot) =>
      if reader in s.readers && s.readers[reader].Holding? {
        UpdateUntouched(s.store, s.readers[reader].owner, s.readers[reader].copy.id, ClosingResult(snapshot), mine);
      }
    case CancelTurn(owner, tid) =>
      if S.RequestCancel(s.store, owner, tid).Some? { CancelUntouched(s.store, owner, tid, mine); }
    case Beat(owner, tid) =>
      if S.Heartbeat(s.store, owner, tid, s.now).Some? { BeatUntouched(s.store, owner, tid, s.now, mine); }
    case Finish(owner, tid, result) => UpdateUntouched(s.store, owner, tid, result, mine);
    case AppendTrace(row) => TraceUntouched(s.store, row, mine);
    case Fold(owner, sid, ids, summary) =>
      if S.GetSession(s.store, owner, sid).Some? { FoldUntouched(s.store, owner, sid, ids, summary, mine); }
    case DeleteSession(owner, sid) => SessionUntouched(s.store, owner, sid, mine);
    case StampPruned(ids) => StampUntouched(s.store, ids, mine);
    case _ =>
  }

  lemma UntouchedTwice(a: S.Store, b: S.Store, c: S.Store, owner: Uuid)
    requires Untouched(a, b, owner) && Untouched(b, c, owner)
    ensures Untouched(a, c, owner)
  {
    assert c.trace[..|b.trace|][..|a.trace|] == c.trace[..|a.trace|];
    forall i | |a.trace| <= i < |c.trace| ensures c.trace[i].owner != owner {
      if i < |b.trace| { assert c.trace[..|b.trace|][i] == b.trace[i]; }
    }
  }

  ghost predicate OthersOnly(s: State, es: seq<Event>, owner: Uuid)
    decreases |es|
  {
    es == [] || (ActsFor(s, es[0]) != Some(owner) && OthersOnly(Apply(s, es[0]), es[1..], owner))
  }

  /** Whatever requests, polls and executors of other owners do, in whatever order and with whatever ids,
      an owner's turns, sessions and traces stay as they are; only the clean-up, which anybody's executor
      may run, stamps turns of all owners. */
  lemma {:induction false} OthersNeverTouchMine(s: State, es: seq<Event>, owner: Uuid)
    requires Safe(s) && OthersOnly(s, es, owner)
    ensures Untouched(s.store, Run(s, es).store, owner)
    decreases |es|
  {
    hide Safe, Apply, ActsFor;
    if es != [] {
      SafeStep(s, es[0]);
      OneEventUntouched(s, es[0], owner);
      hide Untouched;
      OthersNeverTouchMine(Apply(s, es[0]), es[1..], owner);
      UntouchedTwice(s.store, Apply(s, es[0]).store, Run(s, es).store, owner);
    } else {
      assert s.store.trace[..|s.store.trace|] == s.store.trace;
    }
  }

  /** And nobody ever holds a copy of a turn that is not their own. */
  ghost predicate HoldOwn(s: State) {
    && (forall k | k in s.readers && s.readers[k].Holding? :: s.readers[k].copy.owner == s.readers[k].owner)
    && (forall k | k in s.accepts && s.accepts[k].SawActive? ::
          s.accepts[k].copy.owner == s.accepts[k].owner && s.accepts[k].copy.session == s.accepts[k].sid)
  }

  lemma {:induction false} CopiesAreOnesOwn(s: State, es: seq<Event>)
    requires HoldOwn(s)
    ensures HoldOwn(Run(s, es))
    decreases |es|
  {
    if es != [] {
      OneMoreCopy(s, es[0]);
      hide Apply, HoldOwn;
      CopiesAreOnesOwn(Apply(s, es[0]), es[1..]);
    }
  }

  lemma OneMoreCopy(s: State, e: Event)
    requires HoldOwn(s)
    ensures HoldOwn(Apply(s, e))
  {
    if e.CheckActive? && e.task in s.accepts && s.accepts[e.task].Loaded? {
      var a := s.accepts[e.task];
      var found := Filter(S.MineActive(a.owner, a.sid), s.store.turns);
      assert found != [] ==> found[0] in found;
    }
  }

  // ---------------------------------------------------------------- deletion

  /** A session its owner deletes is gone for good: after any run nobody can read it, an accept of it is
      "not found", and so is an insert by a task that had passed the check before. */
  lemma DeletedStaysGone(s: State, owner: Uuid, sid: Uuid, es: seq<Event>, someone: Uuid, task: nat, tid: Uuid,
                         topic: string)
    requires Safe(s) && Q.Readable(s.store, owner, sid)
    ensures var s' := Run(Apply(s, DeleteSession(owner, sid)), es);
      && S.GetSession(s'.store, someone, sid) == None
      && (task !in s'.accepts ==> Place(Apply(s', LoadSession(task, someone, sid)), task) == Some(Done(NotFound)))
      && (Place(s', task) == Some(Cleared(someone, sid)) && S.IndexOf(s'.store.turns, tid) == |s'.store.turns| ==>
            Apply(s', InsertTurn(task, tid, topic, false)) == s'.(accepts := s'.accepts[task := Done(NotFound)]))
  {
    var s1 := Apply(s, DeleteSession(owner, sid));
    assert s1.store.sessions[sid].deleted;
    SafeStep(s, DeleteSession(owner, sid));
    hide Safe, Run;
    EveryRunIsSafe(s1, es);
    assert Run(s1, es).store.sessions[sid].deleted;
  }

  // ---------------------------------------------------------------- folds and traces

  /** A fold stores its summary and stamps its turns for good: no later listing offers any of them again,
      whatever happens in between. */
  lemma FoldedStaysFolded(s: State, owner: Uuid, sid: Uuid, ids: set<Uuid>, summary: string, es: seq<Event>, keep: nat,
                          i: nat)
    requires Safe(s) && Q.Readable(s.store, owner, sid)
    requires i < |s.store.turns| && s.store.turns[i].id in ids && s.store.turns[i].owner == owner
    ensures var s1 := Apply(s, Fold(owner, sid, ids, summary));
      var later := Run(s1, es).store;
      && sid in s1.store.sessions && s1.store.sessions[sid] == s.store.sessions[sid].(summary := summary)
      && i < |later.turns| && later.turns[i].folded
      && match S.UnsummarizedBefore(later, owner, sid, keep)
         case None => true
         case Some(listed) => forall t | t in listed :: t.id != s.store.turns[i].id
  {
    hide Safe, Run, S.UnsummarizedBefore;
    var s1 := Apply(s, Fold(owner, sid, ids, summary));
    FoldStamps(s, owner, sid, ids, summary, i);
    SafeStep(s, Fold(owner, sid, ids, summary));
    EveryRunIsSafe(s1, es);
    var later := Run(s1, es).store;
    assert S.RowEvolves(s1.store.turns[i], later.turns[i]);
    RowsAreDistinct(Run(s1, es));
    NotListedAgain(later, owner, sid, keep, i);
  }

  lemma FoldStamps(s: State, owner: Uuid, sid: Uuid, ids: set<Uuid>, summary: string, i: nat)
    requires Q.Readable(s.store, owner, sid)
    requires i < |s.store.turns| && s.store.turns[i].id in ids && s.store.turns[i].owner == owner
    ensures var s1 := Apply(s, Fold(owner, sid, ids, summary));
      && sid in s1.store.sessions && s1.store.sessions[sid] == s.store.sessions[sid].(summary := summary)
      && |s1.store.turns| == |s.store.turns| && s1.store.turns[i] == s.store.turns[i].(folded := true)
  {
  }

  lemma RowsAreDistinct(s: State)
    requires Safe(s)
    ensures S.DistinctIds(s.store.turns)
  {
  }

  lemma NotListedAgain(st: S.Store, owner: Uuid, sid: Uuid, keep: nat, i: nat)
    requires S.DistinctIds(st.turns) && i < |st.turns| && st.turns[i].folded
    ensures match S.UnsummarizedBefore(st, owner, sid, keep)
      case None => true
      case Some(listed) => forall t | t in listed :: t.id != st.turns[i].id
  {
    Q.UnsummarizedBeforeIff(st, owner, sid, keep);
    hide S.UnsummarizedBefore;
    match S.UnsummarizedBefore(st, owner, sid, keep)
    case None =>
    case Some(listed) =>
      forall t | t in listed ensures t.id != st.turns[i].id {
        var k :| 0 <= k < |st.turns| && st.turns[k] == t;
      }
  }

  /** A trace row once appended is listed, by its owner and for its turn, to every cursor before it, after
      any run. */
  lemma TraceIsKept(s: State, row: TraceRow, es: seq<Event>, cursor: nat)
    requires Safe(s) && cursor < row.seqNo
    ensures var later := Run(Apply(s, AppendTrace(row)), es).store;
      row in S.ListTraceAfter(later, row.owner, row.turn, cursor)
  {
    hide Safe, Run;
    var s1 := Apply(s, AppendTrace(row));
    SafeStep(s, AppendTrace(row));
    EveryRunIsSafe(s1, es);
    var later := Run(s1, es).store;
    var n := |s.store.trace|;
    assert s1.store.trace[n] == row && later.trace[..|s1.store.trace|][n] == row;
    assert row in later.trace;
    Q.ListTraceAfterIff(later, row.owner, row.turn, cursor, row);
    assert multiset(later.trace)[row] > 0;
  }
}
