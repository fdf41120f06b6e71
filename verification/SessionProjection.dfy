/** What the turn protocol does to one session is a run of that session: the lock and the write-once
    results that `RunContext` builds into its steps are what the protocol's own transactions leave. */
module SessionProjection {
  import opened EvidenceModels
  import opened Sequences
  import opened TokenBudget
  import R = RunContext
  import S = TurnStore
  import P = TurnProtocol
  import Summary = SessionSummary
  import Mem = InMemoryRepository
  import Pruning = CheckpointPruning
  import W = SessionWitnesses

  // ---------------------------------------------------------------- the view of one session

  /** A context build reads neither the cancel flag, nor heartbeats, nor the clean-up stamp. */
  function Erase(): TurnRow -> TurnRow {
    (t: TurnRow) => t.(cancelRequested := false, heartbeat := None, pruned := false)
  }

  function Erased(rows: seq<TurnRow>): (r: seq<TurnRow>)
    ensures |r| == |rows| && forall i | 0 <= i < |rows| :: r[i] == Erase()(rows[i])
  {
    MapSeq(Erase(), rows)
  }

  function SummaryOf(st: S.Store, owner: Uuid, sid: Uuid): string {
    if sid in st.sessions && st.sessions[sid].owner == owner then st.sessions[sid].summary else ""
  }

  ghost predicate Shows(st: S.Store, x: R.Session, owner: Uuid, sid: Uuid) {
    x.rows == Erased(R.SessionRows(st, owner, sid)) && x.summary == SummaryOf(st, owner, sid)
  }

  ghost predicate InOrder(st: S.Store, owner: Uuid, sid: Uuid) {
    S.Chronological(R.SessionRows(st, owner, sid))
  }

  // ---------------------------------------------------------------- what is assumed of a run

  /** Folds are the builds of a pending turn of their session; inserts come later than what is there. */
  ghost predicate Genuine(s: P.State, e: P.Event) {
    match e
    case Fold(owner, sid, ids, summary) =>
      S.GetSession(s.store, owner, sid).Some? ==> exists tid :: BuildOf(s.store, P.Apply(s, e).store, owner, sid, tid)
    case InsertTurn(task, tid, topic, cachedLive) =>
      task in s.accepts && s.accepts[task].Cleared? ==>
        forall t | t in s.store.turns && t.session == s.accepts[task].sid :: t.created < s.now
    case _ => true
  }

  ghost predicate BuildOf(st: S.Store, after: S.Store, owner: Uuid, sid: Uuid, tid: Uuid) {
    && after == R.BuildStore(st, owner, sid, tid).0
    && S.GetTurn(st, owner, tid).Some?
    && S.GetTurn(st, owner, tid).value.session == sid && S.GetTurn(st, owner, tid).value.result == Pending
  }

  ghost predicate AllGenuine(s: P.State, es: seq<P.Event>)
    decreases |es|
  {
    es == [] || (Genuine(s, es[0]) && AllGenuine(P.Apply(s, es[0]), es[1..]))
  }

  // ---------------------------------------------------------------- erasing commutes with building

  lemma ErasedSlice(rows: seq<TurnRow>, i: nat, j: nat)
    requires i <= j <= |rows|
    ensures Erased(rows)[i..j] == Erased(rows[i..j])
  {
  }

  lemma ErasedFilter(p: TurnRow -> bool, rows: seq<TurnRow>)
    requires forall t :: p(Erase()(t)) == p(t)
    ensures Filter(p, Erased(rows)) == Erased(Filter(p, rows))
  {
    FilterMap(p, Erase(), rows);
  }

  lemma ErasedConcat(a: seq<TurnRow>, b: seq<TurnRow>)
    ensures Erased(a + b) == Erased(a) + Erased(b)
  {
  }

  lemma ErasedMeans(rows: seq<TurnRow>)
    ensures R.Costs(Erased(rows)) == R.Costs(rows)
    ensures R.Topics(Erased(rows)) == R.Topics(rows)
    ensures S.Ids(Erased(rows)) == S.Ids(rows)
  {
    hide R.PriorTurnCost;
    forall i | 0 <= i < |rows| ensures R.Costs(Erased(rows))[i] == R.Costs(rows)[i] {
      ErasedCost(rows[i]);
    }
    forall t | t in rows ensures t.id in S.Ids(Erased(rows)) {
      var i :| 0 <= i < |rows| && rows[i] == t;
      assert Erased(rows)[i] in Erased(rows);
    }
    forall t | t in Erased(rows) ensures t.id in S.Ids(rows) {
      var i :| 0 <= i < |rows| && Erased(rows)[i] == t;
      assert rows[i] in rows;
    }
  }

  lemma ErasedCost(t: TurnRow)
    ensures R.PriorTurnCost(Erase()(t)) == R.PriorTurnCost(t)
  {
  }

  lemma ErasedRecent(rows: seq<TurnRow>, tid: Uuid)
    ensures R.Recent(Erased(rows), tid) == Erased(R.Recent(rows, tid))
  {
    hide Filter;
    var n := PRIOR_TURN_CEILING + 1;
    assert TakeLast(Erased(rows), n) == Erased(TakeLast(rows, n));
    ErasedFilter(R.NotTurn(tid), TakeLast(rows, n));
  }

  lemma ErasedFolding(rows: seq<TurnRow>, tid: Uuid)
    ensures R.Folding(Erased(rows), tid) == Erased(R.Folding(rows, tid))
  {
    hide Filter, R.Recent, KeepFrom, R.Costs, Erased;
    ErasedRecent(rows, tid);
    var recent := R.Recent(rows, tid);
    ErasedMeans(recent);
    var k := KeepFrom(R.Costs(recent));
    assert |Erased(recent)| == |recent|;
    ErasedSlice(recent, 0, k);
    assert Erased(recent)[0..k] == Erased(recent)[..k] && recent[0..k] == recent[..k];
    ErasedFilter(Mem.Unfolded(), recent[..k]);
    ErasedFilter(Mem.Unfolded(), rows);
    var unfolded := Filter(Mem.Unfolded(), rows);
    ErasedDrop(unfolded, PRIOR_TURN_CEILING + 1);
    ErasedConcat(Filter(Mem.Unfolded(), recent[..k]), DropLast(unfolded, PRIOR_TURN_CEILING + 1));
  }

  lemma ErasedDrop(rows: seq<TurnRow>, n: nat)
    ensures DropLast(Erased(rows), n) == Erased(DropLast(rows, n))
  {
  }

  lemma ErasedStamp(rows: seq<TurnRow>, owner: Uuid, ids: set<Uuid>)
    ensures R.Stamp(Erased(rows), owner, ids) == Erased(R.Stamp(rows, owner, ids))
  {
  }

  lemma ErasedBuild(rows: seq<TurnRow>, summary: string, owner: Uuid, tid: Uuid)
    ensures var a, b := R.BuildSession(Erased(rows), summary, owner, tid), R.BuildSession(rows, summary, owner, tid);
      a.rows == Erased(b.rows) && a.summary == b.summary && a.text == b.text
  {
    hide R.Folding, R.Recent, R.Shown, R.Topics, S.Ids, R.Stamp, Erased, R.PriorTopics, R.PriorPaperIds;
    hide Summary.JoinedSummary, Summary.SummarizeEvicted;
    ErasedFolding(rows, tid);
    ErasedMeans(R.Folding(rows, tid));
    ErasedStamp(rows, owner, S.Ids(R.Folding(rows, tid)));
  }

  // ---------------------------------------------------------------- row-wise updates

  /** An update that keeps identity, as seen in the session. */
  lemma SessionRowsMap(st: S.Store, f: TurnRow -> TurnRow, owner: Uuid, sid: Uuid)
    requires forall t | t in st.turns :: f(t).owner == t.owner && f(t).session == t.session
    ensures R.SessionRows(st.(turns := MapSeq(f, st.turns)), owner, sid) == MapSeq(f, R.SessionRows(st, owner, sid))
  {
    FilterMap(S.Mine(owner, sid), f, st.turns);
  }

  /** Cancel flags, heartbeats and clean-up stamps do not show. */
  lemma UnseenUpdate(st: S.Store, f: TurnRow -> TurnRow, x: R.Session, owner: Uuid, sid: Uuid)
    requires Shows(st, x, owner, sid) && InOrder(st, owner, sid)
    requires forall t :: Erase()(f(t)) == Erase()(t)
    ensures var st' := st.(turns := MapSeq(f, st.turns)); Shows(st', x, owner, sid) && InOrder(st', owner, sid)
  {
    hide R.SessionRows, Filter;
    forall t | t in st.turns ensures f(t).owner == t.owner && f(t).session == t.session {
      assert Erase()(f(t)) == Erase()(t);
    }
    SessionRowsMap(st, f, owner, sid);
    var rows := R.SessionRows(st, owner, sid);
    forall i | 0 <= i < |rows|
      ensures Erase()(f(rows[i])) == Erase()(rows[i]) && f(rows[i]).created == rows[i].created
    {
    }
    assert Erased(MapSeq(f, rows)) == Erased(rows);
  }

  lemma MembersAreMine(st: S.Store, owner: Uuid, sid: Uuid)
    ensures forall t :: t in R.SessionRows(st, owner, sid) <==> t in st.turns && t.owner == owner && t.session == sid
  {
  }

  /** The one pending row of a session is its last. */
  lemma PendingIsLast(st: S.Store, x: R.Session, owner: Uuid, sid: Uuid, t: TurnRow)
    requires Shows(st, x, owner, sid) && R.Locked(x.rows, owner)
    requires t in st.turns && t.owner == owner && t.session == sid && t.result == Pending
    ensures R.Running(x.rows)
    ensures var rows := R.SessionRows(st, owner, sid); |rows| == |x.rows| && rows[|rows| - 1] == t
  {
    hide R.SessionRows;
    MembersAreMine(st, owner, sid);
    var rows := R.SessionRows(st, owner, sid);
    var i :| 0 <= i < |rows| && rows[i] == t;
    assert x.rows[i].result == Pending;
  }

  /** The conditional update: nothing, or the answer of the running turn. */
  lemma UpdateProjects(st: S.Store, o: Uuid, tid: Uuid, result: Terminal, x: R.Session, owner: Uuid, sid: Uuid)
    returns (es: seq<R.Event>)
    requires S.Inv(st) && Shows(st, x, owner, sid) && InOrder(st, owner, sid) && R.Locked(x.rows, owner)
    ensures var st' := S.UpdateTurnResult(st, o, tid, result);
      Shows(st', R.Run(x, owner, es), owner, sid) && InOrder(st', owner, sid)
  {
    hide R.SessionRows, R.BuildSession, Filter;
    var f := S.SetResult(o, tid, result);
    var rows := R.SessionRows(st, owner, sid);
    SessionRowsMap(st, f, owner, sid);
    MembersAreMine(st, owner, sid);
    es := [];
    if t :| t in rows && f(t) != t {
      PendingIsLast(st, x, owner, sid, t);
      es := [R.Resolve(result)];
      OneEvent(x, owner, es[0]);
      LastIsResolved(rows, f, t, result, x, owner);
    } else {
      assert MapSeq(f, rows) == rows;
    }
  }

  lemma OneEvent(x: R.Session, owner: Uuid, e: R.Event)
    ensures R.Run(x, owner, [e]) == R.Step(x, owner, e)
  {
    hide R.Step;
    assert [e][1..] == [];
    assert R.Run(R.Step(x, owner, e), owner, []) == R.Step(x, owner, e);
  }

  lemma LastIsResolved(rows: seq<TurnRow>, f: TurnRow -> TurnRow, t: TurnRow, result: Terminal,
                       x: R.Session, owner: Uuid)
    requires x.rows == Erased(rows) && R.Running(x.rows) && R.Locked(x.rows, owner)
    requires rows[|rows| - 1] == t && f == S.SetResult(t.owner, t.id, result) && t.result == Pending
    ensures Erased(MapSeq(f, rows)) == R.Step(x, owner, R.Resolve(result)).rows
  {
    forall i | 0 <= i < |rows| - 1 ensures f(rows[i]) == rows[i] {
      assert x.rows[i].result != Pending;
    }
  }

  // ---------------------------------------------------------------- inserting

  lemma InsertProjects(st: S.Store, turn: TurnRow, cachedLive: bool, x: R.Session, owner: Uuid, sid: Uuid, p: nat)
    returns (es: seq<R.Event>)
    requires S.Inv(st) && Shows(st, x, owner, sid) && InOrder(st, owner, sid) && R.Sound(x, owner, p)
    requires S.IndexOf(st.turns, turn.id) == |st.turns| && S.AddTurn(st, turn, cachedLive).Added?
    requires turn == P.NewTurn(turn.owner, turn.session, turn.id, turn.topic, turn.created)
    requires forall t | t in st.turns && t.session == turn.session :: t.created < turn.created
    ensures var st' := S.AddTurn(st, turn, cachedLive).store;
      Shows(st', R.Run(x, owner, es), owner, sid) && InOrder(st', owner, sid)
  {
    hide R.SessionRows, R.BuildSession, Filter, R.Sound, S.Inv;
    var row := turn.(owner := st.sessions[turn.session].owner);
    var st' := S.AddTurn(st, turn, cachedLive).store;
    var rows := R.SessionRows(st, owner, sid);
    OneMoreRow(st, row, owner, sid);
    MembersAreMine(st, owner, sid);
    es := [];
    if row.owner == owner && row.session == sid {
      es := [R.Ask(turn.id, sid, turn.topic, turn.created)];
      NobodyRuns(st, x, owner, sid);
      NotThereYet(st, turn.id, x, owner, sid);
      ErasedConcat(rows, [row]);
      assert Erased([row]) == [row];
      OneEvent(x, owner, es[0]);
      assert InOrder(st', owner, sid) by {
        assert forall t | t in rows :: t.created < row.created;
      }
    } else {
      assert R.SessionRows(st', owner, sid) == rows;
    }
  }

  lemma OneMoreRow(st: S.Store, row: TurnRow, owner: Uuid, sid: Uuid)
    ensures R.SessionRows(st.(turns := st.turns + [row]), owner, sid)
         == R.SessionRows(st, owner, sid) + if row.owner == owner && row.session == sid then [row] else []
  {
    FilterConcat(S.Mine(owner, sid), st.turns, [row]);
    assert Filter(S.Mine(owner, sid), [row]) == if row.owner == owner && row.session == sid then [row] else [];
  }

  /** The unique index admitted the row, so nothing of the session is pending. */
  lemma NobodyRuns(st: S.Store, x: R.Session, owner: Uuid, sid: Uuid)
    requires Shows(st, x, owner, sid)
    ensures !S.HasPending(st.turns, sid) ==> !R.Running(x.rows)
  {
    hide R.SessionRows;
    MembersAreMine(st, owner, sid);
    var rows := R.SessionRows(st, owner, sid);
    if R.Running(x.rows) {
      var t := rows[|rows| - 1];
      assert t in rows;
      var i :| 0 <= i < |st.turns| && st.turns[i] == t;
    }
  }

  lemma NotThereYet(st: S.Store, tid: Uuid, x: R.Session, owner: Uuid, sid: Uuid)
    requires Shows(st, x, owner, sid) && S.IndexOf(st.turns, tid) == |st.turns|
    ensures tid !in S.Ids(x.rows)
  {
    hide R.SessionRows;
    MembersAreMine(st, owner, sid);
    var rows := R.SessionRows(st, owner, sid);
    forall t | t in x.rows ensures t.id != tid {
      var i :| 0 <= i < |x.rows| && x.rows[i] == t;
      assert rows[i] in rows;
      var j :| 0 <= j < |st.turns| && st.turns[j] == rows[i];
    }
  }

  // ---------------------------------------------------------------- folding

  /** A build of this session is the session's build. */
  lemma OwnFoldProjects(st: S.Store, x: R.Session, owner: Uuid, sid: Uuid, p: nat, tid: Uuid)
    requires S.Inv(st) && Shows(st, x, owner, sid) && InOrder(st, owner, sid) && R.Sound(x, owner, p)
    requires S.GetSession(st, owner, sid).Some? && BuildOf(st, R.BuildStore(st, owner, sid, tid).0, owner, sid, tid)
    ensures var st' := R.BuildStore(st, owner, sid, tid).0;
      Shows(st', R.Step(x, owner, R.BuildContext), owner, sid) && InOrder(st', owner, sid)
  {
    hide R.SessionRows, R.BuildSession, R.BuildStore, Filter, Erased, S.Inv;
    var rows := R.SessionRows(st, owner, sid);
    var t := S.GetTurn(st, owner, tid).value;
    assert t in st.turns && t.id == tid by { TurnIsThere(st, owner, tid); }
    assert R.Locked(x.rows, owner) by { R.SoundSession(x, owner, p); }
    PendingIsLast(st, x, owner, sid, t);
    R.BuildStoreIsBuildSession(st, owner, sid, tid);
    ErasedBuild(rows, st.sessions[sid].summary, owner, tid);
    LastErased(rows);
    SameOwner(st, owner, sid, tid);
    StampKeepsOrder(rows, st.sessions[sid].summary, owner, tid);
  }

  lemma TurnIsThere(st: S.Store, owner: Uuid, tid: Uuid)
    requires S.GetTurn(st, owner, tid).Some?
    ensures S.GetTurn(st, owner, tid).value in st.turns && S.GetTurn(st, owner, tid).value.id == tid
    ensures S.GetTurn(st, owner, tid).value.owner == owner
  {
  }

  lemma LastErased(rows: seq<TurnRow>)
    requires rows != []
    ensures |Erased(rows)| == |rows| && Erased(rows)[|rows| - 1].id == rows[|rows| - 1].id
  {
  }

  lemma SameOwner(st: S.Store, owner: Uuid, sid: Uuid, tid: Uuid)
    requires S.Inv(st) && sid in st.sessions
    ensures var st' := R.BuildStore(st, owner, sid, tid).0;
      sid in st'.sessions && st'.sessions[sid].owner == st.sessions[sid].owner
  {
    R.BuildStoreSafe(st, owner, sid, tid);
    hide R.BuildStore;
  }

  lemma StampKeepsOrder(rows: seq<TurnRow>, summary: string, owner: Uuid, tid: Uuid)
    requires S.Chronological(rows)
    ensures S.Chronological(R.BuildSession(rows, summary, owner, tid).rows)
  {
    hide R.Folding, R.Recent, R.Shown, R.Topics, S.Ids, R.PriorTopics, R.PriorPaperIds;
    hide Summary.JoinedSummary, Summary.SummarizeEvicted;
  }

  /** A build of another session touches none of this one's rows. */
  lemma OtherFoldUnseen(st: S.Store, o: Uuid, other: Uuid, tid: Uuid, x: R.Session, owner: Uuid, sid: Uuid)
    requires S.Inv(st) && Shows(st, x, owner, sid) && InOrder(st, owner, sid) && (o != owner || other != sid)
    requires S.GetSession(st, o, other).Some?
    ensures var st' := R.BuildStore(st, o, other, tid).0; Shows(st', x, owner, sid) && InOrder(st', owner, sid)
  {
    hide R.SessionRows, R.FoldStore, Filter, S.Inv, S.OrderBy, KeepFrom, R.Costs, R.PriorTopics, R.PriorPaperIds;
    hide Erased, TakeLast, DropLast;
    var window := S.RecentTurns(st, o, other, PRIOR_TURN_CEILING + 1).value;
    var recent := Filter(R.NotTurn(tid), window);
    var k := KeepFrom(R.Costs(recent));
    var folding := Filter(Mem.Unfolded(), recent[..k])
                 + S.UnsummarizedBefore(st, o, other, PRIOR_TURN_CEILING + 1).value;
    FoldedAreTheirs(st, o, other, window, tid, k);
    FoldUnseen(st, o, other, folding, x, owner, sid);
    assert R.BuildStore(st, o, other, tid).0 == R.FoldStore(st, o, other, folding);
  }

  lemma FoldedAreTheirs(st: S.Store, o: Uuid, other: Uuid, window: seq<TurnRow>, tid: Uuid, k: nat)
    requires S.RecentTurns(st, o, other, PRIOR_TURN_CEILING + 1) == Some(window)
    requires k <= |Filter(R.NotTurn(tid), window)| && S.UnsummarizedBefore(st, o, other, PRIOR_TURN_CEILING + 1).Some?
    ensures var recent := Filter(R.NotTurn(tid), window);
      var older := S.UnsummarizedBefore(st, o, other, PRIOR_TURN_CEILING + 1).value;
      forall t | t in Filter(Mem.Unfolded(), recent[..k]) + older :: t in st.turns && t.owner == o && t.session == other
  {
    var recent := Filter(R.NotTurn(tid), window);
    Pruning.OrderCounts(R.NotTurn(tid), Filter(S.Mine(o, other), st.turns));
    Pruning.OrderCounts(R.NotTurn(tid), Filter(S.MineUnfolded(o, other), st.turns));
    hide S.OrderBy;
    forall t | t in Filter(Mem.Unfolded(), recent[..k]) ensures t in st.turns && t.owner == o && t.session == other {
      assert t in recent[..k];
      assert t in recent;
      assert t in window;
    }
    forall t | t in S.UnsummarizedBefore(st, o, other, PRIOR_TURN_CEILING + 1).value
      ensures t in st.turns && t.owner == o && t.session == other
    {
      assert t in S.OrderBy(Filter(S.MineUnfolded(o, other), st.turns));
    }
  }

  lemma FoldUnseen(st: S.Store, o: Uuid, other: Uuid, folding: seq<TurnRow>, x: R.Session, owner: Uuid, sid: Uuid)
    requires S.Inv(st) && Shows(st, x, owner, sid) && InOrder(st, owner, sid) && (o != owner || other != sid)
    requires S.GetSession(st, o, other).Some?
    requires forall t | t in folding :: t in st.turns && t.owner == o && t.session == other
    ensures var st' := R.FoldStore(st, o, other, folding); Shows(st', x, owner, sid) && InOrder(st', owner, sid)
  {
    hide R.SessionRows, Filter, Summary.JoinedSummary, Summary.SummarizeEvicted, R.Topics;
    var f := S.SetFolded(o, S.Ids(folding));
    var rows := R.SessionRows(st, owner, sid);
    SessionRowsMap(st, f, owner, sid);
    MembersAreMine(st, owner, sid);
    forall i | 0 <= i < |rows| ensures f(rows[i]) == rows[i] {
      assert rows[i] in rows;
      NotAmongThem(st, folding, rows[i], o, other);
    }
    assert MapSeq(f, rows) == rows;
    SessionRowsOnlyOfTurns(st, owner, sid);
  }

  lemma NotAmongThem(st: S.Store, folding: seq<TurnRow>, t: TurnRow, o: Uuid, other: Uuid)
    requires S.Inv(st) && t in st.turns && (t.owner != o || t.session != other)
    requires forall u | u in folding :: u in st.turns && u.owner == o && u.session == other
    ensures t.id !in S.Ids(folding)
  {
    forall u | u in folding ensures u.id != t.id {
      var i :| 0 <= i < |st.turns| && st.turns[i] == t;
      var j :| 0 <= j < |st.turns| && st.turns[j] == u;
    }
  }

  lemma SessionRowsOnlyOfTurns(st: S.Store, owner: Uuid, sid: Uuid)
    ensures forall other: S.Store :: R.SessionRows(other, owner, sid) == Filter(S.Mine(owner, sid), other.turns)
    ensures R.SessionRows(st, owner, sid) == Filter(S.Mine(owner, sid), st.turns)
  {
  }

  // ---------------------------------------------------------------- one step, any run

  lemma SameTurns(st: S.Store, st': S.Store, x: R.Session, owner: Uuid, sid: Uuid)
    requires Shows(st, x, owner, sid) && InOrder(st, owner, sid)
    requires st'.turns == st.turns && SummaryOf(st', owner, sid) == SummaryOf(st, owner, sid)
    ensures Shows(st', x, owner, sid) && InOrder(st', owner, sid)
  {
  }

  lemma CancelUnseen(st: S.Store, o: Uuid, tid: Uuid, x: R.Session, owner: Uuid, sid: Uuid)
    requires Shows(st, x, owner, sid) && InOrder(st, owner, sid) && S.RequestCancel(st, o, tid).Some?
    ensures var st' := S.RequestCancel(st, o, tid).value.1; Shows(st', x, owner, sid) && InOrder(st', owner, sid)
  {
    UnseenUpdate(st, S.SetCancel(o, tid), x, owner, sid);
  }

  lemma HeartbeatUnseen(st: S.Store, o: Uuid, tid: Uuid, now: nat, x: R.Session, owner: Uuid, sid: Uuid)
    requires Shows(st, x, owner, sid) && InOrder(st, owner, sid) && S.Heartbeat(st, o, tid, now).Some?
    ensures var st' := S.Heartbeat(st, o, tid, now).value.1; Shows(st', x, owner, sid) && InOrder(st', owner, sid)
  {
    UnseenUpdate(st, S.SetHeartbeat(o, tid, now), x, owner, sid);
  }

  lemma FoldProjects(s: P.State, e: P.Event, x: R.Session, owner: Uuid, sid: Uuid, p: nat) returns (es: seq<R.Event>)
    requires P.Safe(s) && Shows(s.store, x, owner, sid) && InOrder(s.store, owner, sid) && R.Sound(x, owner, p)
    requires e.Fold? && Genuine(s, e)
    ensures Shows(P.Apply(s, e).store, R.Run(x, owner, es), owner, sid) && InOrder(P.Apply(s, e).store, owner, sid)
  {
    hide R.Sound, Shows, InOrder, R.BuildStore, P.TaskSound, P.Accounted, S.Inv, R.Step;
    es := [];
    if S.GetSession(s.store, e.owner, e.sid).Some? {
      var tid :| BuildOf(s.store, P.Apply(s, e).store, e.owner, e.sid, tid);
      if e.owner == owner && e.sid == sid {
        es := [R.BuildContext];
        OneEvent(x, owner, R.BuildContext);
        OwnFoldProjects(s.store, x, owner, sid, p, tid);
      } else {
        OtherFoldUnseen(s.store, e.owner, e.sid, tid, x, owner, sid);
      }
    }
  }

  lemma InsertEventProjects(s: P.State, e: P.Event, x: R.Session, owner: Uuid, sid: Uuid, p: nat)
    returns (es: seq<R.Event>)
    requires P.Safe(s) && Shows(s.store, x, owner, sid) && InOrder(s.store, owner, sid) && R.Sound(x, owner, p)
    requires e.InsertTurn? && Genuine(s, e)
    ensures Shows(P.Apply(s, e).store, R.Run(x, owner, es), owner, sid) && InOrder(P.Apply(s, e).store, owner, sid)
  {
    hide R.Sound, Shows, InOrder, P.TaskSound, P.Accounted, S.Inv, R.Step, S.AddTurn;
    es := [];
    if e.task in s.accepts && s.accepts[e.task].Cleared? && S.IndexOf(s.store.turns, e.tid) == |s.store.turns| {
      var a := s.accepts[e.task];
      var turn := P.NewTurn(a.owner, a.sid, e.tid, e.topic, s.now);
      if S.AddTurn(s.store, turn, e.cachedLive).Added? {
        es := InsertProjects(s.store, turn, e.cachedLive, x, owner, sid, p);
      }
    }
  }

  /** Every genuine event of the protocol is, for the session, no event or one of its own. */
  lemma StepProjects(s: P.State, e: P.Event, x: R.Session, owner: Uuid, sid: Uuid, p: nat) returns (es: seq<R.Event>)
    requires P.Safe(s) && Shows(s.store, x, owner, sid) && InOrder(s.store, owner, sid) && R.Sound(x, owner, p)
    requires Genuine(s, e)
    ensures Shows(P.Apply(s, e).store, R.Run(x, owner, es), owner, sid) && InOrder(P.Apply(s, e).store, owner, sid)
  {
    hide Shows, InOrder, R.Sound, P.TaskSound, P.Accounted, S.Inv, S.GetTurn, S.ActiveTurn, S.UpdateTurnResult, Genuine;
    hide S.RequestCancel, S.Heartbeat, S.MarkCheckpointsPruned, S.MarkSummarized, S.AddTurn;
    es := [];
    assert R.Locked(x.rows, owner) by { R.SoundSession(x, owner, p); }
    var st := s.store;
    match e {
      case Tick(d) =>
      case OpenSession(task, o, created) => SameTurns(st, P.Apply(s, e).store, x, owner, sid);
      case LoadSession(task, o, loaded) =>
      case CheckActive(task) =>
      case CloseStale(task, snapshot) =>
        if task in s.accepts && s.accepts[task].SawActive? {
          var a := s.accepts[task];
          if P.IsStale(a.copy, s.now, s.staleAfter) {
            es := UpdateProjects(st, a.owner, a.copy.id, P.ClosingResult(snapshot), x, owner, sid);
          }
        }
      case InsertTurn(task, tid, topic, cachedLive) => es := InsertEventProjects(s, e, x, owner, sid, p);
      case Dispatch(task, ok) =>
        if task in s.accepts && s.accepts[task].Inserted? && !ok {
          es := UpdateProjects(st, s.accepts[task].owner, s.accepts[task].tid, Error("dispatch_failed"), x, owner, sid);
        }
      case ReadTurn(reader, o, tid) =>
      case FinalizeRead(reader, snapshot) =>
        if reader in s.readers && s.readers[reader].Holding? {
          var r := s.readers[reader];
          if P.IsStale(r.copy, s.now, s.staleAfter) {
            es := UpdateProjects(st, r.owner, r.copy.id, P.ClosingResult(snapshot), x, owner, sid);
          }
        }
      case CancelTurn(o, tid) =>
        if S.RequestCancel(st, o, tid).Some? { CancelUnseen(st, o, tid, x, owner, sid); }
      case Beat(o, tid) =>
        if S.Heartbeat(st, o, tid, s.now).Some? { HeartbeatUnseen(st, o, tid, s.now, x, owner, sid); }
      case Finish(o, tid, result) => es := UpdateProjects(st, o, tid, result, x, owner, sid);
      case AppendTrace(row) => SameTurns(st, P.Apply(s, e).store, x, owner, sid);
      case Fold(o, folded, ids, summary) => es := FoldProjects(s, e, x, owner, sid, p);
      case StampPruned(ids) => PruneUnseen(st, ids, x, owner, sid);
      case DeleteSession(o, deleted) => SameTurns(st, P.Apply(s, e).store, x, owner, sid);
    }
  }

  lemma PruneUnseen(st: S.Store, ids: set<Uuid>, x: R.Session, owner: Uuid, sid: Uuid)
    requires Shows(st, x, owner, sid) && InOrder(st, owner, sid)
    ensures var st' := S.MarkCheckpointsPruned(st, ids); Shows(st', x, owner, sid) && InOrder(st', owner, sid)
  {
    UnseenUpdate(st, S.SetPruned(ids), x, owner, sid);
  }

  lemma {:induction false} RunProjects(s: P.State, es: seq<P.Event>, x: R.Session, owner: Uuid, sid: Uuid, p: nat)
    returns (run: seq<R.Event>, p': nat)
    requires P.Safe(s) && Shows(s.store, x, owner, sid) && InOrder(s.store, owner, sid) && R.Sound(x, owner, p)
    requires AllGenuine(s, es)
    ensures Shows(P.Run(s, es).store, R.Run(x, owner, run), owner, sid)
    ensures R.Sound(R.Run(x, owner, run), owner, p')
    decreases |es|
  {
    hide Shows, InOrder, R.Sound, P.Safe, P.Apply, Genuine;
    if es == [] {
      run, p' := [], p;
    } else {
      var first := StepProjects(s, es[0], x, owner, sid, p);
      var mid := R.EveryRunIsSound(x, owner, p, first);
      P.SafeStep(s, es[0]);
      var rest, q := RunProjects(P.Apply(s, es[0]), es[1..], R.Run(x, owner, first), owner, sid, mid);
      W.RunConcat(x, owner, first, rest);
      run, p' := first + rest, q;
    }
  }

  /** Whatever all tasks, executors, readers and clean-ups do from the empty database on: each session
      is where some run of `RunContext` from a new session leads, so everything proved of those runs
      holds of it. In particular its folded turns are its oldest, only its last turn may be pending,
      and its summary is bounded. */
  lemma ProtocolRunsAreSessionRuns(staleAfter: nat, es: seq<P.Event>, owner: Uuid, sid: Uuid)
    returns (run: seq<R.Event>, p: nat)
    requires AllGenuine(P.Boot(staleAfter), es)
    ensures var st := P.Run(P.Boot(staleAfter), es).store;
      var rows := R.SessionRows(st, owner, sid);
      && Shows(st, R.Run(W.NEW_SESSION, owner, run), owner, sid)
      && R.Sound(R.Run(W.NEW_SESSION, owner, run), owner, p)
      && (forall i | 0 <= i < |rows| :: rows[i].folded <==> i < p)
      && (forall i | 0 <= i < |rows| - 1 :: rows[i].result != Pending)
      && |SummaryOf(st, owner, sid)| <= Summary.MAX_SESSION_SUMMARY_CHARS
  {
    var s := P.Boot(staleAfter);
    W.NewSessionIsSound(owner);
    EmptyShows(staleAfter, owner, sid);
    hide R.Sound, P.Safe, AllGenuine, P.Run, R.Run;
    assert P.Safe(s) by { BootSafe(staleAfter); }
    run, p := RunProjects(s, es, W.NEW_SESSION, owner, sid, 0);
    SoundShows(P.Run(s, es).store, R.Run(W.NEW_SESSION, owner, run), owner, sid, p);
  }

  lemma BootSafe(staleAfter: nat)
    ensures P.Safe(P.Boot(staleAfter))
  {
  }

  lemma EmptyShows(staleAfter: nat, owner: Uuid, sid: Uuid)
    ensures Shows(P.Boot(staleAfter).store, W.NEW_SESSION, owner, sid) && InOrder(P.Boot(staleAfter).store, owner, sid)
  {
  }

  lemma SoundShows(st: S.Store, x: R.Session, owner: Uuid, sid: Uuid, p: nat)
    requires Shows(st, x, owner, sid) && R.Sound(x, owner, p)
    ensures var rows := R.SessionRows(st, owner, sid);
      && (forall i | 0 <= i < |rows| :: rows[i].folded <==> i < p)
      && (forall i | 0 <= i < |rows| - 1 :: rows[i].result != Pending)
      && |SummaryOf(st, owner, sid)| <= Summary.MAX_SESSION_SUMMARY_CHARS
  {
    hide R.SessionRows, R.Costs, ShownFrom;
    var rows := R.SessionRows(st, owner, sid);
    forall i | 0 <= i < |rows| ensures x.rows[i].folded == rows[i].folded && x.rows[i].result == rows[i].result {
    }
  }
}
