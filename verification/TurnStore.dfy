/** The relational store of repository.py: every operation of `SqlEvidenceRepository` as a
    function from rows to rows. Rows never move, so a row is named by its index. */
module TurnStore {
  import opened EvidenceModels
  import opened Sequences

  datatype Store = Store(
    sessions: map<Uuid, SessionRow>,
    turns: seq<TurnRow>,
    trace: seq<TraceRow>)

  // ---------------------------------------------------------------- look-ups

  /** Index of the row with this primary key, `|rows|` when there is none. */
  function IndexOf(rows: seq<TurnRow>, id: Uuid): (k: nat)
    ensures k <= |rows|
    ensures k < |rows| ==> rows[k].id == id
    ensures forall j | 0 <= j < k :: rows[j].id != id
  {
    if rows == [] || rows[0].id == id then 0 else 1 + IndexOf(rows[1..], id)
  }

  /** `get_session`: absent, foreign and deleted sessions are all the same KeyError. */
  function GetSession(st: Store, owner: Uuid, sid: Uuid): Option<SessionRow> {
    if sid in st.sessions && st.sessions[sid].owner == owner && !st.sessions[sid].deleted
    then Some(st.sessions[sid]) else None
  }

  function GetTurn(st: Store, owner: Uuid, tid: Uuid): Option<TurnRow> {
    var k := IndexOf(st.turns, tid);
    if k < |st.turns| && st.turns[k].owner == owner then Some(st.turns[k]) else None
  }

  function Ids(rows: seq<TurnRow>): set<Uuid> {
    set t | t in rows :: t.id
  }

  function IdSeq(rows: seq<TurnRow>): seq<Uuid> {
    seq(|rows|, i requires 0 <= i < |rows| => rows[i].id)
  }

  // WHERE clauses
  function Mine(owner: Uuid, sid: Uuid): TurnRow -> bool {
    (t: TurnRow) => t.owner == owner && t.session == sid
  }

  function MineActive(owner: Uuid, sid: Uuid): TurnRow -> bool {
    (t: TurnRow) => t.owner == owner && t.session == sid && t.result == Pending
  }

  function MineUnfolded(owner: Uuid, sid: Uuid): TurnRow -> bool {
    (t: TurnRow) => t.owner == owner && t.session == sid && !t.folded
  }

  function TailOf(owner: Uuid, tid: Uuid, after: nat): TraceRow -> bool {
    (r: TraceRow) => r.owner == owner && r.turn == tid && r.seqNo > after
  }

  /** `active_turn`: `.first()` of the owner's pending rows of the session. */
  function ActiveTurn(st: Store, owner: Uuid, sid: Uuid): Option<TurnRow> {
    var found := Filter(MineActive(owner, sid), st.turns);
    if found == [] then None else Some(found[0])
  }

  // ---------------------------------------------------------------- ordering

  /** ORDER BY created_at, turn_id. */
  predicate Before(a: TurnRow, b: TurnRow) {
    a.created < b.created || (a.created == b.created && a.id < b.id)
  }

  function InsertOrdered(t: TurnRow, rows: seq<TurnRow>): seq<TurnRow> {
    if rows == [] || Before(t, rows[0]) then [t] + rows
    else [rows[0]] + InsertOrdered(t, rows[1..])
  }

  function OrderBy(rows: seq<TurnRow>): seq<TurnRow> {
    if rows == [] then [] else InsertOrdered(rows[0], OrderBy(rows[1..]))
  }

  ghost predicate Chronological(rows: seq<TurnRow>) {
    forall i, j | 0 <= i < j < |rows| :: rows[i].created < rows[j].created
  }

  lemma {:induction false} OrderByChronological(rows: seq<TurnRow>)
    requires Chronological(rows)
    ensures OrderBy(rows) == rows
  {
    if rows != [] {
      OrderByChronological(rows[1..]);
    }
  }

  // ---------------------------------------------------------------- listings

  function ListTurns(st: Store, owner: Uuid, sid: Uuid): Option<seq<TurnRow>> {
    if GetSession(st, owner, sid) == None then None
    else Some(OrderBy(Filter(Mine(owner, sid), st.turns)))
  }

  /** ORDER BY .. DESC LIMIT n, reversed. */
  function RecentTurns(st: Store, owner: Uuid, sid: Uuid, limit: nat): Option<seq<TurnRow>> {
    if GetSession(st, owner, sid) == None then None
    else Some(TakeLast(OrderBy(Filter(Mine(owner, sid), st.turns)), limit))
  }

  /** WHERE summarized_at IS NULL ORDER BY .. DESC OFFSET keep, reversed: the offset counts
      only rows that are not folded yet. */
  function UnsummarizedBefore(st: Store, owner: Uuid, sid: Uuid, keep: nat): Option<seq<TurnRow>> {
    if GetSession(st, owner, sid) == None then None
    else Some(DropLast(
      OrderBy(Filter(MineUnfolded(owner, sid), st.turns)), keep))
  }

  function ListTraceAfter(st: Store, owner: Uuid, tid: Uuid, after: nat): seq<TraceRow> {
    OrderTrace(Filter(TailOf(owner, tid, after), st.trace))
  }

  function InsertTrace(r: TraceRow, rows: seq<TraceRow>): seq<TraceRow> {
    if rows == [] || r.seqNo <= rows[0].seqNo then [r] + rows
    else [rows[0]] + InsertTrace(r, rows[1..])
  }

  /** ORDER BY seq. */
  function OrderTrace(rows: seq<TraceRow>): seq<TraceRow> {
    if rows == [] then [] else InsertTrace(rows[0], OrderTrace(rows[1..]))
  }

  ghost predicate Increasing(rows: seq<TraceRow>) {
    forall i, j | 0 <= i < j < |rows| :: rows[i].seqNo < rows[j].seqNo
  }

  lemma {:induction false} OrderTraceIncreasing(rows: seq<TraceRow>)
    requires Increasing(rows)
    ensures OrderTrace(rows) == rows
  {
    if rows != [] {
      OrderTraceIncreasing(rows[1..]);
    }
  }

  ghost predicate InSeqOrder(rows: seq<TraceRow>) {
    forall i, j | 0 <= i < j < |rows| :: rows[i].seqNo <= rows[j].seqNo
  }

  lemma {:induction false} InsertTraceSorted(r: TraceRow, rows: seq<TraceRow>)
    requires InSeqOrder(rows)
    ensures InSeqOrder(InsertTrace(r, rows))
    ensures forall x :: x in InsertTrace(r, rows) <==> x == r || x in rows
  {
    if rows != [] && r.seqNo > rows[0].seqNo {
      InsertTraceSorted(r, rows[1..]);
      var rest := InsertTrace(r, rows[1..]);
      forall j | 0 <= j < |rest| ensures rows[0].seqNo <= rest[j].seqNo {
        assert rest[j] in rest;
        if rest[j] != r {
          var k :| 0 <= k < |rows[1..]| && rows[1..][k] == rest[j];
          assert rows[k + 1] == rest[j];
        }
      }
    }
  }

  /** ORDER BY seq leaves rows as they are exactly when they came in seq order. */
  lemma {:induction false} OrderTraceIff(rows: seq<TraceRow>)
    ensures InSeqOrder(OrderTrace(rows)) && (forall x :: x in OrderTrace(rows) <==> x in rows)
    ensures OrderTrace(rows) == rows <==> InSeqOrder(rows)
  {
    if rows != [] {
      OrderTraceIff(rows[1..]);
      InsertTraceSorted(rows[0], OrderTrace(rows[1..]));
      if InSeqOrder(rows) {
        assert OrderTrace(rows[1..]) == rows[1..];
      }
    }
  }

  // ---------------------------------------------------------------- writes

  datatype AddOutcome = Added(store: Store) | SessionMissing | SessionBusy

  predicate HasPending(rows: seq<TurnRow>, sid: Uuid) {
    exists i | 0 <= i < |rows| :: rows[i].session == sid && rows[i].result == Pending
  }

  /** `add_turn`: the owner column is the session's, and the partial unique index refuses a
      second pending row of the session. `cachedLive` is true when the session row was read
      before a concurrent delete and the identity map still serves that copy. */
  function AddTurn(st: Store, turn: TurnRow, cachedLive: bool): AddOutcome {
    if turn.session !in st.sessions || (st.sessions[turn.session].deleted && !cachedLive)
    then SessionMissing
    else if turn.result == Pending && HasPending(st.turns, turn.session) then SessionBusy
    else Added(st.(turns := st.turns + [turn.(
        owner := st.sessions[turn.session].owner,
        cancelRequested := false, heartbeat := None, folded := false, pruned := false)]))
  }

  function SetResult(owner: Uuid, tid: Uuid, result: TurnResult): TurnRow -> TurnRow {
    (t: TurnRow) => if t.id == tid && t.owner == owner && t.result == Pending then t.(result := result) else t
  }

  /** UPDATE .. SET status, result WHERE turn_id, owner_id AND status = 'pending'. */
  function UpdateTurnResult(st: Store, owner: Uuid, tid: Uuid, result: TurnResult): Store {
    st.(turns := MapSeq(SetResult(owner, tid, result), st.turns))
  }

  function SetCancel(owner: Uuid, tid: Uuid): TurnRow -> TurnRow {
    (t: TurnRow) => if t.id == tid && t.owner == owner && t.result == Pending then t.(cancelRequested := true) else t
  }

  /** `request_cancel`: None is KeyError; false when the turn had already ended. */
  function RequestCancel(st: Store, owner: Uuid, tid: Uuid): Option<(bool, Store)> {
    match GetTurn(st, owner, tid)
    case None => None
    case Some(t) =>
      Some((t.result == Pending, st.(turns := MapSeq(SetCancel(owner, tid), st.turns))))
  }

  function SetHeartbeat(owner: Uuid, tid: Uuid, now: nat): TurnRow -> TurnRow {
    (t: TurnRow) => if t.id == tid && t.owner == owner then t.(heartbeat := Some(now)) else t
  }

  /** `heartbeat`: stamps the row, terminal or not, and returns the cancel flag. */
  function Heartbeat(st: Store, owner: Uuid, tid: Uuid, now: nat): Option<(bool, Store)> {
    match GetTurn(st, owner, tid)
    case None => None
    case Some(t) =>
      Some((t.cancelRequested,
            st.(turns := MapSeq(SetHeartbeat(owner, tid, now), st.turns))))
  }

  function SetFolded(owner: Uuid, ids: set<Uuid>): TurnRow -> TurnRow {
    (t: TurnRow) => if t.id in ids && t.owner == owner then t.(folded := true) else t
  }

  function MarkSummarized(st: Store, owner: Uuid, ids: set<Uuid>): Store {
    st.(turns := MapSeq(SetFolded(owner, ids), st.turns))
  }

  function SetPruned(ids: set<Uuid>): TurnRow -> TurnRow {
    (t: TurnRow) => if t.id in ids then t.(pruned := true) else t
  }

  function MarkCheckpointsPruned(st: Store, ids: set<Uuid>): Store {
    st.(turns := MapSeq(SetPruned(ids), st.turns))
  }

  function AppendTrace(st: Store, row: TraceRow): Store {
    st.(trace := st.trace + [row])
  }

  function SetSummary(st: Store, sid: Uuid, summary: string): Store
    requires sid in st.sessions
  {
    st.(sessions := st.sessions[sid := st.sessions[sid].(summary := summary)])
  }

  function CreateSession(st: Store, owner: Uuid, sid: Uuid): Store
    requires sid !in st.sessions
  {
    st.(sessions := st.sessions[sid := SessionRow(owner, false, "")])
  }

  function SoftDelete(st: Store, owner: Uuid, sid: Uuid): Store {
    if GetSession(st, owner, sid) == None then st
    else st.(sessions := st.sessions[sid := st.sessions[sid].(deleted := true)])
  }

  // ---------------------------------------------------------------- invariant

  ghost predicate DistinctIds(rows: seq<TurnRow>) {
    forall i, j | 0 <= i < j < |rows| :: rows[i].id != rows[j].id
  }

  /** What the partial unique index `uq_evidence_turns_session_pending` guarantees. */
  ghost predicate OnePending(rows: seq<TurnRow>) {
    forall i, j | 0 <= i < j < |rows| && rows[i].session == rows[j].session ::
      rows[i].result != Pending || rows[j].result != Pending
  }

  ghost predicate OwnersMatch(st: Store) {
    forall i | 0 <= i < |st.turns| ::
      && st.turns[i].session in st.sessions
      && st.turns[i].owner == st.sessions[st.turns[i].session].owner
  }

  ghost predicate Inv(st: Store) {
    DistinctIds(st.turns) && OnePending(st.turns) && OwnersMatch(st)
  }

  // ---------------------------------------------------------------- evolution

  /** What no transaction may undo: a row keeps its identity, and once it is terminal its result. */
  predicate RowEvolves(a: TurnRow, b: TurnRow) {
    && a.id == b.id && a.session == b.session && a.owner == b.owner
    && a.topic == b.topic && a.created == b.created
    && (a.result != Pending ==> b.result == a.result && b.cancelRequested == a.cancelRequested)
    && (a.cancelRequested ==> b.cancelRequested)
    && (a.folded ==> b.folded)
    && (a.pruned ==> b.pruned)
    && (a.heartbeat.Some? ==> b.heartbeat.Some?)
  }

  ghost predicate Evolves(a: Store, b: Store) {
    && |a.turns| <= |b.turns|
    && (forall i | 0 <= i < |a.turns| :: RowEvolves(a.turns[i], b.turns[i]))
    && (forall sid | sid in a.sessions ::
          && sid in b.sessions && b.sessions[sid].owner == a.sessions[sid].owner
          && (a.sessions[sid].deleted ==> b.sessions[sid].deleted))
    && |a.trace| <= |b.trace| && a.trace == b.trace[..|a.trace|]
  }

  lemma EvolvesTransitive(a: Store, b: Store, c: Store)
    requires Evolves(a, b) && Evolves(b, c)
    ensures Evolves(a, c)
  {
    forall i | 0 <= i < |a.turns| ensures RowEvolves(a.turns[i], c.turns[i]) {
      assert RowEvolves(a.turns[i], b.turns[i]);
      assert RowEvolves(b.turns[i], c.turns[i]);
    }
    assert c.trace[..|b.trace|][..|a.trace|] == c.trace[..|a.trace|];
  }

  /** A pointwise update that evolves each row and never reopens one keeps the invariant. */
  lemma PointwiseUpdate(st: Store, f: TurnRow -> TurnRow)
    requires Inv(st)
    requires forall t | t in st.turns :: RowEvolves(t, f(t)) && (f(t).result == Pending ==> t.result == Pending)
    ensures Inv(st.(turns := MapSeq(f, st.turns)))
    ensures Evolves(st, st.(turns := MapSeq(f, st.turns)))
  {
    forall i | 0 <= i < |st.turns| ensures RowEvolves(st.turns[i], f(st.turns[i])) {
      assert st.turns[i] in st.turns;
    }
  }

  lemma UpdateTurnResultSafe(st: Store, owner: Uuid, tid: Uuid, result: TurnResult)
    requires Inv(st)
    ensures Inv(UpdateTurnResult(st, owner, tid, result))
    ensures Evolves(st, UpdateTurnResult(st, owner, tid, result))
  {
    PointwiseUpdate(st, SetResult(owner, tid, result));
  }

  lemma RequestCancelSafe(st: Store, owner: Uuid, tid: Uuid)
    requires Inv(st) && RequestCancel(st, owner, tid).Some?
    ensures Inv(RequestCancel(st, owner, tid).value.1)
    ensures Evolves(st, RequestCancel(st, owner, tid).value.1)
  {
    PointwiseUpdate(st, SetCancel(owner, tid));
  }

  lemma HeartbeatSafe(st: Store, owner: Uuid, tid: Uuid, now: nat)
    requires Inv(st) && Heartbeat(st, owner, tid, now).Some?
    ensures Inv(Heartbeat(st, owner, tid, now).value.1)
    ensures Evolves(st, Heartbeat(st, owner, tid, now).value.1)
  {
    PointwiseUpdate(st, SetHeartbeat(owner, tid, now));
  }

  lemma MarkSummarizedSafe(st: Store, owner: Uuid, ids: set<Uuid>)
    requires Inv(st)
    ensures Inv(MarkSummarized(st, owner, ids)) && Evolves(st, MarkSummarized(st, owner, ids))
  {
    PointwiseUpdate(st, SetFolded(owner, ids));
  }

  lemma MarkCheckpointsPrunedSafe(st: Store, ids: set<Uuid>)
    requires Inv(st)
    ensures Inv(MarkCheckpointsPruned(st, ids)) && Evolves(st, MarkCheckpointsPruned(st, ids))
  {
    PointwiseUpdate(st, SetPruned(ids));
  }

  /** The unique index and the session's owner column keep the invariant on every insert. */
  lemma AddTurnSafe(st: Store, turn: TurnRow, cachedLive: bool)
    requires Inv(st) && IndexOf(st.turns, turn.id) == |st.turns|
    requires AddTurn(st, turn, cachedLive).Added?
    ensures Inv(AddTurn(st, turn, cachedLive).store)
    ensures Evolves(st, AddTurn(st, turn, cachedLive).store)
  {
  }

  /** The stamp left by `update_turn_result`: whatever was there, the row is not pending now. */
  lemma UpdateCloses(st: Store, owner: Uuid, tid: Uuid, result: Terminal)
    ensures match GetTurn(UpdateTurnResult(st, owner, tid, result), owner, tid)
            case None => GetTurn(st, owner, tid) == None
            case Some(t) => t.result != Pending && GetTurn(st, owner, tid).Some?
                            && (GetTurn(st, owner, tid).value.result != Pending ==> t == GetTurn(st, owner, tid).value)
                            && (GetTurn(st, owner, tid).value.result == Pending ==> t.result == result)
  {
    var st' := UpdateTurnResult(st, owner, tid, result);
    SameIndex(st.turns, st'.turns, tid);
  }

  /** Exactly what the conditional UPDATE leaves in the owner's row. */
  lemma ResultRow(st: Store, owner: Uuid, tid: Uuid, result: TurnResult)
    requires GetTurn(st, owner, tid).Some?
    ensures var t := GetTurn(st, owner, tid).value;
      GetTurn(UpdateTurnResult(st, owner, tid, result), owner, tid) ==
        Some(if t.result == Pending then t.(result := result) else t)
  {
    SameIndex(st.turns, UpdateTurnResult(st, owner, tid, result).turns, tid);
  }

  /** The look-up finds the owner's row with that id, and only that. */
  lemma GetTurnIff(st: Store, owner: Uuid, tid: Uuid, t: TurnRow)
    requires DistinctIds(st.turns)
    ensures GetTurn(st, owner, tid) == Some(t) <==> t in st.turns && t.id == tid && t.owner == owner
  {
    if t in st.turns && t.id == tid {
      var k :| 0 <= k < |st.turns| && st.turns[k] == t;
      assert IndexOf(st.turns, tid) == k;
    }
  }

  lemma {:induction false} SameIndex(a: seq<TurnRow>, b: seq<TurnRow>, id: Uuid)
    requires |a| <= |b| && forall i | 0 <= i < |a| :: a[i].id == b[i].id
    ensures IndexOf(a, id) < |a| ==> IndexOf(b, id) == IndexOf(a, id)
    ensures IndexOf(a, id) == |a| ==> IndexOf(b, id) >= |a|
  {
    if IndexOf(b, id) < IndexOf(a, id) {
      assert b[IndexOf(b, id)].id == id;
    }
  }
}
