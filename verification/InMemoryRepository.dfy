/** `InMemoryEvidenceRepository`: lists inside a dict, mutated in place. The ghost field `sql`
    is the row store the SQL repository would hold after the same calls; every method states
    what it answers in terms of that store, so the two stores are observationally equal. */
module InMemoryRepository {
  import opened EvidenceModels
  import opened Sequences
  import S = TurnStore
  import Summary = SessionSummary
  import Pruning = CheckpointPruning

  type Lists = map<Uuid, seq<TurnRow>>
  type Traces = map<Uuid, seq<TraceRow>>

  /** A turn as `EvidenceTurn(...)` builds it. */
  predicate NewTurn(t: TurnRow) {
    !t.cancelRequested && t.heartbeat == None && !t.folded && !t.pruned
  }

  function InSession(sid: Uuid): TurnRow -> bool {
    (t: TurnRow) => t.session == sid
  }

  function OwnedPending(owner: Uuid): TurnRow -> bool {
    (t: TurnRow) => t.owner == owner && t.result == Pending
  }

  function Unfolded(): TurnRow -> bool {
    (t: TurnRow) => !t.folded
  }

  function OfTurn(tid: Uuid): TraceRow -> bool {
    (r: TraceRow) => r.turn == tid
  }

  function OwnedAfter(owner: Uuid, after: nat): TraceRow -> bool {
    (r: TraceRow) => r.owner == owner && r.seqNo > after
  }

  // ---------------------------------------------------------------- the coupling

  ghost predicate Listed(list: seq<TurnRow>, rows: seq<TurnRow>, sid: Uuid) {
    list == Filter(InSession(sid), rows) && S.DistinctIds(list) && S.Chronological(list)
  }

  ghost predicate Mirrors(turns: Lists, st: S.Store) {
    turns.Keys == st.sessions.Keys && forall sid | sid in turns :: Listed(turns[sid], st.turns, sid)
  }

  function RowsOf(trace: Traces, tid: Uuid): seq<TraceRow> {
    if tid in trace then trace[tid] else []
  }

  ghost predicate TraceListed(list: seq<TraceRow>, rows: seq<TraceRow>, tid: Uuid) {
    list == Filter(OfTurn(tid), rows)
  }

  ghost predicate TraceMirrors(trace: Traces, rows: seq<TraceRow>) {
    forall tid: Uuid :: TraceListed(RowsOf(trace, tid), rows, tid)
  }

  lemma RowFound(turns: Lists, st: S.Store, sid: Uuid, i: nat)
    requires S.Inv(st) && Mirrors(turns, st) && sid in turns && i < |turns[sid]|
    ensures turns[sid][i] in st.turns
    ensures S.GetTurn(st, turns[sid][i].owner, turns[sid][i].id) == Some(turns[sid][i])
  {
    var t := turns[sid][i];
    assert Listed(turns[sid], st.turns, sid);
    assert t in turns[sid];
    var k :| 0 <= k < |st.turns| && st.turns[k] == t;
    assert S.IndexOf(st.turns, t.id) == k;
  }

  lemma RowMissing(turns: Lists, st: S.Store, owner: Uuid, tid: Uuid)
    requires S.Inv(st) && Mirrors(turns, st)
    requires forall sid, i | sid in turns && 0 <= i < |turns[sid]| ::
               turns[sid][i].id != tid || turns[sid][i].owner != owner
    ensures S.GetTurn(st, owner, tid) == None
    ensures forall t | t in st.turns :: t.id != tid || t.owner != owner
  {
    forall t | t in st.turns ensures t.id != tid || t.owner != owner {
      assert Listed(turns[t.session], st.turns, t.session);
      assert t in turns[t.session];
    }
  }

  /** Replacing one list entry is the row-wise UPDATE whose WHERE matches that row alone. */
  lemma EntryIsUpdate(turns: Lists, st: S.Store, sid: Uuid, i: nat, f: TurnRow -> TurnRow)
    requires S.Inv(st) && Mirrors(turns, st) && sid in turns && i < |turns[sid]|
    requires forall t | t in st.turns :: S.RowEvolves(t, f(t)) && (f(t).result == Pending ==> t.result == Pending)
    requires forall t | t in st.turns && t.id != turns[sid][i].id :: f(t) == t
    ensures S.Inv(st.(turns := MapSeq(f, st.turns)))
    ensures Mirrors(turns[sid := turns[sid][i := f(turns[sid][i])]], st.(turns := MapSeq(f, st.turns)))
  {
    hide S.OnePending, S.OwnersMatch, S.Chronological;
    S.PointwiseUpdate(st, f);
    var after := turns[sid := turns[sid][i := f(turns[sid][i])]];
    RowFound(turns, st, sid, i);
    forall s | s in turns ensures after[s] == MapSeq(f, turns[s]) {
      assert Listed(turns[s], st.turns, s);
      forall j | 0 <= j < |turns[s]| && !(s == sid && j == i) ensures f(turns[s][j]) == turns[s][j] {
        RowFound(turns, st, s, j);
        if turns[s][j].id == turns[sid][i].id {
          SameIdSamePlace(turns, st, s, j, sid, i);
        }
      }
    }
    ListsAreUpdate(turns, after, st, f);
  }

  lemma ResultEntry(turns: Lists, st: S.Store, sid: Uuid, i: nat, result: TurnResult)
    requires S.Inv(st) && Mirrors(turns, st) && sid in turns && i < |turns[sid]|
    ensures var t := turns[sid][i]; var st' := S.UpdateTurnResult(st, t.owner, t.id, result);
            && S.Inv(st')
            && Mirrors(turns[sid := turns[sid][i := S.SetResult(t.owner, t.id, result)(t)]], st')
  {
    EntryIsUpdate(turns, st, sid, i, S.SetResult(turns[sid][i].owner, turns[sid][i].id, result));
  }

  lemma HeartbeatEntry(turns: Lists, st: S.Store, sid: Uuid, i: nat, now: nat)
    requires S.Inv(st) && Mirrors(turns, st) && sid in turns && i < |turns[sid]|
    ensures var t := turns[sid][i]; var st' := st.(turns := MapSeq(S.SetHeartbeat(t.owner, t.id, now), st.turns));
            && S.Inv(st')
            && Mirrors(turns[sid := turns[sid][i := t.(heartbeat := Some(now))]], st')
  {
    EntryIsUpdate(turns, st, sid, i, S.SetHeartbeat(turns[sid][i].owner, turns[sid][i].id, now));
  }

  lemma CancelEntry(turns: Lists, st: S.Store, sid: Uuid, i: nat)
    requires S.Inv(st) && Mirrors(turns, st) && sid in turns && i < |turns[sid]|
    ensures var t := turns[sid][i]; var st' := st.(turns := MapSeq(S.SetCancel(t.owner, t.id), st.turns));
            && S.Inv(st')
            && Mirrors(turns[sid := turns[sid][i := S.SetCancel(t.owner, t.id)(t)]], st')
  {
    EntryIsUpdate(turns, st, sid, i, S.SetCancel(turns[sid][i].owner, turns[sid][i].id));
  }

  lemma SameIdSamePlace(turns: Lists, st: S.Store, s: Uuid, j: nat, sid: Uuid, i: nat)
    requires S.Inv(st) && Mirrors(turns, st)
    requires s in turns && j < |turns[s]| && sid in turns && i < |turns[sid]|
    requires turns[s][j].id == turns[sid][i].id
    ensures s == sid && j == i
  {
    RowFound(turns, st, s, j);
    RowFound(turns, st, sid, i);
    assert Listed(turns[s], st.turns, s) && Listed(turns[sid], st.turns, sid);
    assert turns[s][j] in turns[s] && turns[sid][i] in turns[sid];
  }

  /** A WHERE clause that matches no row changes nothing. */
  lemma NoRowNoUpdate(rows: seq<TurnRow>, f: TurnRow -> TurnRow)
    requires forall t | t in rows :: f(t) == t
    ensures MapSeq(f, rows) == rows
  {
    assert forall i | 0 <= i < |rows| :: rows[i] in rows;
  }

  /** The same UPDATE applied to every list. */
  lemma ListsAreUpdate(turns: Lists, after: Lists, st: S.Store, f: TurnRow -> TurnRow)
    requires S.Inv(st) && Mirrors(turns, st) && after.Keys == turns.Keys
    requires forall s | s in turns :: after[s] == MapSeq(f, turns[s])
    requires forall t | t in st.turns :: S.RowEvolves(t, f(t)) && (f(t).result == Pending ==> t.result == Pending)
    ensures Mirrors(after, st.(turns := MapSeq(f, st.turns)))
  {
    forall s | s in after ensures Listed(after[s], MapSeq(f, st.turns), s) {
      assert Listed(turns[s], st.turns, s);
      FilterMap(InSession(s), f, st.turns);
      forall j | 0 <= j < |turns[s]| ensures S.RowEvolves(turns[s][j], after[s][j]) {
        RowFound(turns, st, s, j);
      }
    }
  }

  lemma TraceAppend(trace: Traces, rows: seq<TraceRow>, row: TraceRow)
    requires TraceMirrors(trace, rows)
    ensures TraceMirrors(trace[row.turn := RowsOf(trace, row.turn) + [row]], rows + [row])
  {
    var after := trace[row.turn := RowsOf(trace, row.turn) + [row]];
    forall tid: Uuid ensures TraceListed(RowsOf(after, tid), rows + [row], tid) {
      assert TraceListed(RowsOf(trace, tid), rows, tid);
      OneMoreTrace(rows, row, tid);
    }
  }

  lemma OneMoreTrace(rows: seq<TraceRow>, row: TraceRow, tid: Uuid)
    ensures Filter(OfTurn(tid), rows + [row]) == Filter(OfTurn(tid), rows) + if row.turn == tid then [row] else []
  {
    FilterConcat(OfTurn(tid), rows, [row]);
    assert Filter(OfTurn(tid), [row]) == if row.turn == tid then [row] else [];
  }

  /** Appending to one list is the INSERT. */
  lemma AppendIsInsert(turns: Lists, st: S.Store, turn: TurnRow)
    requires S.Inv(st) && Mirrors(turns, st) && turn.session in turns
    requires S.IndexOf(st.turns, turn.id) == |st.turns|
    requires forall t | t in turns[turn.session] :: t.created < turn.created
    ensures Mirrors(turns[turn.session := turns[turn.session] + [turn]], st.(turns := st.turns + [turn]))
  {
    hide Listed;
    var after := turns[turn.session := turns[turn.session] + [turn]];
    forall s | s in after ensures Listed(after[s], st.turns + [turn], s) {
      assert Listed(turns[s], st.turns, s);
      if s == turn.session {
        forall j | 0 <= j < |turns[s]| ensures turns[s][j].id != turn.id && turns[s][j].created < turn.created {
          RowFound(turns, st, s, j);
        }
      }
      ListedAppend(turns[s], st.turns, s, turn);
    }
  }

  lemma ListedAppend(list: seq<TurnRow>, rows: seq<TurnRow>, sid: Uuid, turn: TurnRow)
    requires Listed(list, rows, sid)
    requires turn.session == sid ==>
      forall j | 0 <= j < |list| :: list[j].id != turn.id && list[j].created < turn.created
    ensures Listed(if turn.session == sid then list + [turn] else list, rows + [turn], sid)
  {
    FilterConcat(InSession(sid), rows, [turn]);
    assert Filter(InSession(sid), [turn]) == if turn.session == sid then [turn] else [];
  }

  lemma {:induction false} LastIsFound(rows: seq<TurnRow>, row: TurnRow)
    requires S.IndexOf(rows, row.id) == |rows|
    ensures S.IndexOf(rows + [row], row.id) == |rows|
  {
    if rows != [] {
      assert (rows + [row])[1..] == rows[1..] + [row];
      LastIsFound(rows[1..], row);
    }
  }

  lemma PendingFromList(turns: Lists, st: S.Store, sid: Uuid)
    requires Mirrors(turns, st) && sid in turns
    ensures (exists i | 0 <= i < |turns[sid]| :: turns[sid][i].result == Pending) <==> S.HasPending(st.turns, sid)
  {
    assert Listed(turns[sid], st.turns, sid);
    if i :| 0 <= i < |turns[sid]| && turns[sid][i].result == Pending {
      assert turns[sid][i] in Filter(InSession(sid), st.turns);
      var k :| 0 <= k < |st.turns| && st.turns[k] == turns[sid][i];
    }
    if k :| 0 <= k < |st.turns| && st.turns[k].session == sid && st.turns[k].result == Pending {
      assert st.turns[k] in Filter(InSession(sid), st.turns);
    }
  }

  lemma RowsOfSession(turns: Lists, st: S.Store, owner: Uuid, sid: Uuid)
    requires S.Inv(st) && Mirrors(turns, st) && S.GetSession(st, owner, sid).Some?
    ensures sid in turns && Filter(S.Mine(owner, sid), st.turns) == turns[sid]
    ensures S.OrderBy(turns[sid]) == turns[sid]
    ensures S.OrderBy(Filter(S.MineUnfolded(owner, sid), st.turns)) == Filter(Unfolded(), turns[sid])
  {
    assert Listed(turns[sid], st.turns, sid);
    FilterSame(InSession(sid), S.Mine(owner, sid), st.turns);
    S.OrderByChronological(turns[sid]);
    FilterFilter(S.Mine(owner, sid), Unfolded(), st.turns);
    FilterSame(Both(S.Mine(owner, sid), Unfolded()), S.MineUnfolded(owner, sid), st.turns);
    FilterChronological(Unfolded(), turns[sid]);
    S.OrderByChronological(Filter(Unfolded(), turns[sid]));
  }

  lemma ActiveFromList(turns: Lists, st: S.Store, owner: Uuid, sid: Uuid)
    requires S.Inv(st) && Mirrors(turns, st)
    ensures Filter(S.MineActive(owner, sid), st.turns)
         == Filter(OwnedPending(owner), if sid in turns then turns[sid] else [])
  {
    FilterFilter(InSession(sid), OwnedPending(owner), st.turns);
    FilterSame(Both(InSession(sid), OwnedPending(owner)), S.MineActive(owner, sid), st.turns);
    if sid in turns {
      assert Listed(turns[sid], st.turns, sid);
    } else {
      NoneOfUnknownSession(st, sid);
    }
  }

  lemma NoneOfUnknownSession(st: S.Store, sid: Uuid)
    requires S.OwnersMatch(st) && sid !in st.sessions
    ensures Filter(InSession(sid), st.turns) == []
  {
    FilterNone(InSession(sid), st.turns);
  }

  ghost predicate Distinct(sids: seq<Uuid>) {
    forall i, j | 0 <= i < j < |sids| :: sids[i] != sids[j]
  }

  class InMemoryEvidenceRepository {
    var sessions: map<Uuid, SessionRow>
    var turns: Lists
    var order: seq<Uuid>                // dict order of `turns`
    var trace: Traces
    ghost var sql: S.Store

    ghost predicate Valid()
      reads this
    {
      && S.Inv(sql) && sessions == sql.sessions && Mirrors(turns, sql) && TraceMirrors(trace, sql.trace)
      && (forall s :: s in order <==> s in turns) && Distinct(order)
    }

    constructor ()
      ensures Valid() && sql == S.Store(map[], [], [])
    {
      sessions, turns, order, trace := map[], map[], [], map[];
      sql := S.Store(map[], [], []);
    }

    // -------------------------------------------------------------- sessions

    method CreateSession(owner: Uuid, sid: Uuid)
      requires Valid() && sid !in sessions
      modifies this
      ensures Valid() && sql == S.CreateSession(old(sql), owner, sid)
    {
      NoneOfUnknownSession(sql, sid);
      assert forall s | s in turns :: Listed(turns[s], sql.turns, s);
      sessions := sessions[sid := SessionRow(owner, false, "")];
      turns, order := turns[sid := []], order + [sid];
      sql := S.CreateSession(sql, owner, sid);
    }

    method GetSession(owner: Uuid, sid: Uuid) returns (r: Option<SessionRow>)
      requires Valid()
      ensures r == S.GetSession(sql, owner, sid)
    {
      if sid in sessions && sessions[sid].owner == owner && !sessions[sid].deleted {
        return Some(sessions[sid]);
      }
      return None;
    }

    method SoftDeleteSession(owner: Uuid, sid: Uuid) returns (found: bool)
      requires Valid()
      modifies this
      ensures Valid() && sql == S.SoftDelete(old(sql), owner, sid)
      ensures found <==> S.GetSession(old(sql), owner, sid).Some?
    {
      var s := GetSession(owner, sid);
      if s == None { return false; }
      assert forall x | x in turns :: Listed(turns[x], sql.turns, x);
      sessions := sessions[sid := sessions[sid].(deleted := true)];
      sql := S.SoftDelete(sql, owner, sid);
      return true;
    }

    // -------------------------------------------------------------- look-ups

    /** The double loop shared by `get_turn` and `update_turn_result`. Dict order is left open. */
    method Locate(owner: Uuid, tid: Uuid) returns (found: Option<(Uuid, nat)>)
      requires Valid()
      ensures found.None? ==> S.GetTurn(sql, owner, tid) == None
                              && forall t | t in sql.turns :: t.id != tid || t.owner != owner
      ensures found.Some? ==>
        && found.value.0 in turns && found.value.1 < |turns[found.value.0]|
        && turns[found.value.0][found.value.1].id == tid
        && S.GetTurn(sql, owner, tid) == Some(turns[found.value.0][found.value.1])
    {
      var keys := turns.Keys;
      while keys != {}
        invariant keys <= turns.Keys
        invariant forall sid, i | sid in turns && sid !in keys && 0 <= i < |turns[sid]| ::
          turns[sid][i].id != tid || turns[sid][i].owner != owner
      {
        var sid :| sid in keys;
        for i := 0 to |turns[sid]|
          invariant forall j | 0 <= j < i :: turns[sid][j].id != tid || turns[sid][j].owner != owner
        {
          if turns[sid][i].id == tid && turns[sid][i].owner == owner {
            RowFound(turns, sql, sid, i);
            return Some((sid, i));
          }
        }
        keys := keys - {sid};
      }
      RowMissing(turns, sql, owner, tid);
      return None;
    }

    method GetTurn(owner: Uuid, tid: Uuid) returns (r: Option<TurnRow>)
      requires Valid()
      ensures r == S.GetTurn(sql, owner, tid)
    {
      var at := Locate(owner, tid);
      if at.Some? { return Some(turns[at.value.0][at.value.1]); }
      return None;
    }

    method ActiveTurn(owner: Uuid, sid: Uuid) returns (r: Option<TurnRow>)
      requires Valid()
      ensures r == S.ActiveTurn(sql, owner, sid)
    {
      ActiveFromList(turns, sql, owner, sid);
      var list := if sid in turns then turns[sid] else [];
      for i := 0 to |list|
        invariant forall j | 0 <= j < i :: !OwnedPending(owner)(list[j])
      {
        if list[i].owner == owner && list[i].result == Pending {
          FirstMatch(OwnedPending(owner), list, i);
          return Some(list[i]);
        }
      }
      FilterNone(OwnedPending(owner), list);
      return None;
    }

    // -------------------------------------------------------------- listings

    method ListTurns(owner: Uuid, sid: Uuid) returns (r: Option<seq<TurnRow>>)
      requires Valid()
      ensures r == S.ListTurns(sql, owner, sid)
    {
      var s := GetSession(owner, sid);
      if s == None { return None; }
      RowsOfSession(turns, sql, owner, sid);
      return Some(turns[sid]);
    }

    /** `list_turns(..)[-limit:]`: the two stores part only on a limit of zero, which Python's
        `[-0:]` reads as "everything" and SQL's LIMIT 0 as "nothing". */
    method RecentTurns(owner: Uuid, sid: Uuid, limit: nat) returns (r: Option<seq<TurnRow>>)
      requires Valid()
      ensures r == S.RecentTurns(sql, owner, sid, limit)
              <==> limit > 0 || S.ListTurns(sql, owner, sid).None? || S.ListTurns(sql, owner, sid).value == []
      ensures limit == 0 ==> r == S.ListTurns(sql, owner, sid)
    {
      var all := ListTurns(owner, sid);
      if all == None { return None; }
      return Some(if limit == 0 then all.value else TakeLast(all.value, limit));
    }

    /** `turns[: max(0, len - keep)]`, then the unfolded ones of those. */
    method UnsummarizedBefore(owner: Uuid, sid: Uuid, keep: nat) returns (r: Option<seq<TurnRow>>)
      requires Valid()
      ensures r.None? <==> S.ListTurns(sql, owner, sid) == None
      ensures r.Some? ==> r.value == Filter(Unfolded(), DropLast(S.ListTurns(sql, owner, sid).value, keep))
      ensures r == S.UnsummarizedBefore(sql, owner, sid, keep)
              <==> r.None? || WindowsAgree(S.ListTurns(sql, owner, sid).value, keep)
    {
      var s := GetSession(owner, sid);
      if s == None { return None; }
      RowsOfSession(turns, sql, owner, sid);
      OffsetAgreement(turns[sid], keep);
      return Some(Filter(Unfolded(), DropLast(turns[sid], keep)));
    }

    // -------------------------------------------------------------- writes

    /** Given a fresh id and a creation time after the session's others. `owner` is what the caller
        put there, None for nothing: SQL always takes the session's owner, this store only when the
        caller left it out. A foreign owner parts the stores: the row is then the caller's here and
        the session owner's there. */
    method AddTurn(turn: TurnRow, owner: Option<Uuid>) returns (r: Insertion)
      requires Valid() && NewTurn(turn) && S.IndexOf(sql.turns, turn.id) == |sql.turns|
      requires turn.session in turns ==> forall t | t in turns[turn.session] :: t.created < turn.created
      modifies this
      ensures match S.AddTurn(old(sql), turn, false)
              case SessionMissing => r == KeyError && sql == old(sql) && Valid()
              case SessionBusy => r == Busy && sql == old(sql) && Valid()
              case Added(after) => r == Inserted && sql == after
      ensures r == Inserted ==>
        && turn.session in sessions && turn.session in old(turns)
        && turns == old(turns)[turn.session := old(turns[turn.session]) +
             [turn.(owner := if owner.Some? then owner.value else sessions[turn.session].owner)]]
        && (owner.None? || owner.value == sessions[turn.session].owner ==> Valid())
        && (owner.Some? && owner.value != sessions[turn.session].owner ==>
              && S.GetTurn(sql, owner.value, turn.id) == None
              && S.GetTurn(sql, sessions[turn.session].owner, turn.id).Some?)
    {
      hide S.Inv, Listed, TraceMirrors;
      if turn.session !in sessions || sessions[turn.session].deleted { return KeyError; }
      var list := turns[turn.session];
      PendingFromList(turns, sql, turn.session);
      if turn.result == Pending && exists i | 0 <= i < |list| :: list[i].result == Pending {
        return Busy;
      }
      var row := turn.(owner := if owner.Some? then owner.value else sessions[turn.session].owner);
      ghost var inserted := turn.(owner := sessions[turn.session].owner);
      AppendIsInsert(turns, sql, inserted);
      S.AddTurnSafe(sql, turn, false);
      LastIsFound(sql.turns, inserted);
      turns := turns[turn.session := list + [row]];
      sql := S.AddTurn(sql, turn, false).store;
      return Inserted;
    }

    /** Both stores leave a terminal row alone; only this one raises KeyError for a missing row. */
    method UpdateTurnResult(owner: Uuid, tid: Uuid, result: TurnResult) returns (found: bool)
      requires Valid()
      modifies this
      ensures Valid() && sql == S.UpdateTurnResult(old(sql), owner, tid, result)
      ensures found <==> S.GetTurn(old(sql), owner, tid).Some?
    {
      hide S.Inv, Mirrors, TraceMirrors;
      var at := Locate(owner, tid);
      if at.None? {
        NoRowNoUpdate(sql.turns, S.SetResult(owner, tid, result));
        return false;
      }
      var (sid, i) := at.value;
      ResultEntry(turns, sql, sid, i, result);
      sql := S.UpdateTurnResult(sql, owner, tid, result);
      turns := turns[sid := turns[sid][i := if turns[sid][i].result != Pending then turns[sid][i]
                                           else turns[sid][i].(result := result)]];
      return true;
    }

    method RequestCancel(owner: Uuid, tid: Uuid) returns (r: Option<bool>)
      requires Valid()
      modifies this
      ensures Valid()
      ensures match S.RequestCancel(old(sql), owner, tid)
              case None => r == None && sql == old(sql)
              case Some((accepted, after)) => r == Some(accepted) && sql == after
    {
      hide S.Inv, Mirrors, TraceMirrors;
      var at := Locate(owner, tid);
      if at.None? { return None; }
      var (sid, i) := at.value;
      CancelEntry(turns, sql, sid, i);
      sql := S.RequestCancel(sql, owner, tid).value.1;
      r := Some(turns[sid][i].result == Pending);
      turns := turns[sid := turns[sid][i := if turns[sid][i].result != Pending then turns[sid][i]
                                           else turns[sid][i].(cancelRequested := true)]];
    }

    method Heartbeat(owner: Uuid, tid: Uuid, now: nat) returns (r: Option<bool>)
      requires Valid()
      modifies this
      ensures Valid()
      ensures match S.Heartbeat(old(sql), owner, tid, now)
              case None => r == None && sql == old(sql)
              case Some((cancel, after)) => r == Some(cancel) && sql == after
    {
      hide S.Inv, Mirrors, TraceMirrors;
      var at := Locate(owner, tid);
      if at.None? { return None; }
      var (sid, i) := at.value;
      HeartbeatEntry(turns, sql, sid, i, now);
      sql := S.Heartbeat(sql, owner, tid, now).value.1;
      r := Some(turns[sid][i].cancelRequested);
      turns := turns[sid := turns[sid][i := turns[sid][i].(heartbeat := Some(now))]];
    }

    method MarkSummarized(owner: Uuid, ids: set<Uuid>)
      requires Valid()
      modifies this`turns, this`sql
      ensures Valid() && sql == S.MarkSummarized(old(sql), owner, ids)
    {
      hide S.Inv, Mirrors, TraceMirrors;
      ghost var f := S.SetFolded(owner, ids);
      ghost var before := turns;
      var keys := turns.Keys;
      while keys != {}
        invariant keys <= turns.Keys == before.Keys && sql == old(sql)
        invariant forall s | s in before :: turns[s] == if s in keys then before[s] else MapSeq(f, before[s])
      {
        var sid :| sid in keys;
        var list := StampList(turns[sid], owner, ids);
        turns := turns[sid := list];
        keys := keys - {sid};
      }
      S.MarkSummarizedSafe(sql, owner, ids);
      ListsAreUpdate(before, turns, sql, f);
      sql := S.MarkSummarized(sql, owner, ids);
    }

    /** The inner loop: one session's list. */
    method StampList(turns: seq<TurnRow>, owner: Uuid, ids: set<Uuid>) returns (list: seq<TurnRow>)
      ensures list == MapSeq(S.SetFolded(owner, ids), turns)
    {
      list := turns;
      for i := 0 to |list|
        invariant |list| == |turns|
        invariant forall j | 0 <= j < |list| ::
          list[j] == if j < i then S.SetFolded(owner, ids)(turns[j]) else turns[j]
      {
        if list[i].id in ids && list[i].owner == owner {
          list := list[i := list[i].(folded := true)];
        }
      }
    }

    // -------------------------------------------------------------- trace

    method AppendTrace(row: TraceRow)
      requires Valid()
      modifies this`trace, this`sql
      ensures Valid() && sql == S.AppendTrace(old(sql), row)
    {
      TraceAppend(trace, sql.trace, row);
      trace := trace[row.turn := (if row.turn in trace then trace[row.turn] else []) + [row]];
      sql := S.AppendTrace(sql, row);
    }

    /** In insertion order; SQL sorts by seq. */
    method ListTraceAfter(owner: Uuid, tid: Uuid, after: nat) returns (r: seq<TraceRow>)
      requires Valid()
      ensures r == Filter(S.TailOf(owner, tid, after), sql.trace)
      ensures r == S.ListTraceAfter(sql, owner, tid, after) <==> S.InSeqOrder(r)
    {
      r := Filter(OwnedAfter(owner, after), if tid in trace then trace[tid] else []);
      assert TraceListed(RowsOf(trace, tid), sql.trace, tid);
      FilterFilter(OfTurn(tid), OwnedAfter(owner, after), sql.trace);
      FilterSame(Both(OfTurn(tid), OwnedAfter(owner, after)), S.TailOf(owner, tid, after), sql.trace);
      S.OrderTraceIff(r);
    }

    // -------------------------------------------------------------- summary and checkpoints

    method AppendSessionSummary(owner: Uuid, sid: Uuid, text: string) returns (r: Option<string>)
      requires Valid()
      modifies this
      ensures Valid()
      ensures match S.GetSession(old(sql), owner, sid)
              case None => r == None && sql == old(sql)
              case Some(s) =>
                && r == Some(Summary.JoinedSummary(s.summary, text))
                && sql == S.SetSummary(old(sql), sid, r.value)
    {
      hide Summary.JoinedSummary;
      var s := GetSession(owner, sid);
      if s == None { return None; }
      assert forall x | x in turns :: Listed(turns[x], sql.turns, x);
      var summary := Summary.JoinedSummary(s.value.summary, text);
      sessions := sessions[sid := sessions[sid].(summary := summary)];
      sql := S.SetSummary(sql, sid, summary);
      return Some(summary);
    }

    /** The turns dict by dict order, list by list. */
    function Arranged(n: nat): seq<TurnRow>
      requires n <= |order| && forall s | s in order :: s in turns
      reads this
    {
      if n == 0 then [] else Arranged(n - 1) + turns[order[n - 1]]
    }

    /** The first `limit` due turns in dict order. They are the ones SQL selects, the oldest, if and
        only if each of them is older than every due turn left out. */
    method ExpiredTurnIds(olderThan: nat, limit: nat) returns (r: seq<Uuid>)
      requires Valid()
      ensures r == S.IdSeq(Take(Filter(Pruning.IsDue(olderThan), Arranged(|order|)), limit))
      ensures (set id | id in r) == S.Ids(Take(S.OrderBy(Pruning.Due(sql, olderThan)), limit))
        <==> Pruning.OldestFirst(Filter(Pruning.IsDue(olderThan), Arranged(|order|)), limit)
    {
      hide Filter, S.Inv, Mirrors, TraceMirrors, S.OrderBy, S.Ids;
      var found: seq<TurnRow> := [];
      NothingDue(olderThan);
      var i := 0;
      while i < |order|
        invariant 0 <= i <= |order| && found == Filter(Pruning.IsDue(olderThan), Arranged(i))
      {
        var list := turns[order[i]];
        FilterConcat(Pruning.IsDue(olderThan), Arranged(i), list);
        found := found + Filter(Pruning.IsDue(olderThan), list);
        i := i + 1;
      }
      r := S.IdSeq(Take(found, limit));
      DueAreArranged(olderThan);
      Pruning.PicksAgreeIff(found, Pruning.Due(sql, olderThan), limit);
      IdsOfSeq(Take(found, limit));
    }

    lemma NothingDue(olderThan: nat)
      ensures Filter(Pruning.IsDue(olderThan), []) == []
    {
    }

    /** Dict order lists every row of the table, once. */
    lemma {:induction false} ArrangedRows(n: nat)
      requires Valid() && n <= |order|
      ensures forall t :: t in Arranged(n) <==> exists m :: 0 <= m < n && t in turns[order[m]]
      ensures S.DistinctIds(Arranged(n))
    {
      hide S.Inv, TraceMirrors, Mirrors;
      if n > 0 {
        ArrangedRows(n - 1);
        var front, list := Arranged(n - 1), turns[order[n - 1]];
        FrontIsElsewhere(n, front);
        NewListIsApart(front, list, order[n - 1]);
        OneMoreList(n, front, list);
      }
    }

    lemma FrontIsElsewhere(n: nat, front: seq<TurnRow>)
      requires Valid() && 0 < n <= |order|
      requires forall t :: t in front <==> exists m :: 0 <= m < n - 1 && t in turns[order[m]]
      ensures forall t | t in front :: t.session != order[n - 1] && t in sql.turns
    {
      hide S.Inv, TraceMirrors, Mirrors;
      forall t | t in front ensures t.session != order[n - 1] && t in sql.turns {
        var m :| 0 <= m < n - 1 && t in turns[order[m]];
        ListedRow(order[m], t);
      }
    }

    lemma OneMoreList(n: nat, front: seq<TurnRow>, list: seq<TurnRow>)
      requires Valid() && 0 < n <= |order| && list == turns[order[n - 1]]
      requires forall t :: t in front <==> exists m :: 0 <= m < n - 1 && t in turns[order[m]]
      ensures forall t :: t in front + list <==> exists m :: 0 <= m < n && t in turns[order[m]]
    {
      hide S.Inv, TraceMirrors, Mirrors;
      forall t ensures t in front + list <==> exists m :: 0 <= m < n && t in turns[order[m]] {
        if t in list { assert t in turns[order[n - 1]]; }
      }
    }

    lemma ListedRow(sid: Uuid, t: TurnRow)
      requires Valid() && sid in turns && t in turns[sid]
      ensures t.session == sid && t in sql.turns
    {
      assert Listed(turns[sid], sql.turns, sid);
    }

    lemma NewListIsApart(front: seq<TurnRow>, list: seq<TurnRow>, sid: Uuid)
      requires Valid() && sid in turns && list == turns[sid] && S.DistinctIds(front)
      requires forall t | t in front :: t.session != sid && t in sql.turns
      ensures S.DistinctIds(front + list)
    {
      assert Listed(list, sql.turns, sid);
      forall i, j | 0 <= i < |front| && 0 <= j < |list| ensures front[i].id != list[j].id {
        assert front[i] in front && list[j] in list;
        ListedRow(sid, list[j]);
        var a :| 0 <= a < |sql.turns| && sql.turns[a] == front[i];
        var b :| 0 <= b < |sql.turns| && sql.turns[b] == list[j];
      }
    }

    lemma DueAreArranged(olderThan: nat)
      requires Valid()
      ensures var found := Filter(Pruning.IsDue(olderThan), Arranged(|order|));
        && S.DistinctIds(found) && S.DistinctIds(Pruning.Due(sql, olderThan))
        && forall t :: t in found <==> t in Pruning.Due(sql, olderThan)
    {
      hide Filter;
      ArrangedRows(|order|);
      Pruning.FilterDistinct(Pruning.IsDue(olderThan), Arranged(|order|));
      Pruning.FilterDistinct(Pruning.IsDue(olderThan), sql.turns);
      forall t ensures t in Arranged(|order|) <==> t in sql.turns {
        RowArranged(t);
      }
      var found := Filter(Pruning.IsDue(olderThan), Arranged(|order|));
      forall t ensures t in found <==> t in Pruning.Due(sql, olderThan) {
        FilterMembers(Pruning.IsDue(olderThan), Arranged(|order|), t);
        FilterMembers(Pruning.IsDue(olderThan), sql.turns, t);
      }
    }

    lemma RowArranged(t: TurnRow)
      requires Valid()
      requires t in Arranged(|order|) <==> exists m :: 0 <= m < |order| && t in turns[order[m]]
      ensures t in Arranged(|order|) <==> t in sql.turns
    {
      if m :| 0 <= m < |order| && t in turns[order[m]] {
        assert Listed(turns[order[m]], sql.turns, order[m]);
      }
      if t in sql.turns {
        var i :| 0 <= i < |sql.turns| && sql.turns[i] == t;
        assert t.session in turns && Listed(turns[t.session], sql.turns, t.session);
        var m :| 0 <= m < |order| && order[m] == t.session;
        assert t in turns[order[m]];
      }
    }

    /** `_pruned` is kept as the rows' own flag. */
    method MarkCheckpointsPruned(ids: set<Uuid>)
      requires Valid()
      modifies this`turns, this`sql
      ensures Valid() && sql == S.MarkCheckpointsPruned(old(sql), ids)
    {
      hide S.Inv, Mirrors, TraceMirrors;
      ghost var before := turns;
      var after: Lists := map s | s in turns :: MapSeq(S.SetPruned(ids), turns[s]);
      S.MarkCheckpointsPrunedSafe(sql, ids);
      ListsAreUpdate(before, after, sql, S.SetPruned(ids));
      turns := after;
      sql := S.MarkCheckpointsPruned(sql, ids);
    }
  }

  lemma FilterMembers<T>(p: T -> bool, s: seq<T>, x: T)
    ensures x in Filter(p, s) <==> x in s && p(x)
  {
  }

  lemma IdsOfSeq(rows: seq<TurnRow>)
    ensures (set id | id in S.IdSeq(rows)) == S.Ids(rows)
  {
    forall t | t in rows ensures t.id in S.IdSeq(rows) {
      var i :| 0 <= i < |rows| && rows[i] == t;
      assert S.IdSeq(rows)[i] == t.id;
    }
    forall id | id in S.IdSeq(rows) ensures id in S.Ids(rows) {
      var i :| 0 <= i < |rows| && S.IdSeq(rows)[i] == id;
      assert rows[i] in rows;
    }
  }

  datatype Insertion = Inserted | KeyError | Busy

  // ---------------------------------------------------------------- where the stores part

  /** Nothing unfolded lies before the window, or nothing folded lies inside it. */
  predicate WindowsAgree(rows: seq<TurnRow>, keep: nat) {
    || (forall i | 0 <= i < |rows| - keep :: rows[i].folded)
    || (forall i | 0 <= i < |rows| && |rows| - keep <= i :: !rows[i].folded)
  }

  lemma WindowsAgreeSplit(older: seq<TurnRow>, window: seq<TurnRow>)
    ensures WindowsAgree(older + window, |window|)
            <==> Filter(Unfolded(), older) == [] || |Filter(Unfolded(), window)| == |window|
  {
    FilterKeepsAll(Unfolded(), window);
    FilterNone(Unfolded(), older);
    var rows := older + window;
    assert forall i | 0 <= i < |older| :: rows[i] == older[i];
    assert forall i | 0 <= i < |window| :: rows[i + |older|] == window[i];
    assert forall i | |older| <= i < |rows| :: rows[i] == window[i - |older|];
  }

  lemma OffsetSplit(fo: seq<TurnRow>, fw: seq<TurnRow>, keep: nat)
    requires |fw| <= keep
    ensures DropLast(fo + fw, keep) == fo <==> fo == [] || |fw| == keep
  {
    assert |fo + fw| == |fo| + |fw|;
    if |fw| == keep {
      assert DropLast(fo + fw, keep) == fo;
    }
  }

  /** The SQL form counts its offset over unfolded rows, the in-memory form over all rows; they
      return the same rows exactly when `WindowsAgree`. */
  lemma OffsetAgreement(rows: seq<TurnRow>, keep: nat)
    ensures DropLast(Filter(Unfolded(), rows), keep) == Filter(Unfolded(), DropLast(rows, keep))
            <==> WindowsAgree(rows, keep)
  {
    if keep <= |rows| {
      var older, window := rows[..|rows| - keep], rows[|rows| - keep..];
      assert rows == older + window;
      FilterConcat(Unfolded(), older, window);
      WindowsAgreeSplit(older, window);
      OffsetSplit(Filter(Unfolded(), older), Filter(Unfolded(), window), keep);
    }
  }

  lemma {:induction false} FilterChronological(p: TurnRow -> bool, rows: seq<TurnRow>)
    requires S.Chronological(rows)
    ensures S.Chronological(Filter(p, rows))
  {
    if rows != [] {
      FilterChronological(p, rows[1..]);
      var rest := Filter(p, rows[1..]);
      forall j | 0 <= j < |rest| ensures rows[0].created < rest[j].created {
        assert rest[j] in rows[1..];
        var k :| 0 <= k < |rows[1..]| && rows[1..][k] == rest[j];
        assert rows[k + 1] == rest[j];
      }
    }
  }

  lemma {:induction false} FilterIncreasing(p: TraceRow -> bool, rows: seq<TraceRow>)
    requires S.Increasing(rows)
    ensures S.Increasing(Filter(p, rows))
  {
    if rows != [] {
      FilterIncreasing(p, rows[1..]);
      var rest := Filter(p, rows[1..]);
      forall j | 0 <= j < |rest| ensures rows[0].seqNo < rest[j].seqNo {
        assert rest[j] in rows[1..];
        var k :| 0 <= k < |rows[1..]| && rows[1..][k] == rest[j];
        assert rows[k + 1] == rest[j];
      }
    }
  }

  /** The stores really part: two old unfolded turns behind a window holding a folded one. */
  lemma OffsetCounterexample(old1: TurnRow, old2: TurnRow, seen: TurnRow)
    requires !old1.folded && !old2.folded && seen.folded
    ensures Filter(Unfolded(), DropLast([old1, old2, seen], 1)) == [old1, old2]
    ensures DropLast(Filter(Unfolded(), [old1, old2, seen]), 1) == [old1]
  {
    assert DropLast([old1, old2, seen], 1) == [old1, old2];
    assert [old1, old2, seen][1..] == [old2, seen] && [old2, seen][1..] == [seen];
    assert [old1, old2][1..] == [old2];
    assert Filter(Unfolded(), [old2, seen]) == [old2];
    assert Filter(Unfolded(), [old1, old2, seen]) == [old1, old2];
  }
}
