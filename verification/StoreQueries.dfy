/** What the listings of the store return, turn by turn: which turns, and in which order, in terms of the
    table alone (repository.py `list_turns`, `recent_turns`, `unsummarized_before`, `expired_turn_ids`,
    `list_trace_after`). */
module StoreQueries {
  import opened EvidenceModels
  import opened Sequences
  import S = TurnStore
  import P = CheckpointPruning

  // ---------------------------------------------------------------- places in a sorted listing

  function Older(rows: seq<TurnRow>, t: TurnRow): set<TurnRow> {
    set u | u in rows && S.Before(u, t)
  }

  function Newer(rows: seq<TurnRow>, t: TurnRow): set<TurnRow> {
    set u | u in rows && S.Before(t, u)
  }

  function Members(rows: seq<TurnRow>): set<TurnRow> {
    set t | t in rows
  }

  lemma {:induction false} MembersCount(rows: seq<TurnRow>)
    requires S.DistinctIds(rows)
    ensures |Members(rows)| == |rows|
  {
    if rows != [] {
      MembersCount(rows[1..]);
      assert rows == [rows[0]] + rows[1..];
      assert Members(rows) == {rows[0]} + Members(rows[1..]);
      assert rows[0] !in rows[1..] by {
        forall t | t in rows[1..] ensures t.id != rows[0].id {
          var i :| 0 <= i < |rows[1..]| && rows[1..][i] == t;
          assert rows[i + 1] == t;
        }
      }
    }
  }

  /** The place of a turn says how many are older and how many newer. */
  lemma PlaceCounts(rows: seq<TurnRow>, k: nat)
    requires S.DistinctIds(rows) && P.Sorted(rows) && k < |rows|
    ensures |Older(rows, rows[k])| == k && |Newer(rows, rows[k])| == |rows| - 1 - k
  {
    OlderAreFirst(rows, k);
    NewerAreLast(rows, k);
    MembersCount(rows[..k]);
    MembersCount(rows[k + 1..]);
  }

  lemma OlderAreFirst(rows: seq<TurnRow>, k: nat)
    requires P.Sorted(rows) && k < |rows|
    ensures Older(rows, rows[k]) == Members(rows[..k])
  {
    forall u | u in rows ensures S.Before(u, rows[k]) <==> u in rows[..k] {
      var j :| 0 <= j < |rows| && rows[j] == u;
      if j < k { assert rows[..k][j] == u; }
      if u in rows[..k] { var i :| 0 <= i < k && rows[..k][i] == u; }
    }
  }

  lemma NewerAreLast(rows: seq<TurnRow>, k: nat)
    requires P.Sorted(rows) && k < |rows|
    ensures Newer(rows, rows[k]) == Members(rows[k + 1..])
  {
    forall u | u in rows ensures S.Before(rows[k], u) <==> u in rows[k + 1..] {
      var j :| 0 <= j < |rows| && rows[j] == u;
      if j > k { assert rows[k + 1..][j - k - 1] == u; }
      if u in rows[k + 1..] { var i :| 0 <= i < |rows[k + 1..]| && rows[k + 1..][i] == u; }
    }
  }

  lemma FirstOnes(rows: seq<TurnRow>, n: nat, t: TurnRow)
    requires S.DistinctIds(rows) && P.Sorted(rows)
    ensures t in Take(rows, n) <==> t in rows && |Older(rows, t)| < n
  {
    hide P.Sorted;
    if t in rows {
      var k :| 0 <= k < |rows| && rows[k] == t;
      PlaceCounts(rows, k);
      if k < n { assert Take(rows, n)[k] == t; }
      if t in Take(rows, n) { var i :| 0 <= i < |Take(rows, n)| && Take(rows, n)[i] == t; assert rows[i].id == rows[k].id; }
    }
  }

  lemma LastOnes(rows: seq<TurnRow>, n: nat, t: TurnRow)
    requires S.DistinctIds(rows) && P.Sorted(rows)
    ensures t in TakeLast(rows, n) <==> t in rows && |Newer(rows, t)| < n
    ensures t in DropLast(rows, n) <==> t in rows && |Newer(rows, t)| >= n
  {
    hide P.Sorted;
    if t in rows {
      var k :| 0 <= k < |rows| && rows[k] == t;
      PlaceCounts(rows, k);
      LastPlaces(rows, n, k);
    } else {
      PartsAreOf(rows, n);
    }
  }

  lemma PartsAreOf(rows: seq<TurnRow>, n: nat)
    ensures forall t | t in TakeLast(rows, n) :: t in rows
    ensures forall t | t in DropLast(rows, n) :: t in rows
  {
  }

  lemma LastPlaces(rows: seq<TurnRow>, n: nat, k: nat)
    requires S.DistinctIds(rows) && k < |rows|
    ensures rows[k] in TakeLast(rows, n) <==> |rows| - 1 - k < n
    ensures rows[k] in DropLast(rows, n) <==> |rows| - 1 - k >= n
  {
    if n <= |rows| {
      var m := |rows| - n;
      if k >= m { assert rows[m..][k - m] == rows[k]; } else { assert rows[..m][k] == rows[k]; }
      if rows[k] in rows[m..] { var i :| 0 <= i < n && rows[m..][i] == rows[k]; assert rows[m + i].id == rows[k].id; }
      if rows[k] in rows[..m] { var i :| 0 <= i < m && rows[..m][i] == rows[k]; assert rows[i].id == rows[k].id; }
    }
  }

  /** Ordering some rows of the table. */
  lemma Ordered(p: TurnRow -> bool, rows: seq<TurnRow>)
    requires S.DistinctIds(rows)
    ensures var listed := S.OrderBy(Filter(p, rows));
      && S.DistinctIds(listed) && P.Sorted(listed)
      && forall t :: t in listed <==> t in rows && p(t)
  {
    hide Filter, S.OrderBy, P.Sorted;
    P.FilterDistinct(p, rows);
    P.OrderDistinct(Filter(p, rows));
    P.OrderSorted(Filter(p, rows));
    P.OrderMembers(Filter(p, rows));
    assert forall t :: t in Filter(p, rows) <==> t in rows && p(t);
  }

  lemma SortedPart(rows: seq<TurnRow>, n: nat)
    requires P.Sorted(rows)
    ensures P.Sorted(Take(rows, n)) && P.Sorted(TakeLast(rows, n)) && P.Sorted(DropLast(rows, n))
  {
  }

  // ---------------------------------------------------------------- the listings

  /** A session can be read by its owner until it is deleted. */
  predicate Readable(st: S.Store, owner: Uuid, sid: Uuid) {
    sid in st.sessions && st.sessions[sid].owner == owner && !st.sessions[sid].deleted
  }

  /** The owner's turns of the session. */
  function Mine(st: S.Store, owner: Uuid, sid: Uuid): set<TurnRow> {
    set t | t in st.turns && t.owner == owner && t.session == sid
  }

  /** All of them, oldest first. */
  lemma ListTurnsIff(st: S.Store, owner: Uuid, sid: Uuid)
    requires S.DistinctIds(st.turns)
    ensures match S.ListTurns(st, owner, sid)
      case None => !Readable(st, owner, sid)
      case Some(listed) => Readable(st, owner, sid) && P.Sorted(listed) && S.DistinctIds(listed)
                           && Members(listed) == Mine(st, owner, sid)
  {
    Ordered(S.Mine(owner, sid), st.turns);
  }

  /** The newest `limit`, oldest first. */
  lemma RecentTurnsIff(st: S.Store, owner: Uuid, sid: Uuid, limit: nat)
    requires S.DistinctIds(st.turns)
    ensures match S.RecentTurns(st, owner, sid, limit)
      case None => !Readable(st, owner, sid)
      case Some(listed) =>
        && Readable(st, owner, sid) && P.Sorted(listed)
        && forall t :: t in listed <==>
             t in Mine(st, owner, sid) && |set u | u in Mine(st, owner, sid) && S.Before(t, u)| < limit
  {
    Ordered(S.Mine(owner, sid), st.turns);
    hide P.Sorted, S.DistinctIds, TakeLast, S.OrderBy, Filter;
    var all := S.OrderBy(Filter(S.Mine(owner, sid), st.turns));
    SortedPart(all, limit);
    forall t ensures t in TakeLast(all, limit) <==>
      t in Mine(st, owner, sid) && |set u | u in Mine(st, owner, sid) && S.Before(t, u)| < limit
    {
      LastOnes(all, limit, t);
      assert Newer(all, t) == set u | u in Mine(st, owner, sid) && S.Before(t, u);
    }
  }

  /** Those not folded yet that are older than `keep` others not folded yet, oldest first. */
  lemma UnsummarizedBeforeIff(st: S.Store, owner: Uuid, sid: Uuid, keep: nat)
    requires S.DistinctIds(st.turns)
    ensures match S.UnsummarizedBefore(st, owner, sid, keep)
      case None => !Readable(st, owner, sid)
      case Some(listed) =>
        && Readable(st, owner, sid) && P.Sorted(listed)
        && forall t :: t in listed <==>
             t in Mine(st, owner, sid) && !t.folded
             && |set u | u in Mine(st, owner, sid) && !u.folded && S.Before(t, u)| >= keep
  {
    Ordered(S.MineUnfolded(owner, sid), st.turns);
    hide P.Sorted, S.DistinctIds, DropLast, S.OrderBy, Filter;
    var all := S.OrderBy(Filter(S.MineUnfolded(owner, sid), st.turns));
    SortedPart(all, keep);
    forall t ensures t in DropLast(all, keep) <==>
      t in Mine(st, owner, sid) && !t.folded
      && |set u | u in Mine(st, owner, sid) && !u.folded && S.Before(t, u)| >= keep
    {
      LastOnes(all, keep, t);
      assert Newer(all, t) == set u | u in Mine(st, owner, sid) && !u.folded && S.Before(t, u);
    }
  }

  /** Turns whose checkpoints are due: ended, asked before the cutoff and not stamped. */
  function Due(st: S.Store, cutoff: nat): set<TurnRow> {
    set t | t in st.turns && t.result != Pending && t.created < cutoff && !t.pruned
  }

  /** A pass picks the 200 oldest of them, oldest first. */
  lemma ExpiredIff(st: S.Store, cutoff: nat)
    requires S.DistinctIds(st.turns)
    ensures P.Sorted(P.Expired(st, cutoff))
    ensures forall t :: t in P.Expired(st, cutoff) <==>
      t in Due(st, cutoff) && |set u | u in Due(st, cutoff) && S.Before(u, t)| < 200
  {
    Ordered(P.IsDue(cutoff), st.turns);
    hide P.Sorted, S.DistinctIds, Take, S.OrderBy, Filter;
    var all := S.OrderBy(Filter(P.IsDue(cutoff), st.turns));
    SortedPart(all, 200);
    forall t ensures t in Take(all, 200) <==>
      t in Due(st, cutoff) && |set u | u in Due(st, cutoff) && S.Before(u, t)| < 200
    {
      FirstOnes(all, 200, t);
      assert Older(all, t) == set u | u in Due(st, cutoff) && S.Before(u, t);
    }
  }

  /** The owner's pending turn of the session, if there is one: there is never a second. */
  lemma ActiveTurnIff(st: S.Store, owner: Uuid, sid: Uuid, t: TurnRow)
    requires S.Inv(st)
    ensures S.ActiveTurn(st, owner, sid) == Some(t) <==> t in Mine(st, owner, sid) && t.result == Pending
  {
    hide Filter;
    var found := Filter(S.MineActive(owner, sid), st.turns);
    hide S.Inv;
    assert found != [] ==> found[0] in found;
    if t in Mine(st, owner, sid) && t.result == Pending {
      assert S.MineActive(owner, sid)(t) && t in found;
      OnlyOne(st, found[0], t);
    }
  }

  lemma OnlyOne(st: S.Store, t: TurnRow, u: TurnRow)
    requires S.Inv(st) && t in st.turns && u in st.turns && t.session == u.session && t.result == u.result == Pending
    ensures t == u
  {
    var i :| 0 <= i < |st.turns| && st.turns[i] == t;
    var j :| 0 <= j < |st.turns| && st.turns[j] == u;
  }

  // ---------------------------------------------------------------- traces

  lemma {:induction false} InsertKeepsAll(r: TraceRow, rows: seq<TraceRow>)
    ensures multiset(S.InsertTrace(r, rows)) == multiset(rows) + multiset{r}
  {
    if rows != [] && r.seqNo > rows[0].seqNo {
      InsertKeepsAll(r, rows[1..]);
      assert rows == [rows[0]] + rows[1..];
    }
  }

  lemma {:induction false} OrderKeepsAll(rows: seq<TraceRow>)
    ensures multiset(S.OrderTrace(rows)) == multiset(rows)
  {
    if rows != [] {
      OrderKeepsAll(rows[1..]);
      InsertKeepsAll(rows[0], S.OrderTrace(rows[1..]));
      assert rows == [rows[0]] + rows[1..];
    }
  }

  lemma {:induction false} FilterCounts(p: TraceRow -> bool, rows: seq<TraceRow>, r: TraceRow)
    ensures multiset(Filter(p, rows))[r] == if p(r) then multiset(rows)[r] else 0
  {
    if rows != [] {
      FilterCounts(p, rows[1..], r);
      assert rows == [rows[0]] + rows[1..];
    }
  }

  /** The owner's trace rows of the turn past the cursor, each as often as it was appended, by seq. */
  lemma ListTraceAfterIff(st: S.Store, owner: Uuid, tid: Uuid, cursor: nat, r: TraceRow)
    ensures S.InSeqOrder(S.ListTraceAfter(st, owner, tid, cursor))
    ensures multiset(S.ListTraceAfter(st, owner, tid, cursor))[r] ==
      if r.owner == owner && r.turn == tid && r.seqNo > cursor then multiset(st.trace)[r] else 0
  {
    var rows := Filter(S.TailOf(owner, tid, cursor), st.trace);
    S.OrderTraceIff(rows);
    OrderKeepsAll(rows);
    FilterCounts(S.TailOf(owner, tid, cursor), st.trace, r);
  }
}
