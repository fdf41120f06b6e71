/** Building a turn's context and folding what no longer fits (service.py `build_run_context`). */
module RunContext {
  import opened EvidenceModels
  import opened Sequences
  import opened TokenBudget
  import S = TurnStore
  import Summary = SessionSummary
  import Mem = InMemoryRepository
  import Protocol = TurnProtocol

  // ---------------------------------------------------------------- what a turn costs

  /** `dict.setdefault` over the references: first occurrences, in order. */
  function Dedup(ids: seq<string>): seq<string> {
    if ids == [] then []
    else
      var front := Dedup(ids[..|ids| - 1]);
      if ids[|ids| - 1] in front then front else front + [ids[|ids| - 1]]
  }

  lemma {:induction false} DedupExact(ids: seq<string>)
    ensures forall x :: x in Dedup(ids) <==> x in ids
    ensures forall i, j | 0 <= i < j < |Dedup(ids)| :: Dedup(ids)[i] != Dedup(ids)[j]
  {
    if ids != [] {
      DedupExact(ids[..|ids| - 1]);
      assert ids == ids[..|ids| - 1] + [ids[|ids| - 1]];
    }
  }

  function CitedPaperIds(result: TurnResult): seq<string> {
    if result.Success? then Dedup(result.citedPapers) else []
  }

  function IdChars(ids: seq<string>): nat {
    if ids == [] then 0 else |ids[0]| + 2 + IdChars(ids[1..])
  }

  function PriorTurnCost(t: TurnRow): nat {
    |t.topic| + IdChars(CitedPaperIds(t.result))
  }

  function Costs(turns: seq<TurnRow>): (r: seq<nat>)
    ensures |r| == |turns|
  {
    MapSeq(PriorTurnCost, turns)
  }

  /** The loop of `_within_token_budget`: newest first, always at least one, stop at the first
      turn that would overflow. It keeps the longest suffix that fits. */
  method WithinTokenBudget(turns: seq<TurnRow>) returns (kept: seq<TurnRow>, over: seq<TurnRow>)
    ensures kept == turns[KeepFrom(Costs(turns))..] && over == turns[..KeepFrom(Costs(turns))]
  {
    hide KeepFrom, PriorTurnCost;
    kept := [];
    var spent: nat := 0;
    var i := |turns|;
    ghost var costs := Costs(turns);
    while i > 0
      invariant 0 <= i <= |turns| && kept == turns[i..]
      invariant spent == Sum(costs[i..]) && FitsFrom(costs, i)
    {
      var cost := PriorTurnCost(turns[i - 1]);
      assert costs[i - 1..] == [cost] + costs[i..];
      if kept != [] && spent + cost > PRIOR_CHAR_BUDGET {
        OverflowIsTheCut(costs, i);
        return kept, turns[..|turns| - |kept|];
      }
      kept := [turns[i - 1]] + kept;
      spent := spent + cost;
      i := i - 1;
    }
    assert KeepFrom(costs) == 0;
    over := turns[..|turns| - |kept|];
  }

  lemma OverflowIsTheCut(costs: seq<nat>, i: nat)
    requires 0 < i <= |costs| && FitsFrom(costs, i) && !FitsFrom(costs, i - 1)
    ensures KeepFrom(costs) == i
  {
    if KeepFrom(costs) < i {
      ShorterFits(costs, KeepFrom(costs), i - 1);
    }
  }

  // ---------------------------------------------------------------- one build

  function NotTurn(tid: Uuid): TurnRow -> bool {
    (t: TurnRow) => t.id != tid
  }

  function Topics(turns: seq<TurnRow>): seq<string> {
    seq(|turns|, i requires 0 <= i < |turns| => turns[i].topic)
  }

  function PriorTopics(turns: seq<TurnRow>): seq<string> {
    if turns == [] then []
    else (if turns[0].topic != "" then [turns[0].topic] else []) + PriorTopics(turns[1..])
  }

  function PriorPaperIds(turns: seq<TurnRow>): seq<string> {
    if turns == [] then [] else Dedup(CitedPaperIds(turns[0].result) + PriorPaperIds(turns[1..]))
  }

  datatype Context = Context(
    priorTopics: seq<string>,
    priorPaperIds: seq<string>,
    priorTurn: Option<Uuid>,
    priorSummary: string)

  /** `build_run_context` on the rows and summary of one live session of the caller. */
  datatype Build = Build(
    shown: seq<TurnRow>,      // in full, within the budget
    folding: seq<TurnRow>,    // to be folded: over budget, and out of the window
    text: string,
    rows: seq<TurnRow>,
    summary: string,
    context: Context)

  function Stamp(rows: seq<TurnRow>, owner: Uuid, ids: set<Uuid>): seq<TurnRow> {
    MapSeq(S.SetFolded(owner, ids), rows)
  }

  function Recent(rows: seq<TurnRow>, tid: Uuid): seq<TurnRow> {
    Filter(NotTurn(tid), TakeLast(rows, PRIOR_TURN_CEILING + 1))
  }

  function Shown(rows: seq<TurnRow>, tid: Uuid): seq<TurnRow> {
    Recent(rows, tid)[KeepFrom(Costs(Recent(rows, tid)))..]
  }

  function Folding(rows: seq<TurnRow>, tid: Uuid): seq<TurnRow> {
    Filter(Mem.Unfolded(), Recent(rows, tid)[..KeepFrom(Costs(Recent(rows, tid)))])
    + DropLast(Filter(Mem.Unfolded(), rows), PRIOR_TURN_CEILING + 1)
  }

  function BuildSession(rows: seq<TurnRow>, summary: string, owner: Uuid, tid: Uuid): Build {
    var recent := Recent(rows, tid);
    var folding := Folding(rows, tid);
    var text := Summary.SummarizeEvicted(Topics(folding));
    var summary' := if text == "" then summary else Summary.JoinedSummary(summary, text);
    Build(
      Shown(rows, tid), folding, text,
      if text == "" then rows else Stamp(rows, owner, S.Ids(folding)),
      summary',
      Context(PriorTopics(Shown(rows, tid)), PriorPaperIds(recent),
              if recent == [] then None else Some(recent[|recent| - 1].id), summary'))
  }

  function Folded(summary: string, folding: seq<TurnRow>): string {
    Summary.JoinedSummary(summary, Summary.SummarizeEvicted(Topics(folding)))
  }

  /** Append to the session summary and stamp what was folded, unless there is nothing to say. */
  function FoldStore(st: S.Store, owner: Uuid, sid: Uuid, folding: seq<TurnRow>): S.Store
    requires sid in st.sessions
  {
    if Summary.SummarizeEvicted(Topics(folding)) == "" then st
    else S.MarkSummarized(S.SetSummary(st, sid, Folded(st.sessions[sid].summary, folding)), owner, S.Ids(folding))
  }

  /** The same as transactions on the store see it: the unreadable session of the KeyError branches
      yields an empty context and folds nothing. */
  function BuildStore(st: S.Store, owner: Uuid, sid: Uuid, tid: Uuid): (S.Store, Context) {
    match S.RecentTurns(st, owner, sid, PRIOR_TURN_CEILING + 1)
    case None => (st, Context([], [], None, ""))
    case Some(window) =>
      var recent := Filter(NotTurn(tid), window);
      var k := KeepFrom(Costs(recent));
      var folding := Filter(Mem.Unfolded(), recent[..k])
                   + S.UnsummarizedBefore(st, owner, sid, PRIOR_TURN_CEILING + 1).value;
      var st' := FoldStore(st, owner, sid, folding);
      (st', Context(PriorTopics(recent[k..]), PriorPaperIds(recent),
                    if recent == [] then None else Some(recent[|recent| - 1].id), st'.sessions[sid].summary))
  }

  function SessionRows(st: S.Store, owner: Uuid, sid: Uuid): seq<TurnRow> {
    Filter(S.Mine(owner, sid), st.turns)
  }

  lemma ListingsInOrder(st: S.Store, owner: Uuid, sid: Uuid)
    requires S.Chronological(SessionRows(st, owner, sid))
    ensures S.OrderBy(SessionRows(st, owner, sid)) == SessionRows(st, owner, sid)
    ensures S.OrderBy(Filter(S.MineUnfolded(owner, sid), st.turns))
         == Filter(Mem.Unfolded(), SessionRows(st, owner, sid))
  {
    S.OrderByChronological(SessionRows(st, owner, sid));
    FilterFilter(S.Mine(owner, sid), Mem.Unfolded(), st.turns);
    FilterSame(Both(S.Mine(owner, sid), Mem.Unfolded()), S.MineUnfolded(owner, sid), st.turns);
    Mem.FilterChronological(Mem.Unfolded(), SessionRows(st, owner, sid));
    S.OrderByChronological(Filter(Mem.Unfolded(), SessionRows(st, owner, sid)));
  }

  /** On a live session the store-level build is the session-level one: same context, and the same
      rows and summary afterwards. */
  lemma BuildStoreIsBuildSession(st: S.Store, owner: Uuid, sid: Uuid, tid: Uuid)
    requires S.GetSession(st, owner, sid).Some? && S.Chronological(SessionRows(st, owner, sid))
    ensures var b := BuildSession(SessionRows(st, owner, sid), st.sessions[sid].summary, owner, tid);
            var (st', context) := BuildStore(st, owner, sid, tid);
      && context == b.context
      && SessionRows(st', owner, sid) == b.rows
      && sid in st'.sessions && st'.sessions[sid].summary == b.summary
  {
    hide Filter, MapSeq, KeepFrom, FitsFrom, Costs, PriorTopics, PriorPaperIds, SessionRows, S.OrderBy;
    hide DropLast, TakeLast;
    hide Summary.JoinedSummary, Summary.SummarizeEvicted;
    ListingsInOrder(st, owner, sid);
    StampCommutes(st, owner, sid, S.Ids(Folding(SessionRows(st, owner, sid), tid)));
    SessionRowsAre(st, owner, sid);
  }

  lemma SessionRowsAre(st: S.Store, owner: Uuid, sid: Uuid)
    ensures SessionRows(st, owner, sid) == Filter(S.Mine(owner, sid), st.turns)
  {
  }

  /** Stamping the table is stamping the session's rows. */
  lemma StampCommutes(st: S.Store, owner: Uuid, sid: Uuid, ids: set<Uuid>)
    ensures forall sessions ::
      SessionRows(S.MarkSummarized(st.(sessions := sessions), owner, ids), owner, sid)
        == Stamp(SessionRows(st, owner, sid), owner, ids)
  {
    hide Filter;
    FilterMap(S.Mine(owner, sid), S.SetFolded(owner, ids), st.turns);
  }

  lemma FoldStoreSafe(st: S.Store, owner: Uuid, sid: Uuid, folding: seq<TurnRow>)
    requires S.Inv(st) && sid in st.sessions
    ensures S.Inv(FoldStore(st, owner, sid, folding)) && S.Evolves(st, FoldStore(st, owner, sid, folding))
    ensures |FoldStore(st, owner, sid, folding).turns| == |st.turns|
  {
    hide Summary.JoinedSummary, Summary.SummarizeEvicted;
    Protocol.FoldStep(st, owner, sid, S.Ids(folding), Folded(st.sessions[sid].summary, folding));
  }

  lemma BuildStoreSafe(st: S.Store, owner: Uuid, sid: Uuid, tid: Uuid)
    requires S.Inv(st)
    ensures S.Inv(BuildStore(st, owner, sid, tid).0) && S.Evolves(st, BuildStore(st, owner, sid, tid).0)
    ensures |BuildStore(st, owner, sid, tid).0.turns| == |st.turns|
  {
    hide S.Inv, FoldStore, KeepFrom, Costs, PriorTopics, PriorPaperIds;
    match S.RecentTurns(st, owner, sid, PRIOR_TURN_CEILING + 1)
    case None =>
    case Some(window) =>
      var recent := Filter(NotTurn(tid), window);
      FoldStoreSafe(st, owner, sid, Filter(Mem.Unfolded(), recent[..KeepFrom(Costs(recent))])
        + S.UnsummarizedBefore(st, owner, sid, PRIOR_TURN_CEILING + 1).value);
  }

  lemma FoldStoreOnlyFolds(st: S.Store, owner: Uuid, sid: Uuid, folding: seq<TurnRow>)
    requires sid in st.sessions
    ensures var st' := FoldStore(st, owner, sid, folding);
      && |st'.turns| == |st.turns|
      && forall i | 0 <= i < |st.turns| :: st'.turns[i] == st.turns[i] || st'.turns[i] == st.turns[i].(folded := true)
  {
    hide Summary.JoinedSummary, Summary.SummarizeEvicted;
  }

  /** All a build does to any row of the table is to stamp it as folded. */
  lemma BuildOnlyFolds(st: S.Store, owner: Uuid, sid: Uuid, tid: Uuid)
    ensures var st' := BuildStore(st, owner, sid, tid).0;
      && |st'.turns| == |st.turns|
      && forall i | 0 <= i < |st.turns| :: st'.turns[i] == st.turns[i] || st'.turns[i] == st.turns[i].(folded := true)
  {
    hide FoldStore, KeepFrom, Costs, PriorTopics, PriorPaperIds;
    match S.RecentTurns(st, owner, sid, PRIOR_TURN_CEILING + 1)
    case None =>
    case Some(window) =>
      var recent := Filter(NotTurn(tid), window);
      FoldStoreOnlyFolds(st, owner, sid, Filter(Mem.Unfolded(), recent[..KeepFrom(Costs(recent))])
        + S.UnsummarizedBefore(st, owner, sid, PRIOR_TURN_CEILING + 1).value);
  }

  // ---------------------------------------------------------------- the session under the lock

  /** Rows of one session under the session lock: only the newest can be pending. */
  ghost predicate Locked(rows: seq<TurnRow>, owner: Uuid) {
    && S.DistinctIds(rows)
    && (forall i | 0 <= i < |rows| :: rows[i].owner == owner)
    && (forall i | 0 <= i < |rows| - 1 :: rows[i].result != Pending)
  }

  /** Exactly the first `p` turns are folded. */
  ghost predicate FoldedUpTo(rows: seq<TurnRow>, p: nat) {
    p <= |rows| && forall i | 0 <= i < |rows| :: rows[i].folded <==> i < p
  }

  function Prior(rows: seq<TurnRow>): (r: seq<TurnRow>)
    ensures |r| <= |rows|
  {
    if rows != [] && rows[|rows| - 1].result == Pending then rows[..|rows| - 1] else rows
  }

  // ---------------------------------------------------------------- one build, exactly

  /** The unfolded rows of a stretch of the session. */
  lemma UnfoldedStretch(rows: seq<TurnRow>, p: nat, i: nat, j: nat)
    requires FoldedUpTo(rows, p) && i <= j <= |rows|
    ensures Filter(Mem.Unfolded(), rows[i..j]) == if p <= i then rows[i..j] else if p <= j then rows[p..j] else []
  {
    hide Filter;
    var cut := if p <= i then i else if p <= j then p else j;
    var done, open := rows[i..cut], rows[cut..j];
    forall n | 0 <= n < |done| ensures done[n].folded {
      assert done[n] == rows[i + n];
    }
    forall n | 0 <= n < |open| ensures !open[n].folded {
      assert open[n] == rows[cut + n];
    }
    assert rows[i..j] == done + open;
    StretchSplits(done, open);
  }

  lemma StretchSplits(done: seq<TurnRow>, open: seq<TurnRow>)
    requires (forall n | 0 <= n < |done| :: done[n].folded) && forall n | 0 <= n < |open| :: !open[n].folded
    ensures Filter(Mem.Unfolded(), done + open) == open
  {
    FilterNone(Mem.Unfolded(), done);
    FilterAll(Mem.Unfolded(), open);
    FilterConcat(Mem.Unfolded(), done, open);
  }

  function WindowStart(rows: seq<TurnRow>): nat {
    if |rows| <= PRIOR_TURN_CEILING then 0 else |rows| - PRIOR_TURN_CEILING
  }

  lemma WindowWithLast(rows: seq<TurnRow>)
    requires Running(rows)
    ensures TakeLast(rows, PRIOR_TURN_CEILING + 1) == Prior(rows)[WindowStart(Prior(rows))..] + [rows[|rows| - 1]]
  {
  }

  lemma OthersInWindow(rows: seq<TurnRow>, start: nat)
    requires S.DistinctIds(rows) && Running(rows) && start <= |Prior(rows)|
    ensures Filter(NotTurn(rows[|rows| - 1].id), Prior(rows)[start..]) == Prior(rows)[start..]
  {
    SuffixIsDistinct(rows, start);
    FilterAll(NotTurn(rows[|rows| - 1].id), Prior(rows)[start..]);
  }

  lemma SuffixIsDistinct(rows: seq<TurnRow>, start: nat)
    requires S.DistinctIds(rows) && Running(rows) && start <= |Prior(rows)|
    ensures forall t | t in Prior(rows)[start..] :: t.id != rows[|rows| - 1].id
  {
    forall t | t in Prior(rows)[start..] ensures t.id != rows[|rows| - 1].id {
      var i :| 0 <= i < |Prior(rows)[start..]| && Prior(rows)[start..][i] == t;
      assert rows[start + i] == t;
    }
  }

  lemma CutInWindow(prior: seq<TurnRow>)
    ensures WindowStart(prior) + KeepFrom(Costs(prior[WindowStart(prior)..])) == ShownFrom(Costs(prior))
  {
    hide PriorTurnCost, KeepFrom;
    assert Costs(prior)[WindowStart(prior)..] == Costs(prior[WindowStart(prior)..]);
  }

  /** While the newest turn is the one being run, the window is the turns before it. */
  lemma RecentIsWindow(rows: seq<TurnRow>, owner: Uuid)
    requires Locked(rows, owner) && Running(rows)
    ensures Recent(rows, rows[|rows| - 1].id) == Prior(rows)[WindowStart(Prior(rows))..]
    ensures WindowStart(Prior(rows)) + KeepFrom(Costs(Recent(rows, rows[|rows| - 1].id)))
         == ShownFrom(Costs(Prior(rows)))
  {
    hide Costs, KeepFrom, ShownFrom, Prior;
    var last, window := rows[|rows| - 1], Prior(rows)[WindowStart(Prior(rows))..];
    WindowWithLast(rows);
    FilterConcat(NotTurn(last.id), window, [last]);
    OthersInWindow(rows, WindowStart(Prior(rows)));
    assert Filter(NotTurn(last.id), [last]) == [] && window + [] == window;
    CutInWindow(Prior(rows));
  }

  /** Out-of-window unfolded turns, as the SQL offset finds them. */
  lemma OutOfWindow(rows: seq<TurnRow>, p: nat, start: nat)
    requires FoldedUpTo(rows, p) && rows != []
    requires start == if |rows| <= PRIOR_TURN_CEILING + 1 then 0 else |rows| - (PRIOR_TURN_CEILING + 1)
    ensures DropLast(Filter(Mem.Unfolded(), rows), PRIOR_TURN_CEILING + 1) == if p <= start then rows[p..start] else []
  {
    UnfoldedStretch(rows, p, 0, |rows|);
    hide Filter, FoldedUpTo;
    assert rows[0..|rows|] == rows;
    assert p <= |rows| by { FoldedIsPrefix(rows, p); }
    var unfolded := Filter(Mem.Unfolded(), rows);
    assert unfolded == rows[p..|rows|];
    assert p <= start ==> rows[p..|rows|][..start - p] == rows[p..start];
  }

  lemma FoldedIsPrefix(rows: seq<TurnRow>, p: nat)
    requires FoldedUpTo(rows, p)
    ensures p <= |rows|
  {
  }

  /** What one build shows and folds: the fitting suffix, and every unfolded turn before it. */
  lemma ShownIsSuffix(rows: seq<TurnRow>, owner: Uuid)
    requires Locked(rows, owner) && rows != [] && rows[|rows| - 1].result == Pending
    ensures Shown(rows, rows[|rows| - 1].id) == Prior(rows)[ShownFrom(Costs(Prior(rows)))..]
    ensures Folding(rows, rows[|rows| - 1].id)
         == Filter(Mem.Unfolded(), rows[WindowStart(Prior(rows))..ShownFrom(Costs(Prior(rows)))])
          + DropLast(Filter(Mem.Unfolded(), rows), PRIOR_TURN_CEILING + 1)
  {
    hide Filter, DropLast, KeepFrom, ShownFrom, FitsFrom, Costs, Prior, WindowStart, Locked, Recent, Shown, Folding;
    RecentIsWindow(rows, owner);
    WindowIsCut(rows, Prior(rows), rows[|rows| - 1].id, WindowStart(Prior(rows)), ShownFrom(Costs(Prior(rows))));
  }

  lemma WindowIsCut(rows: seq<TurnRow>, prior: seq<TurnRow>, tid: Uuid, start: nat, k: nat)
    requires prior == Prior(rows) && start <= k <= |prior| && Recent(rows, tid) == prior[start..]
    requires start + KeepFrom(Costs(Recent(rows, tid))) == k
    ensures Shown(rows, tid) == prior[k..]
    ensures Folding(rows, tid) == Filter(Mem.Unfolded(), rows[start..k])
      + DropLast(Filter(Mem.Unfolded(), rows), PRIOR_TURN_CEILING + 1)
  {
    hide Filter, DropLast, KeepFrom, FitsFrom, Costs, Recent, Shown, Folding;
    var recent := Recent(rows, tid);
    CutOfWindow(rows, start, k, recent);
    CutIsShown(rows, tid, recent, k - start);
  }

  lemma CutIsShown(rows: seq<TurnRow>, tid: Uuid, recent: seq<TurnRow>, k: nat)
    requires recent == Recent(rows, tid) && k == KeepFrom(Costs(recent))
    ensures k <= |recent| && Shown(rows, tid) == recent[k..]
    ensures Folding(rows, tid) == Filter(Mem.Unfolded(), recent[..k])
      + DropLast(Filter(Mem.Unfolded(), rows), PRIOR_TURN_CEILING + 1)
  {
    hide Filter, DropLast, KeepFrom, Costs, Recent;
  }

  /** The order in which one build lists what it folds: over-budget turns, then older ones. */
  function GapOrder(rows: seq<TurnRow>, p: nat, start: nat, k: nat): seq<TurnRow>
    requires p <= k && start <= k <= |rows|
  {
    if p <= start then rows[start..k] + rows[p..start] else rows[p..k]
  }

  lemma JoinGap(rows: seq<TurnRow>, p: nat, start: nat, k: nat, inWindow: seq<TurnRow>, before: seq<TurnRow>)
    requires p <= k && start <= k <= |rows|
    requires inWindow == if p <= start then rows[start..k] else rows[p..k]
    requires before == if p <= start then rows[p..start] else []
    ensures inWindow + before == GapOrder(rows, p, start, k)
  {
  }

  lemma FoldingIsTheGap(rows: seq<TurnRow>, owner: Uuid, p: nat)
    requires Locked(rows, owner) && rows != [] && rows[|rows| - 1].result == Pending
    requires FoldedUpTo(rows, p) && p <= ShownFrom(Costs(Prior(rows)))
    ensures WindowStart(Prior(rows)) <= ShownFrom(Costs(Prior(rows))) < |rows|
    ensures Folding(rows, rows[|rows| - 1].id)
         == GapOrder(rows, p, WindowStart(Prior(rows)), ShownFrom(Costs(Prior(rows))))
  {
    var start, k := WindowStart(Prior(rows)), ShownFrom(Costs(Prior(rows)));
    var inWindow := Filter(Mem.Unfolded(), rows[start..k]);
    var before := DropLast(Filter(Mem.Unfolded(), rows), PRIOR_TURN_CEILING + 1);
    ShownIsSuffix(rows, owner);
    assert inWindow == if p <= start then rows[start..k] else rows[p..k] by {
      UnfoldedStretch(rows, p, start, k);
    }
    assert before == if p <= start then rows[p..start] else [] by {
      OutOfWindow(rows, p, start);
    }
    JoinGap(rows, p, start, k, inWindow, before);
  }

  lemma CutOfWindow(rows: seq<TurnRow>, start: nat, k: nat, recent: seq<TurnRow>)
    requires start <= k <= |Prior(rows)| && recent == Prior(rows)[start..]
    ensures |recent| == |Prior(rows)| - start
    ensures recent[..k - start] == rows[start..k] && recent[k - start..] == Prior(rows)[k..]
  {
  }

  // ---------------------------------------------------------------- the paper ids a build hands over

  ghost predicate CitedIn(turns: seq<TurnRow>, paper: string) {
    exists i | 0 <= i < |turns| :: paper in CitedPaperIds(turns[i].result)
  }

  lemma CitedInConcat(a: seq<TurnRow>, b: seq<TurnRow>, paper: string)
    ensures CitedIn(a + b, paper) <==> CitedIn(a, paper) || CitedIn(b, paper)
  {
    hide CitedPaperIds;
    if i :| 0 <= i < |a| && paper in CitedPaperIds(a[i].result) {
      assert (a + b)[i] == a[i];
    }
    if i :| 0 <= i < |b| && paper in CitedPaperIds(b[i].result) {
      assert (a + b)[|a| + i] == b[i];
    }
  }

  /** Exactly the ids some turn cites, each once. */
  lemma {:induction false} PriorPaperIdsExact(turns: seq<TurnRow>)
    ensures forall paper :: paper in PriorPaperIds(turns) <==> CitedIn(turns, paper)
    ensures forall i, j | 0 <= i < j < |PriorPaperIds(turns)| :: PriorPaperIds(turns)[i] != PriorPaperIds(turns)[j]
  {
    hide CitedPaperIds, Dedup, CitedIn;
    if turns == [] {
      NobodyCites();
    } else {
      PriorPaperIdsExact(turns[1..]);
      DedupExact(CitedPaperIds(turns[0].result) + PriorPaperIds(turns[1..]));
      assert turns == [turns[0]] + turns[1..];
      forall paper ensures paper in PriorPaperIds(turns) <==> CitedIn(turns, paper) {
        CitedInConcat([turns[0]], turns[1..], paper);
        OneCites(turns[0], paper);
      }
    }
  }

  lemma NobodyCites()
    ensures forall paper :: !CitedIn([], paper)
  {
  }

  lemma OneCites(t: TurnRow, paper: string)
    ensures CitedIn([t], paper) <==> paper in CitedPaperIds(t.result)
  {
    if paper in CitedPaperIds(t.result) {
      assert paper in CitedPaperIds([t][0].result);
    }
  }

  /** The context holds every id the session cited before this turn if and only if every id cited
      before the 20-turn window is cited again inside it. */
  lemma PaperIdsCoverSessionIff(rows: seq<TurnRow>, summary: string, owner: Uuid)
    requires Locked(rows, owner) && Running(rows)
    ensures var prior := Prior(rows);
      var ids := BuildSession(rows, summary, owner, rows[|rows| - 1].id).context.priorPaperIds;
      && WindowStart(prior) <= |prior|
      && (forall paper :: paper in ids <==> CitedIn(prior[WindowStart(prior)..], paper))
      && ((forall paper | CitedIn(prior, paper) :: paper in ids) <==>
          (forall paper | CitedIn(prior[..WindowStart(prior)], paper) :: CitedIn(prior[WindowStart(prior)..], paper)))
  {
    hide CitedIn, PriorPaperIds, Prior, Recent, Shown, Folding, PriorTopics, KeepFrom, Costs, ShownFrom;
    hide Summary.JoinedSummary, Summary.SummarizeEvicted;
    var prior := Prior(rows);
    var before, window := prior[..WindowStart(prior)], prior[WindowStart(prior)..];
    RecentIsWindow(rows, owner);
    PriorPaperIdsExact(window);
    assert prior == before + window;
    forall paper ensures CitedIn(prior, paper) <==> CitedIn(before, paper) || CitedIn(window, paper) {
      CitedInConcat(before, window, paper);
    }
  }

  // ---------------------------------------------------------------- what a build hands over

  predicate HasTopic(t: TurnRow) { t.topic != "" }

  function TopicOf(t: TurnRow): string { t.topic }

  /** Oldest first, blanks left out. */
  lemma {:induction false} TopicsInOrder(turns: seq<TurnRow>) returns (at: seq<nat>)
    ensures Picks(PriorTopics(turns), turns, HasTopic, TopicOf, at)
  {
    if turns == [] {
      at := [];
    } else {
      var rest := TopicsInOrder(turns[1..]);
      at := PicksCons(PriorTopics(turns[1..]), turns[0], turns[1..], HasTopic, TopicOf, rest);
      assert [turns[0]] + turns[1..] == turns;
    }
  }

  /** Every id the turns reference, repeats and all. */
  function Referenced(turns: seq<TurnRow>): seq<string> {
    if turns == [] then []
    else (if turns[0].result.Success? then turns[0].result.citedPapers else []) + Referenced(turns[1..])
  }

  /** The first places at which the ids stand in the listing. */
  ghost predicate FirstPlaces(ids: seq<string>, listing: seq<string>, at: seq<nat>) {
    && |at| == |ids| && Ascending(at)
    && (forall j | 0 <= j < |at| :: at[j] < |listing| && listing[at[j]] == ids[j])
    && (forall j, i | 0 <= j < |at| && 0 <= i < at[j] :: listing[i] != ids[j])
    && forall x | x in listing :: x in ids
  }

  /** Repeats go, first occurrences keep their order. */
  lemma {:induction false} DedupKeepsOrder(ids: seq<string>) returns (at: seq<nat>)
    ensures FirstPlaces(Dedup(ids), ids, at)
  {
    at := [];
    if ids != [] {
      var n := |ids| - 1;
      var front := ids[..n];
      assert ids == front + [ids[n]];
      at := DedupKeepsOrder(front);
      DedupExact(front);
      if ids[n] !in Dedup(front) {
        at := at + [n];
        assert forall i | 0 <= i < n :: ids[i] in front;
      }
    }
  }

  lemma DedupOnce(ids: seq<string>, x: string)
    ensures Dedup(ids + [x]) == if x in ids then Dedup(ids) else Dedup(ids) + [x]
  {
    assert (ids + [x])[..|ids|] == ids;
    DedupExact(ids);
  }

  /** Deduplicating a part first makes no difference. */
  lemma {:induction false} DedupAppend(a: seq<string>, b: seq<string>)
    ensures Dedup(a + Dedup(b)) == Dedup(a + b)
  {
    hide Dedup;
    if b == [] {
      DedupNothing();
    } else {
      var n := |b| - 1;
      var front, x := b[..n], b[n];
      assert b == front + [x];
      DedupAppend(a, front);
      DedupExact(front);
      DedupOnce(front, x);
      assert a + b == (a + front) + [x];
      DedupOnce(a + front, x);
      if x !in front {
        assert a + Dedup(b) == (a + Dedup(front)) + [x];
        DedupOnce(a + Dedup(front), x);
      }
    }
  }

  lemma DedupNothing()
    ensures Dedup([]) == []
  {
  }

  lemma {:induction false} DedupPrefix(a: seq<string>, b: seq<string>)
    ensures Dedup(Dedup(a) + b) == Dedup(a + b)
  {
    hide Dedup;
    if b == [] {
      assert Dedup(a) + b == Dedup(a) && a + b == a;
      DedupExact(a);
      DedupDistinct(Dedup(a));
    } else {
      var n := |b| - 1;
      var front, x := b[..n], b[n];
      assert a + b == (a + front) + [x] && Dedup(a) + b == (Dedup(a) + front) + [x];
      DedupPrefix(a, front);
      DedupExact(a);
      DedupOnce(a + front, x);
      DedupOnce(Dedup(a) + front, x);
    }
  }

  lemma {:induction false} DedupDistinct(ids: seq<string>)
    requires forall i, j | 0 <= i < j < |ids| :: ids[i] != ids[j]
    ensures Dedup(ids) == ids
  {
    if ids != [] {
      var n := |ids| - 1;
      assert ids == ids[..n] + [ids[n]];
      DedupDistinct(ids[..n]);
    }
  }

  /** The ids of all turns together, in the order in which the session first cited them. */
  lemma {:induction false} PaperIdsInOrder(turns: seq<TurnRow>)
    ensures PriorPaperIds(turns) == Dedup(Referenced(turns))
  {
    hide Dedup;
    if turns == [] {
      DedupNothing();
    } else {
      PaperIdsInOrder(turns[1..]);
      var own := if turns[0].result.Success? then turns[0].result.citedPapers else [];
      DedupNothing();
      assert CitedPaperIds(turns[0].result) == Dedup(own);
      DedupPrefix(own, Dedup(Referenced(turns[1..])));
      DedupAppend(own, Referenced(turns[1..]));
    }
  }

  /** All a build hands to the runner: the questions of the shown turns, oldest first and blanks left
      out; the ids the window cites, in the order they were first cited; the turn just before; and the
      summary as it stands after the fold. */
  lemma HandedOver(rows: seq<TurnRow>, summary: string, owner: Uuid)
    returns (topicsAt: seq<nat>, idsAt: seq<nat>)
    requires Locked(rows, owner) && Running(rows)
    ensures var prior := rows[..|rows| - 1];
      var b := BuildSession(rows, summary, owner, rows[|rows| - 1].id);
      && ShownFrom(Costs(prior)) <= |prior|
      && Picks(b.context.priorTopics, prior[ShownFrom(Costs(prior))..], HasTopic, TopicOf, topicsAt)
      && FirstPlaces(b.context.priorPaperIds,
                     Referenced(if |prior| <= 20 then prior else prior[|prior| - 20..]), idsAt)
      && b.context.priorTurn == (if prior == [] then None else Some(prior[|prior| - 1].id))
      && b.context.priorSummary == b.summary
      && (if forall t | t in b.folding :: Summary.Blank(t.topic) then b.summary == summary && b.rows == rows
          else b.summary == Summary.JoinedSummary(summary, Summary.SummarizeEvicted(Topics(b.folding))))
  {
    hide PriorPaperIds, Dedup, Locked, Recent, Shown, Folding, PriorTopics, KeepFrom, Costs, ShownFrom;
    hide Summary.JoinedSummary, Summary.SummarizeEvicted, Summary.Blank, Referenced, Picks, FirstPlaces, Stamp;
    var prior := Prior(rows);
    RecentIsWindow(rows, owner);
    ShownIsSuffix(rows, owner);
    topicsAt := TopicsInOrder(prior[ShownFrom(Costs(prior))..]);
    PaperIdsInOrder(prior[WindowStart(prior)..]);
    idsAt := DedupKeepsOrder(Referenced(prior[WindowStart(prior)..]));
    var b := BuildSession(rows, summary, owner, rows[|rows| - 1].id);
    AllBlank(b.folding);
  }

  lemma AllBlank(turns: seq<TurnRow>)
    ensures Summary.SummarizeEvicted(Topics(turns)) == "" <==> forall t | t in turns :: Summary.Blank(t.topic)
  {
    hide Summary.SummarizeEvicted, Summary.Blank;
    Summary.NothingToFold(Topics(turns));
    forall t | t in turns && Summary.SummarizeEvicted(Topics(turns)) == "" ensures Summary.Blank(t.topic) {
      var i :| 0 <= i < |turns| && turns[i] == t;
      assert Topics(turns)[i] == t.topic;
    }
  }

  /** On the store: the summary handed over is the one now stored, and a session that cannot be read
      gives an empty context and changes nothing. */
  lemma SummaryHandedOverIsStored(st: S.Store, owner: Uuid, sid: Uuid, tid: Uuid)
    ensures var (st', context) := BuildStore(st, owner, sid, tid);
      match S.GetSession(st, owner, sid)
      case None => st' == st && context == Context([], [], None, "")
      case Some(_) => S.GetSession(st', owner, sid).Some?
                      && context.priorSummary == S.GetSession(st', owner, sid).value.summary
  {
    hide KeepFrom, Costs, PriorTopics, PriorPaperIds, Summary.JoinedSummary, Summary.SummarizeEvicted;
  }

  // ---------------------------------------------------------------- what the budget is spent on

  /** The ids as they are shown, each with a separator of two characters. */
  function IdList(ids: seq<string>): string {
    if ids == [] then "" else ids[0] + ", " + IdList(ids[1..])
  }

  /** What the runner is shown of earlier turns: the question and the papers its answer cited. */
  function Transcript(turns: seq<TurnRow>): string {
    if turns == [] then ""
    else turns[0].topic + IdList(CitedPaperIds(turns[0].result)) + Transcript(turns[1..])
  }

  lemma {:induction false} IdListCost(ids: seq<string>)
    ensures |IdList(ids)| == IdChars(ids)
  {
    if ids != [] { IdListCost(ids[1..]); }
  }

  lemma {:induction false} TranscriptCost(turns: seq<TurnRow>)
    ensures |Transcript(turns)| == Sum(Costs(turns))
  {
    hide PriorTurnCost, CitedPaperIds;
    if turns != [] {
      assert Costs(turns)[1..] == Costs(turns[1..]);
      TranscriptCost(turns[1..]);
      IdListCost(CitedPaperIds(turns[0].result));
      OneCost(turns[0]);
    }
  }

  lemma OneCost(t: TurnRow)
    ensures PriorTurnCost(t) == |t.topic| + IdChars(CitedPaperIds(t.result))
  {
  }

  /** The budget in characters: of the last 20 earlier turns a build shows the longest run up to the
      newest that takes at most 32000 characters, and the newest in any case. */
  lemma ShownIsLongestThatFits(rows: seq<TurnRow>, owner: Uuid, j: nat)
    requires Locked(rows, owner) && Running(rows)
    ensures var prior := rows[..|rows| - 1];
      var shown := Shown(rows, rows[|rows| - 1].id);
      && |shown| <= |prior| && shown == prior[|prior| - |shown|..]
      && |shown| <= 20 && (prior != [] ==> shown != [])
      && (|Transcript(shown)| <= 32000 || |shown| == 1)
      && (|prior| - 20 <= j < |prior| - |shown| ==> |Transcript(prior[j..])| > 32000)
  {
    hide Costs, Shown, Transcript, KeepFrom, Locked, Sum;
    var prior := Prior(rows);
    var costs := Costs(prior);
    ShownIsSuffix(rows, owner);
    var k := ShownFrom(costs);
    CostsOfSuffix(prior, k);
    TranscriptCost(prior[k..]);
    SumOfNothing();
    if prior != [] { ShownFromLeast(costs, |prior| - 1); }
    if |prior| - 20 <= j < k {
      if FitsFrom(costs, j) { ShownFromLeast(costs, j); }
      CostsOfSuffix(prior, j);
      TranscriptCost(prior[j..]);
    }
  }

  lemma SumOfNothing()
    ensures Sum([]) == 0
  {
  }

  lemma CostsOfSuffix(turns: seq<TurnRow>, j: nat)
    requires j <= |turns|
    ensures Costs(turns)[j..] == Costs(turns[j..])
  {
    hide PriorTurnCost;
  }

  // ---------------------------------------------------------------- whole runs of one session

  datatype Session = Session(rows: seq<TurnRow>, summary: string, folds: seq<Uuid>)

  /** Asking takes the session lock; the executor builds (again, on redelivery) while the turn is
      pending; the first result closes it. `folds` records whose questions entered the summary. */
  datatype Event =
    | Ask(id: Uuid, sid: Uuid, topic: string, created: nat)
    | BuildContext
    | Resolve(result: Terminal)

  predicate Running(rows: seq<TurnRow>) {
    rows != [] && rows[|rows| - 1].result == Pending
  }

  function Step(s: Session, owner: Uuid, e: Event): Session {
    match e
    case Ask(id, sid, topic, created) =>
      if Running(s.rows) || id in S.Ids(s.rows) then s
      else s.(rows := s.rows + [TurnRow(id, sid, owner, topic, Pending, created, false, None, false, false)])
    case BuildContext =>
      if !Running(s.rows) then s
      else
        var b := BuildSession(s.rows, s.summary, owner, s.rows[|s.rows| - 1].id);
        Session(b.rows, b.summary, if b.text == "" then s.folds else s.folds + S.IdSeq(b.folding))
    case Resolve(result) =>
      if !Running(s.rows) then s
      else s.(rows := s.rows[|s.rows| - 1 := s.rows[|s.rows| - 1].(result := result)])
  }

  function Run(s: Session, owner: Uuid, es: seq<Event>): Session
    decreases |es|
  {
    if es == [] then s else Run(Step(s, owner, es[0]), owner, es[1..])
  }

  ghost predicate NoDuplicates(ids: seq<Uuid>) {
    forall i, j | 0 <= i < j < |ids| :: ids[i] != ids[j]
  }

  /** Folded turns are a prefix that ends before the shown suffix, and each was folded once. */
  ghost predicate Sound(s: Session, owner: Uuid, p: nat) {
    && Locked(s.rows, owner)
    && FoldedUpTo(s.rows, p) && p <= ShownFrom(Costs(Prior(s.rows)))
    && NoDuplicates(s.folds)
    && (forall id :: id in s.folds <==> exists i :: 0 <= i < p && s.rows[i].id == id)
    && |s.summary| <= Summary.MAX_SESSION_SUMMARY_CHARS
  }

  /** What of this the rows alone say. */
  ghost predicate Prefixed(rows: seq<TurnRow>, owner: Uuid, p: nat) {
    Locked(rows, owner) && FoldedUpTo(rows, p) && p <= ShownFrom(Costs(Prior(rows)))
  }

  /** Rows that say so are those of a sound session. */
  lemma PrefixedIsSound(rows: seq<TurnRow>, owner: Uuid, p: nat) returns (x: Session)
    requires Prefixed(rows, owner, p)
    ensures Sound(x, owner, p) && x.rows == rows
  {
    hide Costs, ShownFrom, Prior;
    x := Session(rows, "", S.IdSeq(rows[..p]));
    forall id ensures id in x.folds <==> exists i :: 0 <= i < p && rows[i].id == id {
      if i :| 0 <= i < p && rows[i].id == id { assert x.folds[i] == id; }
    }
  }

  lemma SoundSession(s: Session, owner: Uuid, p: nat)
    requires Sound(s, owner, p)
    ensures Prefixed(s.rows, owner, p)
    ensures Locked(s.rows, owner) && S.DistinctIds(s.rows)
    ensures FoldedUpTo(s.rows, p) && p <= ShownFrom(Costs(Prior(s.rows)))
  {
  }

  lemma GapOrderIds(rows: seq<TurnRow>, p: nat, start: nat, k: nat)
    requires S.DistinctIds(rows) && p <= k && start <= k <= |rows|
    ensures NoDuplicates(S.IdSeq(GapOrder(rows, p, start, k)))
    ensures forall t :: t in GapOrder(rows, p, start, k) <==> exists i :: p <= i < k && rows[i] == t
  {
    var gap := GapOrder(rows, p, start, k);
    forall t ensures t in gap <==> exists i :: p <= i < k && rows[i] == t {
      if p <= start {
        assert rows[p..k] == rows[p..start] + rows[start..k];
      }
      assert t in gap <==> t in rows[p..k];
    }
  }

  lemma SoundAsk(s: Session, owner: Uuid, p: nat, id: Uuid, sid: Uuid, topic: string, created: nat)
    requires Sound(s, owner, p)
    ensures Sound(Step(s, owner, Ask(id, sid, topic, created)), owner, p)
  {
    hide BuildSession, PriorTurnCost, Costs, ShownFrom, KeepFrom, PriorTopics, PriorPaperIds;
    hide Summary.JoinedSummary, Summary.SummarizeEvicted;
    var s' := Step(s, owner, Ask(id, sid, topic, created));
    if s' != s {
      assert Prior(s'.rows) == s.rows == Prior(s.rows);
      forall i | 0 <= i < |s.rows| ensures s.rows[i].id != id {
        assert s.rows[i] in s.rows;
      }
    }
  }

  lemma SoundResolve(s: Session, owner: Uuid, p: nat, result: Terminal)
    requires Sound(s, owner, p)
    ensures Sound(Step(s, owner, Resolve(result)), owner, p)
  {
    hide PriorTurnCost, BuildSession, ShownFrom;
    var s' := Step(s, owner, Resolve(result));
    if Running(s.rows) {
      var last := s'.rows[|s'.rows| - 1];
      assert Prior(s'.rows) == Prior(s.rows) + [last];
      assert Costs(Prior(s'.rows)) == Costs(Prior(s.rows)) + [PriorTurnCost(last)];
      CutMovesForward(Costs(Prior(s.rows)), PriorTurnCost(last));
      assert forall i | 0 <= i < |s.rows| :: s'.rows[i].id == s.rows[i].id;
      forall id ensures id in s.folds <==> exists i :: 0 <= i < p && s'.rows[i].id == id {
        if id in s.folds {
          var i :| 0 <= i < p && s.rows[i].id == id;
          assert s'.rows[i].id == id;
        }
      }
    }
  }

  lemma StampKeepsCosts(rows: seq<TurnRow>, owner: Uuid, ids: set<Uuid>)
    ensures Costs(Stamp(rows, owner, ids)) == Costs(rows) && S.IdSeq(Stamp(rows, owner, ids)) == S.IdSeq(rows)
  {
  }

  /** Stamping the gap extends the folded prefix up to the shown suffix. */
  lemma StampGap(rows: seq<TurnRow>, owner: Uuid, p: nat, start: nat, k: nat)
    requires Locked(rows, owner) && FoldedUpTo(rows, p) && p <= k && start <= k <= |rows|
    ensures var rows' := Stamp(rows, owner, S.Ids(GapOrder(rows, p, start, k)));
      && FoldedUpTo(rows', k) && Locked(rows', owner) && Running(rows') == Running(rows)
      && Costs(rows') == Costs(rows) && S.IdSeq(rows') == S.IdSeq(rows)
  {
    hide PriorTurnCost, Summary.JoinedSummary, Summary.SummarizeEvicted;
    GapOrderIds(rows, p, start, k);
    StampKeepsCosts(rows, owner, S.Ids(GapOrder(rows, p, start, k)));
    var ids := S.Ids(GapOrder(rows, p, start, k));
    var rows' := Stamp(rows, owner, ids);
    forall i | 0 <= i < |rows| ensures rows[i].id in ids <==> p <= i < k {
      if p <= i < k { assert rows[i] in GapOrder(rows, p, start, k); }
    }
  }

  lemma SoundBuild(s: Session, owner: Uuid, p: nat) returns (p': nat)
    requires Sound(s, owner, p)
    ensures Sound(Step(s, owner, BuildContext), owner, p')
  {
    p' := p;
    if Running(s.rows) && BuildSession(s.rows, s.summary, owner, s.rows[|s.rows| - 1].id).text != "" {
      hide Recent, Shown, Folding, WindowStart, Costs, ShownFrom, KeepFrom, PriorTopics, PriorPaperIds, Prior;
      hide Filter, FitsFrom, Topics, Sound, Locked, FoldedUpTo, GapOrder, Stamp, S.Ids, S.IdSeq;
      hide Summary.JoinedSummary, Summary.SummarizeEvicted;
      p' := ShownFrom(Costs(Prior(s.rows)));
      var b := BuildSession(s.rows, s.summary, owner, s.rows[|s.rows| - 1].id);
      SoundSession(s, owner, p);
      FoldingIsTheGap(s.rows, owner, p);
      SoundMeansBounded(s, owner, p);
      Summary.JoinedIsBounded(s.summary, b.text);
      SoundFold(s, owner, p, WindowStart(Prior(s.rows)), p', b.summary);
    } else {
      hide BuildSession, Sound;
    }
  }

  lemma SoundMeansBounded(s: Session, owner: Uuid, p: nat)
    requires Sound(s, owner, p)
    ensures |s.summary| <= Summary.MAX_SESSION_SUMMARY_CHARS
  {
  }

  /** Folding the gap leaves a sound session. */
  lemma SoundFold(s: Session, owner: Uuid, p: nat, start: nat, k: nat, summary: string)
    requires Sound(s, owner, p) && Running(s.rows) && p <= k && start <= k <= |s.rows|
    requires k == ShownFrom(Costs(Prior(s.rows))) && |summary| <= Summary.MAX_SESSION_SUMMARY_CHARS
    ensures var gap := GapOrder(s.rows, p, start, k);
      Sound(Session(Stamp(s.rows, owner, S.Ids(gap)), summary, s.folds + S.IdSeq(gap)), owner, k)
  {
    hide Costs, ShownFrom, Prior, GapOrder, Stamp, S.Ids, PriorTurnCost;
    var gap := GapOrder(s.rows, p, start, k);
    var rows' := Stamp(s.rows, owner, S.Ids(gap));
    StampGap(s.rows, owner, p, start, k);
    PriorCosts(s.rows, rows');
    FoldsOnce(s, owner, p, start, k);
    SameIds(s.rows, rows');
    hide Locked, FoldedUpTo;
    var folds := s.folds + S.IdSeq(gap);
    forall id ensures id in folds <==> exists i :: 0 <= i < k && rows'[i].id == id {
      if i :| 0 <= i < k && s.rows[i].id == id { assert rows'[i].id == id; }
      if i :| 0 <= i < k && rows'[i].id == id { assert s.rows[i].id == id; }
    }
  }

  lemma PriorCosts(rows: seq<TurnRow>, rows': seq<TurnRow>)
    requires Costs(rows') == Costs(rows) && Running(rows) && Running(rows')
    ensures Costs(Prior(rows')) == Costs(Prior(rows))
  {
    assert |rows| == |rows'|;
    assert Costs(Prior(rows)) == Costs(rows)[..|rows| - 1];
    assert Costs(Prior(rows')) == Costs(rows')[..|rows| - 1];
  }

  lemma FoldsOnce(s: Session, owner: Uuid, p: nat, start: nat, k: nat)
    requires Sound(s, owner, p) && p <= k && start <= k <= |s.rows|
    ensures var folds := s.folds + S.IdSeq(GapOrder(s.rows, p, start, k));
      && NoDuplicates(folds)
      && (forall id :: id in folds <==> exists i :: 0 <= i < k && s.rows[i].id == id)
  {
    var gap := GapOrder(s.rows, p, start, k);
    GapOrderIds(s.rows, p, start, k);
    forall j | 0 <= j < |gap| ensures gap[j].id !in s.folds {
      assert gap[j] in gap;
    }
    forall id ensures id in S.IdSeq(gap) <==> exists i :: p <= i < k && s.rows[i].id == id {
      if id in S.IdSeq(gap) {
        var j :| 0 <= j < |gap| && S.IdSeq(gap)[j] == id;
        assert gap[j] in gap;
      }
      if i :| p <= i < k && s.rows[i].id == id {
        assert s.rows[i] in gap;
        var j :| 0 <= j < |gap| && gap[j] == s.rows[i];
        assert S.IdSeq(gap)[j] == id;
      }
    }
  }

  lemma SoundStep(s: Session, owner: Uuid, p: nat, e: Event) returns (p': nat)
    requires Sound(s, owner, p)
    ensures Sound(Step(s, owner, e), owner, p')
  {
    match e
    case Ask(id, sid, topic, created) => SoundAsk(s, owner, p, id, sid, topic, created); p' := p;
    case BuildContext => p' := SoundBuild(s, owner, p);
    case Resolve(result) => SoundResolve(s, owner, p, result); p' := p;
  }

  /** Over every run of a session: no turn is folded twice, exactly the recorded turns are stamped,
      the folded turns are the oldest ones, and the summary stays bounded. */
  lemma {:induction false} EveryRunIsSound(s: Session, owner: Uuid, p: nat, es: seq<Event>) returns (p': nat)
    requires Sound(s, owner, p)
    ensures Sound(Run(s, owner, es), owner, p')
    decreases |es|
  {
    p' := p;
    if es != [] {
      var mid := SoundStep(s, owner, p, es[0]);
      p' := EveryRunIsSound(Step(s, owner, es[0]), owner, mid, es[1..]);
    }
  }

  lemma BlankGap(rows: seq<TurnRow>, p: nat, start: nat, k: nat, i: nat)
    requires S.DistinctIds(rows) && p <= i < k && start <= k <= |rows|
    requires Summary.SummarizeEvicted(Topics(GapOrder(rows, p, start, k))) == ""
    ensures Summary.Blank(rows[i].topic)
  {
    hide Summary.SummarizeEvicted;
    var gap := GapOrder(rows, p, start, k);
    GapOrderIds(rows, p, start, k);
    assert rows[i] in gap;
    var j :| 0 <= j < |gap| && gap[j] == rows[i];
    Summary.NothingToFold(Topics(gap));
    assert Topics(gap)[j] == rows[i].topic;
  }

  /** After every context build, each earlier turn with a question in it is shown in full or folded. */
  lemma NothingFallsBetween(s: Session, owner: Uuid, p: nat, i: nat)
    requires Prefixed(s.rows, owner, p) && Running(s.rows) && i < |s.rows| - 1
    requires !Summary.Blank(s.rows[i].topic)
    ensures var b := BuildSession(s.rows, s.summary, owner, s.rows[|s.rows| - 1].id);
      s.rows[i] in b.shown || b.rows[i].folded
  {
    hide Prefixed, Locked, S.DistinctIds, Shown, Folding, Recent, WindowStart, Costs, ShownFrom, Prior, PriorTopics,
         PriorPaperIds, S.SetFolded, Summary.Blank, Summary.JoinedSummary, Summary.SummarizeEvicted;
    PrefixedMeans(s.rows, owner, p);
    PriorWhileRunning(s.rows);
    var start, k := WindowStart(Prior(s.rows)), ShownFrom(Costs(Prior(s.rows)));
    ShownIsSuffix(s.rows, owner);
    FoldingIsTheGap(s.rows, owner, p);
    FromCutOnIsShown(s.rows, k, i);
    if i < k {
      StampGap(s.rows, owner, p, start, k);
      if i >= p && Summary.SummarizeEvicted(Topics(Folding(s.rows, s.rows[|s.rows| - 1].id))) == "" {
        BlankGap(s.rows, p, start, k, i);
      }
    }
  }

  lemma PrefixedMeans(rows: seq<TurnRow>, owner: Uuid, p: nat)
    requires Prefixed(rows, owner, p)
    ensures Locked(rows, owner) && S.DistinctIds(rows)
    ensures FoldedUpTo(rows, p) && p <= ShownFrom(Costs(Prior(rows)))
  {
  }

  lemma PriorWhileRunning(rows: seq<TurnRow>)
    requires Running(rows)
    ensures |Prior(rows)| == |rows| - 1
  {
  }

  /** On every reachable session both stores find the same turns outside the window, although the
      SQL offset counts only unfolded rows. */
  lemma StoresAgreeOnReachableSessions(s: Session, owner: Uuid, p: nat, keep: nat)
    requires Prefixed(s.rows, owner, p)
    ensures DropLast(Filter(Mem.Unfolded(), s.rows), keep) == Filter(Mem.Unfolded(), DropLast(s.rows, keep))
  {
    assert Mem.WindowsAgree(s.rows, keep) by {
      if p < |s.rows| - keep {
        assert forall i | 0 <= i < |s.rows| && |s.rows| - keep <= i :: !s.rows[i].folded;
      }
    }
    Mem.OffsetAgreement(s.rows, keep);
  }

  // ---------------------------------------------------------------- dropped turns stay dropped

  /** Rows are never removed or renumbered, and the cut never moves back. */
  ghost predicate Onward(s: Session, s': Session) {
    && |s.rows| <= |s'.rows|
    && (forall i | 0 <= i < |s.rows| :: s'.rows[i].id == s.rows[i].id)
    && |Prior(s.rows)| <= |Prior(s'.rows)|
    && ShownFrom(Costs(Prior(s.rows))) <= ShownFrom(Costs(Prior(s'.rows)))
  }

  lemma BuildOnward(s: Session, owner: Uuid, p: nat)
    requires Sound(s, owner, p) && Running(s.rows)
    ensures Onward(s, Step(s, owner, BuildContext))
  {
    hide Sound, Locked, FoldedUpTo, Costs, ShownFrom, BuildSession, Stamp, S.IdSeq, Prior;
    var s' := Step(s, owner, BuildContext);
    BuildStamps(s, owner, p);
    PriorCosts(s.rows, s'.rows);
    SameIds(s.rows, s'.rows);
  }

  /** A build changes stamps only. */
  lemma BuildStamps(s: Session, owner: Uuid, p: nat)
    requires Sound(s, owner, p) && Running(s.rows)
    ensures var rows' := Step(s, owner, BuildContext).rows;
      Costs(rows') == Costs(s.rows) && S.IdSeq(rows') == S.IdSeq(s.rows) && Running(rows')
  {
    hide Recent, Shown, Folding, PriorTurnCost, Costs, ShownFrom, KeepFrom, PriorTopics, PriorPaperIds, Topics;
    hide Filter, FitsFrom, WindowStart, Prior, FoldedUpTo, Locked;
    hide Summary.JoinedSummary, Summary.SummarizeEvicted;
    SoundSession(s, owner, p);
    FoldingIsTheGap(s.rows, owner, p);
    StampGap(s.rows, owner, p, WindowStart(Prior(s.rows)), ShownFrom(Costs(Prior(s.rows))));
  }

  lemma SameIds(rows: seq<TurnRow>, rows': seq<TurnRow>)
    requires S.IdSeq(rows') == S.IdSeq(rows) && Running(rows) && Running(rows')
    ensures |rows| == |rows'| && |Prior(rows)| == |Prior(rows')|
    ensures forall i | 0 <= i < |rows| :: rows'[i].id == rows[i].id
  {
    assert |S.IdSeq(rows)| == |rows| && |S.IdSeq(rows')| == |rows'|;
    forall i | 0 <= i < |rows| ensures rows'[i].id == rows[i].id {
      assert S.IdSeq(rows')[i] == S.IdSeq(rows)[i];
    }
  }

  lemma ResolveOnward(s: Session, owner: Uuid, p: nat, result: Terminal)
    requires Sound(s, owner, p) && Running(s.rows)
    ensures Onward(s, Step(s, owner, Resolve(result)))
  {
    hide PriorTurnCost, BuildSession, ShownFrom, Costs, Sound, KeepFrom, FitsFrom;
    var s' := Step(s, owner, Resolve(result));
    AnswerJoinsPrior(s.rows, s'.rows, s'.rows[|s'.rows| - 1]);
  }

  lemma AnswerJoinsPrior(rows: seq<TurnRow>, rows': seq<TurnRow>, last: TurnRow)
    requires Running(rows) && last.result != Pending && rows' == rows[..|rows| - 1] + [last]
    ensures Prior(rows') == Prior(rows) + [last]
    ensures ShownFrom(Costs(Prior(rows))) <= ShownFrom(Costs(Prior(rows')))
  {
    hide PriorTurnCost, ShownFrom, KeepFrom, FitsFrom;
    assert Costs(Prior(rows) + [last]) == Costs(Prior(rows)) + [PriorTurnCost(last)];
    CutMovesForward(Costs(Prior(rows)), PriorTurnCost(last));
  }

  lemma StepOnward(s: Session, owner: Uuid, p: nat, e: Event)
    requires Sound(s, owner, p)
    ensures Onward(s, Step(s, owner, e))
  {
    hide Costs, ShownFrom, BuildSession;
    var s' := Step(s, owner, e);
    match e
    case Ask(id, sid, topic, created) =>
      if s' != s { assert Prior(s'.rows) == s.rows == Prior(s.rows); }
    case BuildContext =>
      if Running(s.rows) { BuildOnward(s, owner, p); }
    case Resolve(result) =>
      if Running(s.rows) { ResolveOnward(s, owner, p, result); }
  }

  lemma {:induction false} RunOnward(s: Session, owner: Uuid, p: nat, es: seq<Event>)
    requires Sound(s, owner, p)
    ensures Onward(s, Run(s, owner, es))
    decreases |es|
  {
    if es != [] {
      StepOnward(s, owner, p, es[0]);
      var mid := SoundStep(s, owner, p, es[0]);
      RunOnward(Step(s, owner, es[0]), owner, mid, es[1..]);
    }
  }

  /** No row of a suffix has the id of a row before it. */
  lemma SuffixAvoids(rows: seq<TurnRow>, i: nat, k: nat)
    requires S.DistinctIds(rows) && i < k <= |Prior(rows)|
    ensures forall t | t in Prior(rows)[k..] :: t.id != rows[i].id
  {
    forall t | t in Prior(rows)[k..] ensures t.id != rows[i].id {
      var j :| 0 <= j < |Prior(rows)[k..]| && Prior(rows)[k..][j] == t;
      assert rows[k + j] == t;
    }
  }

  lemma FromCutOnIsShown(rows: seq<TurnRow>, k: nat, i: nat)
    requires k <= |Prior(rows)| && i < |Prior(rows)|
    ensures i >= k ==> rows[i] in Prior(rows)[k..]
  {
    if i >= k {
      assert Prior(rows)[k..][i - k] == rows[i];
    }
  }

  lemma LaterShownAvoids(rows: seq<TurnRow>, later: seq<TurnRow>, owner: Uuid, i: nat)
    requires Locked(rows, owner) && Running(rows) && Locked(later, owner) && Running(later)
    requires i < |Prior(rows)| <= |Prior(later)| && later[i].id == rows[i].id
    requires ShownFrom(Costs(Prior(rows))) <= ShownFrom(Costs(Prior(later)))
    requires rows[i] !in Shown(rows, rows[|rows| - 1].id)
    ensures forall t | t in Shown(later, later[|later| - 1].id) :: t.id != rows[i].id
  {
    hide Shown, Costs, ShownFrom, Prior;
    ShownIsSuffix(rows, owner);
    ShownIsSuffix(later, owner);
    FromCutOnIsShown(rows, ShownFrom(Costs(Prior(rows))), i);
    SuffixAvoids(later, i, ShownFrom(Costs(Prior(later))));
  }

  /** A turn an earlier build left out of the shown suffix is in no later build's shown suffix. */
  lemma DroppedNeverReturns(s: Session, owner: Uuid, p: nat, es: seq<Event>, i: nat)
    requires Sound(s, owner, p) && Running(s.rows) && Running(Run(s, owner, es).rows)
    requires i < |Prior(s.rows)| && s.rows[i] !in Shown(s.rows, s.rows[|s.rows| - 1].id)
    ensures var later := Run(s, owner, es);
      forall t | t in Shown(later.rows, later.rows[|later.rows| - 1].id) :: t.id != s.rows[i].id
  {
    hide Sound, Locked, Run, Shown, Costs, ShownFrom, Prior, FoldedUpTo;
    var later := Run(s, owner, es);
    var p' := EveryRunIsSound(s, owner, p, es);
    SoundSession(s, owner, p);
    SoundSession(later, owner, p');
    RunOnward(s, owner, p, es);
    LaterShownAvoids(s.rows, later.rows, owner, i);
  }
}
