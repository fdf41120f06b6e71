/** Sessions the executors really produce: which row sequences a run reaches, and runs in which the
    context build falls short of what is said about it (service.py `build_run_context`). */
module SessionWitnesses {
  import opened EvidenceModels
  import opened Sequences
  import opened TokenBudget
  import opened RunContext
  import S = TurnStore
  import Summary = SessionSummary

  const NEW_SESSION := Session([], "", [])

  lemma NewSessionIsSound(owner: Uuid)
    ensures Sound(NEW_SESSION, owner, 0)
  {
  }

  // ---------------------------------------------------------------- turns nobody built a context for

  /** A row as asking leaves it, but for its result. */
  predicate Plain(t: TurnRow, sid: Uuid, owner: Uuid) {
    t == TurnRow(t.id, sid, owner, t.topic, t.result, t.created, false, None, false, false)
  }

  /** Asking one turn after the other, none of which an executor prepares: its message could not be
      sent, or nobody picked it up and a reader closed it, which leaves an error. */
  function History(rows: seq<TurnRow>): seq<Event>
    requires forall t | t in rows :: t.result == Pending || t.result.Error?
  {
    if rows == [] then []
    else
      var t := rows[|rows| - 1];
      History(rows[..|rows| - 1]) + [Ask(t.id, t.session, t.topic, t.created)]
      + if t.result == Pending then [] else [Resolve(t.result)]
  }

  lemma {:induction false} RunConcat(s: Session, owner: Uuid, a: seq<Event>, b: seq<Event>)
    ensures Run(s, owner, a + b) == Run(Run(s, owner, a), owner, b)
    decreases |a|
  {
    if a == [] {
      assert a + b == b;
    } else {
      assert (a + b)[1..] == a[1..] + b;
      RunConcat(Step(s, owner, a[0]), owner, a[1..], b);
    }
  }

  /** Rows of one owner, all failed but the last, which may be pending, can be added to any session that
      is not running. */
  lemma {:induction false} HistoryIsReachable(s: Session, owner: Uuid, sid: Uuid, rows: seq<TurnRow>)
    requires !Running(s.rows) && S.DistinctIds(s.rows + rows)
    requires forall t | t in rows :: Plain(t, sid, owner) && (t.result == Pending || t.result.Error?)
    requires forall i | 0 <= i < |rows| - 1 :: rows[i].result != Pending
    ensures Run(s, owner, History(rows)) == s.(rows := s.rows + rows)
  {
    hide BuildSession;
    if rows == [] {
      assert s.rows + rows == s.rows;
    } else {
      var n := |rows| - 1;
      var front, t := rows[..n], rows[n];
      assert s.rows + rows == (s.rows + front) + [t];
      assert S.DistinctIds(s.rows + front) by {
        assert forall i | 0 <= i < |s.rows + front| :: (s.rows + front)[i] == (s.rows + rows)[i];
      }
      HistoryIsReachable(s, owner, sid, front);
      var mid := s.(rows := s.rows + front);
      var last := if t.result == Pending then [] else [Resolve(t.result)];
      RunConcat(s, owner, History(front) + [Ask(t.id, t.session, t.topic, t.created)], last);
      RunConcat(s, owner, History(front), [Ask(t.id, t.session, t.topic, t.created)]);
      assert forall x | x in mid.rows :: x.id != t.id by {
        forall x | x in mid.rows ensures x.id != t.id {
          var i :| 0 <= i < |mid.rows| && mid.rows[i] == x;
          assert (s.rows + rows)[i] == x && (s.rows + rows)[|mid.rows|] == t;
        }
      }
      AskThenResolve(mid, owner, t, sid);
    }
  }

  lemma AskThenResolve(s: Session, owner: Uuid, t: TurnRow, sid: Uuid)
    requires !Running(s.rows) && Plain(t, sid, owner) && forall x | x in s.rows :: x.id != t.id
    ensures var asked := Run(s, owner, [Ask(t.id, t.session, t.topic, t.created)]);
      Run(asked, owner, if t.result == Pending then [] else [Resolve(t.result)]) == s.(rows := s.rows + [t])
  {
    hide BuildSession;
    var e := Ask(t.id, t.session, t.topic, t.created);
    var asked := Step(s, owner, e);
    assert [e][1..] == [] && Run(s, owner, [e]) == asked;
    if t.result != Pending {
      var r := Resolve(t.result);
      assert [r][1..] == [] && Run(asked, owner, [r]) == Step(asked, owner, r);
      assert asked.rows[|asked.rows| - 1 := t] == s.rows + [t];
    }
  }

  // ---------------------------------------------------------------- a paper the session forgets

  function Failed(sid: Uuid, owner: Uuid, topic: string, id: Uuid): TurnRow {
    TurnRow(id, sid, owner, topic, Error("internal_error"), id, false, None, false, false)
  }

  /** A turn that cites a paper, twenty that failed, and the one being run. */
  function ForgetfulRows(sid: Uuid, owner: Uuid, paper: string): (r: seq<TurnRow>)
    ensures |r| == 22 && forall i | 1 <= i < 22 :: r[i].result == Pending || r[i].result.Error?
  {
    [Failed(sid, owner, "q", 0).(result := Success([paper]))]
    + seq(20, i requires 0 <= i < 20 => Failed(sid, owner, "q", i + 1))
    + [Failed(sid, owner, "q", 21).(result := Pending)]
  }

  function ForgetfulRun(sid: Uuid, owner: Uuid, paper: string): seq<Event> {
    [Ask(0, sid, "q", 0), BuildContext, Resolve(Success([paper]))] + History(ForgetfulRows(sid, owner, paper)[1..])
  }

  /** A reachable session whose next build no longer offers a paper its first turn cited. */
  lemma PaperIsForgotten(sid: Uuid, owner: Uuid, paper: string)
    ensures var rows := ForgetfulRows(sid, owner, paper);
      && Run(NEW_SESSION, owner, ForgetfulRun(sid, owner, paper)) == Session(rows, "", [])
      && Locked(rows, owner) && Running(rows) && CitedIn(Prior(rows), paper)
      && paper !in BuildSession(rows, "", owner, rows[|rows| - 1].id).context.priorPaperIds
  {
    hide BuildSession, Dedup, CitedIn, Run, History;
    var rows := ForgetfulRows(sid, owner, paper);
    var answered := [Ask(0, sid, "q", 0), BuildContext, Resolve(Success([paper]))];
    ForgetfulShape(sid, owner, paper);
    assert rows == [rows[0]] + rows[1..];
    FirstIsAnswered(sid, owner, "q", Success([paper]));
    RunConcat(NEW_SESSION, owner, answered, History(rows[1..]));
    HistoryIsReachable(Session([rows[0]], "", []), owner, sid, rows[1..]);
    OnlyFirstCites(rows, paper);
    PaperIdsCoverSessionIff(rows, "", owner);
  }

  /** The first turn of a session has nothing to fold. */
  lemma FirstIsAnswered(sid: Uuid, owner: Uuid, topic: string, result: Terminal)
    ensures Run(NEW_SESSION, owner, [Ask(0, sid, topic, 0), BuildContext, Resolve(result)])
         == Session([TurnRow(0, sid, owner, topic, result, 0, false, None, false, false)], "", [])
  {
    var es := [Ask(0, sid, topic, 0), BuildContext, Resolve(result)];
    var row := TurnRow(0, sid, owner, topic, Pending, 0, false, None, false, false);
    var asked := Session([row], "", []);
    assert es[1..] == [BuildContext, Resolve(result)];
    assert Step(NEW_SESSION, owner, es[0]) == asked by {
      hide BuildSession;
      assert NEW_SESSION.rows + [row] == [row];
    }
    assert Step(asked, owner, BuildContext) == asked by { NothingBefore(row, owner); }
    hide BuildSession;
    TwoSteps(asked, owner, result);
    assert Step(asked, owner, Resolve(result)).rows == [row.(result := result)];
    hide Step;
    assert Run(NEW_SESSION, owner, es) == Run(asked, owner, es[1..]);
  }

  lemma NothingBefore(row: TurnRow, owner: Uuid)
    requires row.result == Pending && row.owner == owner && !row.folded
    ensures Step(Session([row], "", []), owner, BuildContext) == Session([row], "", [])
  {
    var rows := [row];
    FoldingIsTheGap(rows, owner, 0);
    assert Prior(rows) == [];
    assert Folding(rows, row.id) == [];
    Summary.NothingToFold([]);
    assert Topics([]) == [];
  }

  lemma ForgetfulShape(sid: Uuid, owner: Uuid, paper: string)
    ensures var rows := ForgetfulRows(sid, owner, paper);
      && rows[0] == TurnRow(0, sid, owner, "q", Success([paper]), 0, false, None, false, false)
      && rows[21].result == Pending && (forall i | 1 <= i < 21 :: rows[i].result == Error("internal_error"))
      && (forall t | t in rows[1..] :: Plain(t, sid, owner) && (t.result == Pending || t.result.Error?))
      && Locked(rows, owner) && Running(rows)
  {
    var rows := ForgetfulRows(sid, owner, paper);
    assert forall i | 0 <= i < 22 :: rows[i].id == i;
    assert forall i | 1 <= i < 22 :: Plain(rows[i], sid, owner);
  }

  lemma OnlyFirstCites(rows: seq<TurnRow>, paper: string)
    requires |rows| == 22 && rows[0].result == Success([paper]) && rows[21].result == Pending
    requires forall i | 1 <= i < 21 :: rows[i].result == Error("internal_error")
    ensures WindowStart(Prior(rows)) == 1
    ensures CitedIn(Prior(rows), paper) && !CitedIn(Prior(rows)[1..], paper)
  {
    DedupExact([paper]);
    hide Dedup;
    var prior := Prior(rows);
    assert prior == rows[..21] && paper in CitedPaperIds(prior[0].result);
    forall i | 0 <= i < |prior[1..]| ensures CitedPaperIds(prior[1..][i].result) == [] {
      assert prior[1..][i] == rows[i + 1];
    }
  }

  // ---------------------------------------------------------------- a slash the summary eats

  /** A question of 111 characters that begins with a slash. */
  function SlashTopic(): (r: string)
    ensures |r| == 111 && r[0] == '/' && forall i | 1 <= i < 111 :: r[i] == 'x'
  {
    ['/'] + seq(110, i => 'x')
  }

  function FirstTopic(): string { "a" }

  lemma FirstTopicIsShort()
    ensures |FirstTopic()| == 1 && !Summary.IsSpace(FirstTopic()[0])
  {
  }

  function FirstSummary(): string { Summary.JoinedSummary("", FirstTopic()) }

  /** The i-th turn of the session: only the first asks something else. */
  function Asked(sid: Uuid, owner: Uuid, i: nat, pending: bool): TurnRow {
    TurnRow(i, sid, owner, if i == 0 then FirstTopic() else SlashTopic(),
            if pending then Pending else Error("internal_error"), i, false, None, false, false)
  }

  lemma AskedIsCheap(sid: Uuid, owner: Uuid, i: nat, pending: bool)
    ensures var t := Asked(sid, owner, i, pending);
      Cheap(t) && Plain(t, sid, owner) && t.id == i && t.owner == owner && (t.result == Pending <==> pending)
    ensures Asked(sid, owner, i, pending).topic == if i == 0 then FirstTopic() else SlashTopic()
  {
  }

  function Slashes(n: nat): (r: seq<string>)
    ensures |r| == n
  {
    seq(n, i requires 0 <= i < n => SlashTopic())
  }

  lemma SlashTopicIsShort()
    ensures Summary.Strip(SlashTopic()) == SlashTopic() == Summary.Short(SlashTopic())
  {
    Summary.StripIdempotent(SlashTopic());
  }

  lemma {:induction false} SlashesFold(n: nat)
    requires n > 0
    ensures var text := Summary.SummarizeEvicted(Slashes(n));
      |text| == 114 * n - 3 && text[0] == '/' && text[|text| - 1] == 'x' && forall c | c in text :: c != ':'
    ensures |Summary.ShortTopics(Slashes(n))| == n
  {
    SlashTopicIsShort();
    hide Summary.Strip, Summary.Short, SlashTopic;
    var rest := Summary.ShortTopics(Slashes(n)[1..]);
    assert Slashes(n)[1..] == Slashes(n - 1);
    var parts := Summary.ShortTopics(Slashes(n));
    assert parts == [SlashTopic()] + rest && parts[1..] == rest;
    assert forall c | c in SlashTopic() :: c != ':' by { SlashTopicChars(); }
    if n > 1 {
      SlashesFold(n - 1);
    } else {
      assert Slashes(0) == [] && rest == [];
    }
  }

  lemma SlashTopicChars()
    ensures forall c | c in SlashTopic() :: c != ':'
  {
  }

  /** The second fold of that session: its text just fits beside the label, and the cut leaves only
      separators in front of it. */
  lemma SlashIsEaten(head: string, existing: string, text: string)
    requires Summary.GoodLabel(head) && |head| == 11 && |existing| == 12
    requires |text| == 3987 && text[0] == '/'
    ensures Summary.EatsLeadingSlash(head, existing, text)
  {
    var kept := Summary.KeptBefore(head, existing, text);
    assert kept == (existing + Summary.SEPARATOR)[13..];
    assert |kept| == 2 && kept[0] == '/' && kept[1] == ' ';
    assert kept[1..][1..] == "";
  }

  lemma {:induction false} SumIsSmall(costs: seq<nat>, most: nat)
    requires forall i | 0 <= i < |costs| :: costs[i] <= most
    ensures Sum(costs) <= |costs| * most
  {
    if costs != [] { SumIsSmall(costs[1..], most); }
  }

  /** Short questions and no citations: the whole window fits the budget. */
  predicate Cheap(t: TurnRow) {
    |t.topic| <= 111 && !t.result.Success?
  }

  lemma CheapWindowFits(rows: seq<TurnRow>)
    requires forall i | 0 <= i < |rows| :: Cheap(rows[i])
    ensures WindowStart(Prior(rows)) <= |Prior(rows)|
    ensures ShownFrom(Costs(Prior(rows))) == WindowStart(Prior(rows))
  {
    var prior := Prior(rows);
    var start := WindowStart(prior);
    var costs := Costs(prior)[start..];
    forall i | 0 <= i < |costs| ensures costs[i] <= 111 {
      assert costs[i] == PriorTurnCost(prior[start + i]) && Cheap(rows[start + i]);
    }
    SumIsSmall(costs, 111);
    assert FitsFrom(Costs(prior), start);
    ShownFromLeast(Costs(prior), start);
  }

  /** A build of such a session folds the unfolded turns before its window, in order. */
  lemma CheapBuild(s: Session, owner: Uuid, p: nat)
    requires Locked(s.rows, owner) && Running(s.rows) && FoldedUpTo(s.rows, p)
    requires p <= WindowStart(Prior(s.rows)) <= |s.rows|
    requires forall i | 0 <= i < |s.rows| :: Cheap(s.rows[i])
    ensures var b := BuildSession(s.rows, s.summary, owner, s.rows[|s.rows| - 1].id);
      && b.folding == s.rows[p..WindowStart(Prior(s.rows))]
      && b.text == Summary.SummarizeEvicted(Topics(b.folding))
      && (b.text != "" ==> b.summary == Summary.JoinedSummary(s.summary, b.text)
                           && b.rows == Stamp(s.rows, owner, S.Ids(b.folding)))
  {
    hide Costs, ShownFrom, Shown, Folding, Recent, Prior, FoldedUpTo, Locked, PriorTopics, PriorPaperIds;
    hide Summary.JoinedSummary, Summary.SummarizeEvicted;
    CheapWindowFits(s.rows);
    FoldingIsTheGap(s.rows, owner, p);
    var k := WindowStart(Prior(s.rows));
    assert s.rows[k..k] == [];
  }

  function FirstRows(sid: Uuid, owner: Uuid): (r: seq<TurnRow>)
    ensures |r| == 22 && forall i | 0 <= i < 22 :: r[i] == Asked(sid, owner, i, i == 21)
    ensures forall t | t in r :: t.result == Pending || t.result.Error?
  {
    seq(22, i requires 0 <= i < 22 => Asked(sid, owner, i, i == 21))
  }

  /** Asked after the first of these turns was folded. */
  function MoreRows(sid: Uuid, owner: Uuid): (r: seq<TurnRow>)
    ensures |r| == 35 && forall i | 0 <= i < 35 :: r[i] == Asked(sid, owner, 22 + i, i == 34)
    ensures forall t | t in r :: t.result == Pending || t.result.Error?
  {
    seq(35, i requires 0 <= i < 35 => Asked(sid, owner, 22 + i, i == 34))
  }

  /** The session after its first fold and the failure of the turn that caused it. */
  function OnceFolded(sid: Uuid, owner: Uuid): (s: Session)
    ensures |s.rows| == 22
    ensures forall i | 0 <= i < 22 :: s.rows[i] == Asked(sid, owner, i, false).(folded := i == 0)
  {
    Session(seq(22, i requires 0 <= i < 22 => Asked(sid, owner, i, false).(folded := i == 0)),
            FirstSummary(), [0])
  }

  lemma FirstFold(sid: Uuid, owner: Uuid)
    ensures var built := Step(Session(FirstRows(sid, owner), "", []), owner, BuildContext);
      Step(built, owner, Resolve(Error("internal_error"))) == OnceFolded(sid, owner)
  {
    hide FirstTopic, FirstSummary, FirstRows, Cheap, Topics, BuildSession, Stamp, S.Ids, OnceFolded, Locked, FoldedUpTo;
    hide WindowStart, Prior;
    var rows := FirstRows(sid, owner);
    FirstShape(sid, owner, rows);
    FirstFoldFolds(rows, owner);
    FirstTopicIsShort();
    OneId(rows[0]);
    StampedThenResolved(sid, owner);
  }

  lemma OneId(t: TurnRow)
    ensures S.Ids([t]) == {t.id} && [] + S.IdSeq([t]) == [t.id]
  {
    assert forall x | x in [t] :: x == t;
    assert t in [t];
  }

  lemma StampedThenResolved(sid: Uuid, owner: Uuid)
    ensures FirstRows(sid, owner)[0].id == 0
    ensures var stamped := Stamp(FirstRows(sid, owner), owner, {0});
      && |stamped| == 22 && stamped[21].result == Pending
      && OnceFolded(sid, owner) ==
           Session(stamped[21 := stamped[21].(result := Error("internal_error"))], FirstSummary(), [0])
  {
    hide FirstRows, Asked, FirstSummary;
    var rows := FirstRows(sid, owner);
    var stamped := Stamp(rows, owner, {0});
    forall i | 0 <= i < 22 ensures stamped[i] == Asked(sid, owner, i, i == 21).(folded := i == 0) {
      AskedIsCheap(sid, owner, i, i == 21);
      AskedIsPlain(sid, owner, i, i == 21);
    }
    AskedIsCheap(sid, owner, 0, false);
    AskedIsCheap(sid, owner, 21, true);
    AskedResolves(sid, owner);
    assert stamped[21 := stamped[21].(result := Error("internal_error"))] == OnceFolded(sid, owner).rows;
  }

  lemma AskedResolves(sid: Uuid, owner: Uuid)
    ensures Asked(sid, owner, 21, true).(folded := false).(result := Error("internal_error"))
         == Asked(sid, owner, 21, false).(folded := false)
  {
  }

  lemma FirstFoldFolds(rows: seq<TurnRow>, owner: Uuid)
    requires |rows| == 22 && Locked(rows, owner) && Running(rows) && FoldedUpTo(rows, 0)
    requires (forall i | 0 <= i < 22 :: Cheap(rows[i])) && WindowStart(Prior(rows)) == 1
    requires Topics([rows[0]]) == [FirstTopic()]
    ensures var b := BuildSession(rows, "", owner, rows[21].id);
      && b.folding == [rows[0]] && b.text == FirstTopic()
      && b.summary == FirstSummary() && b.rows == Stamp(rows, owner, S.Ids([rows[0]]))
  {
    hide FirstTopic;
    hide Locked, FoldedUpTo, Prior, WindowStart, Cheap, BuildSession, Stamp, S.Ids, Topics, Running;
    hide Summary.JoinedSummary, Summary.SummarizeEvicted, Summary.Strip;
    assert rows[0..1] == [rows[0]];
    CheapBuild(Session(rows, "", []), owner, 0);
    OneShortTopic();
  }

  lemma FirstShape(sid: Uuid, owner: Uuid, rows: seq<TurnRow>)
    requires rows == FirstRows(sid, owner)
    ensures Locked(rows, owner) && Running(rows) && FoldedUpTo(rows, 0)
    ensures (forall i | 0 <= i < 22 :: Cheap(rows[i])) && WindowStart(Prior(rows)) == 1
    ensures Topics([rows[0]]) == [FirstTopic()]
  {
    hide FirstTopic, FirstSummary;
    hide FirstRows, Asked, SlashTopic;
    forall i | 0 <= i < 22
      ensures rows[i].id == i && rows[i].owner == owner && Cheap(rows[i]) && !rows[i].folded
      ensures rows[i].result == Pending <==> i == 21
    {
      AskedIsCheap(sid, owner, i, i == 21);
      AskedIsPlain(sid, owner, i, i == 21);
    }
    AskedIsCheap(sid, owner, 0, false);
  }

  lemma OneShortTopic()
    ensures Summary.SummarizeEvicted([FirstTopic()]) == FirstTopic() && FirstTopic() != ""
    ensures |FirstSummary()| == 12 && Summary.Strip(FirstSummary()) == FirstSummary()
  {
    FirstTopicIsShort();
    Summary.LabelFacts();
    hide Summary.Strip, Summary.JoinStripped, Summary.SummarizeEvicted, FirstTopic;
    OneTopicFolds(FirstTopic());
    FirstJoin(Summary.SUMMARY_LABEL, FirstTopic());
  }

  lemma OneTopicFolds(topic: string)
    requires |topic| == 1 && !Summary.IsSpace(topic[0])
    ensures Summary.SummarizeEvicted([topic]) == topic
  {
    Summary.StripIdempotent(topic);
    hide Summary.Strip;
    assert [topic][1..] == [] && Summary.ShortTopics([]) == [];
    assert Summary.ShortTopics([topic]) == [topic];
  }

  lemma FirstJoin(head: string, text: string)
    requires Summary.GoodLabel(head) && |text| == 1 && !Summary.IsSpace(text[0])
    ensures var r := Summary.JoinStripped(head, Summary.Strip(""), Summary.Strip(text));
      r == head + text && Summary.Strip(r) == r
  {
    Summary.StripIdempotent(text);
    Summary.StripBlank("");
    Summary.StripIdempotent(head + text);
    hide Summary.Strip;
  }

  /** A reachable session whose next fold loses the leading slash of its newest text. */
  lemma LeadingSlashIsEaten(sid: Uuid, owner: Uuid) returns (es: seq<Event>)
    ensures var s := Run(NEW_SESSION, owner, es);
      Running(s.rows) && Eats(s, owner)
  {
    hide FirstTopic, FirstSummary;
    hide Eats, Run, History, FirstRows, MoreRows, OnceFolded, Step;
    FirstAreReachable(sid, owner);
    var first := History(FirstRows(sid, owner));
    var fold := [BuildContext, Resolve(Error("internal_error"))];
    var more := History(MoreRows(sid, owner));
    es := first + fold + more;
    RunConcat(NEW_SESSION, owner, first + fold, more);
    RunConcat(NEW_SESSION, owner, first, fold);
    TwoSteps(Session(FirstRows(sid, owner), "", []), owner, Error("internal_error"));
    FirstFold(sid, owner);
    MoreAreReachable(sid, owner);
    SecondFold(sid, owner);
  }

  lemma TwoSteps(s: Session, owner: Uuid, result: Terminal)
    ensures Run(s, owner, [BuildContext, Resolve(result)])
         == Step(Step(s, owner, BuildContext), owner, Resolve(result))
  {
    hide Step;
    var es := [BuildContext, Resolve(result)];
    assert es[1..] == [Resolve(result)] && es[1..][1..] == [];
    var built := Step(s, owner, BuildContext);
    assert Run(s, owner, es) == Run(built, owner, es[1..]);
    assert Run(built, owner, es[1..]) == Run(Step(built, owner, Resolve(result)), owner, []);
  }

  lemma FirstAreReachable(sid: Uuid, owner: Uuid)
    ensures Run(NEW_SESSION, owner, History(FirstRows(sid, owner))) == Session(FirstRows(sid, owner), "", [])
  {
    hide FirstTopic, FirstSummary;
    hide Run, History, FirstRows, Asked, Plain;
    var rows := FirstRows(sid, owner);
    assert [] + rows == rows;
    forall i | 0 <= i < 22 ensures rows[i].id == i && Plain(rows[i], sid, owner)
      ensures i < 21 ==> rows[i].result != Pending
    {
      AskedIsCheap(sid, owner, i, i == 21);
    }
    HistoryIsReachable(NEW_SESSION, owner, sid, rows);
  }

  lemma MoreAreReachable(sid: Uuid, owner: Uuid)
    ensures var s := OnceFolded(sid, owner);
      Run(s, owner, History(MoreRows(sid, owner))) == s.(rows := s.rows + MoreRows(sid, owner))
  {
    hide FirstTopic, FirstSummary;
    hide Run, History, MoreRows, OnceFolded, Asked, Plain;
    var s, rows := OnceFolded(sid, owner), MoreRows(sid, owner);
    forall i | 0 <= i < 22 ensures s.rows[i].id == i && s.rows[i].result != Pending {
      AskedIsCheap(sid, owner, i, false);
    }
    forall i | 0 <= i < 35 ensures rows[i].id == 22 + i && Plain(rows[i], sid, owner)
      ensures i < 34 ==> rows[i].result != Pending
    {
      AskedIsCheap(sid, owner, 22 + i, i == 34);
    }
    assert forall i | 0 <= i < 57 :: (s.rows + rows)[i].id == i;
    HistoryIsReachable(s, owner, sid, rows);
  }

  lemma SecondFold(sid: Uuid, owner: Uuid)
    ensures var s := OnceFolded(sid, owner).(rows := OnceFolded(sid, owner).rows + MoreRows(sid, owner));
      Running(s.rows) && Eats(s, owner)
  {
    hide FirstTopic, FirstSummary;
    hide Eats, OnceFolded, MoreRows, Slashes, Summary.JoinedSummary, Topics;
    var rows := OnceFolded(sid, owner).rows + MoreRows(sid, owner);
    SessionShape(sid, owner, rows);
    OnceFoldedSummary(sid, owner);
    FoldEats(OnceFolded(sid, owner).(rows := rows), owner);
  }

  /** The next build of the session loses the slash its newest text begins with. */
  ghost predicate Eats(s: Session, owner: Uuid)
    requires Running(s.rows)
  {
    var b := BuildSession(s.rows, s.summary, owner, s.rows[|s.rows| - 1].id);
    && 0 < |Summary.Strip(b.text)| <= Summary.Room(Summary.SUMMARY_LABEL)
    && Summary.EatsLeadingSlash(Summary.SUMMARY_LABEL, Summary.Strip(s.summary), Summary.Strip(b.text))
    && !Summary.EndsWith(b.summary, Summary.Strip(b.text))
  }

  lemma FoldEats(s: Session, owner: Uuid)
    requires |s.rows| == 57 && Locked(s.rows, owner) && Running(s.rows) && FoldedUpTo(s.rows, 1)
    requires (forall i | 0 <= i < 57 :: Cheap(s.rows[i])) && WindowStart(Prior(s.rows)) == 36
    requires Topics(s.rows[1..36]) == Slashes(35) && s.summary == FirstSummary()
    ensures Eats(s, owner)
  {
    hide FirstTopic, FirstSummary;
    hide BuildSession, Slashes, Prior, WindowStart, Locked, FoldedUpTo, Cheap, Topics, Stamp, S.Ids;
    hide Summary.JoinedSummary, Summary.EatsLeadingSlash, Summary.EndsWith, Summary.Strip, Summary.SummarizeEvicted;
    CheapBuild(s, owner, 1);
    SlashTextIsEaten(s.summary);
  }

  lemma SlashTextIsEaten(summary: string)
    requires summary == FirstSummary()
    ensures var text := Summary.SummarizeEvicted(Slashes(35));
      && 0 < |Summary.Strip(text)| <= Summary.Room(Summary.SUMMARY_LABEL)
      && Summary.EatsLeadingSlash(Summary.SUMMARY_LABEL, Summary.Strip(summary), Summary.Strip(text))
      && !Summary.EndsWith(Summary.JoinedSummary(summary, text), Summary.Strip(text))
      && text != ""
  {
    hide FirstTopic, FirstSummary;
    hide Summary.JoinedSummary, Summary.EatsLeadingSlash, Summary.EndsWith, Summary.Strip, Summary.SummarizeEvicted;
    hide Slashes;
    SlashesFold(35);
    var text := Summary.SummarizeEvicted(Slashes(35));
    Summary.StripIdempotent(text);
    OneShortTopic();
    Summary.LabelFacts();
    SlashIsEaten(Summary.SUMMARY_LABEL, summary, text);
    Summary.NewestTextSurvives(summary, text);
  }

  lemma OnceFoldedSummary(sid: Uuid, owner: Uuid)
    ensures OnceFolded(sid, owner).summary == FirstSummary()
  {
    hide FirstTopic, FirstSummary;
    hide Summary.JoinedSummary;
  }

  lemma SessionShape(sid: Uuid, owner: Uuid, rows: seq<TurnRow>)
    requires rows == OnceFolded(sid, owner).rows + MoreRows(sid, owner)
    ensures |rows| == 57 && Locked(rows, owner) && Running(rows) && FoldedUpTo(rows, 1)
    ensures (forall i | 0 <= i < 57 :: Cheap(rows[i])) && WindowStart(Prior(rows)) == 36
    ensures Topics(rows[1..36]) == Slashes(35)
  {
    hide FirstTopic, FirstSummary;
    hide OnceFolded, MoreRows, Asked, SlashTopic;
    forall i | 0 <= i < 57
      ensures rows[i].id == i && rows[i].owner == owner && Cheap(rows[i]) && (rows[i].folded <==> i < 1)
      ensures (rows[i].result == Pending <==> i == 56) && (i > 0 ==> rows[i].topic == SlashTopic())
    {
      AskedIsCheap(sid, owner, i, i == 56);
      AskedIsPlain(sid, owner, i, i == 56);
      assert i >= 22 ==> rows[i] == MoreRows(sid, owner)[i - 22];
    }
  }

  lemma AskedIsPlain(sid: Uuid, owner: Uuid, i: nat, pending: bool)
    ensures !Asked(sid, owner, i, pending).folded
  {
  }

  // ---------------------------------------------------------------- a label the first fold cuts off

  /** Sixty questions nobody answered and the one being run. */
  function ManyRows(sid: Uuid, owner: Uuid): (r: seq<TurnRow>)
    ensures |r| == 61 && forall i | 0 <= i < 61 :: r[i] == Asked(sid, owner, i + 1, i == 60)
    ensures forall t | t in r :: t.result == Pending || t.result.Error?
  {
    seq(61, i requires 0 <= i < 61 => Asked(sid, owner, i + 1, i == 60))
  }

  /** A reachable session whose first fold is so long that nothing of the label stays. */
  lemma LabelIsCutOff(sid: Uuid, owner: Uuid)
    ensures var rows := ManyRows(sid, owner);
      && Run(NEW_SESSION, owner, History(rows)) == Session(rows, "", []) && Running(rows)
      && var b := BuildSession(rows, "", owner, rows[60].id);
      && |b.text| > Summary.MAX_SESSION_SUMMARY_CHARS
      && b.summary == b.text[|b.text| - Summary.MAX_SESSION_SUMMARY_CHARS..]
      && !(Summary.Stem(Summary.SUMMARY_LABEL) <= b.summary)
  {
    hide Run, History, ManyRows, BuildSession;
    ManyAreReachable(sid, owner);
    ManyShape(sid, owner, ManyRows(sid, owner));
    LongFold(ManyRows(sid, owner), owner);
  }

  lemma ManyAreReachable(sid: Uuid, owner: Uuid)
    ensures Run(NEW_SESSION, owner, History(ManyRows(sid, owner))) == Session(ManyRows(sid, owner), "", [])
  {
    hide Run, History, ManyRows, Asked, Plain, FirstTopic;
    var rows := ManyRows(sid, owner);
    assert [] + rows == rows;
    forall i | 0 <= i < 61 ensures rows[i].id == i + 1 && Plain(rows[i], sid, owner)
      ensures i < 60 ==> rows[i].result != Pending
    {
      AskedIsCheap(sid, owner, i + 1, i == 60);
    }
    HistoryIsReachable(NEW_SESSION, owner, sid, rows);
  }

  lemma ManyShape(sid: Uuid, owner: Uuid, rows: seq<TurnRow>)
    requires rows == ManyRows(sid, owner)
    ensures Locked(rows, owner) && Running(rows) && FoldedUpTo(rows, 0)
    ensures (forall i | 0 <= i < 61 :: Cheap(rows[i])) && WindowStart(Prior(rows)) == 40
    ensures Topics(rows[0..40]) == Slashes(40)
  {
    hide ManyRows, Asked, SlashTopic, FirstTopic;
    forall i | 0 <= i < 61
      ensures rows[i].id == i + 1 && rows[i].owner == owner && Cheap(rows[i]) && !rows[i].folded
      ensures (rows[i].result == Pending <==> i == 60) && rows[i].topic == SlashTopic()
    {
      AskedIsCheap(sid, owner, i + 1, i == 60);
      AskedIsPlain(sid, owner, i + 1, i == 60);
    }
  }

  lemma LongFold(rows: seq<TurnRow>, owner: Uuid)
    requires |rows| == 61 && Locked(rows, owner) && Running(rows) && FoldedUpTo(rows, 0)
    requires (forall i | 0 <= i < 61 :: Cheap(rows[i])) && WindowStart(Prior(rows)) == 40
    requires Topics(rows[0..40]) == Slashes(40)
    ensures var b := BuildSession(rows, "", owner, rows[60].id);
      && |b.text| > Summary.MAX_SESSION_SUMMARY_CHARS
      && b.summary == b.text[|b.text| - Summary.MAX_SESSION_SUMMARY_CHARS..]
      && !(Summary.Stem(Summary.SUMMARY_LABEL) <= b.summary)
  {
    hide BuildSession, Slashes, Prior, WindowStart, Locked, FoldedUpTo, Cheap, Topics, Stamp;
    hide Summary.JoinedSummary, Summary.Strip, Summary.SummarizeEvicted, Summary.LostUnder;
    CheapBuild(Session(rows, "", []), owner, 0);
    SlashesFold(40);
    var text := Summary.SummarizeEvicted(Slashes(40));
    Summary.StripIdempotent(text);
    Summary.LongFirstTextLosesLabel(text);
    LabelHasColon(text, |text| - Summary.MAX_SESSION_SUMMARY_CHARS);
  }

  lemma LabelHasColon(s: string, from: nat)
    requires from <= |s| && forall c | c in s :: c != ':'
    ensures !(Summary.Stem(Summary.SUMMARY_LABEL) <= s[from..])
  {
    Summary.LabelFacts();
    var head := Summary.SUMMARY_LABEL;
    assert Summary.Stem(head)[|head| - 2] == ':';
    var k := from + |head| - 2;
    assert k < |s| ==> s[k] in s && s[from..][|head| - 2] == s[k];
  }
}
