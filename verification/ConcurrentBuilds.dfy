/** Context builds that overlap: a redelivered message lets two executors prepare one turn at the same
    time, and at READ COMMITTED each reads what is unfolded before it appends and stamps
    (service.py `build_run_context`, worker.py `_prepare_turn`). */
module ConcurrentBuilds {
  import opened EvidenceModels
  import opened Sequences
  import opened TokenBudget
  import R = RunContext
  import S = TurnStore
  import Summary = SessionSummary
  import W = SessionWitnesses
  import Mem = InMemoryRepository

  /** What an executor read: the turns to fold, their text, where the shown suffix began, and how many
      folds the session had seen. */
  datatype Held = Held(folding: seq<TurnRow>, text: string, cut: nat, epoch: nat)

  datatype State = State(session: R.Session, held: map<nat, Held>, epoch: nat)

  datatype Event =
    | Ask(id: Uuid, sid: Uuid, topic: string, created: nat)
    | Resolve(result: Terminal)
    | ReadWindow(executor: nat)
    | WriteFold(executor: nat)

  function Start(s: R.Session): State { State(s, map[], 0) }

  function Step(s: State, owner: Uuid, e: Event): State {
    match e
    case Ask(id, sid, topic, created) => s.(session := R.Step(s.session, owner, R.Ask(id, sid, topic, created)))
    case Resolve(result) => s.(session := R.Step(s.session, owner, R.Resolve(result)))
    case ReadWindow(k) =>
      if !R.Running(s.session.rows) then s
      else s.(held := s.held[k := Reads(s.session, owner, s.epoch)])
    case WriteFold(k) =>
      if !Writes(s, k) then s.(held := s.held - {k})
      else State(Fold(s.session, owner, s.held[k]), s.held - {k}, s.epoch + 1)
  }

  function Reads(s: R.Session, owner: Uuid, epoch: nat): (h: Held)
    requires R.Running(s.rows)
    ensures h.epoch == epoch
  {
    var b := R.BuildSession(s.rows, s.summary, owner, s.rows[|s.rows| - 1].id);
    Held(b.folding, b.text, ShownFrom(R.Costs(R.Prior(s.rows))), epoch)
  }

  /** Appending the text to the summary as it is now, and stamping. */
  function Fold(s: R.Session, owner: Uuid, h: Held): R.Session {
    R.Session(R.Stamp(s.rows, owner, S.Ids(h.folding)), Summary.JoinedSummary(s.summary, h.text),
              s.folds + S.IdSeq(h.folding))
  }

  /** There is something to append. */
  predicate Writes(s: State, k: nat) {
    k in s.held && s.held[k].text != ""
  }

  function Run(s: State, owner: Uuid, es: seq<Event>): State
    decreases |es|
  {
    if es == [] then s else Run(Step(s, owner, es[0]), owner, es[1..])
  }

  /** No other fold came between this write and the read it is based on. */
  predicate Serial(s: State, e: Event) {
    e.WriteFold? && Writes(s, e.executor) ==> s.held[e.executor].epoch == s.epoch
  }

  predicate AllSerial(s: State, owner: Uuid, es: seq<Event>)
    decreases |es|
  {
    es == [] || (Serial(s, es[0]) && AllSerial(Step(s, owner, es[0]), owner, es[1..]))
  }

  /** A read and its write with nothing in between are the build the session runs speak of. */
  lemma ReadThenWriteIsBuild(s: State, owner: Uuid, k: nat)
    requires R.Running(s.session.rows)
    ensures Step(Step(s, owner, ReadWindow(k)), owner, WriteFold(k)).session
         == R.Step(s.session, owner, R.BuildContext)
  {
    hide R.Folding, R.Shown, R.Recent, R.PriorTopics, R.PriorPaperIds, R.Costs, R.Prior, ShownFrom, R.Stamp, S.Ids;
    hide Summary.JoinedSummary, Summary.SummarizeEvicted, R.Topics;
  }

  // ---------------------------------------------------------------- what an executor may hold

  /** The ids of exactly these rows. */
  ghost predicate Covers(ids: seq<Uuid>, rows: seq<TurnRow>, p: nat, cut: nat)
    requires cut <= |rows|
  {
    forall id :: id in ids <==> exists i :: p <= i < cut && rows[i].id == id
  }

  /** Read at the present epoch: the stretch right after the folded prefix. */
  ghost predicate Current(h: Held, rows: seq<TurnRow>, p: nat) {
    && p <= h.cut <= |rows| && h.cut <= ShownFrom(R.Costs(R.Prior(rows)))
    && Covers(S.IdSeq(h.folding), rows, p, h.cut) && R.NoDuplicates(S.IdSeq(h.folding))
    && (h.text != "" ==> p < h.cut)
  }

  /** Something it would fold has been folded since. */
  ghost predicate Stale(h: Held, folds: seq<Uuid>) {
    exists id :: id in S.IdSeq(h.folding) && id in folds
  }

  ghost predicate HeldRight(s: State, k: nat, p: nat)
    requires k in s.held
  {
    var h := s.held[k];
    && h.epoch <= s.epoch
    && (h.epoch == s.epoch ==> Current(h, s.session.rows, p))
    && (h.epoch < s.epoch && h.text != "" ==> Stale(h, s.session.folds))
  }

  ghost predicate Good(s: State, owner: Uuid, p: nat) {
    && R.Sound(s.session, owner, p)
    && forall k | k in s.held :: HeldRight(s, k, p)
  }

  lemma CurrentOnward(h: Held, s: R.Session, s': R.Session, p: nat)
    requires Current(h, s.rows, p) && R.Onward(s, s')
    ensures Current(h, s'.rows, p)
  {
    hide R.Costs, R.Prior, ShownFrom;
    forall id ensures id in S.IdSeq(h.folding) <==> exists i :: p <= i < h.cut && s'.rows[i].id == id {
      if i :| p <= i < h.cut && s.rows[i].id == id { assert s'.rows[i].id == id; }
      if i :| p <= i < h.cut && s'.rows[i].id == id { assert s.rows[i].id == id; }
    }
  }

  /** Asking and resolving move no held stretch. */
  lemma SessionMoves(s: State, owner: Uuid, p: nat, e: R.Event)
    requires Good(s, owner, p) && !e.BuildContext?
    ensures Good(s.(session := R.Step(s.session, owner, e)), owner, p)
  {
    hide R.Sound, R.Onward, Current, R.Step;
    var s' := s.(session := R.Step(s.session, owner, e));
    AskOrResolve(s.session, owner, p, e);
    R.StepOnward(s.session, owner, p, e);
    forall k | k in s'.held ensures HeldRight(s', k, p) {
      assert HeldRight(s, k, p);
      if s.held[k].epoch == s.epoch {
        CurrentOnward(s.held[k], s.session, s'.session, p);
      }
    }
  }

  lemma AskOrResolve(s: R.Session, owner: Uuid, p: nat, e: R.Event)
    requires R.Sound(s, owner, p) && !e.BuildContext?
    ensures R.Sound(R.Step(s, owner, e), owner, p) && R.Step(s, owner, e).folds == s.folds
  {
    hide R.Sound;
    match e
    case Ask(id, sid, topic, created) => R.SoundAsk(s, owner, p, id, sid, topic, created);
    case Resolve(result) => R.SoundResolve(s, owner, p, result);
  }

  lemma ReadIsCurrent(s: R.Session, owner: Uuid, p: nat, epoch: nat)
    requires R.Prefixed(s.rows, owner, p) && R.Running(s.rows)
    ensures Current(Reads(s, owner, epoch), s.rows, p)
  {
    hide R.Recent, R.Shown, R.Folding, R.WindowStart, R.Costs, R.PriorTopics, R.PriorPaperIds, R.Prior, ShownFrom;
    hide R.FoldedUpTo, R.Locked, R.Stamp, S.Ids, Filter, Summary.JoinedSummary, Summary.SummarizeEvicted;
    var rows := s.rows;
    R.PrefixedMeans(rows, owner, p);
    R.FoldingIsTheGap(rows, owner, p);
    var start, cut := R.WindowStart(R.Prior(rows)), ShownFrom(R.Costs(R.Prior(rows)));
    R.GapOrderIds(rows, p, start, cut);
    var gap := R.GapOrder(rows, p, start, cut);
    GapCovers(rows, p, start, cut);
    Summary.NothingToFold(R.Topics(gap));
  }

  lemma GapCovers(rows: seq<TurnRow>, p: nat, start: nat, cut: nat)
    requires S.DistinctIds(rows) && p <= cut && start <= cut <= |rows|
    ensures Covers(S.IdSeq(R.GapOrder(rows, p, start, cut)), rows, p, cut)
    ensures p == cut ==> R.GapOrder(rows, p, start, cut) == []
  {
    var gap := R.GapOrder(rows, p, start, cut);
    R.GapOrderIds(rows, p, start, cut);
    hide R.GapOrder;
    forall id ensures id in S.IdSeq(gap) <==> exists i :: p <= i < cut && rows[i].id == id {
      if id in S.IdSeq(gap) {
        var j :| 0 <= j < |gap| && S.IdSeq(gap)[j] == id;
        assert gap[j] in gap;
      }
      if i :| p <= i < cut && rows[i].id == id {
        assert rows[i] in gap;
        var j :| 0 <= j < |gap| && gap[j] == rows[i];
        assert S.IdSeq(gap)[j] == id;
      }
    }
    HasMember(gap);
  }

  lemma HasMember(turns: seq<TurnRow>)
    ensures turns != [] ==> exists t :: t in turns
  {
    if turns != [] { assert turns[0] in turns; }
  }

  lemma ReadKeepsGood(s: State, owner: Uuid, p: nat, k: nat)
    requires Good(s, owner, p)
    ensures Good(Step(s, owner, ReadWindow(k)), owner, p)
  {
    hide R.Sound, Reads, Current, Stale;
    var s' := Step(s, owner, ReadWindow(k));
    if R.Running(s.session.rows) {
      R.SoundSession(s.session, owner, p);
      ReadIsCurrent(s.session, owner, p, s.epoch);
      forall j | j in s'.held ensures HeldRight(s', j, p) {
        if j != k { assert HeldRight(s, j, p); }
      }
    } else {
      assert s' == s;
    }
  }

  // ---------------------------------------------------------------- a serial write

  lemma StampKeepsPrior(rows: seq<TurnRow>, owner: Uuid, ids: set<Uuid>)
    ensures R.Costs(R.Prior(R.Stamp(rows, owner, ids))) == R.Costs(R.Prior(rows))
    ensures |R.Stamp(rows, owner, ids)| == |rows|
    ensures forall i | 0 <= i < |rows| :: R.Stamp(rows, owner, ids)[i].id == rows[i].id
  {
    hide R.PriorTurnCost;
    var rows' := R.Stamp(rows, owner, ids);
    var prior, prior' := R.Prior(rows), R.Prior(rows');
    assert |prior| == |prior'|;
    forall i | 0 <= i < |prior| ensures R.Costs(prior')[i] == R.Costs(prior)[i] {
      SameCost(rows[i], owner, ids);
    }
  }

  lemma SameCost(t: TurnRow, owner: Uuid, ids: set<Uuid>)
    ensures R.PriorTurnCost(S.SetFolded(owner, ids)(t)) == R.PriorTurnCost(t)
  {
  }

  lemma IdsAreIdSeq(turns: seq<TurnRow>)
    ensures forall id :: id in S.Ids(turns) <==> id in S.IdSeq(turns)
  {
    forall id ensures id in S.Ids(turns) <==> id in S.IdSeq(turns) {
      if t :| t in turns && t.id == id {
        var i :| 0 <= i < |turns| && turns[i] == t;
        assert S.IdSeq(turns)[i] == id;
      }
      if id in S.IdSeq(turns) {
        var i :| 0 <= i < |turns| && S.IdSeq(turns)[i] == id;
        assert turns[i] in turns;
      }
    }
  }

  /** Stamping what covers the next stretch extends the folded prefix over it. */
  lemma StampStretch(rows: seq<TurnRow>, owner: Uuid, p: nat, h: Held)
    requires R.Locked(rows, owner) && R.FoldedUpTo(rows, p) && p <= h.cut <= |rows|
    requires Covers(S.IdSeq(h.folding), rows, p, h.cut)
    ensures R.Locked(R.Stamp(rows, owner, S.Ids(h.folding)), owner)
    ensures R.FoldedUpTo(R.Stamp(rows, owner, S.Ids(h.folding)), h.cut)
  {
    IdsAreIdSeq(h.folding);
    hide S.Ids, S.IdSeq;
    forall i | 0 <= i < |rows| ensures rows[i].id in S.Ids(h.folding) <==> p <= i < h.cut {
      assert rows[i].id in S.IdSeq(h.folding) <==> exists j :: p <= j < h.cut && rows[j].id == rows[i].id;
    }
  }

  lemma FoldsStayDistinct(s: R.Session, owner: Uuid, p: nat, h: Held)
    requires R.Sound(s, owner, p) && Current(h, s.rows, p)
    ensures var folds := s.folds + S.IdSeq(h.folding);
      && R.NoDuplicates(folds)
      && forall id :: id in folds <==> exists i :: 0 <= i < h.cut && s.rows[i].id == id
  {
    hide R.Costs, R.Prior, ShownFrom;
    var more := S.IdSeq(h.folding);
    forall j | 0 <= j < |more| ensures more[j] !in s.folds {
      assert more[j] in more;
    }
  }

  lemma SerialWriteIsSound(s: R.Session, owner: Uuid, p: nat, h: Held)
    requires R.Sound(s, owner, p) && Current(h, s.rows, p)
    ensures R.Sound(Fold(s, owner, h), owner, h.cut)
  {
    hide R.Costs, R.Prior, ShownFrom, R.Stamp, S.Ids, S.IdSeq, Summary.JoinedSummary, R.Locked, R.FoldedUpTo, Covers;
    R.SoundSession(s, owner, p);
    StampStretch(s.rows, owner, p, h);
    StampKeepsPrior(s.rows, owner, S.Ids(h.folding));
    FoldsStayDistinct(s, owner, p, h);
    Summary.JoinedIsBounded(s.summary, h.text);
    var rows' := R.Stamp(s.rows, owner, S.Ids(h.folding));
    var folds := s.folds + S.IdSeq(h.folding);
    forall id ensures id in folds <==> exists i :: 0 <= i < h.cut && rows'[i].id == id {
      if i :| 0 <= i < h.cut && s.rows[i].id == id { assert rows'[i].id == id; }
      if i :| 0 <= i < h.cut && rows'[i].id == id { assert s.rows[i].id == id; }
    }
  }

  /** A serial fold makes every other stretch read so far stale. */
  lemma OthersGoStale(s: R.Session, p: nat, h: Held, other: Held)
    requires Current(h, s.rows, p) && h.text != "" && Current(other, s.rows, p) && other.text != ""
    ensures Stale(other, s.folds + S.IdSeq(h.folding))
  {
    hide R.Costs, R.Prior, ShownFrom, S.IdSeq;
    var id := s.rows[p].id;
    assert id in S.IdSeq(h.folding) && id in S.IdSeq(other.folding);
  }

  lemma SerialWriteKeepsGood(s: State, owner: Uuid, p: nat, k: nat)
    requires Good(s, owner, p) && Writes(s, k) && s.held[k].epoch == s.epoch
    ensures Good(Step(s, owner, WriteFold(k)), owner, s.held[k].cut)
  {
    hide R.Sound, Current, Stale, Fold;
    var h, s' := s.held[k], Step(s, owner, WriteFold(k));
    assert HeldRight(s, k, p);
    SerialWriteIsSound(s.session, owner, p, h);
    forall j | j in s'.held ensures HeldRight(s', j, h.cut) {
      assert HeldRight(s, j, p);
      HeldGoesStale(s, owner, p, h, j);
    }
  }

  lemma HeldGoesStale(s: State, owner: Uuid, p: nat, h: Held, j: nat)
    requires j in s.held && HeldRight(s, j, p) && Current(h, s.session.rows, p) && h.text != ""
    ensures s.held[j].text != "" ==> Stale(s.held[j], Fold(s.session, owner, h).folds)
  {
    hide Current, S.IdSeq, R.Stamp, S.Ids, Summary.JoinedSummary;
    if s.held[j].text != "" {
      if s.held[j].epoch == s.epoch {
        OthersGoStale(s.session, p, h, s.held[j]);
      } else {
        var id :| id in S.IdSeq(s.held[j].folding) && id in s.session.folds;
        assert id in Fold(s.session, owner, h).folds;
      }
    }
  }

  // ---------------------------------------------------------------- folded once, exactly

  lemma {:induction false} FoldsOnlyGrow(s: State, owner: Uuid, es: seq<Event>)
    ensures s.session.folds <= Run(s, owner, es).session.folds
    decreases |es|
  {
    hide R.BuildSession;
    if es != [] {
      OneStepGrows(s, owner, es[0]);
      hide Step;
      FoldsOnlyGrow(Step(s, owner, es[0]), owner, es[1..]);
    }
  }

  lemma OneStepGrows(s: State, owner: Uuid, e: Event)
    ensures s.session.folds <= Step(s, owner, e).session.folds
  {
    hide Reads;
  }

  /** A write whose stretch was folded meanwhile folds something twice, for good. */
  lemma StaleWriteFoldsTwice(s: State, owner: Uuid, p: nat, k: nat, es: seq<Event>)
    requires Good(s, owner, p) && Writes(s, k) && s.held[k].epoch != s.epoch
    ensures !R.NoDuplicates(Run(Step(s, owner, WriteFold(k)), owner, es).session.folds)
  {
    hide R.Sound, Current, S.IdSeq, Run;
    var s' := Step(s, owner, WriteFold(k));
    assert HeldRight(s, k, p);
    var id :| id in S.IdSeq(s.held[k].folding) && id in s.session.folds;
    FoldsOnlyGrow(s', owner, es);
    TwiceInConcat(s.session.folds, S.IdSeq(s.held[k].folding), id, Run(s', owner, es).session.folds);
  }

  lemma TwiceInConcat(a: seq<Uuid>, b: seq<Uuid>, id: Uuid, all: seq<Uuid>)
    requires id in a && id in b && a + b <= all
    ensures !R.NoDuplicates(all)
  {
    var i :| 0 <= i < |a| && a[i] == id;
    var j :| 0 <= j < |b| && b[j] == id;
    assert (a + b)[i] == id && (a + b)[|a| + j] == id;
    assert all[i] == id && all[|a| + j] == id;
  }

  /** Over every run of overlapping builds: no turn is folded twice if and only if no fold came between
      any fold and the read it was based on. */
  lemma {:induction false} FoldedOnceIffSerial(s: State, owner: Uuid, p: nat, es: seq<Event>)
    requires Good(s, owner, p)
    ensures R.NoDuplicates(Run(s, owner, es).session.folds) <==> AllSerial(s, owner, es)
    decreases |es|
  {
    hide Good, Step, R.NoDuplicates;
    if es == [] {
      GoodIsDistinct(s, owner, p);
    } else if Serial(s, es[0]) {
      var p' := SerialStep(s, owner, p, es[0]);
      FoldedOnceIffSerial(Step(s, owner, es[0]), owner, p', es[1..]);
    } else {
      StaleWriteFoldsTwice(s, owner, p, es[0].executor, es[1..]);
      assert es[0] == WriteFold(es[0].executor);
    }
  }

  lemma GoodIsDistinct(s: State, owner: Uuid, p: nat)
    requires Good(s, owner, p)
    ensures R.NoDuplicates(s.session.folds)
  {
  }

  lemma SerialStep(s: State, owner: Uuid, p: nat, e: Event) returns (p': nat)
    requires Good(s, owner, p) && Serial(s, e)
    ensures Good(Step(s, owner, e), owner, p')
  {
    p' := p;
    match e
    case Ask(id, sid, topic, created) => SessionMoves(s, owner, p, R.Ask(id, sid, topic, created));
    case Resolve(result) => SessionMoves(s, owner, p, R.Resolve(result));
    case ReadWindow(k) => ReadKeepsGood(s, owner, p, k);
    case WriteFold(k) =>
      if Writes(s, k) {
        p' := s.held[k].cut;
        SerialWriteKeepsGood(s, owner, p, k);
      } else {
        DropKeepsGood(s, owner, p, k);
      }
  }

  lemma DropKeepsGood(s: State, owner: Uuid, p: nat, k: nat)
    requires Good(s, owner, p)
    ensures Good(s.(held := s.held - {k}), owner, p)
  {
    hide R.Sound, Current, Stale;
    var s' := s.(held := s.held - {k});
    forall j | j in s'.held ensures HeldRight(s', j, p) {
      assert HeldRight(s, j, p);
    }
  }

  lemma NewSessionIsGood(owner: Uuid)
    ensures Good(Start(W.NEW_SESSION), owner, 0)
  {
    W.NewSessionIsSound(owner);
    hide R.Sound;
  }

  /** In particular of every session there is. */
  lemma FoldedOnceFromTheStart(owner: Uuid, es: seq<Event>)
    ensures R.NoDuplicates(Run(Start(W.NEW_SESSION), owner, es).session.folds)
      <==> AllSerial(Start(W.NEW_SESSION), owner, es)
  {
    hide Good, Run, AllSerial, R.NoDuplicates;
    NewSessionIsGood(owner);
    FoldedOnceIffSerial(Start(W.NEW_SESSION), owner, 0, es);
  }

  /** It happens: the same turn delivered twice, both executors reading before either writes. */
  lemma TwoExecutorsFoldTwice(sid: Uuid, owner: Uuid)
    ensures var first := W.FirstRows(sid, owner);
      && R.Run(W.NEW_SESSION, owner, W.History(first)) == R.Session(first, "", [])
      && !R.NoDuplicates(Run(Start(R.Session(first, "", [])), owner,
                             [ReadWindow(1), ReadWindow(2), WriteFold(1), WriteFold(2)]).session.folds)
  {
    hide W.FirstRows, R.Run, R.NoDuplicates, Run, Reads;
    W.FirstAreReachable(sid, owner);
    SomethingToFold(W.FirstRows(sid, owner), sid, owner);
    BothFold(R.Session(W.FirstRows(sid, owner), "", []), owner);
  }

  lemma SomethingToFold(first: seq<TurnRow>, sid: Uuid, owner: Uuid)
    requires first == W.FirstRows(sid, owner)
    ensures R.Running(first)
    ensures var h := Reads(R.Session(first, "", []), owner, 0); h.folding != [] && h.text != ""
  {
    hide W.FirstRows, W.FirstTopic, W.FirstSummary, R.BuildSession, R.Locked, R.FoldedUpTo, R.WindowStart, R.Prior;
    hide W.Cheap, R.Topics, ShownFrom, R.Costs, R.Stamp, S.Ids, Reads;
    W.FirstShape(sid, owner, first);
    W.FirstTopicIsShort();
    W.FirstFoldFolds(first, owner);
    ReadsWhatIsBuilt(R.Session(first, "", []), owner, 0);
  }

  lemma ReadsWhatIsBuilt(s: R.Session, owner: Uuid, epoch: nat)
    requires R.Running(s.rows)
    ensures var b := R.BuildSession(s.rows, s.summary, owner, s.rows[|s.rows| - 1].id);
      Reads(s, owner, epoch).folding == b.folding && Reads(s, owner, epoch).text == b.text
  {
    hide R.BuildSession, ShownFrom, R.Costs, R.Prior;
  }

  /** Of any session that has something to fold. */
  lemma BothFold(s: R.Session, owner: Uuid)
    requires R.Running(s.rows) && s.folds == []
    requires var h := Reads(s, owner, 0); h.folding != [] && h.text != ""
    ensures var es := [ReadWindow(1), ReadWindow(2), WriteFold(1), WriteFold(2)];
      !R.NoDuplicates(Run(Start(s), owner, es).session.folds)
  {
    hide Reads, Run, R.NoDuplicates, Fold;
    var h := Reads(s, owner, 0);
    FourEvents(Start(s), owner, ReadWindow(1), ReadWindow(2), WriteFold(1), WriteFold(2));
    assert Step(Step(Start(s), owner, ReadWindow(1)), owner, ReadWindow(2))
        == Start(s).(held := map[1 := h, 2 := h]);
    TwoWrites(Start(s), owner, h);
  }

  lemma FourEvents(s: State, owner: Uuid, a: Event, b: Event, c: Event, d: Event)
    ensures Run(s, owner, [a, b, c, d]) == Step(Step(Step(Step(s, owner, a), owner, b), owner, c), owner, d)
  {
    hide Step;
    var es := [a, b, c, d];
    assert es[1..] == [b, c, d] && es[1..][1..] == [c, d] && es[1..][1..][1..] == [d] && [d][1..] == [];
    var s1 := Step(s, owner, a);
    var s2 := Step(s1, owner, b);
    assert Run(s1, owner, [b, c, d]) == Run(s2, owner, [c, d]);
    assert Run(s2, owner, [c, d]) == Run(Step(s2, owner, c), owner, [d]);
  }

  lemma TwoWrites(s: State, owner: Uuid, h: Held)
    requires s.session.folds == [] && h.folding != [] && h.text != ""
    ensures var both := s.(held := map[1 := h, 2 := h]);
      !R.NoDuplicates(Step(Step(both, owner, WriteFold(1)), owner, WriteFold(2)).session.folds)
  {
    hide R.Stamp, S.Ids, Summary.JoinedSummary;
    var both := s.(held := map[1 := h, 2 := h]);
    var once := Step(both, owner, WriteFold(1));
    assert once.held == map[2 := h];
    var ids := S.IdSeq(h.folding);
    assert |ids| == |h.folding|;
    var twice := Step(once, owner, WriteFold(2));
    assert twice.session.folds == ids + ids;
    TwiceInConcat(ids, ids, ids[0], ids + ids);
  }

  // ---------------------------------------------------------------- what overlap cannot break

  /** Held stretches reach from inside the folded prefix to no further than the shown suffix, and say
      what is asked there. */
  ghost predicate Behind(h: Held, rows: seq<TurnRow>, p: nat) {
    && h.cut <= |rows| && h.cut <= ShownFrom(R.Costs(R.Prior(rows)))
    && (exists from: nat :: from <= p && from <= h.cut && Covers(S.IdSeq(h.folding), rows, from, h.cut))
    && Quotes(h, rows)
  }

  ghost predicate Quotes(h: Held, rows: seq<TurnRow>) {
    && h.text == Summary.SummarizeEvicted(R.Topics(h.folding))
    && forall t, i | t in h.folding && 0 <= i < |rows| && rows[i].id == t.id :: rows[i].topic == t.topic
  }

  ghost predicate Ordered(s: State, owner: Uuid, p: nat) {
    && R.Prefixed(s.session.rows, owner, p)
    && |s.session.summary| <= Summary.MAX_SESSION_SUMMARY_CHARS
    && forall k | k in s.held :: Behind(s.held[k], s.session.rows, p)
  }

  /** Rows are only added, stamped or answered. */
  ghost predicate SameTurns(rows: seq<TurnRow>, rows': seq<TurnRow>) {
    && |rows| <= |rows'|
    && (forall i | 0 <= i < |rows| :: rows'[i].id == rows[i].id && rows'[i].topic == rows[i].topic)
    && forall i, j | 0 <= i < |rows| && |rows| <= j < |rows'| :: rows'[j].id != rows[i].id
  }

  lemma CoversOnward(ids: seq<Uuid>, rows: seq<TurnRow>, rows': seq<TurnRow>, from: nat, cut: nat)
    requires cut <= |rows| && SameTurns(rows, rows') && Covers(ids, rows, from, cut)
    ensures Covers(ids, rows', from, cut)
  {
    forall id ensures id in ids <==> exists i :: from <= i < cut && rows'[i].id == id {
      if i :| from <= i < cut && rows[i].id == id { assert rows'[i].id == id; }
      if i :| from <= i < cut && rows'[i].id == id { assert rows[i].id == id; }
    }
  }

  lemma QuotesOnward(h: Held, rows: seq<TurnRow>, rows': seq<TurnRow>, from: nat)
    requires Quotes(h, rows) && SameTurns(rows, rows') && h.cut <= |rows|
    requires Covers(S.IdSeq(h.folding), rows, from, h.cut)
    ensures Quotes(h, rows')
  {
    hide Summary.SummarizeEvicted;
    forall t, i | t in h.folding && 0 <= i < |rows'| && rows'[i].id == t.id ensures rows'[i].topic == t.topic {
      IdsAreIdSeq(h.folding);
      assert t.id in S.IdSeq(h.folding);
      var j :| from <= j < h.cut && rows[j].id == t.id;
      assert rows[j].topic == t.topic;
      if i < |rows| { assert rows[i].topic == t.topic; }
    }
  }

  lemma BehindOnward(h: Held, rows: seq<TurnRow>, rows': seq<TurnRow>, p: nat, p': nat)
    requires Behind(h, rows, p) && SameTurns(rows, rows') && p <= p'
    requires ShownFrom(R.Costs(R.Prior(rows))) <= ShownFrom(R.Costs(R.Prior(rows')))
    ensures Behind(h, rows', p')
  {
    hide R.Costs, R.Prior, ShownFrom, Quotes, SameTurns, Covers;
    var from: nat :| from <= p && from <= h.cut && Covers(S.IdSeq(h.folding), rows, from, h.cut);
    CoversOnward(S.IdSeq(h.folding), rows, rows', from, h.cut);
    QuotesOnward(h, rows, rows', from);
    SameTurnsGrow(rows, rows');
  }

  lemma SameTurnsGrow(rows: seq<TurnRow>, rows': seq<TurnRow>)
    requires SameTurns(rows, rows')
    ensures |rows| <= |rows'|
  {
  }

  /** Asking and resolving, whatever was folded and however often. */
  lemma MovesKeepPrefix(s: R.Session, owner: Uuid, p: nat, e: R.Event)
    requires R.Prefixed(s.rows, owner, p) && !e.BuildContext?
    ensures var s' := R.Step(s, owner, e);
      && R.Prefixed(s'.rows, owner, p) && s'.summary == s.summary && SameTurns(s.rows, s'.rows)
      && ShownFrom(R.Costs(R.Prior(s.rows))) <= ShownFrom(R.Costs(R.Prior(s'.rows)))
  {
    hide R.Prefixed, R.Sound, R.Costs, R.Prior, ShownFrom;
    var x := R.PrefixedIsSound(s.rows, owner, p);
    AskOrResolve(x, owner, p, e);
    R.StepOnward(x, owner, p, e);
    R.SoundSession(R.Step(x, owner, e), owner, p);
    MovesKeepTurns(s, owner, e);
    assert R.Step(s, owner, e).rows == R.Step(x, owner, e).rows;
  }

  lemma MovesKeepTurns(s: R.Session, owner: Uuid, e: R.Event)
    requires !e.BuildContext?
    ensures SameTurns(s.rows, R.Step(s, owner, e).rows)
  {
    match e
    case Ask(id, sid, topic, created) =>
      if !(R.Running(s.rows) || id in S.Ids(s.rows)) {
        forall i | 0 <= i < |s.rows| ensures s.rows[i].id != id { assert s.rows[i] in s.rows; }
      }
    case Resolve(result) =>
  }

  lemma OrderedMoves(s: State, owner: Uuid, p: nat, e: R.Event)
    requires Ordered(s, owner, p) && !e.BuildContext?
    ensures Ordered(s.(session := R.Step(s.session, owner, e)), owner, p)
  {
    hide R.Prefixed, R.Step, Behind, SameTurns;
    MovesKeepPrefix(s.session, owner, p, e);
    forall k | k in s.held ensures Behind(s.held[k], R.Step(s.session, owner, e).rows, p) {
      BehindOnward(s.held[k], s.session.rows, R.Step(s.session, owner, e).rows, p, p);
    }
  }

  lemma OrderedRead(s: State, owner: Uuid, p: nat, k: nat)
    requires Ordered(s, owner, p)
    ensures Ordered(Step(s, owner, ReadWindow(k)), owner, p)
  {
    hide R.Prefixed, Reads, Behind;
    var s' := Step(s, owner, ReadWindow(k));
    if R.Running(s.session.rows) {
      ReadIsBehind(s.session, owner, p, s.epoch);
      forall j | j in s'.held ensures Behind(s'.held[j], s'.session.rows, p) {
        if j != k { assert Behind(s.held[j], s.session.rows, p); }
      }
    }
  }

  lemma ReadIsBehind(s: R.Session, owner: Uuid, p: nat, epoch: nat)
    requires R.Prefixed(s.rows, owner, p) && R.Running(s.rows)
    ensures Behind(Reads(s, owner, epoch), s.rows, p)
  {
    ReadIsCurrent(s, owner, p, epoch);
    R.PrefixedMeans(s.rows, owner, p);
    ReadQuotes(s, owner, epoch, p);
    hide Reads, Quotes, R.Prefixed, R.Locked;
    var h := Reads(s, owner, epoch);
    assert p <= h.cut && Covers(S.IdSeq(h.folding), s.rows, p, h.cut);
  }

  lemma ReadQuotes(s: R.Session, owner: Uuid, epoch: nat, p: nat)
    requires R.Prefixed(s.rows, owner, p) && R.Running(s.rows)
    ensures Quotes(Reads(s, owner, epoch), s.rows)
  {
    hide R.BuildSession, R.Folding, R.WindowStart, R.Costs, R.Prior, ShownFrom, R.FoldedUpTo, R.GapOrder, Reads;
    hide R.Prefixed, R.Locked, Summary.SummarizeEvicted, R.Topics;
    R.PrefixedMeans(s.rows, owner, p);
    R.FoldingIsTheGap(s.rows, owner, p);
    R.GapOrderIds(s.rows, p, R.WindowStart(R.Prior(s.rows)), ShownFrom(R.Costs(R.Prior(s.rows))));
    BuildFoldsAndQuotes(s, owner, epoch);
    var h := Reads(s, owner, epoch);
    forall t, i | t in h.folding && 0 <= i < |s.rows| && s.rows[i].id == t.id ensures s.rows[i].topic == t.topic {
      var j :| p <= j < ShownFrom(R.Costs(R.Prior(s.rows))) && s.rows[j] == t;
    }
  }

  lemma BuildFoldsAndQuotes(s: R.Session, owner: Uuid, epoch: nat)
    requires R.Running(s.rows)
    ensures var h := Reads(s, owner, epoch);
      && h.folding == R.Folding(s.rows, s.rows[|s.rows| - 1].id)
      && h.text == Summary.SummarizeEvicted(R.Topics(h.folding))
  {
    hide R.Folding, R.Recent, R.Shown, R.Topics, R.Stamp, S.Ids, R.Costs, R.Prior, ShownFrom;
    hide R.PriorTopics, R.PriorPaperIds, Summary.JoinedSummary, Summary.SummarizeEvicted;
  }

  lemma StampSameTurns(rows: seq<TurnRow>, owner: Uuid, ids: set<Uuid>)
    ensures SameTurns(rows, R.Stamp(rows, owner, ids))
  {
  }

  /** Stamping a stretch that begins inside the folded prefix leaves a folded prefix. */
  lemma StampFrom(rows: seq<TurnRow>, owner: Uuid, p: nat, h: Held, from: nat)
    requires R.Locked(rows, owner) && R.FoldedUpTo(rows, p) && from <= p && from <= h.cut <= |rows|
    requires Covers(S.IdSeq(h.folding), rows, from, h.cut)
    ensures R.Locked(R.Stamp(rows, owner, S.Ids(h.folding)), owner)
    ensures R.FoldedUpTo(R.Stamp(rows, owner, S.Ids(h.folding)), if p < h.cut then h.cut else p)
  {
    IdsAreIdSeq(h.folding);
    hide S.Ids, S.IdSeq;
    forall i | 0 <= i < |rows| ensures rows[i].id in S.Ids(h.folding) <==> from <= i < h.cut {
      assert rows[i].id in S.IdSeq(h.folding) <==> exists j :: from <= j < h.cut && rows[j].id == rows[i].id;
    }
  }

  lemma WriteKeepsPrefix(s: R.Session, owner: Uuid, p: nat, h: Held) returns (p': nat)
    requires R.Prefixed(s.rows, owner, p) && Behind(h, s.rows, p)
    ensures p <= p' && h.cut <= p' && R.Prefixed(Fold(s, owner, h).rows, owner, p')
  {
    p' := if p < h.cut then h.cut else p;
    R.PrefixedMeans(s.rows, owner, p);
    hide R.Costs, R.Prior, ShownFrom, R.Stamp, S.Ids, S.IdSeq, R.Locked, R.FoldedUpTo, Covers, Quotes;
    hide Summary.JoinedSummary;
    var from: nat :| from <= p && from <= h.cut && Covers(S.IdSeq(h.folding), s.rows, from, h.cut);
    StampFrom(s.rows, owner, p, h, from);
    StampKeepsPrior(s.rows, owner, S.Ids(h.folding));
  }

  lemma OrderedWrite(s: State, owner: Uuid, p: nat, k: nat) returns (p': nat)
    requires Ordered(s, owner, p) && Writes(s, k)
    ensures p <= p' && s.held[k].cut <= p' && Ordered(Step(s, owner, WriteFold(k)), owner, p')
  {
    hide R.Prefixed, Behind, R.Stamp, SameTurns, S.Ids;
    var h, s' := s.held[k], Step(s, owner, WriteFold(k));
    p' := WriteKeepsPrefix(s.session, owner, p, h);
    Summary.JoinedIsBounded(s.session.summary, h.text);
    hide Summary.JoinedSummary;
    StampSameTurns(s.session.rows, owner, S.Ids(h.folding));
    StampKeepsPrior(s.session.rows, owner, S.Ids(h.folding));
    forall j | j in s'.held ensures Behind(s'.held[j], s'.session.rows, p') {
      assert Behind(s.held[j], s.session.rows, p);
      BehindOnward(s.held[j], s.session.rows, s'.session.rows, p, p');
    }
  }

  lemma OrderedStep(s: State, owner: Uuid, p: nat, e: Event) returns (p': nat)
    requires Ordered(s, owner, p)
    ensures Ordered(Step(s, owner, e), owner, p')
  {
    p' := p;
    match e
    case Ask(id, sid, topic, created) => OrderedMoves(s, owner, p, R.Ask(id, sid, topic, created));
    case Resolve(result) => OrderedMoves(s, owner, p, R.Resolve(result));
    case ReadWindow(k) => OrderedRead(s, owner, p, k);
    case WriteFold(k) =>
      if Writes(s, k) {
        p' := OrderedWrite(s, owner, p, k);
      } else {
        hide R.Prefixed, Behind;
      }
  }

  /** However builds overlap, and however often something is folded: the folded turns are the oldest
      ones, none of them is in the shown suffix, and the summary stays bounded. */
  lemma {:induction false} EveryOverlapIsOrdered(s: State, owner: Uuid, p: nat, es: seq<Event>) returns (p': nat)
    requires Ordered(s, owner, p)
    ensures Ordered(Run(s, owner, es), owner, p')
    decreases |es|
  {
    hide Ordered, Step;
    p' := p;
    if es != [] {
      var mid := OrderedStep(s, owner, p, es[0]);
      p' := EveryOverlapIsOrdered(Step(s, owner, es[0]), owner, mid, es[1..]);
    }
  }

  lemma NewSessionIsOrdered(owner: Uuid)
    ensures Ordered(Start(W.NEW_SESSION), owner, 0)
  {
    W.NewSessionIsSound(owner);
    R.SoundSession(W.NEW_SESSION, owner, 0);
    hide R.Prefixed;
  }

  /** What an executor's build shows is everything from its cut on. */
  lemma ReadShowsTheRest(s: R.Session, owner: Uuid, p: nat, epoch: nat)
    requires R.Prefixed(s.rows, owner, p) && R.Running(s.rows)
    ensures var h := Reads(s, owner, epoch);
      h.cut <= |R.Prior(s.rows)| && R.Shown(s.rows, s.rows[|s.rows| - 1].id) == R.Prior(s.rows)[h.cut..]
  {
    R.PrefixedMeans(s.rows, owner, p);
    R.ShownIsSuffix(s.rows, owner);
    hide R.Shown, R.Folding, R.Recent, R.Costs, ShownFrom;
  }

  predicate FoldedAt(rows: seq<TurnRow>, i: nat) {
    i < |rows| && rows[i].folded
  }

  /** And once its write is through, every question before the cut is folded, whatever else was written
      since the read: nothing falls between even when builds overlap. */
  lemma NothingFallsBetweenInOverlap(s: State, owner: Uuid, p: nat, k: nat, i: nat)
    requires k in s.held && i < s.held[k].cut && i < |s.session.rows| && !Summary.Blank(s.session.rows[i].topic)
    requires Ordered(s, owner, p)
    ensures FoldedAt(Step(s, owner, WriteFold(k)).session.rows, i)
  {
    hide Ordered, Step, R.Prefixed, Summary.Blank, Behind;
    OrderedMeans(s, owner, p, k);
    if Writes(s, k) {
      var p' := OrderedWrite(s, owner, p, k);
      WriteKeepsLength(s, owner, k);
      OrderedFolds(Step(s, owner, WriteFold(k)), owner, p', i);
    } else {
      NoWriteNoChange(s, owner, k);
      if i < p {
        OrderedFolds(s, owner, p, i);
      } else {
        BlankStretch(s.held[k], s.session.rows, p, i);
      }
    }
  }

  lemma OrderedMeans(s: State, owner: Uuid, p: nat, k: nat)
    requires Ordered(s, owner, p) && k in s.held
    ensures Behind(s.held[k], s.session.rows, p) && s.held[k].cut <= |s.session.rows|
  {
    hide R.Prefixed;
  }

  lemma OrderedFolds(s: State, owner: Uuid, p: nat, i: nat)
    requires Ordered(s, owner, p) && i < p && i < |s.session.rows|
    ensures s.session.rows[i].folded
  {
    R.PrefixedMeans(s.session.rows, owner, p);
    hide R.Prefixed, Behind, R.Costs, R.Prior, ShownFrom;
  }

  lemma WriteKeepsLength(s: State, owner: Uuid, k: nat)
    ensures |Step(s, owner, WriteFold(k)).session.rows| == |s.session.rows|
  {
    hide Summary.JoinedSummary, S.Ids;
  }

  lemma NoWriteNoChange(s: State, owner: Uuid, k: nat)
    requires !Writes(s, k)
    ensures Step(s, owner, WriteFold(k)).session == s.session
  {
  }

  lemma BlankStretch(h: Held, rows: seq<TurnRow>, p: nat, i: nat)
    requires Behind(h, rows, p) && h.text == "" && p <= i < h.cut
    ensures Summary.Blank(rows[i].topic)
  {
    hide Summary.SummarizeEvicted, Summary.Blank, R.Costs, R.Prior, ShownFrom;
    var from: nat :| from <= p && from <= h.cut && Covers(S.IdSeq(h.folding), rows, from, h.cut);
    assert rows[i].id in S.IdSeq(h.folding);
    var j :| 0 <= j < |h.folding| && S.IdSeq(h.folding)[j] == rows[i].id;
    assert h.folding[j] in h.folding;
    Summary.NothingToFold(R.Topics(h.folding));
    assert R.Topics(h.folding)[j] == rows[i].topic;
  }

  /** So the two stores agree on the turns outside the window of every session, overlap or not. */
  lemma StoresAgreeInOverlap(owner: Uuid, es: seq<Event>, keep: nat)
    ensures var rows := Run(Start(W.NEW_SESSION), owner, es).session.rows;
      DropLast(Filter(Mem.Unfolded(), rows), keep) == Filter(Mem.Unfolded(), DropLast(rows, keep))
  {
    NewSessionIsOrdered(owner);
    hide Run, Filter, DropLast, R.Prefixed, Behind;
    var p := EveryOverlapIsOrdered(Start(W.NEW_SESSION), owner, 0, es);
    R.StoresAgreeOnReachableSessions(Run(Start(W.NEW_SESSION), owner, es).session, owner, p, keep);
  }
}
