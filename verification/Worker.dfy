/** The two executors of a turn: the queue worker with at-least-once delivery (worker.py) and the
    in-process thread (executor.py). Every touch of the store is one short transaction that may
    fail before or after its commit, and other tasks may act between any two of them. */
module Worker {
  import opened EvidenceModels
  import S = TurnStore
  import RunContext
  import CheckpointPruning
  import Protocol = TurnProtocol

  // ---------------------------------------------------------------- rely

  /** What other tasks may do in between: evolve rows and add turns, never under an id already
      issued. Every run of the turn protocol evolves its store. */
  ghost predicate Rely(a: S.Store, b: S.Store, issued: set<Uuid>) {
    && S.Inv(b) && S.Evolves(a, b)
    && forall i | |a.turns| <= i < |b.turns| :: b.turns[i].id !in issued
  }

  lemma RelyTransitive(a: S.Store, b: S.Store, c: S.Store, issued: set<Uuid>)
    requires Rely(a, b, issued) && Rely(b, c, issued)
    ensures Rely(a, c, issued)
  {
    S.EvolvesTransitive(a, b, c);
    forall i | |a.turns| <= i < |c.turns| ensures c.turns[i].id !in issued {
      if i < |b.turns| {
        assert S.RowEvolves(b.turns[i], c.turns[i]);
      }
    }
  }

  /** Every run of the turn protocol is such interference for the turns that exist when it starts. */
  lemma ProtocolRunsAreRely(s: Protocol.State, es: seq<Protocol.Event>, issued: set<Uuid>)
    requires Protocol.Safe(s)
    requires forall tid | tid in issued :: S.IndexOf(s.store.turns, tid) < |s.store.turns|
    ensures Rely(s.store, Protocol.Run(s, es).store, issued)
  {
    var a, b := s.store, Protocol.Run(s, es).store;
    Protocol.EveryRunIsSafe(s, es);
    assert S.DistinctIds(b.turns) && S.Evolves(a, b);
    forall tid | tid in issued
      ensures forall i | |a.turns| <= i < |b.turns| :: b.turns[i].id != tid
    {
      var k := S.IndexOf(a.turns, tid);
      assert S.RowEvolves(a.turns[k], b.turns[k]);
      assert b.turns[k].id == tid;
    }
  }

  /** The owner's turn is terminal or absent. */
  predicate Settled(st: S.Store, owner: Uuid, tid: Uuid) {
    match S.GetTurn(st, owner, tid)
    case None => true
    case Some(t) => t.result != Pending
  }

  lemma SettledIsStable(a: S.Store, b: S.Store, issued: set<Uuid>, owner: Uuid, tid: Uuid)
    requires Rely(a, b, issued) && tid in issued && Settled(a, owner, tid)
    ensures Settled(b, owner, tid)
  {
    var k, j := S.IndexOf(a.turns, tid), S.IndexOf(b.turns, tid);
    if j < |b.turns| {
      if j < |a.turns| {
        assert S.RowEvolves(a.turns[j], b.turns[j]);
        S.SameIndex(a.turns, b.turns[..|a.turns|], tid);
        assert k <= j;
        assert S.RowEvolves(a.turns[k], b.turns[k]);
      }
    }
  }

  // ---------------------------------------------------------------- transactions

  datatype Fault = Healthy | FailsBeforeCommit | FailsAfterCommit

  datatype Prepared = Raised | NothingToRun | Ready(context: RunContext.Context)

  /** What storage does to the next transaction, and to the ones after it; healthy in the end. */
  function Next(faults: seq<Fault>): Fault { if faults == [] then Healthy else faults[0] }
  function Rest(faults: seq<Fault>): seq<Fault> { if faults == [] then [] else faults[1..] }

  predicate AllHealthy(faults: seq<Fault>) { forall i | 0 <= i < |faults| :: faults[i] == Healthy }

  lemma HealthyNext(faults: seq<Fault>)
    ensures AllHealthy(faults) ==> Next(faults) == Healthy && AllHealthy(Rest(faults))
  {
  }

  class Database {
    var store: S.Store
    var now: nat
    var faults: seq<Fault>         // what storage will do, transaction by transaction
    const quiet: bool              // nobody else is at work, and no time passes
    const issued: set<Uuid>

    ghost predicate Valid()
      reads this
    {
      S.Inv(store)
    }

    constructor (st: S.Store, issued: set<Uuid>, quiet: bool, faults: seq<Fault>)
      requires S.Inv(st)
      ensures Valid() && store == st && this.issued == issued && this.quiet == quiet && this.faults == faults
    {
      store, now, this.faults := st, 0, faults;
      this.quiet, this.issued := quiet, issued;
    }

    /** Whatever the rest of the system does here. */
    method Interfere()
      requires Valid()
      modifies this`store, this`now
      ensures Valid() && Rely(old(store), store, issued)
      ensures quiet ==> store == old(store) && now == old(now)
    {
      SelfRely();
    }

    lemma SelfRely()
      requires Valid()
      ensures Rely(store, store, issued)
    {
    }

    /** `in_transaction`: the write is kept, or dropped whole; a failing commit may do either. */
    method Commit(after: S.Store) returns (ok: bool)
      requires Valid() && Rely(store, after, issued)
      modifies this`store, this`faults
      ensures Valid() && Rely(old(store), store, issued)
      ensures ok <==> Next(old(faults)) == Healthy
      ensures store == (if Next(old(faults)) == FailsBeforeCommit then old(store) else after)
      ensures faults == Rest(old(faults))
    {
      SelfRely();
      var f := Next(faults);
      faults := Rest(faults);
      if f == FailsBeforeCommit { return false; }
      store := after;
      return f == Healthy;
    }

    /** `TurnControl.finish`: the one control call whose failure is not swallowed. `seen` is the store
        its transaction finds. */
    method Finish(owner: Uuid, tid: Uuid, result: Terminal) returns (ok: bool, ghost seen: S.Store)
      requires Valid()
      modifies this
      ensures Valid() && Rely(old(store), store, issued) && Rely(old(store), seen, issued)
      ensures quiet ==> seen == old(store) && now == old(now)
      ensures ok <==> Next(old(faults)) == Healthy
      ensures ok ==> store == S.UpdateTurnResult(seen, owner, tid, result) && Settled(store, owner, tid)
      ensures faults == Rest(old(faults))
    {
      Interfere();
      seen := store;
      S.UpdateTurnResultSafe(store, owner, tid, result);
      S.UpdateCloses(store, owner, tid, result);
      ok := Commit(S.UpdateTurnResult(store, owner, tid, result));
      RelyTransitive(old(store), seen, store, issued);
    }

    /** `TurnControl.heartbeat`: a failure reads as "not cancelled". */
    method Heartbeat(owner: Uuid, tid: Uuid) returns (cancel: bool, ghost seen: S.Store)
      requires Valid()
      modifies this
      ensures Valid() && Rely(old(store), store, issued) && Rely(old(store), seen, issued)
      ensures quiet ==> seen == old(store) && now == old(now)
      ensures faults == Rest(old(faults))
      ensures match S.Heartbeat(seen, owner, tid, now)
              case None => !cancel && store == seen
              case Some(answer) =>
                && (cancel <==> answer.0 && Next(old(faults)) == Healthy)
                && store == if Next(old(faults)) == FailsBeforeCommit then seen else answer.1
    {
      Interfere();
      seen := store;
      match S.Heartbeat(store, owner, tid, now) {
        case None =>
          faults := Rest(faults);
          return false, seen;
        case Some(answer) =>
          S.HeartbeatSafe(store, owner, tid, now);
          var ok := Commit(answer.1);
          RelyTransitive(old(store), seen, store, issued);
          return ok && answer.0, seen;
      }
    }

    /** `_prepare_turn`: the three ways not to run all leave the turn settled. */
    method Prepare(owner: Uuid, sid: Uuid, tid: Uuid) returns (p: Prepared, ghost seen: S.Store)
      requires Valid() && tid in issued
      modifies this
      ensures Valid() && Rely(old(store), store, issued) && Rely(old(store), seen, issued)
      ensures quiet ==> seen == old(store) && now == old(now)
      ensures faults == Rest(old(faults)) && (p.Raised? <==> Next(old(faults)) != Healthy)
      ensures p.NothingToRun? ==> Settled(store, owner, tid)
      ensures Settled(old(store), owner, tid) ==> !p.Ready?
      ensures !p.Raised? ==>
        if S.GetSession(seen, owner, sid).None?
        then p == NothingToRun && store == S.UpdateTurnResult(seen, owner, tid, Error("session_unavailable"))
        else if Settled(seen, owner, tid) then p == NothingToRun && store == seen
        else var (built, context) := RunContext.BuildStore(seen, owner, sid, tid);
             p == Ready(context) && store == built
    {
      Interfere();
      seen := store;
      if Settled(old(store), owner, tid) { SettledIsStable(old(store), store, issued, owner, tid); }
      if S.GetSession(store, owner, sid).None? {
        S.UpdateTurnResultSafe(store, owner, tid, Error("session_unavailable"));
        S.UpdateCloses(store, owner, tid, Error("session_unavailable"));
        var ok := Commit(S.UpdateTurnResult(store, owner, tid, Error("session_unavailable")));
        RelyTransitive(old(store), seen, store, issued);
        return if ok then NothingToRun else Raised, seen;
      }
      if S.GetTurn(store, owner, tid).None? || S.GetTurn(store, owner, tid).value.result != Pending {
        SelfRely();
        var ok := Commit(store);
        return if ok then NothingToRun else Raised, seen;
      }
      var built := RunContext.BuildStore(store, owner, sid, tid);
      RunContext.BuildStoreSafe(store, owner, sid, tid);
      var ok := Commit(built.0);
      RelyTransitive(old(store), seen, store, issued);
      return if ok then Ready(built.1) else Raised, seen;
    }

    /** `_prune_checkpoints`: two transactions, every error swallowed. */
    method PruneCheckpoints(cutoff: nat)
      requires Valid()
      modifies this
      ensures Valid() && Rely(old(store), store, issued)
      ensures AllHealthy(old(faults)) ==> AllHealthy(faults)
      ensures quiet && AllHealthy(old(faults)) ==> store == CheckpointPruning.Pass(old(store), cutoff)
    {
      HealthyNext(faults);
      HealthyNext(Rest(faults));
      Interfere();
      label L:
      var expired := CheckpointPruning.Expired(store, cutoff);
      SelfRely();
      var ok := Commit(store);
      if !ok || expired == [] { return; }
      Interfere();
      RelyTransitive(old(store), old@L(store), store, issued);
      label M:
      S.MarkCheckpointsPrunedSafe(store, S.Ids(expired));
      var _ := Commit(S.MarkCheckpointsPruned(store, S.Ids(expired)));
      RelyTransitive(old(store), old@M(store), store, issued);
    }
  }

  // ---------------------------------------------------------------- one job

  datatype JobEnd = Returned | JobProcessingFailed | OtherException

  /** What the runner makes of the context it is given: a result that is not pending, or it raises. */
  type Runner = RunContext.Context -> Option<Terminal>

  /** How far the job came, and the store its finishing transaction found. */
  datatype Course =
    | NotReady
    | CancelledFirst(seen: S.Store)
    | RunnerGot(context: RunContext.Context, seen: S.Store)

  /** What the job has to write. */
  function Verdict(course: Course, runner: Runner): Terminal
    requires !course.NotReady?
  {
    match course
    case CancelledFirst(_) => Abstain("cancelled")
    case RunnerGot(context, _) => if runner(context).Some? then runner(context).value else Error("internal_error")
  }

  /** The owner's row holds that result, unless it was closed before. */
  ghost predicate Holds(before: S.Store, after: S.Store, owner: Uuid, tid: Uuid, result: Terminal) {
    var was, row := S.GetTurn(before, owner, tid), S.GetTurn(after, owner, tid);
    was.Some? ==> row.Some? && row.value.result == if was.value.result == Pending then result else was.value.result
  }

  lemma HoldsLater(before: S.Store, mid: S.Store, after: S.Store, owner: Uuid, tid: Uuid, result: Terminal,
                   issued: set<Uuid>)
    requires mid == S.UpdateTurnResult(before, owner, tid, result) && Rely(mid, after, issued)
    ensures Holds(before, after, owner, tid, result)
  {
    if S.GetTurn(before, owner, tid).Some? {
      S.ResultRow(before, owner, tid, result);
      Protocol.GetTurnEvolves(mid, after, owner, tid);
    }
  }

  /** The build leaves the cancel flag of the turn it is for alone, so the heartbeat after it answers
      what was asked before. */
  lemma BeatAfterBuild(st: S.Store, owner: Uuid, sid: Uuid, tid: Uuid, now: nat)
    requires S.Inv(st) && S.GetTurn(st, owner, tid).Some?
    ensures var beaten := S.Heartbeat(RunContext.BuildStore(st, owner, sid, tid).0, owner, tid, now);
      beaten.Some? && beaten.value.0 == S.GetTurn(st, owner, tid).value.cancelRequested
  {
    hide RunContext.BuildStore;
    var built := RunContext.BuildStore(st, owner, sid, tid).0;
    RunContext.BuildOnlyFolds(st, owner, sid, tid);
    S.SameIndex(st.turns, built.turns, tid);
  }

  /** The same job in a system at rest: what it leaves, how it ends and whether the runner was started. */
  ghost predicate AtRest(st: S.Store, owner: Uuid, sid: Uuid, tid: Uuid, now: nat, cutoff: nat, runner: Runner,
                         after: S.Store, end: JobEnd, started: bool)
  {
    if S.GetSession(st, owner, sid).None? then
      after == S.UpdateTurnResult(st, owner, tid, Error("session_unavailable")) && end == Returned && !started
    else if S.GetTurn(st, owner, tid).None? || S.GetTurn(st, owner, tid).value.result != Pending then
      after == st && end == Returned && !started
    else
      var (built, context) := RunContext.BuildStore(st, owner, sid, tid);
      var beaten := S.Heartbeat(built, owner, tid, now);
      beaten.Some? && beaten.value.0 == S.GetTurn(st, owner, tid).value.cancelRequested &&
      if beaten.value.0 then
        after == S.UpdateTurnResult(beaten.value.1, owner, tid, Abstain("cancelled")) && end == Returned && !started
      else match runner(context)
        case None =>
          after == S.UpdateTurnResult(beaten.value.1, owner, tid, Error("internal_error"))
          && end == JobProcessingFailed && started
        case Some(result) =>
          after == CheckpointPruning.Pass(S.UpdateTurnResult(beaten.value.1, owner, tid, result), cutoff)
          && end == Returned && started
  }

  /** `process_job`. Unless an exception leaves it, the turn is settled, and with what: the runner's
      result, an error when it raised, or the cancellation, whatever other tasks and storage do; a turn
      that was settled on entry is never run. Alone on healthy storage the job leaves exactly that. */
  method ProcessJob(db: Database, owner: Uuid, sid: Uuid, tid: Uuid, cutoff: nat, runner: Runner)
    returns (end: JobEnd, started: bool, ghost course: Course)
    requires db.Valid() && tid in db.issued
    modifies db
    ensures db.Valid() && Rely(old(db.store), db.store, db.issued)
    ensures end != OtherException ==> Settled(db.store, owner, tid)
    ensures Settled(old(db.store), owner, tid) ==> !started
    ensures started <==> course.RunnerGot?
    ensures !course.NotReady? ==> Rely(old(db.store), course.seen, db.issued)
    ensures !course.NotReady? && end != OtherException ==>
      Holds(course.seen, db.store, owner, tid, Verdict(course, runner))
    ensures started && end != OtherException ==> (end == JobProcessingFailed <==> runner(course.context).None?)
    ensures !started ==> end != JobProcessingFailed
    ensures AllHealthy(old(db.faults)) ==> end != OtherException && AllHealthy(db.faults)
    ensures db.quiet && AllHealthy(old(db.faults)) ==>
      AtRest(old(db.store), owner, sid, tid, old(db.now), cutoff, runner, db.store, end, started)
  {
    hide S.Inv, S.Evolves, Rely, Holds, RunContext.BuildStore, CheckpointPruning.Pass, S.UpdateTurnResult, S.Heartbeat;
    ghost var seen;
    HealthyNext(db.faults);
    HealthyNext(Rest(db.faults));
    HealthyNext(Rest(Rest(db.faults)));
    hide AllHealthy, Next, Rest;
    started, course := false, NotReady;
    var p;
    p, seen := db.Prepare(owner, sid, tid);
    if p.Raised? { return OtherException, started, course; }
    if p.NothingToRun? { return Returned, started, course; }
    label Prepared:
    BeatAfterBuild(seen, owner, sid, tid, db.now);
    var cancelled;
    cancelled, seen := db.Heartbeat(owner, tid);
    RelyTransitive(old(db.store), old@Prepared(db.store), db.store, db.issued);
    label Beaten:
    if cancelled {
      var closed;
      closed, seen := db.Finish(owner, tid, Abstain("cancelled"));
      course := CancelledFirst(seen);
      RelyTransitive(old(db.store), old@Beaten(db.store), seen, db.issued);
      RelyTransitive(old(db.store), old@Beaten(db.store), db.store, db.issued);
      if closed { db.SelfRely(); HoldsLater(seen, db.store, db.store, owner, tid, Abstain("cancelled"), db.issued); }
      return if closed then Returned else OtherException, started, course;
    }
    started := true;
    var result := runner(p.context);
    var finished;
    finished, seen := db.Finish(owner, tid, if result.Some? then result.value else Error("internal_error"));
    course := RunnerGot(p.context, seen);
    RelyTransitive(old(db.store), old@Beaten(db.store), seen, db.issued);
    RelyTransitive(old(db.store), old@Beaten(db.store), db.store, db.issued);
    if !finished { return OtherException, started, course; }
    label Finished:
    db.SelfRely();
    if result.None? {
      HoldsLater(seen, db.store, db.store, owner, tid, Verdict(course, runner), db.issued);
      return JobProcessingFailed, started, course;
    }
    db.PruneCheckpoints(cutoff);
    RelyTransitive(old(db.store), old@Finished(db.store), db.store, db.issued);
    SettledIsStable(old@Finished(db.store), db.store, db.issued, owner, tid);
    HoldsLater(seen, old@Finished(db.store), db.store, owner, tid, Verdict(course, runner), db.issued);
    return Returned, started, course;
  }

  // ---------------------------------------------------------------- the queue worker

  /** A decoded message body; a field that is missing or of the wrong shape is None. */
  datatype Payload = Payload(
    owner: Option<Uuid>, session: Option<Uuid>, turn: Option<Uuid>, topic: string, attachmentsOk: bool)

  datatype Job = Job(owner: Uuid, session: Option<Uuid>, turn: Uuid)

  /** `parse_sqs_payload`: None is InvalidWorkerPayload. */
  function ParsePayload(p: Payload): (job: Option<Job>)
    ensures job.Some? <==> p.owner.Some? && p.turn.Some? && p.topic != "" && p.attachmentsOk
    ensures job.Some? ==> job.value == Job(p.owner.value, p.session, p.turn.value)
  {
    if p.owner.None? || p.turn.None? || p.topic == "" || !p.attachmentsOk then None
    else Some(Job(p.owner.value, p.session, p.turn.value))
  }

  /** The session id no session has: a payload without one names the empty string. */
  function SessionOf(job: Job, none: Uuid): Uuid {
    if job.session.Some? then job.session.value else none
  }

  method ProcessPayload(db: Database, p: Payload, noSession: Uuid, cutoff: nat, runner: Runner) returns (end: JobEnd)
    requires db.Valid() && (ParsePayload(p).Some? ==> ParsePayload(p).value.turn in db.issued)
    modifies db
    ensures db.Valid() && Rely(old(db.store), db.store, db.issued)
    ensures end != OtherException ==> DoneWith(db.store, p)
    ensures AllHealthy(old(db.faults)) ==>
      AllHealthy(db.faults) && (end == OtherException <==> ParsePayload(p).None?)
    ensures ParsePayload(p).None? ==> db.store == old(db.store) && db.faults == old(db.faults)
    ensures db.quiet && AllHealthy(old(db.faults)) && ParsePayload(p).Some? ==>
      var job := ParsePayload(p).value;
      exists started :: AtRest(old(db.store), job.owner, SessionOf(job, noSession), job.turn, old(db.now), cutoff,
                               runner, db.store, end, started)
  {
    hide AtRest;
    db.SelfRely();
    match ParsePayload(p) {
      case None => return OtherException;
      case Some(job) =>
        var started;
        ghost var course;
        end, started, course := ProcessJob(db, job.owner, SessionOf(job, noSession), job.turn, cutoff, runner);
    }
  }

  ghost predicate DoneWith(st: S.Store, p: Payload) {
    ParsePayload(p).Some? && Settled(st, ParsePayload(p).value.owner, ParsePayload(p).value.turn)
  }

  lemma AckedStayDone(a: S.Store, b: S.Store, issued: set<Uuid>, acked: seq<Payload>)
    requires Rely(a, b, issued)
    requires forall p | p in acked :: DoneWith(a, p) && ParsePayload(p).value.turn in issued
    ensures forall p | p in acked :: DoneWith(b, p)
  {
    forall p | p in acked ensures DoneWith(b, p) {
      SettledIsStable(a, b, issued, ParsePayload(p).value.owner, ParsePayload(p).value.turn);
    }
  }

  function Flatten(batches: seq<seq<Payload>>): seq<Payload> {
    if batches == [] then [] else Flatten(batches[..|batches| - 1]) + batches[|batches| - 1]
  }

  lemma FlattenSnoc(batches: seq<seq<Payload>>, b: nat)
    requires b < |batches|
    ensures Flatten(batches[..b + 1]) == Flatten(batches[..b]) + batches[b]
  {
    assert batches[..b + 1][..b] == batches[..b];
  }

  lemma {:induction false} FlattenPrefix(batches: seq<seq<Payload>>, b: nat)
    requires b <= |batches|
    ensures Flatten(batches[..b]) <= Flatten(batches)
    decreases |batches| - b
  {
    if b < |batches| {
      FlattenSnoc(batches, b);
      FlattenPrefix(batches, b + 1);
    } else {
      assert batches[..b] == batches;
    }
  }

  /** Which messages were handed to `process_job` and how each ended. */
  type Log = seq<(Payload, JobEnd)>

  function Handled(log: Log): seq<Payload> {
    seq(|log|, i requires 0 <= i < |log| => log[i].0)
  }

  function AckedIn(log: Log): seq<Payload> {
    if log == [] then []
    else AckedIn(log[..|log| - 1]) + (if log[|log| - 1].1 == OtherException then [] else [log[|log| - 1].0])
  }

  lemma EmptyLog()
    ensures Handled([]) == [] && AckedIn([]) == [] && Unparsed([])
  {
  }

  lemma LogSnoc(log: Log, message: Payload, end: JobEnd)
    ensures Handled(log + [(message, end)]) == Handled(log) + [message]
    ensures AckedIn(log + [(message, end)]) == AckedIn(log) + (if end == OtherException then [] else [message])
    ensures Unparsed(log) && (end == OtherException <==> ParsePayload(message).None?) ==>
      Unparsed(log + [(message, end)])
  {
    assert (log + [(message, end)])[..|log|] == log;
  }

  /** What the runner would make of the n-th message's turn. */
  type Runners = nat -> Runner

  /** `should_stop()` at its n-th call, when the signal comes after the first `patience` calls. */
  predicate ShouldStop(n: nat, patience: nat) { n >= patience }

  ghost predicate Unparsed(log: Log) {
    forall i | 0 <= i < |log| :: log[i].1 == OtherException <==> ParsePayload(log[i].0).None?
  }

  /** Exactly the messages no unexpected exception left were acknowledged, and their turns are settled. */
  ghost predicate Kept(st: S.Store, issued: set<Uuid>, acked: seq<Payload>, log: Log) {
    && acked == AckedIn(log)
    && forall p | p in acked :: DoneWith(st, p) && ParsePayload(p).value.turn in issued
  }

  lemma KeptOnward(a: S.Store, b: S.Store, issued: set<Uuid>, acked: seq<Payload>, log: Log, message: Payload,
                   end: JobEnd)
    requires Kept(a, issued, acked, log) && Rely(a, b, issued)
    requires end != OtherException ==> DoneWith(b, message) && ParsePayload(message).value.turn in issued
    ensures Kept(b, issued, if end == OtherException then acked else acked + [message], log + [(message, end)])
  {
    hide Rely, Settled, ParsePayload, AckedIn;
    AckedStayDone(a, b, issued, acked);
    LogSnoc(log, message, end);
  }

  /** One batch: its messages in order, up to the one after whose acknowledgement the signal is seen. */
  method RunBatch(db: Database, batch: seq<Payload>, noSession: Uuid, cutoff: nat, runners: Runners, patience: nat,
                  acked0: seq<Payload>, log0: Log, calls0: nat)
    returns (acked: seq<Payload>, log: Log, calls: nat, stop: bool)
    requires db.Valid() && Kept(db.store, db.issued, acked0, log0) && |acked0| < calls0 <= patience
    requires forall p | p in batch && ParsePayload(p).Some? :: ParsePayload(p).value.turn in db.issued
    modifies db
    ensures db.Valid() && Rely(old(db.store), db.store, db.issued) && Kept(db.store, db.issued, acked, log)
    ensures Handled(log) <= Handled(log0) + batch && (!stop ==> Handled(log) == Handled(log0) + batch)
    ensures |acked| < calls <= calls0 + |Handled(log)| - |Handled(log0)| && |acked| <= patience
    ensures stop <==> calls > patience
    ensures AllHealthy(old(db.faults)) && Unparsed(log0) ==> AllHealthy(db.faults) && Unparsed(log)
  {
    hide Settled, Rely, S.Inv, ParsePayload, Handled, AllHealthy, Unparsed, Kept, DoneWith;
    acked, log, calls, stop := acked0, log0, calls0, false;
    db.SelfRely();
    var m := 0;
    while m < |batch|
      invariant 0 <= m <= |batch| && db.Valid() && Rely(old(db.store), db.store, db.issued)
      invariant Kept(db.store, db.issued, acked, log) && Handled(log) == Handled(log0) + batch[..m]
      invariant |acked| < calls <= patience && calls <= calls0 + m && !stop
      invariant AllHealthy(old(db.faults)) && Unparsed(log0) ==> AllHealthy(db.faults) && Unparsed(log)
    {
      label Next:
      var message := batch[m];
      var end := ProcessPayload(db, message, noSession, cutoff, runners(|log|));
      RelyTransitive(old(db.store), old@Next(db.store), db.store, db.issued);
      DoneMeansParsed(db.store, message);
      KeptOnward(old@Next(db.store), db.store, db.issued, acked, log, message, end);
      LogSnoc(log, message, end);
      log := log + [(message, end)];
      m := m + 1;
      if end == OtherException { continue; }
      acked := acked + [message];
      stop, calls := ShouldStop(calls, patience), calls + 1;
      if stop { break; }
    }
  }

  lemma DoneMeansParsed(st: S.Store, p: Payload)
    ensures DoneWith(st, p) ==> ParsePayload(p).Some?
  {
  }

  /** `run_worker` over the batches it receives until it is told to stop. Messages are handled in
      order, all of them unless the stop signal comes, which lets no more than `patience` be
      acknowledged; exactly those that no unexpected exception left are acknowledged, which on healthy
      storage are all that can be parsed; and whatever storage does and however often a message is
      redelivered, an acknowledged message's turn is settled. */
  method RunWorker(db: Database, batches: seq<seq<Payload>>, noSession: Uuid, cutoff: nat, runners: Runners,
                   patience: nat)
    returns (acked: seq<Payload>, log: Log)
    requires db.Valid()
    requires forall p | p in Flatten(batches) && ParsePayload(p).Some? :: ParsePayload(p).value.turn in db.issued
    modifies db
    ensures db.Valid() && Rely(old(db.store), db.store, db.issued)
    ensures Handled(log) <= Flatten(batches) && acked == AckedIn(log) && |acked| <= patience
    ensures patience > |batches| + |Flatten(batches)| ==> Handled(log) == Flatten(batches)
    ensures forall p | p in acked :: DoneWith(db.store, p)
    ensures AllHealthy(old(db.faults)) ==> Unparsed(log)
  {
    hide Settled, Rely, S.Inv, ParsePayload, Handled, AckedIn, AllHealthy, Unparsed;
    acked, log := [], [];
    EmptyLog();
    db.SelfRely();
    var stop, calls := ShouldStop(0, patience), 1;
    var b := 0;
    while b < |batches| && !stop
      invariant 0 <= b <= |batches| && db.Valid() && Rely(old(db.store), db.store, db.issued)
      invariant Handled(log) <= Flatten(batches) && (!stop ==> Handled(log) == Flatten(batches[..b]))
      invariant Kept(db.store, db.issued, acked, log) && calls <= 1 + b + |Handled(log)|
      invariant |acked| < calls && |acked| <= patience && (stop <==> calls > patience)
      invariant AllHealthy(old(db.faults)) ==> AllHealthy(db.faults) && Unparsed(log)
    {
      label Next:
      FlattenSnoc(batches, b);
      FlattenPrefix(batches, b + 1);
      PartOfFlatten(batches, b);
      acked, log, calls, stop := RunBatch(db, batches[b], noSession, cutoff, runners, patience, acked, log, calls);
      RelyTransitive(old(db.store), old@Next(db.store), db.store, db.issued);
      b := b + 1;
      if !stop { stop, calls := ShouldStop(calls, patience), calls + 1; }
    }
    assert batches[..|batches|] == batches;
  }

  lemma PartOfFlatten(batches: seq<seq<Payload>>, b: nat)
    requires b < |batches|
    ensures forall p | p in batches[b] :: p in Flatten(batches)
  {
    FlattenSnoc(batches, b);
    FlattenPrefix(batches, b + 1);
    forall p | p in batches[b] ensures p in Flatten(batches) {
      var m :| 0 <= m < |batches[b]| && batches[b][m] == p;
      assert Flatten(batches)[|Flatten(batches[..b])| + m] == p;
    }
  }

  // ---------------------------------------------------------------- the local executor

  /** `LocalTurnExecutor._run`: after any exception the turn is closed as an error, so it is left
      pending only when that last write failed too or the payload names no owner or turn. */
  method RunLocal(db: Database, p: Payload, noSession: Uuid, cutoff: nat, runner: Runner)
    returns (fallbackFailed: bool)
    requires db.Valid() && (p.turn.Some? ==> p.turn.value in db.issued)
    modifies db
    ensures db.Valid() && Rely(old(db.store), db.store, db.issued)
    ensures p.owner.Some? && p.turn.Some? && !fallbackFailed ==> Settled(db.store, p.owner.value, p.turn.value)
    ensures AllHealthy(old(db.faults)) ==> !fallbackFailed
    ensures db.quiet && AllHealthy(old(db.faults)) && ParsePayload(p).None? && p.owner.Some? && p.turn.Some? ==>
      db.store == S.UpdateTurnResult(old(db.store), p.owner.value, p.turn.value, Error("internal_error"))
  {
    fallbackFailed := false;
    HealthyNext(db.faults);
    var end := ProcessPayload(db, p, noSession, cutoff, runner);
    if end == Returned { return; }
    if p.owner.None? || p.turn.None? { return; }
    label Raised:
    HealthyNext(db.faults);
    var ok;
    ghost var seen;
    ok, seen := db.Finish(p.owner.value, p.turn.value, Error("internal_error"));
    RelyTransitive(old(db.store), old@Raised(db.store), db.store, db.issued);
    fallbackFailed := !ok;
  }
}
