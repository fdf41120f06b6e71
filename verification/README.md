# Verified model of the evidence turn protocol, the rate limiters, the math text pipeline and the corpus selector

This project restates, in Dafny, the parts of the repository whose correctness depends on
interleaving, on bookkeeping over long runs, or on arithmetic, and proves what they are meant to
guarantee. `dafny verify dfyconfig.toml` checks all of it.

## What is modelled

**The evidence turn.** A question becomes a committed `pending` row; an executor runs it; any reader
may close it as an orphan; a stream tails it; later turns fold it into the session summary.

* `TurnStore` is the database: every SQL operation as a function from rows to rows, with the partial
  unique index and the conditional UPDATE. `InMemoryRepository` is the dictionary-of-lists store as a
  class; its ghost field `sql` is the database it must be indistinguishable from, and each method is
  proved to be the corresponding `TurnStore` function.
* `TurnProtocol` is a step relation: API tasks (load or create the session, look for an active turn,
  close a stale one, insert, dispatch), executors (heartbeat, finish), polls, cancellation, folding,
  pruning, deletion and the clock, one transaction per event, in any order. Whatever a service object
  holds is a copy of a row, which is how the SQL store behaves.
* `StoreQueries` says what each listing returns turn by turn, and `TurnGuarantees` what the protocol
  promises its users over whole runs.
* `Worker` is the queue consumer and the local thread as methods over a `Database` whose every
  transaction may fail before or after its commit, as a list of faults says, and between whose
  transactions anything in `Rely` may happen unless the system is at rest.
* `EventStream` is the polling stream with its cursor, dropped connections and reconnects: what a client
  holds at any point, and that the result does reach it.
* `TokenBudget`, `RunContext` and `SessionSummary` are the context build: the budgeted suffix shown in
  full, the folding of what falls out, and the 4000-character summary. `SessionProjection` proves that
  what the whole protocol does to one session is such a run; `ConcurrentBuilds` splits a build into its
  read and its write and lets builds overlap; `SessionWitnesses` holds sessions that are really reached.
  `CheckpointPruning` is the amortised clean-up.

**The rate limiters.** `SlidingWindow` is a class with the lazy trimming, the LRU eviction and the
sweep of the source; its ghost log is what it is compared against. `FixedWindow` is the limiter with
refunds, and the daily quota `create_turn` spends through it.

**The math text pipeline.** `MathScanner` finds formulas in prose; `DelimGroups` reads balanced
groups; `MathRewriters` cuts leaked references and unwraps boxes, with the two regular expressions
written out; `CommandGrammar` describes the commands and their arguments without either; `RenderCache`
memoizes a stateful engine.

**The corpus selector.** `CanonSelection` is the capped greedy fill, its backfill and the band quotas.

## Findings

Where the code does not do what its comments, its twin or a natural reading say, the code is modelled,
a lemma shows an input on which it happens, and another says exactly when.

* The in-memory `unsummarized_before` drops the last `keep` turns and then filters; the SQL form
  filters and then skips `keep` rows. `OffsetAgreement` says exactly when they agree,
  `OffsetCounterexample` shows they part, `StoresAgreeOnReachableSessions` and
  `StoresAgreeInOverlap` that no session run gets there, whether or not builds overlap.
* In memory, `recent_turns` with limit 0 returns every turn (`s[-0:]`) and SQL none; `expired_turn_ids`
  takes the first 200 due turns in dict order and SQL the oldest 200; `list_trace_after` keeps insertion
  order and SQL sorts; `add_turn` keeps a foreign owner and SQL replaces it. The contracts of those four
  methods say exactly when the two stores answer alike.
* `finalize_if_stale` answers with its own result even when the conditional UPDATE lost to the
  executor: `PollContradictionIsReachable` is a run from the empty database, `StaleAnswerIsStored` says
  exactly when the answer is the stored one.
* The paper ids handed to a turn come from the 20-turn window, while the comment beside them speaks of
  the whole session: `PaperIsForgotten` is a session that loses one, `PaperIdsCoverSessionIff` says
  exactly when none is lost.
* The summary keeps the newest text whole unless the cut makes separator stripping run on into a text
  that begins with a slash: `NewestTextSurvives` is exact, `LeadingSlashIsEaten` a session it happens in.
* Two executors that prepare one redelivered turn at the same time fold the same turns twice:
  `TwoExecutorsFoldTwice`; `FoldedOnceIffSerial` says exactly when that happens in any run. Nothing else
  is lost to overlap: `EveryOverlapIsOrdered`, `NothingFallsBetweenInOverlap`.
* A first folded text that does not fit beside the summary's label cuts the label off, although
  `_joined_summary` is said to own it; only a later overflow puts it back. `LabelIsCutOff` is a session it
  happens in, `LabelKeptIff` says exactly when.
* `create_turn` gives the quota back for 409 and 503 only; 404 and 422 are counted although the
  comment beside the 409 says that turns which were not accepted are not.
* A refund need not undo its call. It leaves a trace when the call had opened the window others then
  count in (`RefundedCallKeptItsWindow`), when the calls before it were refunded meanwhile
  (`OverlappingRefundsKeepATrace`), and when it comes after its window is over
  (`LateRefundTakesAnother`). `RefundLeavesNoTraceIff` and `QuotaGivenBackIff` say exactly when it does
  not, for any calls in between and any time; `RefundUndoesAllowIff` and `LateRefundIff` say it in terms
  of those calls for a refund in time and for a late one.
* Denied calls are counted, so the refund of the only admitted call may free no slot:
  `DenialOutlivesRefund`. The burst bound of the fixed window is 2 * limit - 1 in a half-open interval,
  one better than two full windows: `BurstsAreLimited`, attained in `BurstBoundIsTight`.
* A `$` formula that ends in a backslash does not survive printing and scanning, even with no blank
  at either end: `TrailingBackslashIsLost`, with `FoundIffReadable` the exact condition.
* The two rewriters match a command name even when its backslash is escaped, which can break brace
  balance: `EscapedReferenceBreaksBalance`, `EscapedBoxBreaksBalance`; `StripDepthAndBalance` and
  `UnwrapDepthAndBalance` say exactly when, for any text and any number of commands.
* With `max_keys` 0 the sliding limiter evicts the key it has just served and limits nothing: a clause
  of `Allow`.

## Model

| member | source | states |
|---|---|---|
| `TurnStore.UpdateCloses` | backend/modules/evidence/repository.py:640-654 | After the conditional update the owner's row is absent or terminal, and a row that was already terminal keeps its result |
| `TurnStore.ResultRow` | backend/modules/evidence/repository.py:640-654 | What the conditional update leaves in the owner's row: the new result if it was pending, and otherwise the row as it was |
| `TurnStore.GetTurnIff` | backend/modules/evidence/repository.py:634-638 | The look-up finds the row with that id exactly if it is the owner's |
| `TurnStore.AddTurnSafe` | backend/modules/evidence/repository.py:578-603 | An admitted insert keeps ids distinct, one pending turn per session, and each turn owned by its session's owner |
| `TurnStore.PointwiseUpdate` | backend/modules/evidence/repository.py:640-694 | Any row-wise UPDATE that evolves rows and reopens none keeps the store invariant |
| `TurnProtocol.SafeStep` | backend/modules/evidence/service.py:92-198 | Every transaction of every actor keeps the invariant, loses no pending turn's dispatch, and never undoes a terminal result |
| `TurnProtocol.EveryRunIsSafe` | backend/modules/evidence/service.py:92-198 | Over every interleaving: at most one pending turn per session, owners match, terminal rows never change |
| `TurnProtocol.BootIsSafe` | backend/modules/evidence/repository.py:422-452 | Every run from the empty database is safe |
| `TurnProtocol.TerminalIsFinal` | backend/modules/evidence/repository.py:640-654 | Whatever is redelivered, cancelled or finalized, a terminal turn keeps its result |
| `TurnProtocol.RacingAccepts` | backend/modules/evidence/service.py:110-127 | Of two tasks that both saw an idle session the first to insert is admitted and the other refused with SessionBusy while that turn is pending |
| `TurnProtocol.StaleTurnNeverBlocks` | backend/modules/evidence/service.py:114-127 | A pending turn last heard from `stale_after` ago, or never picked up for three times as long, never blocks its session: the next accept nobody rivals closes it and admits its own turn |
| `TurnProtocol.PollVerdict` | backend/modules/evidence/service.py:161-198 | A poll closes the turn it holds a copy of if and only if, in numbers, its last sign of life is `stale_after` old or, never picked up, its creation three times as old; the row then holds the snapshot's result or an error unless another closed it; otherwise nothing is written and the copy is the answer |
| `TurnProtocol.AcceptVerdict` | backend/modules/evidence/service.py:114-116 | The same rule for an accept that found an active turn; below the limit it ends as busy and writes nothing |
| `TurnProtocol.PollClosesIff` | backend/modules/evidence/service.py:168-198 | From read to verdict, exactly which polls close a pending turn |
| `TurnGuarantees.AcceptStoresTheQuestion` | backend/modules/evidence/service.py:110-153 | On an idle session an undisturbed accept stores one pending turn of the caller, exactly as asked and timed by the clock, and sends its message; a session the caller cannot read is "not found" and nothing is stored |
| `TurnGuarantees.CancelIsSeen` | backend/modules/evidence/service.py:155-159 | A cancellation is accepted exactly while the turn is pending; then every later heartbeat of the executor is told so in every run, and a refused one leaves nothing behind |
| `TurnGuarantees.OnlyCancelCancels` | backend/modules/evidence/repository.py:668-693 | Without a cancellation of that turn no run changes what its heartbeats are told |
| `TurnGuarantees.BeatDefersTheOrphanRule` | backend/modules/evidence/service.py:172-177 | A heartbeat stamps the clock and changes nothing else; a poll that reads after it closes the turn exactly when it judges a full `stale_after` later |
| `TurnGuarantees.OthersNeverTouchMine` | backend/modules/evidence/repository.py:491-495 | Over every run of other owners' requests, polls and executors an owner's turns, sessions and traces stay as they are, but for the stamp of the clean-up that anybody's executor may run |
| `TurnGuarantees.CopiesAreOnesOwn` | backend/modules/evidence/repository.py:634-666 | In every run each poll and accept holds only copies of its own owner's turns |
| `TurnGuarantees.DeletedStaysGone` | backend/modules/evidence/repository.py:548-561 | After its owner deletes a session no run makes it readable to anyone; accepts of it, and inserts of tasks that had passed the check, are "not found" |
| `TurnGuarantees.FoldedStaysFolded` | backend/modules/evidence/repository.py:510-546 | A fold stores its summary and stamps its turns; after any run no listing of unfolded turns offers one of them again |
| `TurnGuarantees.TraceIsKept` | backend/modules/evidence/repository.py:696-744 | A trace row once appended is listed to every earlier cursor of its owner and turn, after any run |
| `TurnProtocol.LiveTurnNeverClosedByReaders` | backend/modules/evidence/service.py:168-192 | If heartbeat gaps plus the read-to-check delay stay under the limits, no reader closes the turn in any run |
| `TurnProtocol.DispatchFailureCloses` | backend/modules/evidence/service.py:131-147 | A turn whose message could not be sent is closed as a failed dispatch if it is still pending, keeps its result otherwise, and the caller is told |
| `TurnProtocol.StaleAnswerIsStored` | backend/modules/evidence/service.py:161-198 | Exactly when the result a poll returns for an orphan is the one in the store |
| `TurnProtocol.PollMayContradictStore` | backend/modules/evidence/service.py:189-192 | The executor's result landing between the poll's read and its update makes the poll's answer differ from the store |
| `TurnProtocol.PollContradictionIsReachable` | backend/modules/evidence/service.py:161-198 | A run of eight events from the empty database after which a poll's answer and the store differ |
| `InMemoryRepository.InMemoryEvidenceRepository.AddTurn` | backend/modules/evidence/repository.py:290-304 | Admits, refuses or misses the session exactly as the SQL insert does; leaves the same rows when the owner is left blank or is the session's, and says what is left otherwise |
| `InMemoryRepository.InMemoryEvidenceRepository.UpdateTurnResult` | backend/modules/evidence/repository.py:323-341 | Equals the conditional UPDATE; raises KeyError exactly for a row the owner does not have |
| `InMemoryRepository.InMemoryEvidenceRepository.GetTurn` | backend/modules/evidence/repository.py:315-321 | Finds in the lists the row SQL finds |
| `InMemoryRepository.InMemoryEvidenceRepository.ActiveTurn` | backend/modules/evidence/repository.py:343-348 | Finds the pending row SQL finds, or none |
| `InMemoryRepository.InMemoryEvidenceRepository.RequestCancel` | backend/modules/evidence/repository.py:350-356 | Same answer and same rows as the SQL form |
| `InMemoryRepository.InMemoryEvidenceRepository.Heartbeat` | backend/modules/evidence/repository.py:358-362 | Same answer and same rows as the SQL form |
| `InMemoryRepository.InMemoryEvidenceRepository.RecentTurns` | backend/modules/evidence/repository.py:310-313 | Same rows in the same order as ORDER BY DESC LIMIT reversed, for every positive limit; all turns for limit 0 |
| `InMemoryRepository.InMemoryEvidenceRepository.UnsummarizedBefore` | backend/modules/evidence/repository.py:253-260 | The unfolded turns before the last `keep`; equal to the SQL form exactly when the windows agree |
| `InMemoryRepository.InMemoryEvidenceRepository.MarkSummarized` | backend/modules/evidence/repository.py:262-268 | Stamps across all lists the rows the UPDATE stamps |
| `InMemoryRepository.InMemoryEvidenceRepository.AppendTrace` | backend/modules/evidence/repository.py:364-366 | Appending to the turn's list is the INSERT, in whatever seq order rows come |
| `InMemoryRepository.InMemoryEvidenceRepository.ListTraceAfter` | backend/modules/evidence/repository.py:368-371 | The same rows past the cursor, and in the same order as the SQL query if and only if they were appended in seq order |
| `InMemoryRepository.InMemoryEvidenceRepository.AppendSessionSummary` | backend/modules/evidence/repository.py:245-251 | Same summary and same KeyError as the SQL form |
| `InMemoryRepository.InMemoryEvidenceRepository.ExpiredTurnIds` | backend/modules/evidence/repository.py:373-383 | The first due turns in dict order; they are the ones SQL selects if and only if each is older than every due turn left out |
| `InMemoryRepository.InMemoryEvidenceRepository.MarkCheckpointsPruned` | backend/modules/evidence/repository.py:385-387 | Marks the rows the UPDATE marks |
| `TurnStore.OrderTraceIff` | backend/modules/evidence/repository.py:716-744 | Sorting by seq leaves rows as they are exactly when they came in seq order |
| `StoreQueries.ListTurnsIff` | backend/modules/evidence/repository.py:605-616 | Exactly the owner's turns of the session, oldest first, each once; no listing exactly if the owner cannot read the session |
| `StoreQueries.RecentTurnsIff` | backend/modules/evidence/repository.py:618-632 | Exactly those of them with fewer than `limit` newer ones, oldest first |
| `StoreQueries.UnsummarizedBeforeIff` | backend/modules/evidence/repository.py:517-533 | Exactly the unfolded ones with at least `keep` newer unfolded ones, oldest first |
| `StoreQueries.ExpiredIff` | backend/modules/evidence/repository.py:746-758 | Exactly the ended, unstamped turns asked before the cutoff with fewer than 200 older such turns, oldest first |
| `StoreQueries.ActiveTurnIff` | backend/modules/evidence/repository.py:656-666 | The owner's pending turn of the session, found exactly if there is one |
| `StoreQueries.ListTraceAfterIff` | backend/modules/evidence/repository.py:716-744 | By seq, exactly the owner's rows of the turn past the cursor, each as often as it was appended |
| `InMemoryRepository.EntryIsUpdate` | backend/modules/evidence/repository.py:323-362 | Replacing one list entry is the row-wise UPDATE whose WHERE matches that row |
| `InMemoryRepository.OffsetAgreement` | backend/modules/evidence/repository.py:253-260 | The two forms of `unsummarized_before` agree if and only if nothing unfolded lies before the window or nothing folded lies in it |
| `InMemoryRepository.OffsetCounterexample` | backend/modules/evidence/repository.py:517-533 | Three turns on which the two forms differ |
| `SessionSummary.SummaryIsBounded` | backend/modules/evidence/repository.py:802-822 | After any sequence of folds from the empty summary it has at most 4000 characters |
| `SessionSummary.FoldCases` | backend/modules/evidence/repository.py:802-822 | One fold, case by case in numbers: what a blank text, a first text, one that fits and one that does not fit leave, and that no more is dropped than the label and the separators need |
| `SessionSummary.StripTakesTheEnds` | backend/modules/evidence/repository.py:813-818 | Stripping takes blanks off both ends, all of them and nothing else |
| `SessionSummary.EvictedInOrder` | backend/modules/evidence/service.py:475-501 | The folded text joins the evicted questions that are not blank, in their order, each cut to 120 characters with an ellipsis as the last |
| `SessionSummary.JoinIs` | backend/modules/evidence/service.py:488 | Neighbours are joined by a slash between blanks |
| `SessionSummary.NewestTextSurvives` | backend/modules/evidence/repository.py:802-822 | A folded text that leaves room for the label survives at the end up to leading separators, and whole if and only if the cut did not run into its leading slash |
| `SessionSummary.NothingLostWhileItFits` | backend/modules/evidence/repository.py:802-822 | While all fits, the summary is one label and every folded text in order |
| `SessionSummary.LabelKeptIff` | backend/modules/evidence/repository.py:802-822 | After any folds of texts that do not repeat the label, a non-empty summary starts with it if and only if the first text fitted beside it or a later fold overflowed |
| `SessionSummary.LongFirstTextLosesLabel` | backend/modules/evidence/repository.py:816-817 | A first text as long as the summary or longer leaves only its own end |
| `SessionSummary.LabelNeverLost` | backend/modules/evidence/repository.py:802-822 | A non-empty summary of texts that all leave room for the label starts with it, through every cut, whatever they contain |
| `SessionSummary.NothingToFold` | backend/modules/evidence/service.py:475-488 | The folded text is empty exactly when every evicted question is blank |
| `TokenBudget.KeepFrom` | backend/modules/evidence/service.py:446-466 | The least cut after which the turns fit the budget, at least one always kept |
| `TokenBudget.CutMovesForward` | backend/modules/evidence/service.py:386-430 | One more turn never moves the cut back |
| `TokenBudget.ShownFromLeast` | backend/modules/evidence/service.py:446-466 | Inside the 20-turn ceiling no earlier cut would fit |
| `RunContext.WithinTokenBudget` | backend/modules/evidence/service.py:446-466 | The newest-first loop keeps exactly the longest fitting suffix and returns the rest as overflow |
| `RunContext.DedupExact` | backend/modules/evidence/service.py:505-513 | Cited paper ids are exactly the referenced ones, each once |
| `RunContext.PriorPaperIdsExact` | backend/modules/evidence/service.py:395-400 | The ids handed over are exactly those some turn of the window cites, each once |
| `RunContext.PaperIdsCoverSessionIff` | backend/modules/evidence/service.py:386-400 | They hold every id the session cited if and only if every id cited before the window is cited again inside it |
| `RunContext.HandedOver` | backend/modules/evidence/service.py:386-443 | What a build hands over: the shown turns' questions, oldest first without blanks; the window's ids in the order they were first cited; the id of the last prior turn, None without one; the summary after the fold |
| `RunContext.SummaryHandedOverIsStored` | backend/modules/evidence/service.py:382-443 | The summary handed over is the one stored then; an unreadable session gives an empty context and changes nothing |
| `RunContext.ShownIsLongestThatFits` | backend/modules/evidence/service.py:446-472 | Of the last 20 prior turns a build shows the longest run up to the newest whose questions and cited ids take at most 32000 characters, and the newest in any case |
| `RunContext.BuildOnlyFolds` | backend/modules/evidence/service.py:410-428 | All a build does to a row of the table is to stamp it as folded |
| `SessionWitnesses.PaperIsForgotten` | backend/modules/evidence/service.py:395-400 | A reachable session whose build no longer offers a paper its first turn cited |
| `SessionWitnesses.LeadingSlashIsEaten` | backend/modules/evidence/repository.py:802-822 | A reachable session whose next fold loses the slash its newest text begins with |
| `SessionWitnesses.LabelIsCutOff` | backend/modules/evidence/repository.py:816-817 | A reachable session whose first fold leaves nothing of the label |
| `SessionWitnesses.HistoryIsReachable` | backend/modules/evidence/service.py:131-192 | Turns that no executor prepared, each failed in dispatch or closed as an orphan without a snapshot, can be added in any number to any session that is not running |
| `RunContext.BuildStoreIsBuildSession` | backend/modules/evidence/service.py:366-443 | The transactions of a build on the store do to the session what the session-level build says |
| `RunContext.ShownIsSuffix` | backend/modules/evidence/service.py:386-430 | One build shows the fitting suffix of the earlier turns and folds only turns before it |
| `RunContext.FoldingIsTheGap` | backend/modules/evidence/service.py:386-430 | What one build folds is exactly the turns between the folded prefix and the shown suffix |
| `RunContext.EveryRunIsSound` | backend/modules/evidence/service.py:366-443 | Over every run of a session the folded turns are a prefix before the shown suffix and none was folded twice |
| `SessionWitnesses.NewSessionIsSound` | backend/modules/evidence/repository.py:476-489 | A new session is sound, so everything proved of sound sessions holds of every run from it |
| `SessionProjection.StepProjects` | backend/modules/evidence/service.py:92-198 | Every event of the turn protocol is, for one session, no event or one of the session's own |
| `SessionProjection.ProtocolRunsAreSessionRuns` | backend/modules/evidence/service.py:366-443 | After any protocol run from the empty database whose folds are builds of a pending turn, each session is where some session run leads: its folded turns are its oldest, only its last turn may be pending, its summary is bounded |
| `ConcurrentBuilds.FoldedOnceIffSerial` | backend/modules/evidence/service.py:410-430 | Over every run of overlapping builds no turn is folded twice if and only if no fold came between any fold and the read it was based on |
| `ConcurrentBuilds.FoldedOnceFromTheStart` | backend/modules/evidence/service.py:410-430 | The same for every run of a new session |
| `ConcurrentBuilds.EveryOverlapIsOrdered` | backend/modules/evidence/service.py:386-430 | However builds overlap, the folded turns are the oldest, none of them is in the shown suffix, and the summary is bounded |
| `ConcurrentBuilds.NothingFallsBetweenInOverlap` | backend/modules/evidence/service.py:386-430 | Once an executor's write is through, every non-blank question before what its build shows is folded, whatever others wrote since it read |
| `ConcurrentBuilds.StoresAgreeInOverlap` | backend/modules/evidence/repository.py:517-533 | Both stores list the same turns outside the window of every session, overlapping builds or not |
| `ConcurrentBuilds.TwoExecutorsFoldTwice` | backend/modules/evidence/worker.py:199-204 | A reachable session that two executors of one turn fold twice |
| `ConcurrentBuilds.ReadThenWriteIsBuild` | backend/modules/evidence/service.py:366-443 | A read and its write with nothing in between are the build of the session runs |
| `RunContext.NothingFallsBetween` | backend/modules/evidence/service.py:386-430 | After every build each earlier turn with a non-blank question is shown in full or folded |
| `RunContext.DroppedNeverReturns` | backend/modules/evidence/service.py:386-430 | A turn out of the shown suffix is in no later build's |
| `RunContext.StoresAgreeOnReachableSessions` | backend/modules/evidence/repository.py:517-533 | On every reachable session both stores list the same turns outside the window |
| `CheckpointPruning.PassShrinksBacklog` | backend/modules/evidence/worker.py:264-274 | A pass lowers the number of due turns by exactly what it selected, up to 200 |
| `CheckpointPruning.BacklogCleared` | backend/modules/evidence/worker.py:256-276 | Whatever the passes' cutoffs, n due turns are all stamped after ceil(n / 200) passes if nothing becomes due in between, and no sooner if nothing else stamps any |
| `CheckpointPruning.NeverSelectedTwice` | backend/modules/evidence/repository.py:746-767 | Only terminal turns past the cutoff are selected and none by two passes one after the other, whatever their cutoffs and whatever happens between selecting and stamping and between the passes |
| `CheckpointPruning.NeverSelectedTwiceInRuns` | backend/modules/evidence/worker.py:264-274 | The same with any runs of the turn protocol in between |
| `CheckpointPruning.PicksAgreeIff` | backend/modules/evidence/repository.py:746-758 | The first n of any listing of the due turns are the oldest n if and only if each is older than every one left out |
| `Worker.ProtocolRunsAreRely` | backend/modules/evidence/repository.py:64-82 | Every run of the turn protocol is interference the executors are proved against |
| `Worker.SettledIsStable` | backend/modules/evidence/repository.py:640-654 | A settled turn stays settled under any interference |
| `Worker.Database.Prepare` | backend/modules/evidence/worker.py:142-177 | Answers "nothing to run" only for a settled turn and never readies a settled one; an unreadable session closes the turn as such, a terminal turn is left alone, and a pending one gets its context built |
| `Worker.Database.Heartbeat` | backend/modules/evidence/turn_control.py:68-74 | Answers the cancel flag of the row it stamps, and "not cancelled" when the transaction fails |
| `Worker.Database.Finish` | backend/modules/evidence/turn_control.py:99-103 | Writes the result into the row its transaction finds; fails exactly when the transaction does |
| `Worker.Database.PruneCheckpoints` | backend/modules/evidence/worker.py:256-276 | Undisturbed, one pass of the clean-up; no failure reaches the caller |
| `Worker.ParsePayload` | backend/modules/evidence/worker.py:58-90 | Refuses exactly a payload without owner, turn or topic or with malformed attachments, and takes the job's fields from it |
| `Worker.ProcessJob` | backend/modules/evidence/worker.py:180-248 | Unless another exception leaves it the turn is settled: with the runner's result, with an error when it raised, or as cancelled, unless another had closed it before the finishing transaction; the runner is never started once the row was terminal; alone on healthy storage the job leaves exactly that, prunes, and starts every pending uncancelled turn |
| `Worker.RunWorker` | backend/modules/evidence/worker.py:279-311 | Under redelivery and storage faults messages are handled in order, all of them unless the stop signal comes, which lets no more than its patience be acked; a message is acked exactly when its job ended without an unexpected exception, on healthy storage exactly when it can be parsed; every acked message's turn is settled |
| `Worker.RunLocal` | backend/modules/evidence/executor.py:75-102 | The local executor leaves the turn settled unless its own fallback write failed, which healthy storage rules out; a payload that cannot be parsed but names its turn closes that as an error |
| `EventStream.InvStep` | backend/modules/evidence/streaming.py:116-166 | Received, on the wire and about to be sent are together a prefix of the committed rows, through polls, drops and reconnects |
| `EventStream.ExactlyOnce` | backend/modules/evidence/controller.py:324-349 | In any run the client holds each row at most once, in order, without holes, and with the result frame every row committed before the close |
| `EventStream.AllOfIt` | backend/modules/evidence/streaming.py:144-166 | With one executor the client holds every row when it holds the result |
| `EventStream.EveryStepCounts` | backend/modules/evidence/streaming.py:144-166 | Once the turn is closed every step a connection takes brings the result frame exactly one step nearer |
| `EventStream.NeverStuck` | backend/modules/evidence/streaming.py:144-166 | Until the client has its result some step is enabled |
| `EventStream.AnyScheduleFinishes` | backend/modules/evidence/streaming.py:144-166 | In whatever order its steps are taken, a connection that is not dropped brings the result after exactly a computed number of them |
| `EventStream.ResultArrives` | backend/modules/evidence/controller.py:324-349 | From wherever a run has led, once the turn is closed a client that reconnects gets its result and every row committed before the close, all rows if none came after |
| `EventStream.RowArrives` | backend/modules/evidence/controller.py:324-349 | A row the executor commits while the turn runs is at the client, after all earlier ones, once it has the result |
| `EventStream.PollCatchesUp` | backend/modules/evidence/streaming.py:144-174 | While the turn runs one poll of an idle connection brings the client up to date and leaves the connection ready for the next |
| `EventStream.PollIsTheQuery` | backend/modules/evidence/repository.py:716-744 | What a poll reads is the store's query for the turn's rows |
| `EventStream.OnlyRowsPastCursor` | backend/modules/evidence/repository.py:716-744 | A poll returns exactly the rows past the cursor, so a late row with a lower seq is never delivered |
| `SlidingWindow.InMemoryRateLimiter.Allow` | backend/middleware/rate_limit.py:37-52 | Admits if and only if the naive count of the key's admissions in the window since its last eviction is below the maximum; a denial has that many real admissions behind it; only a new key at the cap evicts, and then the least recently served one, never the served key unless `max_keys` is 0, when nothing is limited; a due sweep leaves no expired entry, and without one the other keys' windows stay as they are |
| `SlidingWindow.InMemoryRateLimiter.EvictOverCap` | backend/middleware/rate_limit.py:54-59 | Drops least recently used keys until the cap holds |
| `SlidingWindow.InMemoryRateLimiter.MaybeSweep` | backend/middleware/rate_limit.py:61-75 | When due, leaves no expired entry and no empty key, and changes no answer |
| `SlidingWindow.InMemoryRateLimiter.DequesAreSound` | backend/middleware/rate_limit.py:37-75 | In every state a deque is sorted and bounded, and its front-pops never outnumber its key's admissions |
| `SlidingWindow.InMemoryRateLimiter.RateIsLimited` | backend/middleware/rate_limit.py:37-52 | In every reachable state no interval of one window's length holds more than the maximum of a key's admissions since its last eviction |
| `SlidingWindow.AnyWindowIsLimited` | backend/middleware/rate_limit.py:37-52 | The same over any log each of whose admissions found room |
| `SlidingWindow.TrimmedAnswers` | backend/middleware/rate_limit.py:44-47 | A trimmed deque's length is the naive count |
| `SlidingWindow.InWindowIsCount` | backend/middleware/rate_limit.py:44-47 | The naive count is the number of log entries of the key later than the cutoff |
| `SlidingWindow.InMemoryRateLimiter.OldestIsLeastRecent` | backend/middleware/rate_limit.py:43-59 | The key an eviction takes was last called before every other key held |
| `FixedWindow.InProcessWindowLimiter.Allow` | backend/middleware/rate_limit.py:89-96 | Admits if and only if the open window has counted fewer than the limit; counts denied calls too |
| `FixedWindow.InProcessWindowLimiter.Refund` | backend/middleware/rate_limit.py:98-109 | Takes one back in the open window only, deleting the bucket at the last one |
| `FixedWindow.KeysAreIndependent` | backend/middleware/rate_limit.py:86-109 | A key's bucket after any run is its own calls' run |
| `FixedWindow.SameAnswersIff` | backend/middleware/rate_limit.py:89-109 | Two buckets give the same answers for ever if and only if they are equal or neither counts any more |
| `FixedWindow.RefundLeavesNoTraceIff` | backend/middleware/rate_limit.py:89-109 | For any calls and refunds in between and a refund at any time: every later answer is as if the call had never been made if and only if without it the key would count one less in the same window |
| `FixedWindow.RefundUndoesAllowIff` | backend/middleware/rate_limit.py:89-109 | In the call's window, with calls and refunds of overlapping requests in between, that is so if and only if nothing else counts there or the same window would be open without the call |
| `FixedWindow.LateRefundIff` | backend/middleware/rate_limit.py:98-105 | After the call's window, the key's other calls having come since, that is so if and only if nothing counts in the window then open |
| `FixedWindow.OverlappingRefundsKeepATrace` | backend/middleware/rate_limit.py:89-109 | A run of overlapping requests in which a refunded call that opened no window changes a later answer |
| `FixedWindow.LateRefundTakesAnother` | backend/middleware/rate_limit.py:98-105 | A run in which a late refund takes back another call |
| `FixedWindow.RefundUndoesAllow` | backend/middleware/rate_limit.py:98-109 | With nothing in between, every answer after a refund in the call's window is as if neither had been made |
| `FixedWindow.RefundedCallKeptItsWindow` | backend/middleware/rate_limit.py:89-109 | A run in which a refunded call still changes a later answer |
| `FixedWindow.NetAdmissionsAreLimited` | backend/middleware/rate_limit.py:89-109 | In every window admissions less refunds stay within the limit; the next call is admitted exactly when admissions plus denials less refunds leave room |
| `FixedWindow.DenialOutlivesRefund` | backend/middleware/rate_limit.py:93-96 | A run in which a refund after a denial frees no slot |
| `FixedWindow.BurstsAreLimited` | backend/middleware/rate_limit.py:89-96 | Without refunds any 2 * limit consecutive admissions of a key span at least one window |
| `FixedWindow.BurstBoundIsTight` | backend/middleware/rate_limit.py:89-96 | 2 * limit - 1 admissions inside one half-open window do occur |
| `FixedWindow.CreateTurn` | backend/modules/evidence/controller.py:204-268 | The reply to every combination of quota, attachments, executor and outcome; the quota is given back exactly for no executor, session busy and dispatch failure; the limiter then holds what the allow, the other requests meanwhile and the refund leave |
| `FixedWindow.QuotaGivenBackIff` | backend/modules/evidence/controller.py:204-268 | For requests of any users in between and a refund at any time, exactly when a quota given back leaves no trace in this user's later answers |
| `FixedWindow.QuotaGivenBackInTimeIff` | backend/modules/evidence/controller.py:204-268 | The same in terms of the requests in between, for a refund that arrives in its call's window |
| `MathScanner.FindClosingDollar` | frontend/lib/renderMath.tsx:264-269 | Finds the first dollar that is neither escaped nor after a blank |
| `MathScanner.FindNextMath` | frontend/lib/renderMath.tsx:273-303 | The loop finds the next formula in priority order, passing unclosed openers over whole |
| `MathScanner.RenderInlineMath` | frontend/lib/renderMath.tsx:307-325 | The loop returns the rendered scan of the text |
| `MathScanner.ScanPartitions` | frontend/lib/renderMath.tsx:307-325 | For every text the prose and math spans concatenate back to it |
| `MathScanner.FoundIffReadable` | frontend/lib/renderMath.tsx:264-303 | Wherever a printed formula stands it is found whole if and only if it is readable, delimiter by delimiter |
| `MathScanner.RoundTrip` | frontend/lib/renderMath.tsx:273-325 | Scanning a printed segment list gives the same segments |
| `MathScanner.RoundTripIff` | frontend/lib/renderMath.tsx:273-325 | For lists whose prose opens nothing, being printable is exactly what the round trip takes |
| `MathScanner.ScanIsCanonical` | frontend/lib/renderMath.tsx:307-325 | Every formula a scan yields is readable, every prose piece non-empty, never adjacent, and free of formulas of its own |
| `MathScanner.PairDecides` | frontend/lib/renderMath.tsx:273-295 | A two-character opener, letter by letter, makes a formula up to its next closer; without one it is passed over whole |
| `MathScanner.DollarDecides` | frontend/lib/renderMath.tsx:264-301 | A single dollar before a non-blank makes a formula up to the next dollar after neither backslash nor blank; without one it is passed over |
| `MathScanner.NothingElseOpens` | frontend/lib/renderMath.tsx:273-303 | Nothing opens anywhere else |
| `MathScanner.EachDelimiterRenders` | frontend/lib/renderMath.tsx:273-325 | A text that is one formula renders as that formula, as a display for double dollars and brackets and inline for single dollars and parentheses |
| `MathScanner.TrailingBackslashIsLost` | frontend/lib/renderMath.tsx:264-269 | A dollar formula ending in a backslash is not read back |
| `DelimGroups.ReadDelimGroup` | frontend/lib/mathEngine.ts:159-186 | Returns the group that ends at the first place where nothing is open, or null if there is no such place |
| `DelimGroups.GroupAt` | frontend/lib/mathEngine.ts:159-186 | A group closes where it is said to, and null means no end closes it |
| `DelimGroups.BraceGroupIsShortest` | frontend/lib/mathEngine.ts:163-171 | On a brace: the shortest stretch with total depth zero, its inside balanced; null if and only if no stretch closes |
| `DelimGroups.PairGroupIsShortest` | frontend/lib/mathEngine.ts:173-186 | On a bracket or parenthesis: the shortest stretch in which as many open as close, not counting escaped ones and those inside braces; null if and only if there is none |
| `MathRewriters.StripLeakedRefs` | frontend/lib/mathEngine.ts:197-220 | The loops leave the text outside every reference with its optional and all braced arguments |
| `CommandGrammar.RefAtIsLongest` | frontend/lib/mathEngine.ts:196 | The expression finds the longest leaked reference at a place, described by its names and boundary, and none exactly if there is none |
| `CommandGrammar.CutIsArguments` | frontend/lib/mathEngine.ts:204-216 | What is cut after a name is space, the bracket group exactly if one opens there and closes, and every brace group that follows, with space before each |
| `CommandGrammar.ArgumentsEndOnce` | frontend/lib/mathEngine.ts:209-215 | There is only one way to read those arguments |
| `CommandGrammar.StrippedIsOutside` | frontend/lib/mathEngine.ts:197-220 | Stripping leaves exactly the text outside the references with their arguments, each cut beginning at the first reference after the one before |
| `MathRewriters.RewriteScalebox` | frontend/lib/mathEngine.ts:224-247 | The loops replace each complete box by its last argument in braces and leave incomplete ones |
| `CommandGrammar.RewrittenIsUnboxed` | frontend/lib/mathEngine.ts:224-247 | Rewriting leaves the text with exactly the complete boxes, two arguments or three by name, replaced by their last argument in braces |
| `MathRewriters.UntouchedIffNoReference` | frontend/lib/mathEngine.ts:196-220 | A formula comes back unchanged if and only if no reference matches at any position |
| `MathRewriters.ArgsAreAllTaken` | frontend/lib/mathEngine.ts:211-216 | After a cut no further braced argument follows |
| `MathRewriters.RefShape` | frontend/lib/mathEngine.ts:196 | A match is a backslash and a non-empty run of name characters |
| `MathRewriters.CutIsNeutral` | frontend/lib/mathEngine.ts:204-216 | What is cut after a command's name leaves depth and escape where they were |
| `MathRewriters.StripKeepsBalance` | frontend/lib/mathEngine.ts:197-220 | With every command at a token boundary stripping keeps final depth and makes no prefix negative |
| `MathRewriters.StripDepthAndBalance` | frontend/lib/mathEngine.ts:197-220 | For every text: stripping changes final depth by exactly what the lost escapes add up to, and the result is balanced if and only if that closes the original's depth and no kept brace falls below zero |
| `MathRewriters.UnwrapKeepsBalance` | frontend/lib/mathEngine.ts:224-247 | With every unwrapped command at a token boundary unwrapping keeps final depth and makes no prefix negative |
| `MathRewriters.UnwrapDepthAndBalance` | frontend/lib/mathEngine.ts:224-247 | For every text and any number of boxes: each unwrapped box with an escaped backslash costs one level; the result is balanced if and only if that closes the original's depth and no kept brace falls below zero, so depth, and a balanced text's balance, is kept if and only if there is no such box |
| `MathRewriters.PipelineDepthAndBalance` | frontend/lib/mathEngine.ts:265-271 | For every text, what both rewriters in pipeline order do to final depth, and exactly when the result is balanced |
| `MathRewriters.PipelineKeepsBalance` | frontend/lib/mathEngine.ts:265-271 | With every reference cut and every box unwrapped at a token boundary, a balanced formula stays balanced through both |
| `MathRewriters.EscapedReferenceBreaksBalance` | frontend/lib/mathEngine.ts:196-220 | A balanced formula that stripping makes unbalanced |
| `MathRewriters.EscapedBoxBreaksBalance` | frontend/lib/mathEngine.ts:224-247 | A balanced formula that unwrapping makes unbalanced |
| `RenderCache.KeysAreDistinct` | frontend/lib/renderMath.tsx:205 | Different expressions or modes never share a cache key |
| `RenderCache.AnswerIsPristine` | frontend/lib/renderMath.tsx:197-218 | After any expressions without definitions an expression looks as on a fresh document |
| `RenderCache.MacroEntry.CacheSet` | frontend/lib/renderMath.tsx:178-185 | First in, first out at 800 entries, never more; evicts even to set a key that is there, and keeps every other entry's value |
| `RenderCache.MacroEntry.ToHtml` | frontend/lib/renderMath.tsx:202-226 | A miss renders on the document as the entry's history left it, an isolated definition on a fresh one; while that history holds no definition the answer is the pristine rendering; a hit changes nothing |
| `RenderCache.Renderer.ToHtml` | frontend/lib/renderMath.tsx:187-226 | Every macro-less answer in any sequence of calls is the rendering on a fresh document; a paper's uncached formula is rendered after the paper's own earlier ones; author-macro entries never touch another entry |
| `CanonSelection.GreedyIsFull` | tools/local/build_foundational_list.py:465-473 | The pass stays within target and ceiling, and while room is left it has taken from each category all anyone may |
| `CanonSelection.GreedyIsAhead` | tools/local/build_foundational_list.py:465-473 | At every rank it holds at least as many papers as any admissible selection |
| `CanonSelection.GreedyIsOptimal` | tools/local/build_foundational_list.py:436-473 | Its total score is the maximum over all selections within target and ceiling |
| `CanonSelection.CanonFill` | tools/local/build_foundational_list.py:461-481 | The two loops choose the ids of the greedy pass and the backfill, each once, and tally categories right |
| `CanonSelection.CanonIsFull` | tools/local/build_foundational_list.py:474-481 | After the backfill the canon holds exactly min(target, candidates) |
| `CanonSelection.CapYieldsOnlyToEmptySlots` | tools/local/build_foundational_list.py:474-481 | A category ends above its ceiling only if the pass left room and every paper it left out lay in a full category |
| `CanonSelection.BackfillTakesTheBest` | tools/local/build_foundational_list.py:474-481 | No paper that stays out scores higher than one the backfill brought in |
| `CanonSelection.UnknownShareACategory` | tools/local/build_foundational_list.py:468 | Papers the lookup does not know share one category |
| `CanonSelection.CutSparesYoungBands` | tools/local/build_foundational_list.py:494-505 | The final cut never removes a frontier or recent pick |
| `CanonSelection.BandQuotas` | tools/local/build_foundational_list.py:483-505 | In numbers: 35 in a hundred of a bucket's target from 2025 on and as many from 2022 to 2024, or all there are, and the rest of the target older ones, all of them free and tagged for the bucket |
| `CanonSelection.SlotsGoToTheBest` | tools/local/build_foundational_list.py:486-505 | An eligible paper passed over for one of its own band scores no higher |
| `CanonSelection.AssignBuckets` | tools/local/build_foundational_list.py:485-507 | The loops assign each bucket its picks in turn |
| `CanonSelection.BucketsAreDisjointAndBounded` | tools/local/build_foundational_list.py:485-507 | No earlier assignment changes, each new one names its bucket, no bucket exceeds its target |
| `CanonSelection.BucketsHoldTheirPicks` | tools/local/build_foundational_list.py:485-507 | In the end each bucket holds exactly what it picked when its turn came |

## Left out

* The LLM loop, its tools, the checkpoint graph and the assembler: the runner returns a terminal result or raises, and a checkpoint snapshot is a terminal result or nothing.
* SQLAlchemy, SQS, Redis, S3, FastAPI and React: only atomic transactions, the conditional update, the unique index and redelivery are kept; `RedisRateLimiter` is not modelled.
* Coroutines and generators (`turn_events_stream`, `poll`) are state machines, one event per await point; pings, timeouts and a client leaving are "the connection may end at any point"; the greeting frame with seq 0 carries no row and is not modelled.
* A worker without a checkpointer or a retention period, which never cleans up: `Worker` has both.
* Wire formats, logging, metrics, citation trees, anchors, accounts, migrations: they would add only easy members.
* A build reads while its own turn is the session's pending newest one. At READ COMMITTED an orphan close and a new insert can fall between `get_turn` and `recent_turns` of one `_prepare_turn`; such a build counts the newer turn against the budget and may fold a turn that the newer turn's own build still shows.
* Overlapping builds are modelled for one session at a time, each write joining the summary as it then is; a summary overwritten by a write that had read it earlier is not.
* CheckpointPruning.NeverSelectedTwice: is about passes one after the other; two at the same instant can select the same turns.
* One executor commits the trace rows of a turn in increasing seq; `OnlyRowsPastCursor` shows what happens otherwise.
* Creation times strictly increase within a session and ids are fresh; both are what the clock and `uuid4` are trusted for. A turn's creation time is the time of its insert; rows created at the same instant are ordered by id, which SQL leaves open for `expired_turn_ids`.
* Aliasing of the in-memory store's turn objects: methods hand out copies of rows; its `_pruned` set is the rows' own flag.
* Listing of sessions, titles, reset of all sessions and drain timing of the local executor.
* Clocks that run backwards: both limiters are proved for a clock that does not.
* Floating point: times are reals, scores any positive reals, shares whole percentages; a negative `max_keys`, on which `popitem` raises, is not modelled.
* The remaining substitutions of `preprocessLatex` and the bold and block structure of `renderRichText`.
* Collection of candidates from the citation service, and the written report.
