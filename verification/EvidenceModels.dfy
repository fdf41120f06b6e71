/** The rows and results of the evidence conversation (models.py, repository.py). */
module EvidenceModels {

  datatype Option<+T> = None | Some(value: T)

  /** Session, turn and owner ids are UUIDs: 128-bit numbers compared as numbers. */
  type Uuid = nat

  /** `TurnResult`: pending until an executor or a reader closes the turn. */
  datatype TurnResult =
    | Pending
    | Success(citedPapers: seq<string>)
    | Abstain(reason: string)
    | Error(code: string)

  /** What a runner, a cancellation or an orphan close may write. */
  type Terminal = r: TurnResult | r != Pending witness Error("internal_error")

  datatype SessionRow = SessionRow(owner: Uuid, deleted: bool, summary: string)

  datatype TurnRow = TurnRow(
    id: Uuid,
    session: Uuid,
    owner: Uuid,
    topic: string,
    result: TurnResult,
    created: nat,
    cancelRequested: bool,
    heartbeat: Option<nat>,
    folded: bool,    // summarized_at is set
    pruned: bool)    // checkpoints_pruned_at is set

  datatype TraceRow = TraceRow(turn: Uuid, owner: Uuid, seqNo: nat, tool: string)
}
