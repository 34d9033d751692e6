/** The `audit_logs` entity: one row per attempted button execution. */
module AuditLogs {
  import opened Wrappers
  import ControlButtons

  datatype ExecutionStatus = Success | Failure | Timeout

  /** The enum constant's name, as `@Enumerated(EnumType.STRING)` stores it. */
  function ExecutionStatusName(s: ExecutionStatus): string {
    match s
    case Success => "SUCCESS"
    case Failure => "FAILURE"
    case Timeout => "TIMEOUT"
  }

  /** `ExecutionStatus.valueOf`: exactly SUCCESS, FAILURE and TIMEOUT are statuses. */
  function ParseExecutionStatus(name: string): (s: Option<ExecutionStatus>)
    ensures s.Some? <==> name in {"SUCCESS", "FAILURE", "TIMEOUT"}
    ensures s.Some? ==> ExecutionStatusName(s.value) == name
  {
    match name
    case "SUCCESS" => Some(Success)
    case "FAILURE" => Some(Failure)
    case "TIMEOUT" => Some(Timeout)
    case _ => None
  }

  /** A stored audit row. The columns declared `nullable = false` (button id,
      executor, execution time, action, status) have plain types; request
      payload, response data, error message and duration are `Option`s.
      `executedAt` is the creation timestamp, written once when the row is
      inserted; rows are never updated. */
  datatype AuditLog = AuditLog(
    id: int,
    buttonId: int,
    executedBy: string,
    executedAt: ControlButtons.Timestamp,
    action: string,
    requestPayload: Option<string>,
    responseData: Option<string>,
    status: ExecutionStatus,
    errorMessage: Option<string>,
    executionTimeMs: Option<int>)
}
