/** Result values shared by the model: an optional value, the errors the
    backup/restore code raises, and the outcome of an operation that either
    finishes or raises one of them. */
module Outcomes {

  datatype Option<+T> = None | Some(value: T)

  /** `BackupRestore::OperationRunningError`, `BackupRestore::RunningSidekiqJobsError`,
      and any error PostgreSQL raises while the schema-move block runs. */
  datatype Error = OperationRunningError | RunningSidekiqJobsError | StatementError

  /** A Ruby call that returns normally (`Done`) or raises (`Failed`). */
  datatype Outcome = Done | Failed(error: Error)
}
