/** The statuses of assignments and of progress rows. */
module Statuses {

  datatype Status = Pending | InProgress | Completed | Cancelled

  datatype RowStatus = NotStarted | Started | Done | Skipped

  /** A pending assignment becomes active with its first row. */
  function Active(status: Status): Status {
    if status == Pending then InProgress else status
  }

  predicate IsDone(status: RowStatus) {
    status == Done || status == Skipped
  }
}
