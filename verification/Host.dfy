/** What the host may do to one synchronized write. */
module Host {

  // A write or rename may fail before or after it took effect; it is never half done.
  datatype WriteOutcome = Written | FailedOld | FailedNew

  function AfterWrite<T>(outcome: WriteOutcome, before: T, after: T): T {
    if outcome == FailedOld then before else after
  }
}
