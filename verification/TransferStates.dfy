/** The states a transfer's row can be in. */
module TransferStates {
  datatype TransferState = Queued | Active | Paused | Completed | Failed | Cancelled

  /** The states a row is a candidate for resuming in; the others are terminal. */
  predicate Open(state: TransferState)
  {
    state.Active? || state.Paused? || state.Queued?
  }
}
