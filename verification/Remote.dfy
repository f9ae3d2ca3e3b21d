/** Calls to systems outside the process. */
module Remote {

  /** A call was answered, or its answer was lost, whether or not it had taken effect. */
  datatype Reply = Answered | Lost(applied: bool)

  predicate Lands(call: Reply) {
    call.Answered? || call.applied
  }
}
