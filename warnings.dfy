/**
 * The development-mode warning sink that the core reports to. The sink itself is
 * an external collaborator; the model only records which warnings were emitted,
 * in order, in a ghost log.
 */
module Warnings {
  import opened Wrappers

  datatype Warning =
    /** `assignment_value_stale(property, location)`: the assignment's value and the read-back differ. */
    | AssignmentValueStale(property: string, site: string)
    /** `hydration_mismatch(location)`: no closing marker was found for an opening marker. */
    | HydrationMismatch(location: Option<string>)

  class WarningLog {
    ghost var entries: seq<Warning>

    constructor ()
      ensures entries == []
    {
      entries := [];
    }
  }
}
