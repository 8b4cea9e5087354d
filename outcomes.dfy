/** How a call of the handler's helpers ends. */
module Outcomes {

  datatype Option<+T> = None | Some(value: T)

  /** A Python call either returns a boolean or raises an exception that propagates to the
      caller. The exception's message is only printed, so it is not kept. */
  datatype Call = Returned(ok: bool) | Raised
}
