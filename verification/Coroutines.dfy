/** Coroutines as the scheduler sees them. */
module Coroutines {
  datatype CoState = Ready | Running | Suspended
}
