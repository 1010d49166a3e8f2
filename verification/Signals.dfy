/** The signals that the module sends to a group of threads. */
module Signals {
  datatype Signal = Stop(tgid: int) | Cont(tgid: int)
}
