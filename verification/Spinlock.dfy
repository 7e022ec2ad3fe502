/** What the models of concurrent kernel code share. */
module Spinlock {

  datatype Option<T> = None | Some(value: T)

  /** A spin lock: free, held by a process, or held by a scheduler. */
  datatype Owner = Free | By(p: nat) | Cpu
}
