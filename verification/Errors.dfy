/** The errno values the routines return, negated. */
module Errors {
  const EBADF := 9
  const EINVAL := 22
  const EPROTO := 71
}
