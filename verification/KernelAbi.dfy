/** Sizes and error codes that the kernel's components share. */
module KernelAbi {
  /** Processes the kernel has room for. */
  const MAX_PROCS: nat := 16

  datatype KernelError = InvalidArgument | PermissionDenied | OutOfPages | OutOfHandles

  /** What a host call answers when it fails; a driver's own code is passed on. */
  datatype Errno = E_PERM | E_INVAL | E_NOMEM | E_AGAIN | E_DRIVER(code: int)

  function Code(e: Errno): int {
    match e case E_PERM => -1 case E_INVAL => -2 case E_NOMEM => -3 case E_AGAIN => -4 case E_DRIVER(code) => code
  }
}
