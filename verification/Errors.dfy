/** The error codes that the modelled operations return; Ok stands for 0. */
module Errors {
  datatype Errno =
    | Ok
    | EADDRINUSE
    | EFAULT
    | EINVAL
    | EIO
    | ELOOP
    | ENOENT
    | ENOMEM
    | ENOSPC
    | ENOTDIR
    | ESPIPE
}
