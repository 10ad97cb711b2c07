/** The error numbers of asm-generic/errno.h that aufs returns. */
module Errno {

  const EPERM := 1
  const ENOENT := 2
  const EINTR := 4
  const EIO := 5
  const EAGAIN := 11
  const ENOMEM := 12
  const EBUSY := 16
  const EEXIST := 17
  const EXDEV := 18
  const EISDIR := 21
  const EINVAL := 22
  const ENOSPC := 28
  const EDOM := 33
  const ENOTEMPTY := 39
  const ESTALE := 116
}
