/** The error numbers that the driver returns. */
module Errno {
  const ENOENT := 2
  const EIO := 5
  const ENOMEM := 12
  const EEXIST := 17
  const EINVAL := 22
  const ENOSPC := 28
  const EAGAIN := 35
  const ENOTSUP := 45
  const EOVERFLOW := 84
}
