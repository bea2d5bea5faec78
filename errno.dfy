/** The kernel crate's `Error`: a wrapper around a negative `errno` value. */
module Errno {
  import opened Wrappers

  datatype Error = Error(errno: int)

  /** Interrupted system call. */
  const EINTR := Error(-4)
  /** Out of memory. */
  const ENOMEM := Error(-12)
  /** Bad address. */
  const EFAULT := Error(-14)
  /** Invalid argument. */
  const EINVAL := Error(-22)

  /** The kernel crate's `Result<T>`. */
  type KResult<T> = Result<T, Error>

  /** `Error::from_kernel_errno`, for the negative return codes it is called with here. */
  function FromKernelErrno(ret: int): (e: Error)
    requires ret < 0
    ensures e.errno == ret && e.errno < 0
  {
    Error(ret)
  }

  /** Unsigned machine integers: `usize` and `u64` are 64 bits wide on the targets modelled. */
  const U32_MAX: nat := 0xFFFF_FFFF
  const U64_MAX: nat := 0xFFFF_FFFF_FFFF_FFFF
  const USIZE_MAX: nat := U64_MAX
}
