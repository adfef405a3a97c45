/** The Linux x86_64 constants and C type layouts the core relies on
    (src/libc.rs). They are definitions only: no behaviour. */
module Libc {

  // errno values
  const ENOENT: int := 2
  const EAGAIN: int := 11
  const ENOMEM: int := 12
  const EFAULT: int := 14
  const EINVAL: int := 22
  const ENOSYS: int := 38
  const EBADFD: int := 77

  // syscall numbers
  const SYS_read: int := 0
  const SYS_write: int := 1
  const SYS_close: int := 3
  const SYS_dup: int := 32
  const SYS_dup2: int := 33
  const SYS_socket: int := 41
  const SYS_connect: int := 42
  const SYS_accept: int := 43
  const SYS_recvfrom: int := 45
  const SYS_bind: int := 49
  const SYS_listen: int := 50
  const SYS_getsockname: int := 51
  const SYS_setsockopt: int := 54
  const SYS_exit: int := 60
  const SYS_fcntl: int := 72
  const SYS_sync: int := 162
  const SYS_clock_gettime: int := 228
  const SYS_exit_group: int := 231
  const SYS_epoll_wait: int := 232
  const SYS_epoll_ctl: int := 233
  const SYS_epoll_pwait: int := 281
  const SYS_accept4: int := 288
  const SYS_eventfd2: int := 290
  const SYS_epoll_create1: int := 291
  const SYS_dup3: int := 292

  // standard descriptors
  const STDIN_FILENO: int := 0
  const STDOUT_FILENO: int := 1
  const STDERR_FILENO: int := 2

  // getrandom(2) flags (c_uint)
  const GRND_NONBLOCK: bv32 := 1
  const GRND_RANDOM: bv32 := 2

  // file type bit for a FIFO (mode_t)
  const S_IFIFO: bv32 := 0x1000

  /** The C types whose layout the host-side checks depend on. */
  datatype CType = CU8 | CSocklen | CTimespec | CEpollEvent | CSigset | CSockaddrStorage | CUsize

  /** `size_of::<T>()` on x86_64. The host takes these types from the
      external `libc` crate. Its layouts agree with the `repr(C)` ones in
      src/libc.rs except for `epoll_event`, which that crate declares
      `repr(packed)` on x86_64: 12 bytes, alignment 1. */
  function SizeOf(t: CType): nat
  {
    match t
    case CU8 => 1
    case CSocklen => 4
    case CTimespec => 16
    case CEpollEvent => 12
    case CSigset => 128
    case CSockaddrStorage => 128
    case CUsize => 8
  }

  /** `align_of::<T>()` for the same types. */
  function AlignOf(t: CType): (a: nat)
    ensures a > 0
  {
    match t
    case CU8 => 1
    case CSocklen => 4
    case CTimespec => 8
    case CEpollEvent => 1
    case CSigset => 8
    case CSockaddrStorage => 8
    case CUsize => 8
  }
}
