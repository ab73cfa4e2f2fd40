/** Types and constants of the OS/161 kernel headers that the process
    system calls use: 32-bit integers, user pointers, the error numbers
    of kern/errno.h, the wait option of kern/wait.h, the signal numbers
    of kern/signal.h and the pid limits of pid.h and kern/limits.h.
    The headers themselves are not part of this model; the values follow
    OS/161's conventions. The proofs unfold these concrete values. */
module Kern {

  /** C `int` and `pid_t`: two's-complement 32-bit integers. */
  const MIN_INT32: int := -0x8000_0000
  const MAX_INT32: int := 0x7fff_ffff
  type Int32 = x: int | MIN_INT32 <= x <= MAX_INT32

  /** 32-bit user-space address; `NULL` is address 0. */
  type UserPtr = p: int | 0 <= p < 0x1_0000_0000
  const NULL: UserPtr := 0

  datatype Option<T> = None | Some(value: T)

  // kern/errno.h
  const EUNIMP: Int32 := 2
  const EFAULT: Int32 := 6
  const EINVAL: Int32 := 8
  const ESRCH: Int32 := 15

  // kern/wait.h
  const WNOHANG: Int32 := 1

  // pid.h and kern/limits.h
  const INVALID_PID: Int32 := 0
  const BOOTUP_PID: Int32 := 1
  const PID_MIN: Int32 := 2
  const PID_MAX: Int32 := 32767

  // kern/signal.h
  const SIGHUP: Int32 := 1
  const SIGINT: Int32 := 2
  const SIGQUIT: Int32 := 3
  const SIGILL: Int32 := 4
  const SIGTRAP: Int32 := 5
  const SIGABRT: Int32 := 6
  const SIGEMT: Int32 := 7
  const SIGFPE: Int32 := 8
  const SIGKILL: Int32 := 9
  const SIGBUS: Int32 := 10
  const SIGSEGV: Int32 := 11
  const SIGSYS: Int32 := 12
  const SIGPIPE: Int32 := 13
  const SIGALRM: Int32 := 14
  const SIGTERM: Int32 := 15
  const SIGURG: Int32 := 16
  const SIGSTOP: Int32 := 17
  const SIGTSTP: Int32 := 18
  const SIGCONT: Int32 := 19
  const SIGCHLD: Int32 := 20
  const SIGTTIN: Int32 := 21
  const SIGTTOU: Int32 := 22
  const SIGIO: Int32 := 23
  const SIGXCPU: Int32 := 24
  const SIGXFSZ: Int32 := 25
  const SIGVTALRM: Int32 := 26
  const SIGPROF: Int32 := 27
  const SIGWINCH: Int32 := 28
  const SIGINFO: Int32 := 29
  const SIGUSR1: Int32 := 30
  const SIGUSR2: Int32 := 31
}
