# OS/161 process system calls: argument validation and result mapping

This project models the process system calls of an OS/161 teaching kernel
(`kern/syscall/proc_syscalls.c`): `sys_getpid`, `sys_waitpid` and `sys_kill`.
Each is a loop-free chain of early returns over its arguments. The model
writes each one as a pure Dafny function and proves which check fires first
when several arguments are bad, which paths leave `*retval` unwritten, and
which arguments reach the collaborators the call delegates to.

- `kern.dfy`, module `Kern`: 32-bit integers, user pointers and the header
  constants the calls use. These are the error numbers (`EUNIMP`, `EFAULT`,
  `EINVAL`, `ESRCH`), `WNOHANG`, the reserved pids `INVALID_PID` and
  `BOOTUP_PID`, the range `PID_MIN..PID_MAX`, and the 31 signal numbers.
  The headers that define them are not part of this model. The values follow
  OS/161's conventions. The proofs unfold these concrete values and depend
  on these facts about them: `0 < PID_MIN <= PID_MAX < MAX_INT32`; both
  reserved pids lie below `PID_MIN`; `WNOHANG` is neither 0 nor 2 (2 serves
  as an unsupported option in a witness); `EINVAL`, `ESRCH` and `EFAULT`
  differ from -1; the signal numbers are the distinct values 1..31. The
  error numbers are also distinct from each other and from 0. The proofs
  do not need that, but the precedence rows below (ESRCH before EINVAL,
  for one) describe an observable difference only because of it.
- `proc_syscalls.dfy`, module `ProcSyscalls`: the three system calls and
  the lemmas about them.

A call's inputs are its C arguments plus the integer that each collaborator
returns: the `copyout` probe of `status`, `pid_join` and `pid_set_flag`. A
call's result, `SyscallResult`, holds three things: the return code; the
value written to `*retval`, or `None` when the call does not write it; and
the log of collaborator calls actually made, with their arguments. "Never
calls `pid_join`" is a statement about that log.

`*retval = -result` negates a 32-bit `int`. For a `pid_join` result of
`-2^31` that is signed overflow, which C leaves undefined. The model
(`Neg32`) fixes it to the two's-complement wrap-around the hardware
computes, so that result leaves `-2^31` in `*retval`. For every other
negative result `r`, `*retval` is `-r`, which is positive.

## Model

| member | source | states |
|---|---|---|
| `ProcSyscalls.GetPid` | Processes/src/kern/syscall/proc_syscalls.c:58-62 | getpid always succeeds, writes the calling thread's pid to `*retval` and calls nothing |
| `ProcSyscalls.Neg32` | Processes/src/kern/syscall/proc_syscalls.c:103 | `-result` on a 32-bit int equals the mathematical `-x` wherever C defines it (every `x` but `MIN_INT32`); the result always sums with the operand to 0 mod 2^32, which fixes the case C leaves undefined to the wrap-around `MIN_INT32` |
| `ProcSyscalls.Waitpid` | Processes/src/kern/syscall/proc_syscalls.c:68-110 | waitpid returns only 0, -1, EINVAL, ESRCH or EFAULT; it calls `copyout` and then `pid_join` (with options 0), in that order and each at most once; it writes `*retval` exactly when `pid_join` was reached, and always does so when returning -1 |
| `ProcSyscalls.WaitpidBadOptions` | Processes/src/kern/syscall/proc_syscalls.c:72-75 | any options other than 0 and WNOHANG give EINVAL, whatever the pid, status and collaborator results, with no retval and no calls |
| `ProcSyscalls.WaitpidReservedPid` | Processes/src/kern/syscall/proc_syscalls.c:77-84 | with valid options, INVALID_PID and BOOTUP_PID give ESRCH, although both also lie below PID_MIN: the reserved-pid check takes precedence over the range check |
| `ProcSyscalls.WaitpidPidOutOfRange` | Processes/src/kern/syscall/proc_syscalls.c:82-84 | with valid options, any other pid outside PID_MIN..PID_MAX gives EINVAL with no retval and no calls |
| `ProcSyscalls.WaitpidNoHang` | Processes/src/kern/syscall/proc_syscalls.c:86-88 | WNOHANG with an acceptable pid returns 0 without writing `*retval` and without consulting status, `copyout` or `pid_join` |
| `ProcSyscalls.WaitpidBadStatus` | Processes/src/kern/syscall/proc_syscalls.c:90-99 | a blocking wait with a NULL status, or whose `copyout` probe fails, gives EFAULT, leaves `*retval` unwritten and never reaches `pid_join`; the NULL test comes first, so a NULL status makes no collaborator call while a failed probe logs exactly one `copyout` of `status` |
| `ProcSyscalls.WaitpidJoined` | Processes/src/kern/syscall/proc_syscalls.c:101-109 | once every check passes, `pid_join` receives the caller's pid, status and options; a negative result r gives -1 with `*retval == -r` (positive unless r is MIN_INT32), any other result gives 0 with `*retval == pid` |
| `ProcSyscalls.WaitpidExitsReachable` | Processes/src/kern/syscall/proc_syscalls.c:68-110 | each of the eight exits (options test, reserved-pid test, range test, WNOHANG, NULL test, `copyout` probe, failed and successful `pid_join`) is taken by some input, so no check in the chain is dead; exits sharing a code are told apart by the full result or by the arguments that reach them (the options test is the only EINVAL exit reached with an acceptable pid, the range test the only one with valid options) |
| `ProcSyscalls.WaitpidRetvalRange` | Processes/src/kern/syscall/proc_syscalls.c:101-109 | over all arguments and collaborator results, the values waitpid can leave in `*retval` are exactly the positive ints and MIN_INT32 (the latter only through the wrap-around of `Neg32`); it never writes 0 or another negative number |
| `ProcSyscalls.Kill` | Processes/src/kern/syscall/proc_syscalls.c:116-161 | kill returns only 0, -1, EINVAL or EUNIMP, never writes a retval, and calls at most `pid_set_flag`, once, with the caller's pid and signal |
| `ProcSyscalls.KillBadPid` | Processes/src/kern/syscall/proc_syscalls.c:119-122 | a reserved or out-of-range pid gives EINVAL whatever the signal: the pid is checked before the signal |
| `ProcSyscalls.KillBadSignal` | Processes/src/kern/syscall/proc_syscalls.c:125-127 | with an acceptable pid, a signal outside 0..31 gives EINVAL with no calls |
| `ProcSyscalls.KillUnimplemented` | Processes/src/kern/syscall/proc_syscalls.c:128-153 | with an acceptable pid, each of the 23 listed signals (SIGQUIT … SIGUSR2) gives EUNIMP and `pid_set_flag` is never called |
| `ProcSyscalls.KillDelivers` | Processes/src/kern/syscall/proc_syscalls.c:155-160 | with an acceptable pid, every other signal in 0..31, 0 included, goes to `pid_set_flag`; kill returns 0 exactly when that call returns 0, and -1 otherwise |
| `ProcSyscalls.KillPidCheckIsRangeCheck` | Processes/src/kern/syscall/proc_syscalls.c:119-120 | the INVALID_PID and BOOTUP_PID tests of kill are subsumed by its range test: the pid check accepts exactly PID_MIN..PID_MAX |
| `ProcSyscalls.KillSignalPartition` | Processes/src/kern/syscall/proc_syscalls.c:125-160 | the signals 0..31 split into the unimplemented set and the delivered set {0, SIGHUP, SIGINT, SIGKILL, SIGTERM, SIGSTOP, SIGCONT, SIGWINCH, SIGINFO}; with an acceptable pid, `pid_set_flag` is reached exactly for the delivered set |
| `ProcSyscalls.KillCodesReachable` | Processes/src/kern/syscall/proc_syscalls.c:116-161 | each of the four return codes of kill is produced by some input |

## Left out

- `sys_fork` (Processes/src/kern/syscall/proc_syscalls.c:26-52): this is process and thread creation, built from `kmalloc`, a trapframe copy and `thread_fork`. It returns ENOMEM when the trapframe cannot be allocated; otherwise it frees the copy and passes on `thread_fork`'s error, or returns 0.
- `Neg32`: C leaves `-result` undefined when `result` is `MIN_INT32` (signed overflow); the model fixes that case to the two's-complement wrap-around `MIN_INT32`, which is what the hardware computes but not something C promises.
- `pid_join`: blocking join is scheduling and concurrency. Its result is an arbitrary 32-bit input.
- `pid_set_flag`: this is signal delivery. Its result is an arbitrary 32-bit input.
- `copyout`: this is the copy between user and kernel memory. Its destination at line 97 is an uninitialised local, so its effect on memory cannot be stated. The model keeps only its return value, as an arbitrary input, and logs the call with its source pointer `status`.
- `curthread->t_pid` (line 60): thread-global state. It becomes the parameter `curPid` of `GetPid`.
- The system-call dispatcher, which turns a return code into a user-level result and errno, is not part of this model. The meaning of the `-1` return of `waitpid` and `kill` to user programs is therefore not modelled.
- The per-process file-descriptor table and its reference-counted open-file handles are not part of this model: their code is not among the modelled source files.
