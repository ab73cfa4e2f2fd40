/** The process system calls `getpid`, `waitpid` and `kill` of
    kern/syscall/proc_syscalls.c, modelled as pure functions.

    Each call is a chain of early returns. Its inputs are the system
    call's arguments plus, for every collaborator the kernel would call
    (`copyout`, `pid_join`, `pid_set_flag`), the integer that collaborator
    returns. Its result is the return code, the value written to the
    `*retval` out-parameter (None when the call leaves it untouched), and
    the log of collaborator calls actually made, with their arguments. */
module ProcSyscalls {
  import opened Kern

  /** A call from a system call into one of its collaborators. */
  datatype Call =
    | CopyOut(src: UserPtr)
    | PidJoin(pid: Int32, status: UserPtr, options: Int32)
    | PidSetFlag(pid: Int32, sig: Int32)

  datatype SyscallResult = SyscallResult(ret: Int32, retval: Option<Int32>, calls: seq<Call>)

  /** An early error return: nothing written to `*retval`, nothing called. */
  function Fail(err: Int32): SyscallResult
  {
    SyscallResult(err, None, [])
  }

  /** C's unary minus on a 32-bit `int`. C leaves `-MIN_INT32` undefined
      (signed overflow); the model fixes it to the two's-complement
      wrap-around the hardware computes, `MIN_INT32`. */
  function Neg32(x: Int32): (r: Int32)
    ensures (r + x) % 0x1_0000_0000 == 0
    ensures x != MIN_INT32 ==> r == -x
  {
    if x == MIN_INT32 then MIN_INT32 else -x
  }

  /** A pid that names some process: neither reserved nor out of range. */
  predicate AcceptablePid(pid: int)
  {
    pid != INVALID_PID && pid != BOOTUP_PID && PID_MIN <= pid <= PID_MAX
  }

  // ---------------------------------------------------------------------
  // sys_getpid

  /** `sys_getpid`: writes the calling thread's pid, passed in as
      `curPid`, to `*retval` and succeeds. */
  function GetPid(curPid: Int32): (r: SyscallResult)
    ensures r.ret == 0 && r.retval == Some(curPid)
    ensures r.calls == []
  {
    SyscallResult(0, Some(curPid), [])
  }

  // ---------------------------------------------------------------------
  // sys_waitpid

  /** The return codes `sys_waitpid` can produce. */
  const WAITPID_CODES: set<int> := {0, -1, EINVAL, ESRCH, EFAULT}

  /** `sys_waitpid(pid, status, options, retval)`. `copyoutResult` is what
      the probing `copyout` of `status` returns (non-zero is a failure)
      and `joinResult` what `pid_join` returns. */
  function Waitpid(pid: Int32, status: UserPtr, options: Int32, copyoutResult: Int32, joinResult: Int32)
    : (r: SyscallResult)
    ensures r.ret in WAITPID_CODES
    // the collaborators are called in this order, each at most once
    ensures r.calls <= [CopyOut(status), PidJoin(pid, status, 0)]
    // `*retval` is written exactly when `pid_join` was reached
    ensures r.retval.Some? <==> |r.calls| == 2
    ensures r.ret == -1 ==> r.retval.Some?
  {
    if options != 0 && options != WNOHANG then Fail(EINVAL)
    else if pid == INVALID_PID || pid == BOOTUP_PID then Fail(ESRCH)
    else if pid < PID_MIN || pid > PID_MAX then Fail(EINVAL)
    else if options == WNOHANG then SyscallResult(0, None, [])
    else if status == NULL then Fail(EFAULT)
    else if copyoutResult != 0 then SyscallResult(EFAULT, None, [CopyOut(status)])
    else
      var calls := [CopyOut(status), PidJoin(pid, status, options)];
      if joinResult < 0 then SyscallResult(-1, Some(Neg32(joinResult)), calls)
      else SyscallResult(0, Some(pid), calls)
  }

  /** Unsupported options are refused before anything else is looked at. */
  lemma WaitpidBadOptions(pid: Int32, status: UserPtr, options: Int32, copyoutResult: Int32, joinResult: Int32)
    requires options != 0 && options != WNOHANG
    ensures Waitpid(pid, status, options, copyoutResult, joinResult) == Fail(EINVAL)
  {
  }

  /** With valid options, the reserved pids give ESRCH, although they are
      also outside the pid range, which on its own gives EINVAL. */
  lemma WaitpidReservedPid(pid: Int32, status: UserPtr, options: Int32, copyoutResult: Int32, joinResult: Int32)
    requires options == 0 || options == WNOHANG
    requires pid == INVALID_PID || pid == BOOTUP_PID
    ensures pid < PID_MIN
    ensures Waitpid(pid, status, options, copyoutResult, joinResult) == Fail(ESRCH)
  {
  }

  /** Any other pid outside `PID_MIN..PID_MAX` gives EINVAL. */
  lemma WaitpidPidOutOfRange(pid: Int32, status: UserPtr, options: Int32, copyoutResult: Int32, joinResult: Int32)
    requires options == 0 || options == WNOHANG
    requires pid != INVALID_PID && pid != BOOTUP_PID
    requires pid < PID_MIN || PID_MAX < pid
    ensures Waitpid(pid, status, options, copyoutResult, joinResult) == Fail(EINVAL)
  {
  }

  /** WNOHANG with an acceptable pid succeeds at once: `*retval` is not
      written, and neither `status`, `copyout` nor `pid_join` has any
      bearing on the outcome. */
  lemma WaitpidNoHang(pid: Int32, status: UserPtr, copyoutResult: Int32, joinResult: Int32)
    requires AcceptablePid(pid)
    ensures Waitpid(pid, status, WNOHANG, copyoutResult, joinResult) == SyscallResult(0, None, [])
  {
  }

  /** A blocking wait with a NULL `status`, or whose `copyout` probe
      fails, fails with EFAULT and never reaches `pid_join`. The NULL test
      comes first: a NULL `status` is never handed to `copyout`, while a
      failed probe made exactly one call. */
  lemma WaitpidBadStatus(pid: Int32, status: UserPtr, copyoutResult: Int32, joinResult: Int32)
    requires AcceptablePid(pid)
    requires status == NULL || copyoutResult != 0
    ensures Waitpid(pid, status, 0, copyoutResult, joinResult).ret == EFAULT
    ensures Waitpid(pid, status, 0, copyoutResult, joinResult).retval == None
    ensures Waitpid(pid, status, 0, copyoutResult, joinResult).calls
         == if status == NULL then [] else [CopyOut(status)]
  {
  }

  /** Once every check passes, `pid_join` is called with the caller's pid,
      status pointer and options. A negative result `j` becomes the
      return code -1 with `*retval == -j`; any other result becomes 0
      with `*retval == pid`. */
  lemma WaitpidJoined(pid: Int32, status: UserPtr, joinResult: Int32)
    requires AcceptablePid(pid) && status != NULL
    ensures var r := Waitpid(pid, status, 0, 0, joinResult);
      && r.calls == [CopyOut(status), PidJoin(pid, status, 0)]
      && (joinResult < 0 ==> r.ret == -1 && r.retval == Some(Neg32(joinResult)))
      && (joinResult < 0 && joinResult != MIN_INT32 ==> r.retval.value == -joinResult > 0)
      && (joinResult >= 0 ==> r.ret == 0 && r.retval == Some(pid))
  {
  }

  /** Every exit of `sys_waitpid` is taken by some input, so no check in
      the chain is dead. Exits that share a return code are told apart by
      the rest of the result or by the arguments that reach them: the
      options test is the only EINVAL exit reached with an acceptable pid,
      the range test the only EINVAL exit with valid options, the NULL test the
      only EFAULT exit that calls nothing, and the WNOHANG exit the only
      success that leaves `*retval` unwritten. */
  lemma WaitpidExitsReachable()
    // options test (lines 73-75)
    ensures exists pid: Int32, status: UserPtr, options: Int32, c: Int32, j: Int32
      :: options != 0 && options != WNOHANG && AcceptablePid(pid)
         && Waitpid(pid, status, options, c, j) == Fail(EINVAL)
    // reserved-pid test (lines 78-80)
    ensures exists pid: Int32, status: UserPtr, options: Int32, c: Int32, j: Int32
      :: Waitpid(pid, status, options, c, j) == Fail(ESRCH)
    // range test (lines 82-84)
    ensures exists pid: Int32, status: UserPtr, options: Int32, c: Int32, j: Int32
      :: (options == 0 || options == WNOHANG) && Waitpid(pid, status, options, c, j) == Fail(EINVAL)
    // WNOHANG exit (lines 86-88)
    ensures exists pid: Int32, status: UserPtr, options: Int32, c: Int32, j: Int32
      :: Waitpid(pid, status, options, c, j) == SyscallResult(0, None, [])
    // NULL test (lines 93-95)
    ensures exists pid: Int32, status: UserPtr, options: Int32, c: Int32, j: Int32
      :: Waitpid(pid, status, options, c, j) == Fail(EFAULT)
    // copyout probe (lines 97-99)
    ensures exists pid: Int32, status: UserPtr, options: Int32, c: Int32, j: Int32
      :: Waitpid(pid, status, options, c, j) == SyscallResult(EFAULT, None, [CopyOut(status)])
    // pid_join failed (lines 102-104) and succeeded (lines 106-108)
    ensures exists pid: Int32, status: UserPtr, options: Int32, c: Int32, j: Int32
      :: Waitpid(pid, status, options, c, j).ret == -1
    ensures exists pid: Int32, status: UserPtr, options: Int32, c: Int32, j: Int32
      :: Waitpid(pid, status, options, c, j).ret == 0 && Waitpid(pid, status, options, c, j).retval.Some?
  {
    var status: UserPtr := 4;
    assert Waitpid(PID_MIN, status, 2, 0, 0) == Fail(EINVAL);
    assert Waitpid(INVALID_PID, status, 0, 0, 0) == Fail(ESRCH);
    assert Waitpid(PID_MAX + 1, status, 0, 0, 0) == Fail(EINVAL);
    assert Waitpid(PID_MIN, status, WNOHANG, 0, 0) == SyscallResult(0, None, []);
    assert Waitpid(PID_MIN, NULL, 0, 0, 0) == Fail(EFAULT);
    assert Waitpid(PID_MIN, status, 0, 1, 0) == SyscallResult(EFAULT, None, [CopyOut(status)]);
    assert Waitpid(PID_MIN, status, 0, 0, -1).ret == -1;
    assert Waitpid(PID_MIN, status, 0, 0, 0).ret == 0 && Waitpid(PID_MIN, status, 0, 0, 0).retval.Some?;
  }

  /** The values `sys_waitpid` can leave in `*retval`: a pid it waited
      for, or the negated error of `pid_join`. Zero and the negative
      numbers other than the wrapped `-MIN_INT32` are never written. */
  lemma WaitpidRetvalRange(v: Int32)
    ensures (exists pid: Int32, status: UserPtr, options: Int32, c: Int32, j: Int32
               :: Waitpid(pid, status, options, c, j).retval == Some(v))
        <==> v > 0 || v == MIN_INT32
  {
    if v > 0 || v == MIN_INT32 {
      var j: Int32 := if v == MIN_INT32 then MIN_INT32 else -v;
      assert Waitpid(PID_MIN, 4, 0, 0, j).retval == Some(v);
    }
  }

  // ---------------------------------------------------------------------
  // sys_kill

  /** The signals whose delivery `sys_kill` does not implement. */
  const UNIMPLEMENTED_SIGNALS: set<int> := {
    SIGQUIT, SIGILL, SIGTRAP, SIGABRT, SIGEMT, SIGFPE, SIGBUS, SIGSEGV,
    SIGSYS, SIGPIPE, SIGALRM, SIGURG, SIGTSTP, SIGCHLD, SIGTTIN, SIGTTOU,
    SIGIO, SIGXCPU, SIGXFSZ, SIGVTALRM, SIGPROF, SIGUSR1, SIGUSR2
  }

  /** The signal numbers that `sys_kill` hands to `pid_set_flag`:
      the null signal 0 and the nine it supports. */
  const DELIVERED_SIGNALS: set<int> := {
    0, SIGHUP, SIGINT, SIGKILL, SIGTERM, SIGSTOP, SIGCONT, SIGWINCH, SIGINFO
  }

  /** The return codes `sys_kill` can produce. */
  const KILL_CODES: set<int> := {0, -1, EINVAL, EUNIMP}

  /** `sys_kill(targetpid, sig)`; `setFlagResult` is what `pid_set_flag`
      returns. `sys_kill` has no `*retval`. */
  function Kill(targetpid: Int32, sig: Int32, setFlagResult: Int32): (r: SyscallResult)
    ensures r.ret in KILL_CODES
    ensures r.retval == None
    // `pid_set_flag` is the only collaborator, called at most once, with the caller's arguments
    ensures r.calls <= [PidSetFlag(targetpid, sig)]
  {
    if targetpid == INVALID_PID || targetpid == BOOTUP_PID
       || targetpid < PID_MIN || targetpid > PID_MAX then Fail(EINVAL)
    else if sig < 0 || sig > 31 then Fail(EINVAL)
    else if sig in UNIMPLEMENTED_SIGNALS then Fail(EUNIMP)
    else
      var ret: Int32 := if setFlagResult != 0 then -1 else 0;
      SyscallResult(ret, None, [PidSetFlag(targetpid, sig)])
  }

  /** A bad pid gives EINVAL whatever the signal: the pid is checked first. */
  lemma KillBadPid(targetpid: Int32, sig: Int32, setFlagResult: Int32)
    requires !AcceptablePid(targetpid)
    ensures Kill(targetpid, sig, setFlagResult) == Fail(EINVAL)
  {
  }

  /** With an acceptable pid, a signal number outside 0..31 gives EINVAL. */
  lemma KillBadSignal(targetpid: Int32, sig: Int32, setFlagResult: Int32)
    requires AcceptablePid(targetpid)
    requires sig < 0 || 31 < sig
    ensures Kill(targetpid, sig, setFlagResult) == Fail(EINVAL)
  {
  }

  /** With an acceptable pid, an unimplemented signal gives EUNIMP and
      `pid_set_flag` is never called. */
  lemma KillUnimplemented(targetpid: Int32, sig: Int32, setFlagResult: Int32)
    requires AcceptablePid(targetpid)
    requires sig in UNIMPLEMENTED_SIGNALS
    ensures Kill(targetpid, sig, setFlagResult) == Fail(EUNIMP)
  {
  }

  /** With an acceptable pid, every other signal in 0..31 (the null
      signal included) goes to `pid_set_flag`, and the call returns 0
      exactly when `pid_set_flag` does, -1 otherwise. */
  lemma KillDelivers(targetpid: Int32, sig: Int32, setFlagResult: Int32)
    requires AcceptablePid(targetpid)
    requires 0 <= sig <= 31 && sig !in UNIMPLEMENTED_SIGNALS
    ensures Kill(targetpid, sig, setFlagResult).calls == [PidSetFlag(targetpid, sig)]
    ensures Kill(targetpid, sig, setFlagResult).ret == 0 <==> setFlagResult == 0
    ensures Kill(targetpid, sig, setFlagResult).ret == -1 <==> setFlagResult != 0
  {
  }

  /** The `INVALID_PID` and `BOOTUP_PID` tests of `sys_kill` are subsumed
      by its range test: the pid check is exactly `PID_MIN..PID_MAX`. */
  lemma KillPidCheckIsRangeCheck(targetpid: Int32)
    ensures AcceptablePid(targetpid) <==> PID_MIN <= targetpid <= PID_MAX
  {
  }

  /** The signals 0..31 split into the unimplemented ones and the ones
      `sys_kill` delivers, and for an acceptable pid `pid_set_flag` is
      reached exactly for the latter. */
  lemma KillSignalPartition(targetpid: Int32, sig: Int32, setFlagResult: Int32)
    requires AcceptablePid(targetpid)
    ensures UNIMPLEMENTED_SIGNALS !! DELIVERED_SIGNALS
    ensures 0 <= sig <= 31 <==> sig in UNIMPLEMENTED_SIGNALS + DELIVERED_SIGNALS
    ensures Kill(targetpid, sig, setFlagResult).calls != [] <==> sig in DELIVERED_SIGNALS
  {
  }

  /** Every return code of `sys_kill` is produced by some input. */
  lemma KillCodesReachable(code: int)
    requires code in KILL_CODES
    ensures exists targetpid: Int32, sig: Int32, f: Int32 :: Kill(targetpid, sig, f).ret == code
  {
    var targetpid: Int32, sig: Int32, f: Int32 := PID_MIN, SIGKILL, 0;
    if code == EINVAL {
      sig := 32;
    } else if code == EUNIMP {
      sig := SIGUSR1;
    } else if code == -1 {
      f := 1;
    }
    assert Kill(targetpid, sig, f).ret == code;
  }
}
