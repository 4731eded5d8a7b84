/** The native readBuffer, proved to take the steps of ReaderProtocol. */
module ReadBuffers {
  import opened Deadline
  import opened Posix
  import opened Kernels
  import opened ReaderProtocol
  import opened Prelude

  /** How a call ends for its Java caller: the value returned, the exception that ended it, and
      how many InterruptedIOExceptions had been raised before without ending it. */
  datatype Outcome = Outcome(ret: int, raised: Option<Exception>, pending: nat)

  function OutcomeOf(r: Reader): Outcome {
    match r.pc
    case Returned(n) => Outcome(n, None, r.pending)
    case Threw(e) => Outcome(-1, Some(e), r.pending)
    case _ => Outcome(-1, None, r.pending)
  }

  /** The call has taken the steps of its history to the state `r`, `buff` starts with the bytes
      moved so far and is otherwise as it `was`. */
  ghost predicate At(c: Config, k: Kernel, r: Reader, buff: array<Byte>, was: seq<Byte>)
    reads k, buff
  {
    && k.Valid()
    && Run(c, k.trace) == r
    && r.total == |BytesMoved(k.trace)| <= buff.Length == |was|
    && buff[..] == BytesMoved(k.trace) + was[r.total..]
  }

  lemma Note(c: Config, env: Env, t: Trace, e: Timed)
    ensures Run(c, t + [e]) == Step(c, Run(c, t), e.event)
    ensures BytesMoved(t + [e]) == BytesMoved(t) + EventBytes(e.event)
  {
    RunExtend(c, t, e);
    Extend(env, t, e);
  }

  lemma Begin(c: Config, k: Kernel, buff: array<Byte>)
    requires k.Valid() && k.trace == []
    ensures At(c, k, START, buff, buff[..])
  {}

  // The system calls of readBuffer, each with the step of the protocol that it is.

  method FetchFd(k: Kernel, buff: array<Byte>, c: Config, ghost r: Reader, ghost was: seq<Byte>)
    returns (fd: int, ghost r': Reader)
    requires At(c, k, r, buff, was) && (r.pc.FirstReadFailed? ==> r.total == 0)
    modifies k`trace
    ensures At(c, k, r', buff, was) && r' == OnFd(c, r, fd)
  {
    ghost var t := k.trace;
    var at;
    fd, at := k.GetFd();
    Note(c, k.env, t, Timed(FetchedFd(fd), at));
    r' := OnFd(c, r, fd);
  }

  method FetchCloseFd(k: Kernel, buff: array<Byte>, c: Config, ghost r: Reader, ghost was: seq<Byte>)
    returns (fd: int, ghost r': Reader)
    requires At(c, k, r, buff, was)
    modifies k`trace
    ensures At(c, k, r', buff, was) && r' == OnCloseFd(r, fd)
  {
    ghost var t := k.trace;
    var at;
    fd, at := k.GetCloseEventReadFd();
    Note(c, k.env, t, Timed(FetchedCloseFd(fd), at));
    r' := OnCloseFd(r, fd);
  }

  method ReadClock(k: Kernel, buff: array<Byte>, c: Config, ghost r: Reader, ghost was: seq<Byte>)
    returns (now: Timespec, ghost r': Reader)
    requires At(c, k, r, buff, was) && 0 <= k.env.start
    modifies k`trace
    ensures At(c, k, r', buff, was) && r' == OnClock(c, r, now)
  {
    ghost var t := k.trace;
    var at;
    now, at := k.ClockGettime();
    Note(c, k.env, t, Timed(GotTime(now), at));
    r' := OnClock(c, r, now);
  }

  method AwaitInput(k: Kernel, buff: array<Byte>, c: Config, ghost r: Reader, ghost was: seq<Byte>,
    fd: int, closeFd: int, timeout: int)
    returns (verdict: Verdict, ghost r': Reader)
    requires At(c, k, r, buff, was) && fd == r.fd && closeFd == r.closeFd && timeout == PollTimeout(c, r)
    modifies k`trace
    ensures At(c, k, r', buff, was) && r' == OnPoll(r, verdict)
  {
    hide Judge, KernelTrace;
    ghost var t := k.trace;
    var outcome, at;
    verdict, outcome, at := k.Await(fd, closeFd, timeout, POLLIN, 0);
    Note(c, k.env, t, Timed(DidPoll(fd, closeFd, timeout, outcome), at));
    r' := OnPoll(r, verdict);
  }

  /** Bytes stored behind those that are there already. */
  lemma Splice(moved: seq<Byte>, was: seq<Byte>, bytes: seq<Byte>)
    requires |moved| + |bytes| <= |was|
    ensures var b := moved + was[|moved|..];
            b[..|moved|] + bytes + b[|moved| + |bytes|..] == (moved + bytes) + was[|moved| + |bytes|..]
  {}

  /** The bytes of a read are added to the total, however the call goes on. */
  lemma ReadStepTotal(c: Config, r: Reader, result: Transfer)
    requires r.pc == FirstRead || r.pc == SecondRead || r.pc == LoopRead
    requires r.total <= c.len && (r.pc != LoopRead ==> r.total == 0)
    ensures OnRead(c, r, result).total
         == r.total + if result.Moved? then |result.bytes| else 0
  {}

  /** What a read changes, in terms of the history and of the contents of the buffer. */
  lemma ReadKeeps(c: Config, t: Trace, e: Timed, r: Reader, result: Transfer, before: seq<Byte>, after: seq<Byte>,
    was: seq<Byte>)
    requires Run(c, t) == r && (r.pc == FirstRead || r.pc == SecondRead || r.pc == LoopRead)
    requires r.total == |BytesMoved(t)| <= c.len <= |was| && (r.pc != LoopRead ==> r.total == 0)
    requires e.event == DidRead(r.fd, c.len - r.total, result)
    requires before == BytesMoved(t) + was[r.total..]
    requires result.Moved? ==> |result.bytes| <= c.len - r.total
    requires after == if result.Moved?
                      then before[..r.total] + result.bytes + before[r.total + |result.bytes|..] else before
    ensures var r' := OnRead(c, r, result);
            && Run(c, t + [e]) == r'
            && r'.total == |BytesMoved(t + [e])| <= c.len
            && after == BytesMoved(t + [e]) + was[r'.total..]
  {
    hide Run, BytesMoved;
    Note(c, Env(0, 0), t, e);
    ReadStepTotal(c, r, result);
    if result.Moved? {
      Splice(BytesMoved(t), was, result.bytes);
    } else {
      assert BytesMoved(t) + [] == BytesMoved(t);
    }
  }

  /** read() behind the bytes that are there already. */
  method ReadInto(k: Kernel, buff: array<Byte>, c: Config, ghost r: Reader, ghost was: seq<Byte>, fd: int, off: nat)
    returns (n: int, again: bool, ghost result: Transfer, ghost r': Reader)
    requires At(c, k, r, buff, was)
    requires r.pc == FirstRead || r.pc == SecondRead || r.pc == LoopRead
    requires fd == r.fd && off == r.total <= c.len <= buff.Length && (r.pc != LoopRead ==> off == 0)
    modifies k`trace, k`patience, buff
    ensures At(c, k, r', buff, was) && r' == OnRead(c, r, result)
    ensures result.Moved? ==> n == |result.bytes| <= c.len - off
    ensures !result.Moved? ==> n == -1 && (again <==> result.WouldBlock?)
    ensures k.patience <= old(k.patience)
    ensures n == 0 && c.len - off > 0 ==> k.patience < old(k.patience)
  {
    hide OnRead, KernelTrace, Run, BytesMoved;
    ghost var t, before := k.trace, buff[..];
    var res, at;
    n, again, res, at := k.Read(fd, buff, off, c.len - off);
    result := res;
    ReadKeeps(c, t, Timed(DidRead(fd, c.len - off, result), at), r, result, before, buff[..], was);
    r' := OnRead(c, r, result);
  }

  lemma NothingRun(c: Config)
    ensures Run(c, []) == START
  {}

  /** What ReaderProtocol proves of a finished call. */
  lemma Conclude(c: Config, k: Kernel)
    requires k.Valid() && c.Valid() && Over(Run(c, k.trace).pc)
    ensures IsRun(c, k.env, k.trace)
    ensures Accounted(c, Run(c, k.trace), |BytesMoved(k.trace)|)
    ensures Run(c, k.trace).pending == PassedOver(k.trace)
    ensures k.trace != [] && Ending(c, k.trace) == Some(Run(c, k.trace).pc)
    ensures var e := k.trace[|k.trace| - 1].event;
            Run(c, k.trace).pc.Threw? && Run(c, k.trace).pc.exception.Timeout? <==>
              e.DidPoll? && e.outcome == TimedOut && Polls(k.trace) == 1 && BytesMoved(k.trace) == []
    ensures c.pollTimeout > 0 ==>
              Now(k.env, k.trace) < k.env.start + Millis(c.pollTimeout) + Millis(1) + 9 * k.env.slack
  {
    hide Run, Ending, BytesMoved, Polls, PassedOver, KernelTrace, Accounted;
    assert k.trace != [] by { assert Run(c, []) == START by { NothingRun(c); } }
    RunIsAccounted(c, k.env, k.trace);
    PendingIsPassedOver(c, k.env, k.trace);
    CallsEndAsTold(c, k.env, k.trace);
    TimeoutIff(c, k.env, k.trace);
    if c.pollTimeout > 0 {
      CallEndsInTime(c, k.env, k.trace);
    }
  }

  method ReadBuffer(k: Kernel, buff: array<Byte>, c: Config) returns (out: Outcome)
    requires k.Valid() && k.trace == [] && 0 <= k.env.start
    requires c.Valid() && c.len <= buff.Length
    modifies k`trace, k`patience, buff
    ensures IsRun(c, k.env, k.trace) && Over(Run(c, k.trace).pc) && out == OutcomeOf(Run(c, k.trace))
    // Read conservation, for every chunking the kernel chooses.
    ensures var n := |BytesMoved(k.trace)|;
            && n <= c.len
            && buff[..] == BytesMoved(k.trace) + old(buff[..])[n..]
            && (if out.raised == None then out.ret == n else out.ret == -1)
    // The caller gets no exception iff the call has returned and no empty read was passed over.
    ensures out.pending == PassedOver(k.trace)
    ensures out.raised == None && out.pending == 0 <==> ReturnsNormally(Run(c, k.trace))
    // A timeout loses nothing.
    ensures out.raised.Some? && out.raised.value.Timeout? ==>
              BytesMoved(k.trace) == [] && out == Outcome(-1, Some(Timeout(0)), 0)
    // How it ends follows from the last thing that the kernel or the field said.
    ensures k.trace != [] && Ending(c, k.trace)
                             == Some(if out.raised == None then Returned(out.ret) else Threw(out.raised.value))
    ensures var e := k.trace[|k.trace| - 1].event;
            out.raised == Some(Timeout(0)) <==>
              e.DidPoll? && e.outcome == TimedOut && Polls(k.trace) == 1 && BytesMoved(k.trace) == []
    // The call ends in time.
    ensures c.pollTimeout > 0 ==>
              Now(k.env, k.trace) < k.env.start + Millis(c.pollTimeout) + Millis(1) + 9 * k.env.slack
  {
    hide Run, Ending, BytesMoved, Polls, PassedOver, KernelTrace;
    ghost var r: Reader;
    out, r := ReadChunks(k, buff, c);
    Conclude(c, k);
  }

  /** The body of readBuffer. */
  method ReadChunks(k: Kernel, buff: array<Byte>, c: Config) returns (out: Outcome, ghost r: Reader)
    requires k.Valid() && k.trace == [] && 0 <= k.env.start
    requires c.Valid() && c.len <= buff.Length
    modifies k`trace, k`patience, buff
    ensures At(c, k, r, buff, old(buff[..])) && Over(r.pc) && out == OutcomeOf(r)
  {
    hide At, EndTime, Remaining;
    ghost var was := buff[..];
    var fd, closeFd, nread, again;
    ghost var result;
    Begin(c, k, buff);
    fd, r := FetchFd(k, buff, c, START, was);
    closeFd, r := FetchCloseFd(k, buff, c, r, was);

    nread, again, result, r := ReadInto(k, buff, c, r, was, fd, 0);
    if nread < 0 {
      var field;
      field, r := FetchFd(k, buff, c, r, was);
      if field == INVALID_FD {
        return Outcome(-1, Some(AsynchronousClose), 0), r;
      } else if again {
        nread := 0;
      } else {
        return Outcome(-1, Some(InterruptedIO(0)), 0), r;
      }
    } else if nread == c.len {
      return Outcome(nread, None, 0), r;
    }

    var endTime := START.end;
    if c.pollTimeout > 0 {
      var now;
      now, r := ReadClock(k, buff, c, r, was);
      endTime := EndTime(now, c.pollTimeout);
    }

    if nread == 0 {
      var done;
      done, out, nread, r := ReadFirst(k, buff, c, r, was, fd, closeFd);
      if done {
        return;
      }
    }
    out, r := ReadRest(k, buff, c, r, was, fd, closeFd, endTime, nread);
  }

  /** Nothing has been read: wait the overall timeout for the first bytes. */
  method ReadFirst(k: Kernel, buff: array<Byte>, c: Config, ghost r0: Reader, ghost was: seq<Byte>,
    fd: int, closeFd: int)
    returns (done: bool, out: Outcome, nread: int, ghost r: Reader)
    requires At(c, k, r0, buff, was) && c.Valid() && c.len <= buff.Length
    requires r0.pc == FirstPoll && r0.total == r0.pending == 0 && r0.fd == fd && r0.closeFd == closeFd
    modifies k`trace, k`patience, buff
    ensures At(c, k, r, buff, was)
    ensures done ==> Over(r.pc) && out == OutcomeOf(r)
    ensures !done ==> (0 <= nread < c.len || nread == c.len == 0) && r == LoopTop(c, r0.(total := nread))
  {
    hide At;
    var verdict, again, field;
    ghost var result;
    nread := 0;
    verdict, r := AwaitInput(k, buff, c, r0, was, fd, closeFd, c.pollTimeout);
    match verdict {
      case TimeIsUp => return true, Outcome(-1, Some(Timeout(0)), 0), 0, r;
      case Raise(e) => return true, Outcome(-1, Some(e), 0), 0, r;
      case Go =>
    }
    nread, again, result, r := ReadInto(k, buff, c, r, was, fd, 0);
    if nread < 0 {
      field, r := FetchFd(k, buff, c, r, was);
      // A test for nread == 0 stands here in the source; it cannot hold.
      out := Outcome(-1, Some(if field == INVALID_FD then AsynchronousClose else InterruptedIO(0)), 0);
      done := true;
    } else if nread == c.len {
      done, out := true, Outcome(nread, None, 0);
    } else {
      done, out := false, Outcome(nread, None, 0);
    }
  }

  /** The wait at the top of the loop: for the inter-byte timeout, but not past the deadline. */
  method WaitForMore(k: Kernel, buff: array<Byte>, c: Config, ghost r0: Reader, ghost was: seq<Byte>,
    fd: int, closeFd: int, endTime: Timespec, overallRead: nat, pending: nat)
    returns (done: bool, out: Outcome, ghost r: Reader)
    requires At(c, k, r0, buff, was) && 0 <= k.env.start && c.Valid()
    requires r0 == LoopTop(c, r0) && r0.fd == fd && r0.closeFd == closeFd && r0.end == endTime
    requires r0.total == overallRead && r0.pending == pending
    modifies k`trace
    ensures At(c, k, r, buff, was)
    ensures done ==> Over(r.pc) && out == OutcomeOf(r)
    ensures !done ==> r == r0.(pc := LoopRead, timeout := r.timeout)
  {
    hide At, EndTime, Remaining;
    r := r0;
    out := Outcome(overallRead, None, pending);
    var timeout := c.interByteTimeout;
    if c.pollTimeout != -1 {
      var now;
      now, r := ReadClock(k, buff, c, r, was);
      var remaining := Remaining(endTime, now);
      if remaining < 0 {
        return true, out, r;
      }
      timeout := if c.interByteTimeout < remaining then c.interByteTimeout else remaining;
    }
    var verdict;
    verdict, r := AwaitInput(k, buff, c, r, was, fd, closeFd, timeout);
    match verdict {
      case TimeIsUp => done := true;
      case Raise(e) => done, out := true, Outcome(-1, Some(e), pending);
      case Go => done := false;
    }
  }

  /** The loop of readBuffer: take as many bytes as there are, until the buffer is full, a
      timeout is over or something fails. */
  method ReadRest(k: Kernel, buff: array<Byte>, c: Config, ghost r0: Reader, ghost was: seq<Byte>,
    fd: int, closeFd: int, endTime: Timespec, nread0: nat)
    returns (out: Outcome, ghost r: Reader)
    requires At(c, k, r0, buff, was) && 0 <= k.env.start
    requires c.Valid() && c.len <= buff.Length && (nread0 < c.len || c.len == nread0 == 0)
    requires r0 == LoopTop(c, r0) && InLoop(r0.pc) && r0.pending == 0
    requires r0.fd == fd && r0.closeFd == closeFd && r0.end == endTime && r0.total == nread0
    modifies k`trace, k`patience, buff
    ensures At(c, k, r, buff, was) && Over(r.pc) && out == OutcomeOf(r)
  {
    hide At, EndTime, Remaining;
    r := r0;
    var pending: nat, overallRead := 0, nread0;
    while true
      invariant At(c, k, r, buff, was)
      invariant r == LoopTop(c, r) && InLoop(r.pc)
      invariant r.fd == fd && r.closeFd == closeFd && r.end == endTime && r.total == overallRead
      invariant overallRead < c.len || c.len == overallRead == 0
      invariant pending == r.pending
      decreases c.len - overallRead, k.patience
    {
      ghost var result;
      var done;
      done, out, r := WaitForMore(k, buff, c, r, was, fd, closeFd, endTime, overallRead, pending);
      if done {
        return;
      }
      var nread, again;
      nread, again, result, r := ReadInto(k, buff, c, r, was, fd, overallRead);
      if nread > 0 {
        overallRead := overallRead + nread;
      } else {
        var field;
        field, r := FetchFd(k, buff, c, r, was);
        if field == INVALID_FD {
          return Outcome(-1, Some(AsynchronousClose), pending), r;
        } else if nread == 0 {
          // No return here: the exception stays pending and the loop goes on.
          pending := pending + 1;
        } else {
          return Outcome(-1, Some(InterruptedIO(0)), pending), r;
        }
      }
      if !(overallRead < c.len) {
        return Outcome(overallRead, None, pending), r;
      }
    }
  }
}
