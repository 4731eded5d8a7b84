/** The native writeBuffer, proved to take the steps of WriterProtocol. */
module WriteBuffers {
  import opened Deadline
  import opened Posix
  import opened Kernels
  import opened WriterProtocol
  import opened Prelude

  /** How a call ends: the value returned, or the exception raised. */
  datatype Outcome = Normal(ret: nat) | Raised(exception: Exception)

  function OutcomeOf(w: Writer): Outcome
    requires Over(w.pc)
  {
    if w.pc.Returned? then Normal(w.pc.result) else Raised(w.pc.exception)
  }

  /** The call has taken the steps of its history to the state `w`. */
  ghost predicate At(c: Config, k: Kernel, w: Writer)
    reads k
  {
    k.Valid() && Run(c, k.trace) == w
  }

  lemma Begin(c: Config, k: Kernel)
    requires k.Valid() && k.trace == []
    ensures At(c, k, START)
  {}

  // The system calls of writeBuffer, each with the step of the protocol that it is.

  method FetchFd(k: Kernel, c: Config, ghost w: Writer) returns (fd: int, ghost w': Writer)
    requires At(c, k, w)
    modifies k`trace
    ensures At(c, k, w') && w' == OnFd(w, fd)
  {
    ghost var t := k.trace;
    var at;
    fd, at := k.GetFd();
    RunExtend(c, t, Timed(FetchedFd(fd), at));
    w' := OnFd(w, fd);
  }

  method FetchCloseFd(k: Kernel, c: Config, ghost w: Writer) returns (fd: int, ghost w': Writer)
    requires At(c, k, w)
    modifies k`trace
    ensures At(c, k, w') && w' == OnCloseFd(c, w, fd)
  {
    ghost var t := k.trace;
    var at;
    fd, at := k.GetCloseEventReadFd();
    RunExtend(c, t, Timed(FetchedCloseFd(fd), at));
    w' := OnCloseFd(c, w, fd);
  }

  method ReadClock(k: Kernel, c: Config, ghost w: Writer) returns (now: Timespec, ghost w': Writer)
    requires At(c, k, w) && 0 <= k.env.start
    modifies k`trace
    ensures At(c, k, w') && w' == OnClock(c, w, now)
  {
    ghost var t := k.trace;
    var at;
    now, at := k.ClockGettime();
    RunExtend(c, t, Timed(GotTime(now), at));
    w' := OnClock(c, w, now);
  }

  method AwaitOutput(k: Kernel, c: Config, ghost w: Writer, fd: int, closeFd: int, timeout: int, offset: nat)
    returns (verdict: Verdict, ghost w': Writer)
    requires At(c, k, w) && fd == w.fd && closeFd == w.closeFd && timeout == w.timeout && offset == w.offset
    modifies k`trace
    ensures At(c, k, w') && w' == OnPoll(w, verdict)
  {
    ghost var t := k.trace;
    var outcome, at;
    verdict, outcome, at := k.Await(fd, closeFd, timeout, POLLOUT, offset);
    RunExtend(c, t, Timed(DidPoll(fd, closeFd, timeout, outcome), at));
    w' := OnPoll(w, verdict);
  }

  method WriteFrom(k: Kernel, c: Config, ghost w: Writer, fd: int, offset: nat)
    returns (n: int, again: bool, ghost result: Transfer, ghost w': Writer)
    requires At(c, k, w) && fd == w.fd && offset <= |c.data| && Offered(c, w) == c.data[offset..]
    modifies k`trace, k`patience
    ensures At(c, k, w') && w' == OnWrite(c, w, result)
    ensures result.Moved? ==> n == |result.bytes| <= |c.data| - offset
    ensures !result.Moved? ==> n == -1 && (again <==> result.WouldBlock?)
    ensures k.patience <= old(k.patience)
    ensures n == 0 && offset < |c.data| ==> k.patience < old(k.patience)
  {
    ghost var t := k.trace;
    var res, at;
    n, again, res, at := k.Write(fd, c.data[offset..]);
    result := res;
    RunExtend(c, t, Timed(DidWrite(fd, c.data[offset..], result), at));
    w' := OnWrite(c, w, result);
  }

  method WriteBuffer(k: Kernel, c: Config) returns (out: Outcome)
    requires k.Valid() && k.trace == [] && 0 <= k.env.start && c.Valid()
    modifies k`trace, k`patience
    ensures IsRun(c, k.env, k.trace) && Over(Run(c, k.trace).pc) && out == OutcomeOf(Run(c, k.trace))
    // Write conservation, for every chunking the kernel chooses.
    ensures BytesMoved(k.trace) <= c.data
    ensures out.Normal? ==> BytesMoved(k.trace) == c.data && out.ret == LastChunk(k.trace)
    ensures out.Raised? && c.data != [] ==> |BytesMoved(k.trace)| < |c.data|
    ensures out.Raised? && out.exception.Timeout? ==>
              out.exception.bytesTransferred in {|BytesMoved(k.trace)|, LastChunk(k.trace)}
    // How it ends follows from the last thing that the kernel said.
    ensures k.trace != [] && Ending(c, k.trace)
                             == Some(match out case Normal(n) => Returned(n) case Raised(x) => Threw(x))
    ensures k.trace[|k.trace| - 1].event.DidPoll? && k.trace[|k.trace| - 1].event.outcome == TimedOut ==>
              out == Raised(Timeout(|BytesMoved(k.trace)|))
    // The call ends in time.
    ensures c.pollTimeout > 0 ==>
              Now(k.env, k.trace) < k.env.start + Millis(c.pollTimeout) + Millis(1) + 6 * k.env.slack
  {
    ghost var w: Writer;
    out, w := WriteChunks(k, c);
    RunIsAccounted(c, k.env, k.trace);
    CallEndsInTime(c, k.env, k.trace);
    CallsEndAsTold(c, k.env, k.trace);
    TimeoutIff(c, k.env, k.trace, |BytesMoved(k.trace)|);
  }

  /** The body of writeBuffer. */
  method WriteChunks(k: Kernel, c: Config) returns (out: Outcome, ghost w: Writer)
    requires k.Valid() && k.trace == [] && 0 <= k.env.start && c.Valid()
    modifies k`trace, k`patience
    ensures At(c, k, w) && Over(w.pc) && out == OutcomeOf(w)
  {
    hide At, EndTime, Remaining;
    var fd, written, again;
    ghost var result;
    Begin(c, k);
    fd, w := FetchFd(k, c, START);
    written, again, result, w := WriteFrom(k, c, w, fd, 0);
    if written == |c.data| {
      return Normal(written), w;
    }
    if written < 0 {
      if again {
        written := 0;
      } else {
        return Raised(if fd == INVALID_FD then AsynchronousClose else InterruptedIO(0)), w;
      }
    }
    var endTime := START.end;
    if c.pollTimeout > 0 {
      var now;
      now, w := ReadClock(k, c, w);
      endTime := EndTime(now, c.pollTimeout);
    }
    var closeFd;
    closeFd, w := FetchCloseFd(k, c, w);
    out, w := WriteRest(k, c, w, fd, closeFd, endTime, written);
  }

  /** The loop of writeBuffer. */
  method WriteRest(k: Kernel, c: Config, ghost w0: Writer, fd: int, closeFd: int, endTime: Timespec, written0: nat)
    returns (out: Outcome, ghost w: Writer)
    requires At(c, k, w0) && 0 <= k.env.start && c.Valid()
    requires w0 == LoopTop(c, w0) && w0.fd == fd && w0.closeFd == closeFd && w0.end == endTime
    requires w0.written == w0.offset == written0 && (written0 < |c.data| || written0 == |c.data| == 0)
    modifies k`trace, k`patience
    ensures At(c, k, w) && Over(w.pc) && out == OutcomeOf(w)
  {
    hide At, EndTime, Remaining;
    w := w0;
    var written, offset: nat := written0, written0;
    while true
      invariant At(c, k, w) && w == LoopTop(c, w)
      invariant w.fd == fd && w.closeFd == closeFd && w.end == endTime
      invariant w.written == written && w.offset == offset
      invariant offset < |c.data| || offset == |c.data| == 0
      decreases |c.data| - offset, k.patience
    {
      ghost var result;
      var remaining, verdict, n, again := -1, TimeIsUp, 0, false;
      if c.pollTimeout >= 0 {
        var now;
        now, w := ReadClock(k, c, w);
        remaining := Remaining(endTime, now);
        if remaining < 0 {
          return Raised(Timeout(written)), w;
        }
      }
      verdict, w := AwaitOutput(k, c, w, fd, closeFd, remaining, offset);
      match verdict {
        case TimeIsUp => return Raised(Timeout(offset)), w;
        case Raise(e) => return Raised(e), w;
        case Go =>
      }
      n, again, result, w := WriteFrom(k, c, w, fd, offset);
      if n < 0 {
        return Raised(if fd == INVALID_FD then AsynchronousClose else InterruptedIO(0)), w;
      }
      written := n;
      offset := offset + n;
      if !(offset < |c.data|) {
        return Normal(written), w;
      }
    }
  }
}
