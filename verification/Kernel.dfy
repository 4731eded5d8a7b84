/**
  The operating system and the shared fields of the socket, as one native call sees them.
  Every operation may give any answer that Posix.KernelAllows permits; other threads are part
  of that choice. What was answered is kept in `trace`.
 */
module Kernels {
  import opened Deadline
  import opened Posix
  import opened Prelude

  class Kernel {
    const env: Env
    var trace: Trace
    /** How many more reads or writes may move nothing although some byte was asked for: the
        kernel may do so any number of times, but not for ever. */
    var patience: nat

    ghost predicate Valid()
      reads this
    {
      KernelTrace(env, trace)
    }

    constructor (env: Env, patience: nat)
      ensures Valid() && trace == [] && this.env == env && this.patience == patience
    {
      this.env := env;
      this.patience := patience;
      trace := [];
    }

    method Record(e: Event, at: int)
      requires Valid() && KernelAllows(env, Timed(e, at), Now(env, trace))
      modifies this`trace
      ensures Valid() && trace == old(trace) + [Timed(e, at)]
    {
      Extend(env, trace, Timed(e, at));
      trace := trace + [Timed(e, at)];
    }

    /** GetIntField of the fd field, which another thread may overwrite at any time. */
    method GetFd() returns (fd: int, at: int)
      requires Valid()
      modifies this`trace
      ensures Valid() && trace == old(trace) + [Timed(FetchedFd(fd), at)]
    {
      fd := *;
      var late: nat :| late <= env.slack;
      at := Now(env, trace) + late;
      Record(FetchedFd(fd), at);
    }

    method GetCloseEventReadFd() returns (fd: int, at: int)
      requires Valid()
      modifies this`trace
      ensures Valid() && trace == old(trace) + [Timed(FetchedCloseFd(fd), at)]
    {
      fd := *;
      var late: nat :| late <= env.slack;
      at := Now(env, trace) + late;
      Record(FetchedCloseFd(fd), at);
    }

    /** read(2) into buff[off..off + count]; n < 0 reports an error, `again` that it is EAGAIN. */
    method Read(fd: int, buff: array<Byte>, off: nat, count: nat)
      returns (n: int, again: bool, result: Transfer, at: int)
      requires Valid() && off + count <= buff.Length
      modifies this`trace, this`patience, buff
      ensures Valid() && trace == old(trace) + [Timed(DidRead(fd, count, result), at)]
      ensures result.Moved? ==> n == |result.bytes| <= count
      ensures !result.Moved? ==> n == -1 && (again <==> result.WouldBlock?)
      ensures buff[..] == if result.Moved?
                          then old(buff[..off]) + result.bytes + old(buff[off + |result.bytes|..])
                          else old(buff[..])
      ensures patience <= old(patience)
      ensures result == Moved([]) && count > 0 ==> patience < old(patience)
    {
      ghost var before := buff[..];
      var bytes: seq<Byte> :| |bytes| <= count;
      var succeeds: bool := *;
      again := *;
      var late: nat :| late <= env.slack;
      at := Now(env, trace) + late;
      if !succeeds || (bytes == [] && patience == 0 && count > 0) {
        n, result := -1, if again then WouldBlock else Failed;
      } else {
        n, result := |bytes|, Moved(bytes);
        forall i | off <= i < off + |bytes| {
          buff[i] := bytes[i - off];
        }
        assert buff[..] == before[..off] + bytes + before[off + |bytes|..];
        if bytes == [] && count > 0 {
          patience := patience - 1;
        }
      }
      Record(DidRead(fd, count, result), at);
    }

    /** write(2) of the given bytes. */
    method Write(fd: int, offered: seq<Byte>)
      returns (n: int, again: bool, result: Transfer, at: int)
      requires Valid()
      modifies this`trace, this`patience
      ensures Valid() && trace == old(trace) + [Timed(DidWrite(fd, offered, result), at)]
      ensures result.Moved? ==> n == |result.bytes| && result.bytes <= offered
      ensures !result.Moved? ==> n == -1 && (again <==> result.WouldBlock?)
      ensures patience <= old(patience)
      ensures result == Moved([]) && offered != [] ==> patience < old(patience)
    {
      var k: nat :| k <= |offered|;
      var succeeds: bool := *;
      again := *;
      var late: nat :| late <= env.slack;
      at := Now(env, trace) + late;
      if !succeeds || (k == 0 && patience == 0 && offered != []) {
        n, result := -1, if again then WouldBlock else Failed;
      } else {
        n, result := k, Moved(offered[..k]);
        if k == 0 && offered != [] {
          patience := patience - 1;
        }
      }
      Record(DidWrite(fd, offered, result), at);
    }

    /** clock_gettime(CLOCK_MONOTONIC) */
    method ClockGettime() returns (now: Timespec, at: int)
      requires Valid() && 0 <= env.start
      modifies this`trace
      ensures Valid() && trace == old(trace) + [Timed(GotTime(now), at)]
    {
      TimeIsMonotonic(env, trace);
      var late: nat :| late <= env.slack;
      at := Now(env, trace) + late;
      now := Timespec(at / 1_000_000_000, at % 1_000_000_000);
      Record(GotTime(now), at);
    }

    /** poll(2) on the port and on the close event. */
    method Poll(fd: int, closeFd: int, timeout: int) returns (outcome: PollOutcome, at: int)
      requires Valid()
      modifies this`trace
      ensures Valid() && trace == old(trace) + [Timed(DidPoll(fd, closeFd, timeout, outcome), at)]
    {
      outcome := *;
      var late: nat :| late <= env.slack;
      var wait: nat :| timeout >= 0 ==> wait <= Millis(timeout);
      if (outcome == TimedOut && timeout < 0) || (outcome.Ready? && outcome.port == outcome.close == {}) {
        outcome := PollFailed;
      }
      at := Now(env, trace) + late + if outcome == TimedOut then Millis(timeout) else wait;
      Record(DidPoll(fd, closeFd, timeout, outcome), at);
    }

    /** The poll of a reader or writer and its dispatch on what the poll reports. */
    method Await(fd: int, closeFd: int, timeout: int, wanted: PollBit, transferred: nat)
      returns (verdict: Verdict, outcome: PollOutcome, at: int)
      requires Valid()
      modifies this`trace
      ensures Valid() && trace == old(trace) + [Timed(DidPoll(fd, closeFd, timeout, outcome), at)]
      ensures verdict == Judge(outcome, wanted, transferred)
    {
      outcome, at := Poll(fd, closeFd, timeout);
      if outcome == TimedOut {
        verdict := TimeIsUp;
      } else if outcome == PollFailed {
        verdict := Raise(InterruptedIO(transferred));
      } else if outcome.close == {POLLIN} {
        verdict := Raise(AsynchronousClose);
      } else if outcome.port == {wanted} {
        verdict := Go;
      } else if POLLHUP in outcome.port {
        verdict := Raise(PortFdInvalid);
      } else if POLLNVAL in outcome.port {
        verdict := Raise(AsynchronousClose);
      } else {
        verdict := Raise(InterruptedIO(transferred));
      }
    }
  }
}
