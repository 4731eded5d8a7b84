/**
  What the native I/O code sees of the operating system and of the socket object:
  one event for every system call it makes and every shared field it reads.
 */
module Posix {
  import opened Deadline
  import opened Prelude

  const INVALID_FD: int := -1

  /** Bits of pollfd.revents. */
  datatype PollBit = POLLIN | POLLOUT | POLLHUP | POLLNVAL | POLLERR

  datatype PollOutcome =
    | TimedOut
    | PollFailed
    | Ready(port: set<PollBit>, close: set<PollBit>)

  /** read() and write() move some bytes, fail with EAGAIN, or fail otherwise. */
  datatype Transfer = Moved(bytes: seq<Byte>) | WouldBlock | Failed

  datatype Event =
    | FetchedFd(fd: int)
    | FetchedCloseFd(fd: int)
    | DidRead(fd: int, count: nat, result: Transfer)
    | DidWrite(fd: int, offered: seq<Byte>, result: Transfer)
    | GotTime(now: Timespec)
    | DidPoll(fd: int, closeFd: int, timeout: int, outcome: PollOutcome)

  /** The exceptions that are thrown, with their bytesTransferred. */
  datatype Exception =
    | AsynchronousClose
    | Timeout(bytesTransferred: int)
    | InterruptedIO(bytesTransferred: int)
    | PortFdInvalid

  /** What a caller makes of a poll that waits for `wanted`: the close event is looked at first,
      and both tests are for that one bit and no other. */
  datatype Verdict = TimeIsUp | Go | Raise(exception: Exception)

  function Judge(outcome: PollOutcome, wanted: PollBit, transferred: nat): Verdict {
    match outcome
    case TimedOut => TimeIsUp
    case PollFailed => Raise(InterruptedIO(transferred))
    case Ready(port, close) =>
      if close == {POLLIN} then Raise(AsynchronousClose)
      else if port == {wanted} then Go
      else if POLLHUP in port then Raise(PortFdInvalid)
      else if POLLNVAL in port then Raise(AsynchronousClose)
      else Raise(InterruptedIO(transferred))
  }

  /** An event and the time, in nanoseconds, at which it is over. */
  datatype Timed = Timed(event: Event, at: int)

  type Trace = seq<Timed>

  /** When a call starts, and by how many nanoseconds the kernel may be late. */
  datatype Env = Env(start: int, slack: nat)

  /** The time at which the last event of a trace was over. */
  function Now(env: Env, t: Trace): int {
    if t == [] then env.start else t[|t| - 1].at
  }

  /** All bytes that the reads or writes of a trace moved, in order. */
  function BytesMoved(t: Trace): seq<Byte> {
    if t == [] then [] else BytesMoved(t[..|t| - 1]) + EventBytes(t[|t| - 1].event)
  }

  function EventBytes(e: Event): seq<Byte> {
    match e
    case DidRead(_, _, Moved(bytes)) => bytes
    case DidWrite(_, _, Moved(bytes)) => bytes
    case _ => []
  }

  /** How many reads or writes of a trace moved nothing without failing. */
  function EmptyTransfers(t: Trace): nat {
    if t == [] then 0 else EmptyTransfers(t[..|t| - 1]) + if MovedNothing(t[|t| - 1].event) then 1 else 0
  }

  predicate MovedNothing(e: Event) {
    (e.DidRead? || e.DidWrite?) && e.result == Moved([])
  }

  function Polls(t: Trace): nat {
    if t == [] then 0 else Polls(t[..|t| - 1]) + if t[|t| - 1].event.DidPoll? then 1 else 0
  }

  /** What the kernel promises about one event that starts at time `from`. A poll honours its
      timeout up to `env.slack` nanoseconds and never times out early; nothing else takes longer
      than `env.slack`; a transfer moves no more than it is asked to. */
  predicate KernelAllows(env: Env, e: Timed, from: int) {
    && from <= e.at
    && match e.event {
      case DidPoll(_, _, timeout, outcome) =>
        && (timeout >= 0 ==> e.at <= from + Millis(timeout) + env.slack)
        && (outcome == TimedOut ==> timeout >= 0 && e.at >= from + Millis(timeout))
        && (outcome.Ready? ==> outcome.port != {} || outcome.close != {})
      case DidRead(_, count, Moved(bytes)) => e.at <= from + env.slack && |bytes| <= count
      case DidWrite(_, offered, Moved(bytes)) => e.at <= from + env.slack && bytes <= offered
      case GotTime(now) => Normal(now) && Nanos(now) == e.at <= from + env.slack
      case _ => e.at <= from + env.slack
    }
  }

  /** A history of events that the kernel allows. */
  predicate KernelTrace(env: Env, t: Trace) {
    t != [] ==>
      var front := t[..|t| - 1];
      KernelTrace(env, front) && KernelAllows(env, t[|t| - 1], Now(env, front))
  }

  /** One more event on a history. */
  lemma Extend(env: Env, t: Trace, e: Timed)
    ensures (t + [e])[..|t|] == t && (t + [e])[|t|] == e
    ensures BytesMoved(t + [e]) == BytesMoved(t) + EventBytes(e.event)
    ensures EmptyTransfers(t + [e]) == EmptyTransfers(t) + if MovedNothing(e.event) then 1 else 0
    ensures Polls(t + [e]) == Polls(t) + if e.event.DidPoll? then 1 else 0
    ensures KernelTrace(env, t + [e]) <==> KernelTrace(env, t) && KernelAllows(env, e, Now(env, t))
    ensures Now(env, t + [e]) == e.at
  {
    assert (t + [e])[..|t|] == t;
  }

  lemma {:induction false} TimeIsMonotonic(env: Env, t: Trace)
    requires KernelTrace(env, t)
    ensures env.start <= Now(env, t)
  {
    if t != [] {
      TimeIsMonotonic(env, t[..|t| - 1]);
    }
  }

  /** The end time is the one computed from the first reading of the clock. */
  predicate DeadlineIsFrom(first: Option<Timespec>, millis: nat, end: Timespec, now: int) {
    first.Some? && Normal(first.value) && Nanos(first.value) <= now && end == EndTime(first.value, millis)
  }

  /** The first time that a call reads from the clock. */
  function FirstClock(t: Trace): Option<Timespec> {
    if t == [] then None
    else if FirstClock(t[..|t| - 1]).Some? then FirstClock(t[..|t| - 1])
    else if t[|t| - 1].event.GotTime? then Some(t[|t| - 1].event.now) else None
  }
}
