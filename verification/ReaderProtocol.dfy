/**
  One call of readBuffer as an automaton over Posix events, and what every run of it keeps:
  no byte is lost by a timeout, the call ends in time, and its loop is bounded.
  ReadBuffer.dfy proves that the code takes exactly these steps.
 */
module ReaderProtocol {
  import opened Deadline
  import opened Prelude
  import opened Posix

  datatype Config = Config(len: nat, pollTimeout: int, interByteTimeout: int) {
    /** What the Java side stores: an overall timeout of 0 is turned into -1. */
    predicate Valid() {
      && (pollTimeout == -1 || pollTimeout > 0)
      && interByteTimeout >= 0
    }
  }

  datatype Pc =
    | FetchFd | FetchCloseFd
    | FirstRead | FirstReadFailed(wouldBlock: bool) | StartClock
    | FirstPoll | SecondRead | SecondReadFailed
    | LoopClock | LoopPoll | LoopRead | LoopReadFailed(empty: bool)
    | Returned(result: nat)
    | Threw(exception: Exception)
    | Stuck

  /** The locals of readBuffer. `pending` counts the InterruptedIOExceptions that were raised
      for empty reads without leaving the loop: the Java caller sees one if it is positive. */
  datatype Reader = Reader(
    pc: Pc, fd: int, closeFd: int, end: Timespec, total: nat, timeout: int, pending: nat)

  const START := Reader(FetchFd, INVALID_FD, INVALID_FD, Timespec(0, 0), 0, 0, 0)

  /** Raise an exception and return -1. */
  function Throw(r: Reader, e: Exception): Reader {
    r.(pc := Threw(e))
  }

  /** The code between the first read and the first wait. */
  function AfterFirstRead(c: Config, r: Reader, nread: nat): Reader {
    var r' := r.(total := nread);
    if c.pollTimeout > 0 then r'.(pc := StartClock) else BeforeWait(c, r')
  }

  function BeforeWait(c: Config, r: Reader): Reader {
    if r.total == 0 then r.(pc := FirstPoll) else LoopTop(c, r)
  }

  function LoopTop(c: Config, r: Reader): Reader {
    if c.pollTimeout == -1 then r.(pc := LoopPoll, timeout := c.interByteTimeout) else r.(pc := LoopClock)
  }

  function LoopEnd(c: Config, r: Reader): Reader {
    if r.total < c.len then LoopTop(c, r) else r.(pc := Returned(r.total))
  }

  /** The fd field is read at the start and after each read that failed. */
  function OnFd(c: Config, r: Reader, fd: int): Reader {
    match r.pc
    case FetchFd => r.(pc := FetchCloseFd, fd := fd)
    case FirstReadFailed(wouldBlock) =>
      if fd == INVALID_FD then Throw(r, AsynchronousClose)
      else if wouldBlock then AfterFirstRead(c, r, 0)
      else Throw(r, InterruptedIO(0))
    case SecondReadFailed =>
      if fd == INVALID_FD then Throw(r, AsynchronousClose) else Throw(r, InterruptedIO(0))
    case LoopReadFailed(empty) =>
      if fd == INVALID_FD then Throw(r, AsynchronousClose)
      // An empty read is reported but, unlike the other failures, does not end the loop.
      else if empty then LoopEnd(c, r.(pending := r.pending + 1))
      else Throw(r, InterruptedIO(0))
    case _ => r.(pc := Stuck)
  }

  function OnCloseFd(r: Reader, fd: int): Reader {
    if r.pc == FetchCloseFd then r.(pc := FirstRead, closeFd := fd) else r.(pc := Stuck)
  }

  function OnRead(c: Config, r: Reader, result: Transfer): Reader {
    match r.pc
    case FirstRead =>
      if !result.Moved? then r.(pc := FirstReadFailed(result.WouldBlock?))
      else if |result.bytes| == c.len then r.(pc := Returned(c.len), total := c.len)
      else AfterFirstRead(c, r, |result.bytes|)
    case SecondRead =>
      if !result.Moved? then r.(pc := SecondReadFailed)
      else if |result.bytes| == c.len then r.(pc := Returned(c.len), total := c.len)
      else LoopTop(c, r.(total := |result.bytes|))
    case LoopRead =>
      if result.Moved? && result.bytes != [] then LoopEnd(c, r.(total := r.total + |result.bytes|))
      else r.(pc := LoopReadFailed(result.Moved?))
    case _ => r.(pc := Stuck)
  }

  function OnClock(c: Config, r: Reader, now: Timespec): Reader {
    match r.pc
    case StartClock =>
      if c.pollTimeout > 0 then BeforeWait(c, r.(end := EndTime(now, c.pollTimeout))) else r.(pc := Stuck)
    case LoopClock =>
      var remaining := Remaining(r.end, now);
      if remaining < 0 then r.(pc := Returned(r.total))
      else r.(pc := LoopPoll, timeout := if c.interByteTimeout < remaining then c.interByteTimeout else remaining)
    case _ => r.(pc := Stuck)
  }

  function OnPoll(r: Reader, verdict: Verdict): Reader {
    match r.pc
    case FirstPoll => (
      match verdict
      case TimeIsUp => Throw(r, Timeout(0))
      case Raise(x) => Throw(r, x)
      case Go => r.(pc := SecondRead))
    case LoopPoll => (
      match verdict
      case TimeIsUp => r.(pc := Returned(r.total))
      case Raise(x) => Throw(r, x)
      case Go => r.(pc := LoopRead))
    case _ => r.(pc := Stuck)
  }

  /** The count and the timeout that the code passes at this point. */
  function Count(c: Config, r: Reader): int { if r.pc == LoopRead then c.len - r.total else c.len }

  function PollTimeout(c: Config, r: Reader): int { if r.pc == FirstPoll then c.pollTimeout else r.timeout }

  function Step(c: Config, r: Reader, e: Event): Reader {
    match e
    case FetchedFd(fd) => OnFd(c, r, fd)
    case FetchedCloseFd(fd) => OnCloseFd(r, fd)
    case GotTime(now) => OnClock(c, r, now)
    case DidRead(fd, count, result) =>
      if fd == r.fd && count == Count(c, r) then OnRead(c, r, result) else r.(pc := Stuck)
    case DidPoll(fd, closeFd, timeout, outcome) =>
      if fd == r.fd && closeFd == r.closeFd && timeout == PollTimeout(c, r)
      then OnPoll(r, Judge(outcome, POLLIN, 0)) else r.(pc := Stuck)
    case DidWrite(_, _, _) => r.(pc := Stuck)
  }

  /** The state after a history of events. */
  function Run(c: Config, t: Trace): Reader {
    if t == [] then START else Step(c, Run(c, t[..|t| - 1]), t[|t| - 1].event)
  }

  /** A history the code and the kernel can produce together. */
  predicate IsRun(c: Config, env: Env, t: Trace) {
    c.Valid() && KernelTrace(env, t) && Run(c, t).pc != Stuck
  }

  lemma RunExtend(c: Config, t: Trace, e: Timed)
    ensures Run(c, t + [e]) == Step(c, Run(c, t), e.event)
  {
    assert (t + [e])[..|t|] == t;
  }

  lemma IsRunPrefix(c: Config, env: Env, t: Trace)
    requires t != [] && IsRun(c, env, t)
    ensures IsRun(c, env, t[..|t| - 1])
    ensures KernelAllows(env, t[|t| - 1], Now(env, t[..|t| - 1]))
  {}

  // ---- Which bytes a call moves, and which it may lose ----

  predicate InLoop(pc: Pc) {
    pc in {LoopClock, LoopPoll, LoopRead} || pc.LoopReadFailed?
  }

  predicate Over(pc: Pc) {
    pc.Returned? || pc.Threw?
  }

  /** What every run keeps about the bytes moved so far. */
  predicate Accounted(c: Config, r: Reader, moved: nat) {
    && r.total == moved <= c.len
    && (!InLoop(r.pc) && !Over(r.pc) && r.pc != StartClock ==> r.total == 0)
    && (!r.pc.Returned? ==> r.total < c.len || c.len == 0)
    && (!InLoop(r.pc) && !Over(r.pc) ==> r.pending == 0)
    && (r.pc.Returned? ==> r.pc.result == r.total)
    && (r.pc.Threw? && r.pc.exception.Timeout? ==> r.pc.exception == Timeout(0) && r.total == 0 && r.pending == 0)
  }

  lemma StepIsAccounted(c: Config, r: Reader, env: Env, e: Timed, from: int)
    requires Accounted(c, r, r.total) && KernelAllows(env, e, from)
    requires Step(c, r, e.event).pc != Stuck
    ensures Accounted(c, Step(c, r, e.event), r.total + |EventBytes(e.event)|)
  {
    hide EndTime, Remaining;
  }

  lemma {:induction false} RunIsAccounted(c: Config, env: Env, t: Trace)
    requires IsRun(c, env, t)
    ensures Accounted(c, Run(c, t), |BytesMoved(t)|)
  {
    if t != [] {
      var front, e := t[..|t| - 1], t[|t| - 1];
      IsRunPrefix(c, env, t);
      RunIsAccounted(c, env, front);
      StepIsAccounted(c, Run(c, front), env, e, Now(env, front));
    }
  }

  // ---- What the Java caller gets ----

  /** The caller gets the bytes: the call has returned, and no exception is pending. */
  predicate ReturnsNormally(r: Reader) {
    r.pc.Returned? && r.pending == 0
  }

  predicate IsEmptyRead(e: Event) {
    e.DidRead? && e.result == Moved([])
  }

  /** The number of empty reads after which the field still named a descriptor. */
  function PassedOver(t: Trace): nat {
    if |t| < 2 then 0
    else PassedOver(t[..|t| - 1])
         + if IsEmptyRead(t[|t| - 2].event) && t[|t| - 1].event.FetchedFd? && t[|t| - 1].event.fd != INVALID_FD
           then 1 else 0
  }

  /** Which reads are followed by another look at the field. */
  lemma AfterARead(c: Config, env: Env, t: Trace)
    requires IsRun(c, env, t) && t != []
    ensures Run(c, t).pc == LoopReadFailed(true) ==> IsEmptyRead(t[|t| - 1].event)
    ensures IsEmptyRead(t[|t| - 1].event) ==>
              var pc := Run(c, t).pc;
              pc != FetchFd && !pc.FirstReadFailed? && pc != SecondReadFailed && pc != LoopReadFailed(false)
  {
    hide EndTime, Remaining, KernelTrace;
  }

  /** Exactly the empty reads that were passed over have raised an exception without ending the
      call: those of the loop, before which some poll promised a byte. */
  lemma {:induction false} PendingIsPassedOver(c: Config, env: Env, t: Trace)
    requires IsRun(c, env, t)
    ensures Run(c, t).pending == PassedOver(t)
  {
    hide EndTime, Remaining;
    if t != [] {
      var front := t[..|t| - 1];
      IsRunPrefix(c, env, t);
      PendingIsPassedOver(c, env, front);
      if front != [] {
        AfterARead(c, env, front);
        assert front[|front| - 1] == t[|t| - 2];
      }
    }
  }

  /** Read conservation: a call that has returned reports exactly the bytes taken from the input,
      and it reaches the caller as a return iff no empty read was passed over. */
  lemma ReturnReportsAllBytes(c: Config, env: Env, t: Trace)
    requires IsRun(c, env, t) && Run(c, t).pc.Returned?
    ensures Run(c, t).pc.result == |BytesMoved(t)| <= c.len
    ensures ReturnsNormally(Run(c, t)) <==> PassedOver(t) == 0
  {
    RunIsAccounted(c, env, t);
    PendingIsPassedOver(c, env, t);
  }

  /** A TimeoutIOException is thrown only by a call that took no byte from the input, that has
      raised nothing else, and that has waited for the whole poll timeout. */
  lemma TimeoutLosesNothing(c: Config, env: Env, t: Trace)
    requires IsRun(c, env, t) && Run(c, t).pc.Threw? && Run(c, t).pc.exception.Timeout?
    ensures BytesMoved(t) == [] && Run(c, t).pc.exception == Timeout(0) && Run(c, t).pending == 0
    ensures c.pollTimeout > 0 && Now(env, t) >= env.start + Millis(c.pollTimeout)
  {
    RunIsAccounted(c, env, t);
    IsRunPrefix(c, env, t);
    TimeIsMonotonic(env, t[..|t| - 1]);
  }

  /** Once a byte has arrived, the end of a timeout, inter-byte or overall, ends the call with what
      was read, and the caller gets it iff no empty read was passed over on the way. */
  lemma TimeoutAfterAByteReturnsIt(c: Config, env: Env, t: Trace, e: Timed)
    requires IsRun(c, env, t + [e]) && BytesMoved(t) != []
    requires (e.event.DidPoll? && e.event.outcome == TimedOut)
          || (e.event.GotTime? && Run(c, t).pc == LoopClock && Remaining(Run(c, t).end, e.event.now) < 0)
    ensures Run(c, t + [e]).pc == Returned(|BytesMoved(t)|)
    ensures ReturnsNormally(Run(c, t + [e])) <==> PassedOver(t) == 0
  {
    hide EndTime, Run, BytesMoved, KernelTrace, PassedOver;
    Extend(env, t, e);
    RunExtend(c, t, e);
    RunIsAccounted(c, env, t);
    PendingIsPassedOver(c, env, t);
  }

  /** The events with which a call ends well. */
  predicate EndsWell(e: Event) {
    e.DidRead? || e.GotTime? || (e.DidPoll? && e.outcome == TimedOut)
  }

  /** Exactly when bytes are lost, for calls that took any: an empty read was passed over, or the
      call ended at a check of the field after a failed read, or at a poll that did not time out. */
  lemma BytesAreLostIff(c: Config, env: Env, t: Trace)
    requires IsRun(c, env, t) && Over(Run(c, t).pc) && BytesMoved(t) != []
    ensures !ReturnsNormally(Run(c, t)) <==> PassedOver(t) > 0 || !EndsWell(t[|t| - 1].event)
    ensures Run(c, t).pc.Threw? <==> !EndsWell(t[|t| - 1].event)
    ensures Run(c, t).pc.Threw? ==> Run(c, t).pc.exception in {AsynchronousClose, PortFdInvalid, InterruptedIO(0)}
    ensures var e := t[|t| - 1].event;
            !EndsWell(e) ==> e.FetchedFd? || (e.DidPoll? && e.outcome != TimedOut && e.outcome != Ready({POLLIN}, {}))
  {
    hide EndTime, Remaining, PassedOver;
    RunIsAccounted(c, env, t);
    IsRunPrefix(c, env, t);
    RunIsAccounted(c, env, t[..|t| - 1]);
    PendingIsPassedOver(c, env, t);
  }

  /** A hang-up ends a call even while input is still there to be read. */
  lemma HangUpEndsTheCall(c: Config, r: Reader, e: Event)
    requires r.pc == FirstPoll || r.pc == LoopPoll
    requires e.DidPoll? && Step(c, r, e).pc != Stuck
    requires e.outcome.Ready? && e.outcome.close != {POLLIN} && POLLHUP in e.outcome.port
    ensures Step(c, r, e).pc == Threw(PortFdInvalid)
  {
    assert e.outcome.port != {POLLIN};
  }

  // ---- Runs in which an empty read is passed over ----

  /** A run at time 0 that has taken `moved` bytes and is in the state `r`. */
  predicate AtZero(c: Config, env: Env, t: Trace, moved: nat, r: Reader) {
    IsRun(c, env, t) && env == Env(0, 0) && Now(env, t) == 0 && |BytesMoved(t)| == moved && Run(c, t) == r
  }

  lemma Begin(c: Config) returns (env: Env, t: Trace)
    requires c.Valid()
    ensures AtZero(c, env, t, 0, START)
  {
    env, t := Env(0, 0), [];
  }

  /** A run and one more step. */
  lemma Grow(c: Config, env: Env, t: Trace, moved: nat, r: Reader, e: Event) returns (t': Trace)
    requires AtZero(c, env, t, moved, r) && KernelAllows(env, Timed(e, 0), 0) && Step(c, r, e).pc != Stuck
    ensures AtZero(c, env, t', moved + |EventBytes(e)|, Step(c, r, e))
    ensures t' == t + [Timed(e, 0)]
  {
    hide Step, KernelAllows;
    t' := t + [Timed(e, 0)];
    RunExtend(c, t, Timed(e, 0));
    Extend(env, t, Timed(e, 0));
  }

  lemma GrowFd(c: Config, env: Env, t: Trace, moved: nat, r: Reader, fd: int) returns (t': Trace)
    requires AtZero(c, env, t, moved, r) && OnFd(c, r, fd).pc != Stuck
    ensures AtZero(c, env, t', moved, OnFd(c, r, fd))
  {
    hide AtZero;
    t' := Grow(c, env, t, moved, r, FetchedFd(fd));
  }

  lemma GrowCloseFd(c: Config, env: Env, t: Trace, moved: nat, r: Reader, fd: int) returns (t': Trace)
    requires AtZero(c, env, t, moved, r) && OnCloseFd(r, fd).pc != Stuck
    ensures AtZero(c, env, t', moved, OnCloseFd(r, fd))
  {
    hide AtZero;
    t' := Grow(c, env, t, moved, r, FetchedCloseFd(fd));
  }

  lemma GrowRead(c: Config, env: Env, t: Trace, moved: nat, r: Reader, bytes: seq<Byte>) returns (t': Trace)
    requires AtZero(c, env, t, moved, r) && |bytes| <= Count(c, r) && OnRead(c, r, Moved(bytes)).pc != Stuck
    ensures AtZero(c, env, t', moved + |bytes|, OnRead(c, r, Moved(bytes)))
  {
    hide AtZero, OnRead;
    t' := Grow(c, env, t, moved, r, DidRead(r.fd, Count(c, r), Moved(bytes)));
  }

  lemma GrowClock(c: Config, env: Env, t: Trace, moved: nat, r: Reader) returns (t': Trace)
    requires AtZero(c, env, t, moved, r) && OnClock(c, r, Timespec(0, 0)).pc != Stuck
    ensures AtZero(c, env, t', moved, OnClock(c, r, Timespec(0, 0)))
  {
    hide AtZero, OnClock;
    t' := Grow(c, env, t, moved, r, GotTime(Timespec(0, 0)));
  }

  /** A poll that reports input. */
  lemma GrowPoll(c: Config, env: Env, t: Trace, moved: nat, r: Reader) returns (t': Trace)
    requires AtZero(c, env, t, moved, r) && r.pc in {FirstPoll, LoopPoll}
    ensures AtZero(c, env, t', moved, r.(pc := if r.pc == FirstPoll then SecondRead else LoopRead))
  {
    hide AtZero, OnFd, OnRead, OnClock;
    t' := Grow(c, env, t, moved, r, DidPoll(r.fd, r.closeFd, PollTimeout(c, r), Ready({POLLIN}, {})));
  }

  /** A poll in the loop whose timeout of 0 is over. */
  lemma GrowTimeout(c: Config, env: Env, t: Trace, moved: nat, r: Reader) returns (t': Trace)
    requires AtZero(c, env, t, moved, r) && r.pc == LoopPoll && r.timeout == 0
    ensures AtZero(c, env, t', moved, r.(pc := Returned(r.total)))
    ensures t' != [] && t'[|t'| - 1].event == DidPoll(r.fd, r.closeFd, 0, TimedOut)
  {
    hide AtZero, OnFd, OnRead, OnClock;
    t' := Grow(c, env, t, moved, r, DidPoll(r.fd, r.closeFd, 0, TimedOut));
  }

  /** One byte is read, an empty read is passed over, and the inter-byte timeout ends the call:
      the last event is a poll that timed out, and yet the byte is lost. */
  lemma EmptyReadLosesAByte() returns (c: Config, env: Env, t: Trace)
    ensures c == Config(2, -1, 0) && IsRun(c, env, t)
    ensures Run(c, t).pc == Returned(1) && !ReturnsNormally(Run(c, t)) && |BytesMoved(t)| == 1
    ensures t != [] && t[|t| - 1].event.DidPoll? && t[|t| - 1].event.outcome == TimedOut
  {
    hide Run, BytesMoved, IsRun, Now;
    c := Config(2, -1, 0);
    env, t := Begin(c);
    var r := START.(pc := FetchCloseFd, fd := 4);
    t := GrowFd(c, env, t, 0, START, 4);
    t := GrowCloseFd(c, env, t, 0, r, 5);
    t := GrowRead(c, env, t, 0, r.(pc := FirstRead, closeFd := 5), [7]);
    r := r.(pc := LoopPoll, closeFd := 5, total := 1);
    t := GrowPoll(c, env, t, 1, r);
    t := GrowRead(c, env, t, 1, r.(pc := LoopRead), []);
    t := GrowFd(c, env, t, 1, r.(pc := LoopReadFailed(true)), 4);
    t := GrowTimeout(c, env, t, 1, r.(pending := 1));
  }

  /** Which calls can return and throw at once: exactly those that ask for a byte. */
  lemma ReturnsAreNormalIff(c: Config)
    requires c.Valid()
    ensures (forall env, t :: IsRun(c, env, t) && Run(c, t).pc.Returned? ==> ReturnsNormally(Run(c, t)))
       <==> c.len == 0
  {
    if c.len == 0 {
      forall env, t | IsRun(c, env, t) && Run(c, t).pc.Returned? ensures ReturnsNormally(Run(c, t)) {
        NothingAskedForNoLoop(c, env, t);
      }
    } else {
      var env, t := AllBytesAreLost(c);
    }
  }

  lemma {:induction false} NothingAskedForNoLoop(c: Config, env: Env, t: Trace)
    requires IsRun(c, env, t) && c.len == 0
    ensures !InLoop(Run(c, t).pc) && Run(c, t).pending == 0 && (!Over(Run(c, t).pc) ==> Run(c, t).total == 0)
  {
    hide EndTime, Remaining;
    if t != [] {
      IsRunPrefix(c, env, t);
      NothingAskedForNoLoop(c, env, t[..|t| - 1]);
    }
  }

  /** A run that fills the buffer, for any timeouts, and is lost to its caller. */
  lemma AllBytesAreLost(c: Config) returns (env: Env, t: Trace)
    requires c.Valid() && c.len > 0
    ensures IsRun(c, env, t) && Run(c, t).pc == Returned(c.len) && !ReturnsNormally(Run(c, t))
    ensures |BytesMoved(t)| == c.len
  {
    hide Run, BytesMoved, IsRun, Now, OnClock;
    var r;
    env, t, r := ReachTheLoop(c);
    t, r := PromiseAByte(c, env, t, r);
    t := GrowRead(c, env, t, 0, r, []);
    t := GrowFd(c, env, t, 0, r.(pc := LoopReadFailed(true)), 4);
    t, r := PromiseAByte(c, env, t, LoopTop(c, r.(pending := 1)));
    t := GrowRead(c, env, t, 0, r, seq(c.len, _ => 7));
  }

  /** At the top of the loop, before the deadline. */
  predicate FreshLoop(c: Config, r: Reader) {
    && r == LoopTop(c, r)
    && (c.pollTimeout > 0 ==> Remaining(r.end, Timespec(0, 0)) == c.pollTimeout)
  }

  /** To the top of the loop without a byte. */
  lemma ReachTheLoop(c: Config) returns (env: Env, t: Trace, r: Reader)
    requires c.Valid() && c.len > 0
    ensures AtZero(c, env, t, 0, r) && FreshLoop(c, r) && r.total == r.pending == 0
  {
    hide AtZero, EndTime, Remaining;
    env, t := Begin(c);
    r := START.(pc := FetchCloseFd, fd := 4);
    t := GrowFd(c, env, t, 0, START, 4);
    t := GrowCloseFd(c, env, t, 0, r, 5);
    t := GrowRead(c, env, t, 0, r.(pc := FirstRead, closeFd := 5), []);
    r := r.(pc := FirstPoll, closeFd := 5);
    if c.pollTimeout > 0 {
      FreshDeadline(Timespec(0, 0), c.pollTimeout);
      t := GrowClock(c, env, t, 0, r.(pc := StartClock));
      r := r.(end := EndTime(Timespec(0, 0), c.pollTimeout));
    }
    t := GrowPoll(c, env, t, 0, r);
    t := GrowRead(c, env, t, 0, r.(pc := SecondRead), []);
    r := LoopTop(c, r);
  }

  /** From the top of the loop to its read. */
  lemma PromiseAByte(c: Config, env: Env, t: Trace, r: Reader) returns (t': Trace, r': Reader)
    requires AtZero(c, env, t, 0, r) && FreshLoop(c, r) && c.Valid()
    ensures r' == r.(pc := LoopRead, timeout := r'.timeout) && AtZero(c, env, t', 0, r')
    ensures FreshLoop(c, LoopTop(c, r'))
  {
    hide AtZero, Remaining;
    t', r' := t, r;
    if c.pollTimeout > 0 {
      t' := GrowClock(c, env, t', 0, r');
      r' := OnClock(c, r', Timespec(0, 0));
    }
    t' := GrowPoll(c, env, t', 0, r');
    r' := r'.(pc := LoopRead);
  }

  // ---- Returns without a byte ----

  /** How many reads came back empty right after a poll, which had promised a byte. */
  function BrokenPromises(t: Trace): nat {
    if |t| < 2 then 0
    else BrokenPromises(t[..|t| - 1])
         + if t[|t| - 2].event.DidPoll? && IsEmptyRead(t[|t| - 1].event) then 1 else 0
  }

  lemma ReadsComeAfterPolls(c: Config, env: Env, t: Trace)
    requires IsRun(c, env, t) && Run(c, t).pc in {SecondRead, LoopRead}
    ensures t != [] && t[|t| - 1].event.DidPoll?
  {
    hide EndTime, Remaining, KernelTrace;
  }

  /** The API says that without any data a read ends in a TimeoutIOException, and that the
      inter-byte timeout counts only after some byte. The loop, and a return of 0 to a call that
      asked for bytes, are reached without a byte only if some poll promised one and broke it. */
  lemma {:induction false} NoByteNeedsABrokenPromise(c: Config, env: Env, t: Trace)
    requires IsRun(c, env, t) && c.len > 0
    ensures (InLoop(Run(c, t).pc) || Run(c, t).pc.Returned?) && BytesMoved(t) == [] ==> BrokenPromises(t) > 0
  {
    hide EndTime, Remaining, Judge, KernelTrace;
    if t != [] {
      var front := t[..|t| - 1];
      IsRunPrefix(c, env, t);
      NoByteNeedsABrokenPromise(c, env, front);
      RunIsAccounted(c, env, front);
      RunIsAccounted(c, env, t);
      if Run(c, front).pc == SecondRead {
        ReadsComeAfterPolls(c, env, front);
        assert front[|front| - 1] == t[|t| - 2];
      }
    }
  }

  /** Which calls can return 0 without any data, and nothing pending: all that ask for a byte. */
  lemma ReturnsHaveBytesIff(c: Config)
    requires c.Valid()
    ensures (forall env, t :: IsRun(c, env, t) && ReturnsNormally(Run(c, t)) ==> Run(c, t).pc.result > 0 || c.len == 0)
       <==> c.len == 0
  {
    if c.len > 0 {
      var env, t := ReturnOfNothing(c);
    }
  }

  /** Such a run: the first read and the one after a poll are empty, and then the inter-byte timeout
      is waited for, or the overall one if it is shorter. */
  lemma ReturnOfNothing(c: Config) returns (env: Env, t: Trace)
    requires c.Valid() && c.len > 0
    ensures IsRun(c, env, t) && Run(c, t).pc == Returned(0) && ReturnsNormally(Run(c, t)) && BytesMoved(t) == []
    ensures Now(env, t) == Millis(if c.pollTimeout > 0 && c.pollTimeout < c.interByteTimeout then c.pollTimeout
                                  else c.interByteTimeout)
  {
    hide Run, BytesMoved, IsRun, Now, EndTime, Remaining;
    var r;
    env, t, r := ReachTheLoop(c);
    if c.pollTimeout > 0 {
      t := GrowClock(c, env, t, 0, r);
      r := OnClock(c, r, Timespec(0, 0));
    }
    t := WaitForTheEnd(c, env, t, r);
  }

  lemma WaitForTheEnd(c: Config, env: Env, t: Trace, r: Reader) returns (t': Trace)
    requires AtZero(c, env, t, 0, r) && r.pc == LoopPoll && r.timeout >= 0
    ensures IsRun(c, env, t') && Run(c, t') == r.(pc := Returned(r.total))
    ensures BytesMoved(t') == [] && Now(env, t') == Millis(r.timeout)
  {
    hide Run, BytesMoved, OnFd, OnRead, OnClock;
    var e := Timed(DidPoll(r.fd, r.closeFd, r.timeout, TimedOut), Millis(r.timeout));
    t' := t + [e];
    RunExtend(c, t, e);
    Extend(env, t, e);
  }

  // ---- How long a call takes ----

  /** How far a call with a positive overall timeout may be at each point. Before the clock is
      read a call makes at most four steps; afterwards the deadline bounds it. */
  predicate OnTime(c: Config, env: Env, r: Reader, now: int) {
    var deadline := Nanos(r.end);
    && env.start <= now
    && (match r.pc
        case FetchFd => now == env.start
        case FetchCloseFd => now <= env.start + env.slack
        case FirstRead => now <= env.start + 2 * env.slack
        case FirstReadFailed(_) => now <= env.start + 3 * env.slack
        case StartClock => now <= env.start + 4 * env.slack
        case FirstPoll => deadline == now + Millis(c.pollTimeout)
        case SecondRead => now <= deadline + env.slack
        case SecondReadFailed => now <= deadline + 2 * env.slack
        case LoopClock => now < deadline + Millis(1) + 3 * env.slack
        case LoopPoll =>
          && r.timeout >= 0
          && now + Millis(r.timeout) < deadline + Millis(1)
          && (r.timeout < c.interByteTimeout ==> now + Millis(r.timeout) > deadline - Millis(1))
        case LoopRead => now < deadline + Millis(1) + env.slack
        case LoopReadFailed(_) => now < deadline + Millis(1) + 2 * env.slack
        case _ => now < env.start + Millis(c.pollTimeout) + Millis(1) + 9 * env.slack)
    && (r.pc == FirstPoll || r.pc == SecondRead || r.pc == SecondReadFailed || InLoop(r.pc) ==>
          env.start + Millis(c.pollTimeout) <= deadline <= env.start + Millis(c.pollTimeout) + 5 * env.slack)
  }

  predicate CanStep(c: Config, env: Env, r: Reader, e: Timed, now: int) {
    && c.Valid() && c.pollTimeout > 0
    && OnTime(c, env, r, now) && KernelAllows(env, e, now)
    && !Over(r.pc) && Step(c, r, e.event).pc != Stuck
  }

  lemma ClockStepIsOnTime(c: Config, env: Env, r: Reader, e: Timed, now: int)
    requires CanStep(c, env, r, e, now) && e.event.GotTime?
    ensures OnTime(c, env, Step(c, r, e.event), e.at)
  {
    hide EndTime, Remaining;
    var t := e.event.now;
    if r.pc == StartClock {
      EndTimeIsExact(t, c.pollTimeout);
    } else {
      RemainingIsSound(r.end, t);
    }
  }

  lemma PollStepIsOnTime(c: Config, env: Env, r: Reader, e: Timed, now: int)
    requires CanStep(c, env, r, e, now) && e.event.DidPoll?
    ensures OnTime(c, env, Step(c, r, e.event), e.at)
  {
    hide EndTime, Remaining;
  }

  lemma ReadStepIsOnTime(c: Config, env: Env, r: Reader, e: Timed, now: int)
    requires CanStep(c, env, r, e, now) && e.event.DidRead?
    ensures OnTime(c, env, Step(c, r, e.event), e.at)
  {
    hide EndTime, Remaining;
  }

  lemma FetchStepIsOnTime(c: Config, env: Env, r: Reader, e: Timed, now: int)
    requires CanStep(c, env, r, e, now) && (e.event.FetchedFd? || e.event.FetchedCloseFd?)
    ensures OnTime(c, env, Step(c, r, e.event), e.at)
  {
    hide EndTime, Remaining;
  }

  lemma StepIsOnTime(c: Config, env: Env, r: Reader, e: Timed, now: int)
    requires CanStep(c, env, r, e, now)
    ensures OnTime(c, env, Step(c, r, e.event), e.at)
  {
    match e.event
    case GotTime(_) => ClockStepIsOnTime(c, env, r, e, now);
    case DidPoll(_, _, _, _) => PollStepIsOnTime(c, env, r, e, now);
    case DidRead(_, _, _) => ReadStepIsOnTime(c, env, r, e, now);
    case _ => FetchStepIsOnTime(c, env, r, e, now);
  }

  lemma {:induction false} RunIsOnTime(c: Config, env: Env, t: Trace)
    requires IsRun(c, env, t) && c.pollTimeout > 0
    ensures OnTime(c, env, Run(c, t), Now(env, t))
  {
    if t != [] {
      var front := t[..|t| - 1];
      IsRunPrefix(c, env, t);
      RunIsOnTime(c, env, front);
      StepIsOnTime(c, env, Run(c, front), t[|t| - 1], Now(env, front));
    }
  }

  /** The whole-call bound: with a positive overall timeout a call is over less than a
      millisecond after that timeout, plus nine times the lateness of a single kernel call. */
  lemma CallEndsInTime(c: Config, env: Env, t: Trace)
    requires IsRun(c, env, t) && c.pollTimeout > 0 && Over(Run(c, t).pc)
    ensures Now(env, t) < env.start + Millis(c.pollTimeout) + Millis(1) + 9 * env.slack
  {
    RunIsOnTime(c, env, t);
  }

  /** A return with fewer bytes than asked for has been earned by waiting: either the last poll
      found nothing for the whole inter-byte timeout, or less than a millisecond of the overall
      timeout is left. */
  lemma PartialReturnIsEarned(c: Config, env: Env, t: Trace)
    requires IsRun(c, env, t) && Run(c, t).pc.Returned? && Run(c, t).pc.result < c.len
    ensures Earned(c, env, Now(env, t[..|t| - 1]), Now(env, t))
  {
    hide EndTime, Remaining, KernelAllows;
    var front, e := t[..|t| - 1], t[|t| - 1];
    IsRunPrefix(c, env, t);
    var r := Run(c, front);
    if c.pollTimeout > 0 {
      RunIsOnTime(c, env, front);
    } else {
      InfiniteWaitUsesInterByteTimeout(c, env, front);
    }
    PartialReturnStep(c, env, r, e, Now(env, front));
  }

  predicate Earned(c: Config, env: Env, before: int, now: int) {
    || now >= before + Millis(c.interByteTimeout)
    || (c.pollTimeout > 0 && now > env.start + Millis(c.pollTimeout) - Millis(1))
  }

  lemma PartialReturnStep(c: Config, env: Env, r: Reader, e: Timed, now: int)
    requires c.Valid() && !Over(r.pc) && KernelAllows(env, e, now)
    requires c.pollTimeout > 0 ==> OnTime(c, env, r, now)
    requires c.pollTimeout == -1 ==>
               r.pc != StartClock && r.pc != LoopClock && (r.pc == LoopPoll ==> r.timeout == c.interByteTimeout)
    requires Step(c, r, e.event).pc.Returned? && Step(c, r, e.event).pc.result < c.len
    ensures Earned(c, env, now, e.at)
  {
    hide EndTime, Remaining;
    if e.event.GotTime? {
      RemainingIsSound(r.end, e.event.now);
    }
  }

  lemma {:induction false} InfiniteWaitUsesInterByteTimeout(c: Config, env: Env, t: Trace)
    requires IsRun(c, env, t) && c.pollTimeout == -1
    ensures Run(c, t).pc != StartClock && Run(c, t).pc != LoopClock
    ensures Run(c, t).pc == LoopPoll ==> Run(c, t).timeout == c.interByteTimeout
  {
    hide EndTime, Remaining;
    if t != [] {
      IsRunPrefix(c, env, t);
      InfiniteWaitUsesInterByteTimeout(c, env, t[..|t| - 1]);
    }
  }

  // ---- How often a call waits ----

  predicate PollsBounded(c: Config, r: Reader, polls: nat, empty: nat) {
    && r.pending + (if r.pc == LoopReadFailed(true) then 1 else 0) <= empty
    && match r.pc
    case LoopClock => polls <= r.total + empty
    case LoopPoll => polls <= r.total + empty
    case LoopRead => polls <= r.total + empty + 1
    case LoopReadFailed(zero) => polls <= r.total + empty + if zero then 0 else 1
    case SecondRead => polls <= 1
    case SecondReadFailed => polls <= 1
    case Returned(n) => polls <= n + empty + (if n == c.len && n > 0 then 0 else 1)
    case Threw(_) => polls <= r.total + empty + 1
    case _ => polls == 0
  }

  lemma StepPollsBounded(c: Config, r: Reader, e: Event, polls: nat, empty: nat)
    requires PollsBounded(c, r, polls, empty) && !Over(r.pc)
    requires r.total < c.len || c.len == 0
    requires InLoop(r.pc) || r.pc == StartClock || r.total == 0
    requires Step(c, r, e).pc != Stuck
    ensures PollsBounded(c, Step(c, r, e), polls + (if e.DidPoll? then 1 else 0),
                         empty + if MovedNothing(e) then 1 else 0)
  {
    hide EndTime, Remaining;
  }

  lemma {:induction false} RunPollsBounded(c: Config, env: Env, t: Trace)
    requires IsRun(c, env, t)
    ensures PollsBounded(c, Run(c, t), Polls(t), EmptyTransfers(t))
  {
    if t != [] {
      IsRunPrefix(c, env, t);
      RunPollsBounded(c, env, t[..|t| - 1]);
      RunIsAccounted(c, env, t[..|t| - 1]);
      StepPollsBounded(c, Run(c, t[..|t| - 1]), t[|t| - 1].event, Polls(t[..|t| - 1]), EmptyTransfers(t[..|t| - 1]));
    }
  }

  /** A call polls at most once for each byte it is asked for, plus once for each read that
      moved nothing. Without such reads the loop runs at most len times, and the call leaves no
      exception pending. */
  lemma PollsAreBounded(c: Config, env: Env, t: Trace)
    requires IsRun(c, env, t)
    ensures Run(c, t).pending <= EmptyTransfers(t)
    ensures Polls(t) <= (if c.len == 0 then 1 else c.len) + EmptyTransfers(t)
  {
    RunPollsBounded(c, env, t);
    RunIsAccounted(c, env, t);
  }

  // ---- The deadline within a run ----

  /** The clock has been read and the call is not over. */
  predicate HasClock(pc: Pc) {
    pc == FirstPoll || pc == SecondRead || pc == SecondReadFailed || InLoop(pc)
  }

  /** From the first reading of the clock on the deadline is the one computed from it. */
  lemma {:induction false} RunHasDeadline(c: Config, env: Env, t: Trace)
    requires IsRun(c, env, t) && c.pollTimeout > 0
    ensures HasClock(Run(c, t).pc) ==> DeadlineIsFrom(FirstClock(t), c.pollTimeout, Run(c, t).end, Now(env, t))
    ensures !Over(Run(c, t).pc) && !HasClock(Run(c, t).pc) ==> FirstClock(t) == None
  {
    hide EndTime, Remaining;
    if t != [] {
      IsRunPrefix(c, env, t);
      RunHasDeadline(c, env, t[..|t| - 1]);
    }
  }

  /** No run with a timeout of at most MAX_SAFE_MILLIS, on a kernel that is never more than five
      days late, overflows int32 when the code computes the remaining time. */
  lemma RemainingNeverOverflows(c: Config, env: Env, t: Trace, e: Timed)
    requires IsRun(c, env, t + [e]) && Run(c, t).pc == LoopClock && e.event.GotTime?
    requires 0 < c.pollTimeout <= MAX_SAFE_MILLIS && env.slack <= 5 * 24 * 3600 * 1_000_000_000
    ensures FitsInt32(Run(c, t).end, e.event.now)
  {
    hide EndTime, Remaining, FitsInt32;
    Extend(env, t, e);
    RunExtend(c, t, e);
    RunHasDeadline(c, env, t);
    RunIsOnTime(c, env, t);
    SafeTimeoutFits(FirstClock(t).value, c.pollTimeout, e.event.now);
  }

  // ---- How a call ends, told from its history ----

  /** A read that failed, with EAGAIN or otherwise. */
  predicate FailedRead(e: Event) {
    e.DidRead? && !e.result.Moved?
  }

  /** The state in which the last event leaves a call, or None if the call goes on. Every way to end
      is named by what the kernel or the field said last and by what had happened before. */
  function Ending(c: Config, t: Trace): Option<Pc>
    requires t != []
  {
    var front, moved := t[..|t| - 1], |BytesMoved(t)|;
    match t[|t| - 1].event
    case DidRead(_, _, result) =>
      if result.Moved? && moved == c.len then Some(Returned(moved)) else None
    case GotTime(now) =>
      // The first reading of the clock only sets the deadline.
      if FirstClock(front).Some? && c.pollTimeout > 0
         && Remaining(EndTime(FirstClock(front).value, c.pollTimeout), now) < 0
      then Some(Returned(moved)) else None
    case DidPoll(_, _, _, TimedOut) =>
      Some(if Polls(t) == 1 && moved == 0 then Threw(Timeout(0)) else Returned(moved))
    case DidPoll(_, _, _, PollFailed) => Some(Threw(InterruptedIO(0)))
    case DidPoll(_, _, _, Ready(port, close)) =>
      if close == {POLLIN} then Some(Threw(AsynchronousClose))
      else if port == {POLLIN} then None
      else if POLLHUP in port then Some(Threw(PortFdInvalid))
      else if POLLNVAL in port then Some(Threw(AsynchronousClose))
      else Some(Threw(InterruptedIO(0)))
    case FetchedFd(fd) =>
      if |t| < 2 then None
      else if fd == INVALID_FD then Some(Threw(AsynchronousClose))
      else if !FailedRead(t[|t| - 2].event) then None
      // EAGAIN is the normal answer to the first read only.
      else if t[|t| - 2].event.result.WouldBlock? && Polls(t) == 0 then None
      else Some(Threw(InterruptedIO(0)))
    case _ => None
  }

  /** What the polls and the last event say about where a call is. */
  predicate Located(c: Config, r: Reader, t: Trace) {
    && (r.pc.FetchFd? <==> t == [])
    && (r.pc in {FetchFd, FetchCloseFd, FirstRead, StartClock, FirstPoll} || r.pc.FirstReadFailed? ==> Polls(t) == 0)
    && (r.pc in {SecondRead, SecondReadFailed} ==> Polls(t) == 1)
    && (r.pc == LoopRead || r.pc.LoopReadFailed? || (InLoop(r.pc) && r.total == 0) ==> Polls(t) >= 1)
    && (r.pc.FirstReadFailed? ==> FailedRead(t[|t| - 1].event)
                                  && t[|t| - 1].event.result.WouldBlock? == r.pc.wouldBlock)
    && (r.pc == SecondReadFailed ==> FailedRead(t[|t| - 1].event))
    && (r.pc.LoopReadFailed? ==> t[|t| - 1].event.DidRead?
                                 && t[|t| - 1].event.result.Moved? == r.pc.empty)
  }

  lemma ReadIsLocated(c: Config, r: Reader, t: Trace, e: Timed)
    requires Located(c, r, t) && e.event.DidRead? && Step(c, r, e.event).pc != Stuck
    ensures Located(c, Step(c, r, e.event), t + [e])
  {
    hide Polls, BytesMoved, EmptyTransfers, KernelTrace;
    Extend(Env(0, 0), t, e);
    assert (t + [e])[|t + [e]| - 1] == e;
  }

  lemma FetchIsLocated(c: Config, r: Reader, t: Trace, e: Timed)
    requires Located(c, r, t) && (e.event.FetchedFd? || e.event.FetchedCloseFd?) && Step(c, r, e.event).pc != Stuck
    ensures Located(c, Step(c, r, e.event), t + [e])
  {
    hide Polls, BytesMoved, EmptyTransfers, KernelTrace;
    Extend(Env(0, 0), t, e);
  }

  lemma WaitIsLocated(c: Config, r: Reader, t: Trace, e: Timed)
    requires Located(c, r, t) && (e.event.GotTime? || e.event.DidPoll?) && Step(c, r, e.event).pc != Stuck
    ensures Located(c, Step(c, r, e.event), t + [e])
  {
    hide EndTime, Remaining, Judge, Polls, BytesMoved, EmptyTransfers, KernelTrace;
    Extend(Env(0, 0), t, e);
  }

  lemma StepIsLocated(c: Config, r: Reader, t: Trace, e: Timed)
    requires Located(c, r, t) && Step(c, r, e.event).pc != Stuck
    ensures Located(c, Step(c, r, e.event), t + [e])
  {
    hide Located, OnFd, OnCloseFd, OnRead, OnClock, OnPoll;
    match e.event
    case DidRead(_, _, _) => ReadIsLocated(c, r, t, e);
    case FetchedFd(_) => FetchIsLocated(c, r, t, e);
    case FetchedCloseFd(_) => FetchIsLocated(c, r, t, e);
    case GotTime(_) => WaitIsLocated(c, r, t, e);
    case DidPoll(_, _, _, _) => WaitIsLocated(c, r, t, e);
    case DidWrite(_, _, _) =>
  }

  lemma {:induction false} RunIsLocated(c: Config, env: Env, t: Trace)
    requires IsRun(c, env, t)
    ensures Located(c, Run(c, t), t)
  {
    hide Step, Located, KernelTrace;
    if t != [] {
      var front, e := t[..|t| - 1], t[|t| - 1];
      IsRunPrefix(c, env, t);
      RunIsLocated(c, env, front);
      StepIsLocated(c, Run(c, front), front, e);
      assert t == front + [e];
    } else {
      NothingIsLocated(c);
    }
  }

  lemma NothingIsLocated(c: Config)
    ensures Located(c, START, [])
  {}

  /** What a call that goes on knows of the clock. */
  predicate Clocked(c: Config, r: Reader, t: Trace) {
    && (c.pollTimeout > 0 && HasClock(r.pc) ==>
          FirstClock(t).Some? && r.end == EndTime(FirstClock(t).value, c.pollTimeout))
    && (c.pollTimeout > 0 && !HasClock(r.pc) ==> FirstClock(t) == None)
    && (c.pollTimeout <= 0 ==> r.pc != StartClock && r.pc != LoopClock)
  }

  lemma RunIsClocked(c: Config, env: Env, t: Trace)
    requires IsRun(c, env, t) && !Over(Run(c, t).pc)
    ensures Clocked(c, Run(c, t), t)
  {
    hide Run, EndTime, Remaining;
    if c.pollTimeout > 0 {
      RunHasDeadline(c, env, t);
    } else {
      InfiniteWaitUsesInterByteTimeout(c, env, t);
    }
  }

  /** A step that can follow the history of a call that goes on. */
  predicate CanFollow(c: Config, r: Reader, t: Trace, e: Event) {
    && Located(c, r, t) && Clocked(c, r, t) && Accounted(c, r, |BytesMoved(t)|)
    && !Over(r.pc) && Step(c, r, e).pc != Stuck && (InLoop(r.pc) ==> c.len > 0)
    && (e.DidRead? && e.result.Moved? ==> |e.result.bytes| <= e.count)
    && (e.DidPoll? && e.outcome.Ready? ==> e.outcome.port != {} || e.outcome.close != {})
  }

  lemma ReadEndsAsTold(c: Config, r: Reader, t: Trace, e: Timed)
    requires CanFollow(c, r, t, e.event) && e.event.DidRead?
    ensures Told(c, t + [e], Step(c, r, e.event).pc)
  {
    hide Located, Clocked, KernelTrace, FirstClock, EndTime, Remaining, EmptyTransfers, BytesMoved, Polls;
    Extend(Env(0, 0), t, e);
  }

  lemma FetchEndsAsTold(c: Config, r: Reader, t: Trace, e: Timed)
    requires CanFollow(c, r, t, e.event) && (e.event.FetchedFd? || e.event.FetchedCloseFd?)
    ensures Told(c, t + [e], Step(c, r, e.event).pc)
  {
    hide Clocked, KernelTrace, FirstClock, EndTime, Remaining, EmptyTransfers, BytesMoved, Polls;
    Extend(Env(0, 0), t, e);
    if t != [] {
      assert (t + [e])[|t| - 1] == t[|t| - 1];
    }
  }

  lemma ClockEndsAsTold(c: Config, r: Reader, t: Trace, e: Timed)
    requires CanFollow(c, r, t, e.event) && e.event.GotTime?
    ensures Told(c, t + [e], Step(c, r, e.event).pc)
  {
    hide Located, KernelTrace, FirstClock, EndTime, Remaining, EmptyTransfers, BytesMoved, Polls;
    Extend(Env(0, 0), t, e);
    assert (t + [e])[..|t|] == t;
  }

  lemma PollEndsAsTold(c: Config, r: Reader, t: Trace, e: Timed)
    requires CanFollow(c, r, t, e.event) && e.event.DidPoll?
    ensures Told(c, t + [e], Step(c, r, e.event).pc)
  {
    hide Clocked, KernelTrace, FirstClock, EndTime, Remaining, EmptyTransfers, BytesMoved, Polls;
    Extend(Env(0, 0), t, e);
  }

  lemma StepEndsAsTold(c: Config, r: Reader, t: Trace, e: Timed)
    requires CanFollow(c, r, t, e.event)
    ensures Told(c, t + [e], Step(c, r, e.event).pc)
  {
    hide Located, Clocked, Accounted, Told, OnFd, OnCloseFd, OnRead, OnClock, OnPoll;
    match e.event
    case DidRead(_, _, _) => ReadEndsAsTold(c, r, t, e);
    case FetchedFd(_) => FetchEndsAsTold(c, r, t, e);
    case FetchedCloseFd(_) => FetchEndsAsTold(c, r, t, e);
    case GotTime(_) => ClockEndsAsTold(c, r, t, e);
    case DidPoll(_, _, _, _) => PollEndsAsTold(c, r, t, e);
    case DidWrite(_, _, _) =>
  }

  /** The state is the one that Ending tells. */
  predicate Told(c: Config, t: Trace, pc: Pc)
    requires t != []
  {
    match Ending(c, t) case Some(ending) => pc == ending case None => !Over(pc)
  }

  /** The state after every event, in full: the call is over exactly if Ending says so, and then in
      just that way. */
  lemma CallsEndAsTold(c: Config, env: Env, t: Trace)
    requires IsRun(c, env, t) && t != []
    ensures match Ending(c, t) case Some(pc) => Run(c, t).pc == pc case None => !Over(Run(c, t).pc)
  {
    hide Step, Located, Clocked, Accounted, KernelTrace, Ending;
    var front, e := t[..|t| - 1], t[|t| - 1];
    IsRunPrefix(c, env, t);
    NotOver(c, Run(c, front), e.event);
    RunIsLocated(c, env, front);
    RunIsClocked(c, env, front);
    RunIsAccounted(c, env, front);
    if c.len == 0 {
      NothingAskedForNoLoop(c, env, front);
    }
    StepEndsAsTold(c, Run(c, front), front, e);
    assert t == front + [e];
  }

  lemma NotOver(c: Config, r: Reader, e: Event)
    requires Step(c, r, e).pc != Stuck
    ensures !Over(r.pc)
  {
    hide EndTime, Remaining, Judge;
  }

  /** Exactly when a call ends in a TimeoutIOException: its only poll timed out and no byte had come. */
  lemma TimeoutIff(c: Config, env: Env, t: Trace)
    requires IsRun(c, env, t) && t != []
    ensures Run(c, t).pc.Threw? && Run(c, t).pc.exception.Timeout? <==>
              && t[|t| - 1].event.DidPoll? && t[|t| - 1].event.outcome == TimedOut
              && Polls(t) == 1 && BytesMoved(t) == []
    ensures Run(c, t).pc.Threw? && Run(c, t).pc.exception.Timeout? ==> Run(c, t).pc.exception == Timeout(0)
  {
    hide Run, KernelTrace, EndTime, Remaining;
    CallsEndAsTold(c, env, t);
  }

  // ---- What a call asks of the kernel ----

  /** The descriptors are the first things that a call reads, and it keeps them. */
  predicate HasFetched(r: Reader, t: Trace) {
    && (r.pc == FetchFd <==> t == [])
    && (r.pc == FetchCloseFd <==> |t| == 1)
    && (|t| >= 1 ==> t[0].event == FetchedFd(r.fd))
    && (|t| >= 2 ==> t[1].event == FetchedCloseFd(r.closeFd))
  }

  lemma {:induction false} RunHasFetched(c: Config, env: Env, t: Trace)
    requires IsRun(c, env, t)
    ensures HasFetched(Run(c, t), t)
  {
    hide EndTime, Remaining, Judge, KernelTrace;
    if t != [] {
      var front := t[..|t| - 1];
      IsRunPrefix(c, env, t);
      RunHasFetched(c, env, front);
      assert |t| >= 2 ==> t[0] == front[0];
      assert |t| >= 3 ==> t[1] == front[1];
    }
  }

  /** The timeout of a poll in the loop comes from the clock that was read just before. */
  lemma LoopTimeout(c: Config, env: Env, t: Trace)
    requires IsRun(c, env, t) && Run(c, t).pc == LoopPoll && c.pollTimeout > 0
    ensures t != [] && t[|t| - 1].event.GotTime? && FirstClock(t).Some?
    ensures var left := Remaining(EndTime(FirstClock(t).value, c.pollTimeout), t[|t| - 1].event.now);
            Run(c, t).timeout == if c.interByteTimeout < left then c.interByteTimeout else left
  {
    hide EndTime, Remaining, Judge, KernelTrace;
    IsRunPrefix(c, env, t);
    RunHasDeadline(c, env, t);
  }

  /** Every read asks the port for just the bytes that are missing. Every poll watches the port and the
      close event; without a byte it waits for the overall timeout, and in the loop for the inter-byte
      timeout, but not longer than the overall one allows. */
  lemma CallsAskForTheRightThing(c: Config, env: Env, t: Trace, e: Timed)
    requires IsRun(c, env, t + [e])
    ensures e.event.DidRead? ==>
              && |t| >= 2 && t[0].event == FetchedFd(e.event.fd)
              && e.event.count == c.len - |BytesMoved(t)|
    ensures e.event.DidPoll? ==>
              && |t| >= 2 && t[0].event == FetchedFd(e.event.fd) && t[1].event == FetchedCloseFd(e.event.closeFd)
              && (if Polls(t) == 0 && BytesMoved(t) == [] then e.event.timeout == c.pollTimeout
                  else if c.pollTimeout == -1 then e.event.timeout == c.interByteTimeout
                  else
                    && t[|t| - 1].event.GotTime? && FirstClock(t).Some?
                    && var left := Remaining(EndTime(FirstClock(t).value, c.pollTimeout), t[|t| - 1].event.now);
                       e.event.timeout == if c.interByteTimeout < left then c.interByteTimeout else left)
  {
    hide Run, EndTime, Remaining, KernelTrace, BytesMoved, Polls, FirstClock;
    Extend(env, t, e);
    RunExtend(c, t, e);
    RunHasFetched(c, env, t);
    RunIsLocated(c, env, t);
    RunIsAccounted(c, env, t);
    if Run(c, t).pc == LoopPoll {
      if c.pollTimeout > 0 {
        LoopTimeout(c, env, t);
      } else {
        InfiniteWaitUsesInterByteTimeout(c, env, t);
      }
    }
  }
}
