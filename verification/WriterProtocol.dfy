/**
  One call of writeBuffer as an automaton over Posix events, and what every run of it keeps:
  the bytes handed over are always a prefix of the data, what the exceptions report, and how
  long the call takes. WriteBuffer.dfy proves that the code takes exactly these steps.
 */
module WriterProtocol {
  import opened Deadline
  import opened Prelude
  import opened Posix

  datatype Config = Config(data: seq<Byte>, pollTimeout: int) {
    predicate Valid() {
      pollTimeout == -1 || pollTimeout > 0
    }
  }

  datatype Pc =
    | FetchFd | FirstWrite | StartClock | FetchCloseFd
    | LoopClock | LoopPoll | LoopWrite
    | Returned(result: nat)
    | Threw(exception: Exception)
    | Stuck

  /** The locals of writeBuffer: `written` is the size of the last chunk, `offset` the total. */
  datatype Writer = Writer(
    pc: Pc, fd: int, closeFd: int, end: Timespec, offset: nat, written: nat, timeout: int)

  const START := Writer(FetchFd, INVALID_FD, INVALID_FD, Timespec(0, 0), 0, 0, 0)

  function Throw(w: Writer, e: Exception): Writer {
    w.(pc := Threw(e))
  }

  /** A failed write. The local copy of the descriptor is tested, not the field. */
  function WriteFailed(w: Writer): Writer {
    Throw(w, if w.fd == INVALID_FD then AsynchronousClose else InterruptedIO(0))
  }

  function LoopTop(c: Config, w: Writer): Writer {
    if c.pollTimeout >= 0 then w.(pc := LoopClock) else w.(pc := LoopPoll, timeout := -1)
  }

  function OnFd(w: Writer, fd: int): Writer {
    if w.pc == FetchFd then w.(pc := FirstWrite, fd := fd) else w.(pc := Stuck)
  }

  function OnCloseFd(c: Config, w: Writer, fd: int): Writer {
    if w.pc == FetchCloseFd then LoopTop(c, w.(closeFd := fd)) else w.(pc := Stuck)
  }

  function OnWrite(c: Config, w: Writer, result: Transfer): Writer {
    match w.pc
    case FirstWrite =>
      if result.Failed? then WriteFailed(w)
      else
        var n := if result.Moved? then |result.bytes| else 0;
        var w' := w.(written := n, offset := n);
        if result.Moved? && n == |c.data| then w'.(pc := Returned(n))
        else if c.pollTimeout > 0 then w'.(pc := StartClock)
        else w'.(pc := FetchCloseFd)
    case LoopWrite =>
      if !result.Moved? then WriteFailed(w)
      else
        var n := |result.bytes|;
        var w' := w.(written := n, offset := w.offset + n);
        // The size of the last chunk is returned, not the total.
        if w'.offset < |c.data| then LoopTop(c, w') else w'.(pc := Returned(n))
    case _ => w.(pc := Stuck)
  }

  function OnClock(c: Config, w: Writer, now: Timespec): Writer {
    match w.pc
    case StartClock =>
      if c.pollTimeout > 0 then w.(pc := FetchCloseFd, end := EndTime(now, c.pollTimeout)) else w.(pc := Stuck)
    case LoopClock =>
      var remaining := Remaining(w.end, now);
      if remaining < 0 then Throw(w, Timeout(w.written)) else w.(pc := LoopPoll, timeout := remaining)
    case _ => w.(pc := Stuck)
  }

  function OnPoll(w: Writer, verdict: Verdict): Writer {
    if w.pc != LoopPoll then w.(pc := Stuck)
    else match verdict
      case TimeIsUp => Throw(w, Timeout(w.offset))
      case Raise(x) => Throw(w, x)
      case Go => w.(pc := LoopWrite)
  }

  /** The bytes that the code offers at this point. */
  function Offered(c: Config, w: Writer): seq<Byte> {
    if w.pc == LoopWrite && w.offset <= |c.data| then c.data[w.offset..] else c.data
  }

  function Step(c: Config, w: Writer, e: Event): Writer {
    match e
    case FetchedFd(fd) => OnFd(w, fd)
    case FetchedCloseFd(fd) => OnCloseFd(c, w, fd)
    case GotTime(now) => OnClock(c, w, now)
    case DidWrite(fd, offered, result) =>
      if fd == w.fd && offered == Offered(c, w) then OnWrite(c, w, result) else w.(pc := Stuck)
    case DidPoll(fd, closeFd, timeout, outcome) =>
      if fd == w.fd && closeFd == w.closeFd && timeout == w.timeout
      then OnPoll(w, Judge(outcome, POLLOUT, w.offset)) else w.(pc := Stuck)
    case DidRead(_, _, _) => w.(pc := Stuck)
  }

  function Run(c: Config, t: Trace): Writer {
    if t == [] then START else Step(c, Run(c, t[..|t| - 1]), t[|t| - 1].event)
  }

  predicate IsRun(c: Config, env: Env, t: Trace) {
    c.Valid() && KernelTrace(env, t) && Run(c, t).pc != Stuck
  }

  predicate Over(pc: Pc) {
    pc.Returned? || pc.Threw?
  }

  lemma RunExtend(c: Config, t: Trace, e: Timed)
    ensures Run(c, t + [e]) == Step(c, Run(c, t), e.event)
  {
    assert (t + [e])[..|t|] == t;
  }

  lemma IsRunPrefix(c: Config, env: Env, t: Trace)
    requires t != [] && IsRun(c, env, t)
    ensures IsRun(c, env, t[..|t| - 1])
    ensures KernelAllows(env, t[|t| - 1], Now(env, t[..|t| - 1]))
  {}

  // ---- Which bytes are handed over ----

  /** The size of the last write that moved something or nothing without failing. */
  function LastChunk(t: Trace): nat {
    if t == [] then 0
    else if IsChunk(t[|t| - 1].event) then |t[|t| - 1].event.result.bytes|
    else LastChunk(t[..|t| - 1])
  }

  predicate IsChunk(e: Event) {
    e.DidWrite? && e.result.Moved?
  }

  /** The output has grown by exactly data[..offset] at every point of every run. */
  predicate Accounted(c: Config, w: Writer, moved: seq<Byte>, last: nat) {
    && w.offset <= |c.data| && moved == c.data[..w.offset]
    && w.written == last <= w.offset
    && (!w.pc.Returned? ==> w.offset < |c.data| || c.data == [])
    && (w.pc in {FetchFd, FirstWrite} ==> w.offset == 0)
    && (w.pc.Returned? ==> w.offset == |c.data| && w.pc.result == last)
    && (w.pc.Threw? && w.pc.exception.Timeout? ==> w.pc.exception.bytesTransferred in {w.offset, last})
    && (w.pc.Threw? && w.pc.exception.InterruptedIO? ==> w.pc.exception.bytesTransferred in {w.offset, 0})
  }

  lemma ChunkIsAccounted(c: Config, w: Writer, moved: seq<Byte>, last: nat, bytes: seq<Byte>)
    requires Accounted(c, w, moved, last) && (w.pc == FirstWrite || w.pc == LoopWrite)
    requires bytes <= Offered(c, w)
    ensures Accounted(c, OnWrite(c, w, Moved(bytes)), moved + bytes, |bytes|)
  {
    assert c.data[..w.offset] + bytes == c.data[..w.offset + |bytes|];
  }

  lemma StepIsAccounted(c: Config, w: Writer, moved: seq<Byte>, last: nat, env: Env, e: Timed, from: int)
    requires Accounted(c, w, moved, last) && KernelAllows(env, e, from) && !Over(w.pc)
    requires Step(c, w, e.event).pc != Stuck
    ensures Accounted(c, Step(c, w, e.event), moved + EventBytes(e.event),
                      if IsChunk(e.event) then |e.event.result.bytes| else last)
  {
    hide EndTime, Remaining;
    if IsChunk(e.event) {
      ChunkIsAccounted(c, w, moved, last, e.event.result.bytes);
    } else {
      assert moved + EventBytes(e.event) == moved;
    }
  }

  lemma {:induction false} RunIsAccounted(c: Config, env: Env, t: Trace)
    requires IsRun(c, env, t)
    ensures Accounted(c, Run(c, t), BytesMoved(t), LastChunk(t))
  {
    if t != [] {
      var front, e := t[..|t| - 1], t[|t| - 1];
      IsRunPrefix(c, env, t);
      RunIsAccounted(c, env, front);
      StepIsAccounted(c, Run(c, front), BytesMoved(front), LastChunk(front), env, e, Now(env, front));
    }
  }

  /** Write conservation: a normal return means that all data was handed over in order; at any
      other point, and after any exception, a proper prefix was (or there was no data). */
  lemma WritesExactlyAPrefix(c: Config, env: Env, t: Trace)
    requires IsRun(c, env, t)
    ensures BytesMoved(t) <= c.data && |BytesMoved(t)| == Run(c, t).offset
    ensures c.data != [] ==> (BytesMoved(t) == c.data <==> Run(c, t).pc.Returned?)
    ensures Run(c, t).pc.Returned? ==> BytesMoved(t) == c.data
  {
    RunIsAccounted(c, env, t);
  }

  /** The exceptions raised after a poll report all bytes that were handed over. */
  lemma PollExceptionsReportTheTotal(c: Config, env: Env, t: Trace)
    requires IsRun(c, env, t) && Run(c, t).pc.Threw? && t[|t| - 1].event.DidPoll?
    ensures var x := Run(c, t).pc.exception;
            x in {AsynchronousClose, PortFdInvalid, Timeout(|BytesMoved(t)|), InterruptedIO(|BytesMoved(t)|)}
  {
    hide EndTime, Remaining, KernelTrace, LastChunk;
    var front := t[..|t| - 1];
    IsRunPrefix(c, env, t);
    RunIsAccounted(c, env, front);
    assert BytesMoved(t) == BytesMoved(front);
  }

  /** The exception of a failed write reports no byte, whatever was handed over before. */
  lemma FailedWriteReportsNothing(c: Config, env: Env, t: Trace)
    requires IsRun(c, env, t) && EndsInFailedWrite(c, t)
    ensures Run(c, t).pc == Threw(InterruptedIO(0))
    ensures BytesMoved(t) == BytesMoved(t[..|t| - 1]) && (|c.data| <= 1 ==> BytesMoved(t) == [])
  {
    hide EndTime, Remaining;
    IsRunPrefix(c, env, t);
    RunIsAccounted(c, env, t[..|t| - 1]);
    assert BytesMoved(t) == BytesMoved(t[..|t| - 1]) + EventBytes(t[|t| - 1].event);
  }

  /** All bytes that were handed over before the last chunk. */
  function BytesBeforeLastChunk(t: Trace): seq<Byte> {
    if t == [] then []
    else if IsChunk(t[|t| - 1].event) then BytesMoved(t[..|t| - 1])
    else BytesBeforeLastChunk(t[..|t| - 1])
  }

  lemma {:induction false} LastChunkIsTheRest(t: Trace)
    requires forall e <- t :: !e.event.DidRead?
    ensures |BytesMoved(t)| == |BytesBeforeLastChunk(t)| + LastChunk(t)
  {
    if t != [] {
      LastChunkIsTheRest(t[..|t| - 1]);
    }
  }

  lemma {:induction false} WritersDoNotRead(c: Config, env: Env, t: Trace)
    requires IsRun(c, env, t)
    ensures forall e <- t :: !e.event.DidRead?
  {
    if t != [] {
      IsRunPrefix(c, env, t);
      WritersDoNotRead(c, env, t[..|t| - 1]);
    }
  }

  /** The exception for a deadline that is found to have passed reports the last chunk only, and
      leaves out all chunks before it. */
  lemma DeadlineReportsTheLastChunk(c: Config, env: Env, t: Trace)
    requires IsRun(c, env, t) && EndsAtDeadline(c, t)
    ensures Run(c, t).pc.exception.Timeout?
    ensures Run(c, t).pc.exception.bytesTransferred + |BytesBeforeLastChunk(t)| == |BytesMoved(t)|
    ensures |BytesMoved(t)| < |c.data| || BytesMoved(t) == []
  {
    RunIsAccounted(c, env, t);
    IsRunPrefix(c, env, t);
    RunIsAccounted(c, env, t[..|t| - 1]);
    WritersDoNotRead(c, env, t);
    LastChunkIsTheRest(t);
  }

  /** The same for the value of a normal return. */
  lemma ReturnIsTheLastChunk(c: Config, env: Env, t: Trace)
    requires IsRun(c, env, t) && Run(c, t).pc.Returned?
    ensures Run(c, t).pc.result + |BytesBeforeLastChunk(t)| == |BytesMoved(t)| == |c.data|
    ensures |c.data| <= 1 ==> BytesBeforeLastChunk(t) == []
  {
    hide Run, BytesMoved, LastChunk, BytesBeforeLastChunk, KernelTrace;
    RunIsAccounted(c, env, t);
    WritersDoNotRead(c, env, t);
    LastChunkIsTheRest(t);
    ReturnsAtAChunk(c, env, t);
  }

  lemma ReturnsAtAChunk(c: Config, env: Env, t: Trace)
    requires IsRun(c, env, t) && Run(c, t).pc.Returned?
    ensures |BytesBeforeLastChunk(t)| < |c.data| || c.data == [] == BytesBeforeLastChunk(t)
  {
    hide EndTime, Remaining, LastChunk, KernelTrace;
    IsRunPrefix(c, env, t);
    RunIsAccounted(c, env, t[..|t| - 1]);
  }

  // ---- For which calls the API's promise is kept ----

  predicate EndsInFailedWrite(c: Config, t: Trace) {
    && Run(c, t).pc.Threw? && Run(c, t).pc.exception.InterruptedIO?
    && t != [] && t[|t| - 1].event.DidWrite?
  }

  predicate EndsAtDeadline(c: Config, t: Trace) {
    Run(c, t).pc.Threw? && t != [] && t[|t| - 1].event.GotTime?
  }

  /** The API promises the number of bytes written. A normal return keeps this in all runs of a
      call iff the call writes at most one byte. */
  lemma ReturnIsTheTotalIff(c: Config)
    requires c.Valid()
    ensures (forall env, t :: IsRun(c, env, t) && Run(c, t).pc.Returned? ==> Run(c, t).pc.result == |BytesMoved(t)|)
       <==> |c.data| <= 1
  {
    if |c.data| <= 1 {
      forall env, t | IsRun(c, env, t) && Run(c, t).pc.Returned? ensures Run(c, t).pc.result == |BytesMoved(t)| {
        ReturnIsTheLastChunk(c, env, t);
      }
    } else {
      var env, t := ReturnOfTheRest(c);
    }
  }

  /** The exception of a failed write keeps it for the same calls. */
  lemma FailedWriteReportsTheTotalIff(c: Config)
    requires c.Valid()
    ensures (forall env, t :: IsRun(c, env, t) && EndsInFailedWrite(c, t) ==>
               Run(c, t).pc.exception.bytesTransferred == |BytesMoved(t)|)
       <==> |c.data| <= 1
  {
    if |c.data| <= 1 {
      forall env, t | IsRun(c, env, t) && EndsInFailedWrite(c, t)
        ensures Run(c, t).pc.exception.bytesTransferred == |BytesMoved(t)|
      {
        FailedWriteReportsNothing(c, env, t);
      }
    } else {
      var env, t := FailureAfterAByte(c);
    }
  }

  /** So does the exception for a passed deadline; and if no write comes back empty, it does for
      calls of up to two bytes. */
  lemma DeadlineReportsTheTotalIff(c: Config)
    requires c.Valid() && c.pollTimeout > 0
    ensures (forall env, t :: IsRun(c, env, t) && EndsAtDeadline(c, t) ==>
               Run(c, t).pc.exception == Timeout(|BytesMoved(t)|))
       <==> |c.data| <= 1
    ensures (forall env, t :: IsRun(c, env, t) && EndsAtDeadline(c, t) && EmptyTransfers(t) == 0 ==>
               Run(c, t).pc.exception == Timeout(|BytesMoved(t)|))
       <==> |c.data| <= 2
  {
    forall env, t | IsRun(c, env, t) && EndsAtDeadline(c, t) && (|c.data| <= 1 || (|c.data| == 2 && EmptyTransfers(t) == 0))
      ensures Run(c, t).pc.exception == Timeout(|BytesMoved(t)|)
    {
      DeadlineReportsTheLastChunk(c, env, t);
      if |c.data| == 2 {
        EarlierChunksAreSmaller(c, env, t);
      }
    }
    if |c.data| > 1 {
      var env, t := DeadlineAfterTwoChunks(c, 0);
    }
    if |c.data| > 2 {
      var env, t := DeadlineAfterTwoChunks(c, 1);
    }
  }

  /** If no write came back empty, an earlier chunk means that there are at least two bytes. */
  lemma {:induction false} EarlierChunksAreSmaller(c: Config, env: Env, t: Trace)
    requires IsRun(c, env, t) && EmptyTransfers(t) == 0
    ensures BytesBeforeLastChunk(t) == [] || |BytesBeforeLastChunk(t)| < |BytesMoved(t)|
  {
    hide EndTime, Remaining, Step, Run;
    if t != [] {
      IsRunPrefix(c, env, t);
      EarlierChunksAreSmaller(c, env, t[..|t| - 1]);
    }
  }

  /** And it does happen that it reports less: three bytes are to be written in 1 ms, the first
      two go out one by one and the third is late. */
  lemma DeadlineCanReportLess() returns (c: Config, env: Env, t: Trace)
    ensures IsRun(c, env, t) && Run(c, t).pc == Threw(Timeout(1)) && |BytesMoved(t)| == 2
  {
    c := Config([1, 2, 3], 1);
    env, t := DeadlineAfterTwoChunks(c, 1);
  }

  // ---- Runs that report less than was written ----

  /** A run at time 0, on a kernel that may be as late as `slack`, that has handed over `moved`
      bytes in writes of which `empty` came back empty, and is in the state `w`. */
  datatype Point = Point(env: Env, t: Trace, moved: nat, empty: nat, w: Writer)

  predicate Reached(c: Config, p: Point) {
    && IsRun(c, p.env, p.t) && p.env.start == 0 && Now(p.env, p.t) == 0
    && |BytesMoved(p.t)| == p.moved && EmptyTransfers(p.t) == p.empty && Run(c, p.t) == p.w
  }

  lemma Begin(c: Config, slack: nat) returns (p: Point)
    requires c.Valid()
    ensures Reached(c, p) && p.env == Env(0, slack) && p.w == START && p.moved == p.empty == 0
  {
    p := Point(Env(0, slack), [], 0, 0, START);
  }

  /** One more step, which is over at the time `at`. */
  lemma GrowUntil(c: Config, p: Point, e: Event, at: int) returns (t: Trace)
    requires Reached(c, p) && KernelAllows(p.env, Timed(e, at), 0) && Step(c, p.w, e).pc != Stuck
    ensures IsRun(c, p.env, t) && Run(c, t) == Step(c, p.w, e) && Now(p.env, t) == at
    ensures |BytesMoved(t)| == p.moved + |EventBytes(e)|
    ensures EmptyTransfers(t) == p.empty + if MovedNothing(e) then 1 else 0
    ensures t == p.t + [Timed(e, at)]
  {
    hide Step, KernelAllows;
    t := p.t + [Timed(e, at)];
    RunExtend(c, p.t, Timed(e, at));
    Extend(p.env, p.t, Timed(e, at));
  }

  /** One more step at once. */
  lemma Grow(c: Config, p: Point, e: Event) returns (p': Point)
    requires Reached(c, p) && KernelAllows(p.env, Timed(e, 0), 0) && Step(c, p.w, e).pc != Stuck
    ensures Reached(c, p') && p'.env == p.env && p'.w == Step(c, p.w, e)
    ensures p'.moved == p.moved + |EventBytes(e)|
    ensures p'.empty == p.empty + if MovedNothing(e) then 1 else 0
  {
    hide Step, KernelAllows;
    var t := GrowUntil(c, p, e, 0);
    p' := Point(p.env, t, p.moved + |EventBytes(e)|, p.empty + if MovedNothing(e) then 1 else 0, Step(c, p.w, e));
  }

  lemma GrowWrite(c: Config, p: Point, bytes: seq<Byte>) returns (p': Point)
    requires Reached(c, p) && bytes <= Offered(c, p.w) && OnWrite(c, p.w, Moved(bytes)).pc != Stuck
    ensures Reached(c, p') && p'.env == p.env && p'.w == OnWrite(c, p.w, Moved(bytes))
    ensures p'.moved == p.moved + |bytes| && p'.empty == p.empty + if bytes == [] then 1 else 0
  {
    hide Reached, OnWrite, Offered;
    p' := Grow(c, p, DidWrite(p.w.fd, Offered(c, p.w), Moved(bytes)));
  }

  /** A clock that is read at time 0, with the whole timeout left. */
  lemma GrowClock(c: Config, p: Point) returns (p': Point)
    requires Reached(c, p) && OnClock(c, p.w, Timespec(0, 0)).pc != Stuck
    ensures Reached(c, p') && p'.env == p.env && p'.w == OnClock(c, p.w, Timespec(0, 0))
    ensures p'.moved == p.moved && p'.empty == p.empty
  {
    hide Reached, OnClock;
    p' := Grow(c, p, GotTime(Timespec(0, 0)));
  }

  /** A poll that reports room for output. */
  lemma GrowPoll(c: Config, p: Point) returns (p': Point)
    requires Reached(c, p) && p.w.pc == LoopPoll && p.w.timeout >= -1
    ensures Reached(c, p') && p'.env == p.env && p'.w == p.w.(pc := LoopWrite)
    ensures p'.moved == p.moved && p'.empty == p.empty
  {
    hide Reached, OnWrite, OnClock;
    p' := Grow(c, p, DidPoll(p.w.fd, p.w.closeFd, p.w.timeout, Ready({POLLOUT}, {})));
  }

  /** At the top of the loop, before the deadline. */
  predicate FreshLoop(c: Config, w: Writer) {
    && w == LoopTop(c, w)
    && (c.pollTimeout > 0 ==>
          w.end == EndTime(Timespec(0, 0), c.pollTimeout) && Remaining(w.end, Timespec(0, 0)) == c.pollTimeout)
  }

  /** The first write takes one byte, and the loop is reached. */
  lemma OneByteOut(c: Config, slack: nat) returns (p: Point)
    requires c.Valid() && |c.data| >= 2
    ensures Reached(c, p) && p.env == Env(0, slack) && FreshLoop(c, p.w)
    ensures p.w.offset == p.w.written == p.moved == 1 && p.empty == 0 && p.w.fd == 4
  {
    hide Reached, EndTime, Remaining;
    p := Begin(c, slack);
    p := Grow(c, p, FetchedFd(4));
    p := GrowWrite(c, p, c.data[..1]);
    if c.pollTimeout > 0 {
      FreshDeadline(Timespec(0, 0), c.pollTimeout);
      p := GrowClock(c, p);
    }
    p := Grow(c, p, FetchedCloseFd(5));
  }

  /** From the top of the loop to its write. */
  lemma RoomForMore(c: Config, p: Point) returns (p': Point)
    requires Reached(c, p) && FreshLoop(c, p.w) && c.Valid()
    ensures Reached(c, p') && p'.env == p.env && p'.moved == p.moved && p'.empty == p.empty
    ensures p'.w == p.w.(pc := LoopWrite, timeout := p'.w.timeout) && FreshLoop(c, LoopTop(c, p'.w))
  {
    hide Reached, EndTime, Remaining;
    p' := p;
    if c.pollTimeout > 0 {
      p' := GrowClock(c, p');
    }
    p' := GrowPoll(c, p');
  }

  lemma ReturnOfTheRest(c: Config) returns (env: Env, t: Trace)
    requires c.Valid() && |c.data| >= 2
    ensures IsRun(c, env, t) && Run(c, t).pc == Returned(|c.data| - 1) && |BytesMoved(t)| == |c.data|
  {
    hide FreshLoop, LoopTop, IsRun, Run, BytesMoved, EmptyTransfers;
    var p := OneByteOut(c, 0);
    p := RoomForMore(c, p);
    p := GrowWrite(c, p, c.data[1..]);
    env, t := p.env, p.t;
  }

  lemma FailureAfterAByte(c: Config) returns (env: Env, t: Trace)
    requires c.Valid() && |c.data| >= 2
    ensures IsRun(c, env, t) && EndsInFailedWrite(c, t) && |BytesMoved(t)| == 1
    ensures Run(c, t).pc == Threw(InterruptedIO(0))
  {
    hide FreshLoop, LoopTop, IsRun, Run, BytesMoved, EmptyTransfers;
    var p := OneByteOut(c, 0);
    p := RoomForMore(c, p);
    env := p.env;
    t := GrowUntil(c, p, DidWrite(4, c.data[1..], Failed), 0);
  }

  /** One byte, then `second` bytes, then the deadline. */
  lemma DeadlineAfterTwoChunks(c: Config, second: nat) returns (env: Env, t: Trace)
    requires c.Valid() && c.pollTimeout > 0 && 1 + second < |c.data|
    ensures IsRun(c, env, t) && EndsAtDeadline(c, t) && |BytesMoved(t)| == 1 + second
    ensures Run(c, t).pc == Threw(Timeout(second)) && EmptyTransfers(t) == if second == 0 then 1 else 0
  {
    hide Reached, EndTime, Remaining, IsRun, Run, BytesMoved, EmptyTransfers;
    var late := Millis(c.pollTimeout + 1);
    var p := TwoChunksOut(c, second, late);
    var now := LateClock(c.pollTimeout);
    env := p.env;
    t := GrowUntil(c, p, GotTime(now), late);
  }

  lemma TwoChunksOut(c: Config, second: nat, slack: nat) returns (p: Point)
    requires c.Valid() && c.pollTimeout > 0 && 1 + second < |c.data|
    ensures Reached(c, p) && p.env == Env(0, slack) && p.moved == 1 + second
    ensures p.empty == (if second == 0 then 1 else 0) && p.w.written == second
    ensures p.w.pc == LoopClock && p.w.end == EndTime(Timespec(0, 0), c.pollTimeout)
  {
    hide Reached, EndTime, Remaining;
    p := OneByteOut(c, slack);
    p := RoomForMore(c, p);
    p := GrowWrite(c, p, c.data[1..][..second]);
  }

  /** A clock that is read a millisecond after the deadline. */
  lemma LateClock(millis: nat) returns (now: Timespec)
    ensures Normal(now) && Nanos(now) == Millis(millis + 1)
    ensures Remaining(EndTime(Timespec(0, 0), millis), now) < 0
  {
    hide EndTime, Remaining;
    now := ClockAt(Millis(millis + 1));
    EndTimeIsExact(Timespec(0, 0), millis);
    RemainingIsSound(EndTime(Timespec(0, 0), millis), now);
  }

  // ---- How long a call takes ----

  predicate InLoop(pc: Pc) {
    pc in {LoopClock, LoopPoll, LoopWrite}
  }

  predicate OnTime(c: Config, env: Env, w: Writer, now: int) {
    var deadline := Nanos(w.end);
    && env.start <= now
    && (match w.pc
        case FetchFd => now == env.start
        case FirstWrite => now <= env.start + env.slack
        case StartClock => now <= env.start + 2 * env.slack
        case FetchCloseFd => deadline == now + Millis(c.pollTimeout)
        case LoopClock => now < deadline + Millis(1) + 2 * env.slack
        case LoopPoll => w.timeout >= 0 && deadline - Millis(1) < now + Millis(w.timeout) < deadline + Millis(1)
        case LoopWrite => now < deadline + Millis(1) + env.slack
        case _ => now < env.start + Millis(c.pollTimeout) + Millis(1) + 6 * env.slack)
    && (w.pc == FetchCloseFd || InLoop(w.pc) ==>
          env.start + Millis(c.pollTimeout) <= deadline <= env.start + Millis(c.pollTimeout) + 3 * env.slack)
    && (w.pc.Threw? && w.pc.exception.Timeout? ==> now > env.start + Millis(c.pollTimeout) - Millis(1))
  }

  lemma StepIsOnTime(c: Config, env: Env, w: Writer, e: Timed, now: int)
    requires c.Valid() && c.pollTimeout > 0
    requires OnTime(c, env, w, now) && KernelAllows(env, e, now) && !Over(w.pc)
    requires Step(c, w, e.event).pc != Stuck
    ensures OnTime(c, env, Step(c, w, e.event), e.at)
  {
    hide EndTime, Remaining;
    if e.event.GotTime? {
      var t := e.event.now;
      EndTimeIsExact(t, c.pollTimeout);
      RemainingIsSound(w.end, t);
    }
  }

  lemma {:induction false} RunIsOnTime(c: Config, env: Env, t: Trace)
    requires IsRun(c, env, t) && c.pollTimeout > 0
    ensures OnTime(c, env, Run(c, t), Now(env, t))
  {
    if t != [] {
      var front := t[..|t| - 1];
      IsRunPrefix(c, env, t);
      RunIsOnTime(c, env, front);
      StepIsOnTime(c, env, Run(c, front), t[|t| - 1], Now(env, front));
    }
  }

  /** With a positive overall timeout a call is over less than a millisecond after it, plus six
      times the lateness of a kernel call, and no TimeoutIOException comes a whole millisecond
      early. Without a timeout there is none. */
  lemma CallEndsInTime(c: Config, env: Env, t: Trace)
    requires IsRun(c, env, t) && Over(Run(c, t).pc)
    ensures c.pollTimeout > 0 ==>
              Now(env, t) < env.start + Millis(c.pollTimeout) + Millis(1) + 6 * env.slack
    ensures Run(c, t).pc.Threw? && Run(c, t).pc.exception.Timeout? ==>
              c.pollTimeout > 0 && Now(env, t) > env.start + Millis(c.pollTimeout) - Millis(1)
  {
    if c.pollTimeout > 0 {
      RunIsOnTime(c, env, t);
    } else {
      NoDeadlineNoTimeout(c, env, t);
    }
  }

  lemma {:induction false} NoDeadlineNoTimeout(c: Config, env: Env, t: Trace)
    requires IsRun(c, env, t) && c.pollTimeout == -1
    ensures Run(c, t).pc != StartClock && Run(c, t).pc != LoopClock
    ensures Run(c, t).pc == LoopPoll ==> Run(c, t).timeout == -1
    ensures Run(c, t).pc.Threw? ==> !Run(c, t).pc.exception.Timeout?
  {
    hide EndTime, Remaining;
    if t != [] {
      IsRunPrefix(c, env, t);
      NoDeadlineNoTimeout(c, env, t[..|t| - 1]);
    }
  }

  // ---- How often a call waits ----

  predicate PollsBounded(w: Writer, polls: nat, empty: nat) {
    match w.pc
    case LoopClock => polls <= w.offset + empty
    case LoopPoll => polls <= w.offset + empty
    case LoopWrite => polls <= w.offset + empty + 1
    case Returned(n) => polls <= w.offset + empty
    case Threw(_) => polls <= w.offset + empty + 1
    case _ => polls == 0
  }

  lemma StepPollsBounded(c: Config, w: Writer, e: Event, polls: nat, empty: nat)
    requires PollsBounded(w, polls, empty) && !Over(w.pc) && (w.pc == FirstWrite ==> w.offset == 0)
    requires Step(c, w, e).pc != Stuck
    ensures PollsBounded(Step(c, w, e), polls + (if e.DidPoll? then 1 else 0),
                         empty + if MovedNothing(e) then 1 else 0)
  {
    hide EndTime, Remaining;
  }

  lemma {:induction false} RunPollsBounded(c: Config, env: Env, t: Trace)
    requires IsRun(c, env, t)
    ensures PollsBounded(Run(c, t), Polls(t), EmptyTransfers(t))
  {
    if t != [] {
      var front := t[..|t| - 1];
      IsRunPrefix(c, env, t);
      RunPollsBounded(c, env, front);
      RunIsAccounted(c, env, front);
      StepPollsBounded(c, Run(c, front), t[|t| - 1].event, Polls(front), EmptyTransfers(front));
    }
  }

  /** A call polls at most once for each byte, plus once for each write that moved nothing. */
  lemma PollsAreBounded(c: Config, env: Env, t: Trace)
    requires IsRun(c, env, t)
    ensures Polls(t) <= (if c.data == [] then 1 else |c.data|) + EmptyTransfers(t)
  {
    RunPollsBounded(c, env, t);
    RunIsAccounted(c, env, t);
  }

  // ---- The deadline within a run ----

  /** The clock has been read, if there is a timeout, and the call is not over. */
  predicate HasClock(pc: Pc) {
    pc == FetchCloseFd || InLoop(pc)
  }

  /** From the first reading of the clock on the deadline is the one computed from it. */
  lemma {:induction false} RunHasDeadline(c: Config, env: Env, t: Trace)
    requires IsRun(c, env, t) && c.pollTimeout > 0
    ensures HasClock(Run(c, t).pc) ==> DeadlineIsFrom(FirstClock(t), c.pollTimeout, Run(c, t).end, Now(env, t))
    ensures !Over(Run(c, t).pc) && !HasClock(Run(c, t).pc) ==> FirstClock(t) == None
  {
    hide EndTime, Remaining;
    if t != [] {
      IsRunPrefix(c, env, t);
      RunHasDeadline(c, env, t[..|t| - 1]);
    }
  }

  /** No run with a timeout of at most MAX_SAFE_MILLIS, on a kernel that is never more than five
      days late, overflows int32 when the code computes the remaining time. */
  lemma RemainingNeverOverflows(c: Config, env: Env, t: Trace, e: Timed)
    requires IsRun(c, env, t + [e]) && Run(c, t).pc == LoopClock && e.event.GotTime?
    requires 0 < c.pollTimeout <= MAX_SAFE_MILLIS && env.slack <= 5 * 24 * 3600 * 1_000_000_000
    ensures FitsInt32(Run(c, t).end, e.event.now)
  {
    hide EndTime, Remaining, FitsInt32;
    Extend(env, t, e);
    RunExtend(c, t, e);
    RunHasDeadline(c, env, t);
    RunIsOnTime(c, env, t);
    SafeTimeoutFits(FirstClock(t).value, c.pollTimeout, e.event.now);
  }

  // ---- How a call ends, told from its history ----

  /** The state in which the last event leaves a call, or None if the call goes on. Every way to end
      is named by what the kernel said last and by what had happened before. */
  function Ending(c: Config, t: Trace): Option<Pc>
    requires t != []
  {
    var front, moved := t[..|t| - 1], |BytesMoved(t)|;
    match t[|t| - 1].event
    case DidWrite(_, _, Moved(bytes)) =>
      if moved == |c.data| then Some(Returned(|bytes|)) else None
    case DidWrite(fd, _, result) =>
      // EAGAIN is a normal answer to the first write only.
      if result.WouldBlock? && Polls(t) == 0 then None
      else Some(Threw(if fd == INVALID_FD then AsynchronousClose else InterruptedIO(0)))
    case GotTime(now) =>
      // The first reading of the clock only sets the deadline.
      if FirstClock(front).Some? && c.pollTimeout > 0
         && Remaining(EndTime(FirstClock(front).value, c.pollTimeout), now) < 0
      then Some(Threw(Timeout(LastChunk(t)))) else None
    case DidPoll(_, _, _, TimedOut) => Some(Threw(Timeout(moved)))
    case DidPoll(_, _, _, PollFailed) => Some(Threw(InterruptedIO(moved)))
    case DidPoll(_, _, _, Ready(port, close)) =>
      if close == {POLLIN} then Some(Threw(AsynchronousClose))
      else if port == {POLLOUT} then None
      else if POLLHUP in port then Some(Threw(PortFdInvalid))
      else if POLLNVAL in port then Some(Threw(AsynchronousClose))
      else Some(Threw(InterruptedIO(moved)))
    case _ => None
  }

  /** The state is the one that Ending tells. */
  predicate Told(c: Config, t: Trace, pc: Pc)
    requires t != []
  {
    match Ending(c, t) case Some(ending) => pc == ending case None => !Over(pc)
  }

  /** What the history says about where a call is that goes on. */
  predicate Located(c: Config, w: Writer, t: Trace) {
    && (w.pc in {FetchFd, FirstWrite, StartClock, FetchCloseFd} ==> Polls(t) == 0)
    && (w.pc == LoopWrite ==> Polls(t) >= 1)
    && (c.pollTimeout > 0 && HasClock(w.pc) ==>
          FirstClock(t).Some? && w.end == EndTime(FirstClock(t).value, c.pollTimeout))
    && (c.pollTimeout > 0 && !HasClock(w.pc) ==> FirstClock(t) == None)
    && (c.pollTimeout <= 0 ==> w.pc != StartClock && w.pc != LoopClock)
  }

  lemma {:induction false} RunHasPolled(c: Config, env: Env, t: Trace)
    requires IsRun(c, env, t)
    ensures Run(c, t).pc in {FetchFd, FirstWrite, StartClock, FetchCloseFd} ==> Polls(t) == 0
    ensures Run(c, t).pc == LoopWrite ==> Polls(t) >= 1
  {
    hide EndTime, Remaining, Judge, KernelTrace;
    if t != [] {
      IsRunPrefix(c, env, t);
      RunHasPolled(c, env, t[..|t| - 1]);
    }
  }

  lemma RunIsLocated(c: Config, env: Env, t: Trace)
    requires IsRun(c, env, t) && !Over(Run(c, t).pc)
    ensures Located(c, Run(c, t), t)
  {
    hide Run, EndTime, Remaining;
    RunHasPolled(c, env, t);
    if c.pollTimeout > 0 {
      RunHasDeadline(c, env, t);
    } else {
      NoDeadlineNoTimeout(c, env, t);
    }
  }

  /** A step that can follow the history of a call that goes on. */
  predicate CanFollow(c: Config, w: Writer, t: Trace, e: Event) {
    && Located(c, w, t) && Accounted(c, w, BytesMoved(t), LastChunk(t))
    && !Over(w.pc) && Step(c, w, e).pc != Stuck
    && (IsChunk(e) ==> e.result.bytes <= e.offered)
  }

  lemma LastChunkExtend(t: Trace, e: Timed)
    ensures LastChunk(t + [e]) == if IsChunk(e.event) then |e.event.result.bytes| else LastChunk(t)
  {
    assert (t + [e])[..|t|] == t;
  }

  lemma WriteEndsAsTold(c: Config, w: Writer, t: Trace, e: Timed)
    requires CanFollow(c, w, t, e.event) && e.event.DidWrite?
    ensures Told(c, t + [e], Step(c, w, e.event).pc)
  {
    hide KernelTrace, FirstClock, EndTime, Remaining, EmptyTransfers, BytesMoved, Polls;
    Extend(Env(0, 0), t, e);
  }

  lemma ClockEndsAsTold(c: Config, w: Writer, t: Trace, e: Timed)
    requires CanFollow(c, w, t, e.event) && e.event.GotTime?
    ensures Told(c, t + [e], Step(c, w, e.event).pc)
  {
    hide KernelTrace, FirstClock, LastChunk, EndTime, Remaining, EmptyTransfers, BytesMoved, Polls, OnFd, OnCloseFd;
    hide OnWrite, OnPoll;
    Extend(Env(0, 0), t, e);
    LastChunkExtend(t, e);
    assert (t + [e])[..|t|] == t;
    assert BytesMoved(t) + [] == BytesMoved(t);
  }

  lemma PollEndsAsTold(c: Config, w: Writer, t: Trace, e: Timed)
    requires CanFollow(c, w, t, e.event) && (e.event.DidPoll? || e.event.FetchedFd? || e.event.FetchedCloseFd?)
    ensures Told(c, t + [e], Step(c, w, e.event).pc)
  {
    hide KernelTrace, FirstClock, LastChunk, EndTime, Remaining, EmptyTransfers, BytesMoved, Polls;
    Extend(Env(0, 0), t, e);
    assert BytesMoved(t) + [] == BytesMoved(t);
  }

  lemma StepEndsAsTold(c: Config, w: Writer, t: Trace, e: Timed)
    requires CanFollow(c, w, t, e.event)
    ensures Told(c, t + [e], Step(c, w, e.event).pc)
  {
    hide Located, Accounted, Told, OnFd, OnCloseFd, OnWrite, OnClock, OnPoll;
    match e.event
    case DidWrite(_, _, _) => WriteEndsAsTold(c, w, t, e);
    case GotTime(_) => ClockEndsAsTold(c, w, t, e);
    case DidPoll(_, _, _, _) => PollEndsAsTold(c, w, t, e);
    case FetchedFd(_) => PollEndsAsTold(c, w, t, e);
    case FetchedCloseFd(_) => PollEndsAsTold(c, w, t, e);
    case DidRead(_, _, _) =>
  }

  /** The state after every event, in full: the call is over exactly if Ending says so, and then in
      just that way. */
  lemma CallsEndAsTold(c: Config, env: Env, t: Trace)
    requires IsRun(c, env, t) && t != []
    ensures match Ending(c, t) case Some(pc) => Run(c, t).pc == pc case None => !Over(Run(c, t).pc)
  {
    hide Step, Located, Accounted, KernelTrace, Ending;
    var front, e := t[..|t| - 1], t[|t| - 1];
    IsRunPrefix(c, env, t);
    NotOver(c, Run(c, front), e.event);
    RunIsLocated(c, env, front);
    RunIsAccounted(c, env, front);
    StepEndsAsTold(c, Run(c, front), front, e);
    assert t == front + [e];
  }

  lemma NotOver(c: Config, w: Writer, e: Event)
    requires Step(c, w, e).pc != Stuck
    ensures !Over(w.pc)
  {
    hide EndTime, Remaining, Judge;
  }

  /** Exactly when a call ends in a TimeoutIOException, and what it reports: a poll that timed out
      reports all bytes, a clock that is past the deadline the last chunk. */
  lemma TimeoutIff(c: Config, env: Env, t: Trace, n: nat)
    requires IsRun(c, env, t) && t != []
    ensures var e := t[|t| - 1].event;
            Run(c, t).pc == Threw(Timeout(n)) <==>
              || (e.DidPoll? && e.outcome == TimedOut && n == |BytesMoved(t)|)
              || (e.GotTime? && c.pollTimeout > 0 && FirstClock(t[..|t| - 1]).Some? && n == LastChunk(t)
                  && Remaining(EndTime(FirstClock(t[..|t| - 1]).value, c.pollTimeout), e.now) < 0)
  {
    hide Run, KernelTrace, EndTime, Remaining, BytesMoved, LastChunk, FirstClock, Polls;
    CallsEndAsTold(c, env, t);
  }

  // ---- What a call asks of the kernel ----

  /** The close descriptor that a call has read. */
  function FirstCloseFd(t: Trace): Option<int> {
    if t == [] then None
    else if FirstCloseFd(t[..|t| - 1]).Some? then FirstCloseFd(t[..|t| - 1])
    else if t[|t| - 1].event.FetchedCloseFd? then Some(t[|t| - 1].event.fd) else None
  }

  /** The descriptors are read once, and the call keeps them. */
  predicate HasFetched(w: Writer, t: Trace) {
    && (w.pc == FetchFd <==> t == [])
    && (t != [] ==> t[0].event == FetchedFd(w.fd))
    && (InLoop(w.pc) ==> FirstCloseFd(t) == Some(w.closeFd))
    && (!InLoop(w.pc) && !Over(w.pc) ==> FirstCloseFd(t) == None)
  }

  lemma {:induction false} RunHasFetched(c: Config, env: Env, t: Trace)
    requires IsRun(c, env, t)
    ensures HasFetched(Run(c, t), t)
  {
    hide EndTime, Remaining, Judge, KernelTrace;
    if t != [] {
      var front := t[..|t| - 1];
      IsRunPrefix(c, env, t);
      RunHasFetched(c, env, front);
      assert |t| >= 2 ==> t[0] == front[0];
    }
  }

  lemma LoopTimeout(c: Config, env: Env, t: Trace)
    requires IsRun(c, env, t) && Run(c, t).pc == LoopPoll && c.pollTimeout > 0
    ensures t != [] && t[|t| - 1].event.GotTime? && FirstClock(t).Some?
    ensures Run(c, t).timeout
         == Remaining(EndTime(FirstClock(t).value, c.pollTimeout), t[|t| - 1].event.now) >= 0
  {
    hide EndTime, Remaining, Judge, KernelTrace;
    IsRunPrefix(c, env, t);
    RunHasDeadline(c, env, t);
  }

  /** Every write offers just the bytes that are left, on the port. Every poll watches the port and the
      close event, and waits for what is left of the timeout, or for ever without one. */
  lemma CallsAskForTheRightThing(c: Config, env: Env, t: Trace, e: Timed)
    requires IsRun(c, env, t + [e])
    ensures e.event.DidWrite? ==>
              && t != [] && t[0].event == FetchedFd(e.event.fd)
              && |BytesMoved(t)| <= |c.data| && e.event.offered == c.data[|BytesMoved(t)|..]
    ensures e.event.DidPoll? ==>
              && t != [] && t[0].event == FetchedFd(e.event.fd) && FirstCloseFd(t) == Some(e.event.closeFd)
              && (if c.pollTimeout == -1 then e.event.timeout == -1
                  else
                    && t[|t| - 1].event.GotTime? && FirstClock(t).Some?
                    && e.event.timeout
                       == Remaining(EndTime(FirstClock(t).value, c.pollTimeout), t[|t| - 1].event.now) >= 0)
  {
    hide Run, EndTime, Remaining, KernelTrace, BytesMoved, FirstClock, FirstCloseFd, LastChunk;
    Extend(env, t, e);
    RunExtend(c, t, e);
    RunHasFetched(c, env, t);
    RunIsAccounted(c, env, t);
    if Run(c, t).pc == LoopPoll {
      if c.pollTimeout > 0 {
        LoopTimeout(c, env, t);
      } else {
        NoDeadlineNoTimeout(c, env, t);
      }
    }
  }
}
