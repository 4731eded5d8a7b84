/**
  Any number of readBuffer and writeBuffer calls and one close0, interleaved at the grain of
  single system calls and single accesses to the socket's fields.

  A poll is one step, taken when it completes, and sees the descriptors as they are then. It is
  level-triggered: nobody consumes the close event, so every poll that watches the event's
  descriptor reports it once it is posted.
  Descriptor numbers are not reused.
 */
module CloseProtocol {
  import opened Deadline
  import opened Posix
  import opened Prelude
  import R = ReaderProtocol
  import W = WriterProtocol

  /** The descriptors of an open port. In the eventfd variant both event numbers are the same. */
  datatype Port = Port(fd: nat, eventReadFd: nat, eventWriteFd: nat) {
    predicate Valid() {
      fd != eventReadFd && fd != eventWriteFd
    }
  }

  /** The next line of close0. */
  datatype CloserPc =
    | FetchFd | InvalidateFd | FetchWriteFd | Post | Flush | ClearWriteFd | ClearReadFd | ClosePort | Done

  function Line(pc: CloserPc): nat {
    match pc
    case FetchFd => 70
    case InvalidateFd => 71
    case FetchWriteFd => 74
    case Post => 76
    case Flush => 78
    case ClearWriteFd => 84
    case ClearReadFd => 85
    case ClosePort => 87
    case Done => 90
  }

  /** The fields of the socket, the state of its descriptors, and close0 with its locals. */
  datatype Shared = Shared(
    fd: int, closeReadFd: int, closeWriteFd: int,
    portOpen: bool, posted: bool,
    pc: CloserPc, localFd: int, localWriteFd: int)

  /** Bytes moved by the call number `who` in one go, or thrown away by close0. */
  datatype Chunk = Chunk(who: int, bytes: seq<Byte>)

  const NOBODY: int := -1

  /** `afterPost` counts the reads or writes that the call made after the event was posted. */
  datatype ReadCall = ReadCall(config: R.Config, reader: R.Reader, moved: seq<Byte>, afterPost: nat)

  datatype WriteCall = WriteCall(config: W.Config, writer: W.Writer, moved: seq<Byte>, afterPost: nat)

  datatype State = State(
    sh: Shared,
    arrived: seq<Byte>, input: seq<Byte>, taken: seq<Chunk>, sent: seq<Chunk>,
    readers: seq<ReadCall>, writers: seq<WriteCall>)

  /** `flushed` is set for the step in which tcflush succeeds. close0 ignores its result. */
  datatype Action = Arrive(bytes: seq<Byte>) | Read(i: nat, e: Event) | Write(i: nat, e: Event) | Close(flushed: bool)

  // ---- The steps ----

  predicate Signalled(p: Port, sh: Shared, closeFd: int) {
    sh.posted && closeFd == p.eventReadFd
  }

  /** What poll may report of a descriptor. */
  predicate PortReport(p: Port, sh: Shared, fd: int, bits: set<PollBit>) {
    if fd < 0 then bits == {}
    else if fd == p.fd && sh.portOpen then POLLNVAL !in bits
    else bits == {POLLNVAL}
  }

  /** The answers that the kernel and the fields can give in this state. */
  predicate Permits(p: Port, sh: Shared, input: seq<Byte>, e: Event) {
    match e
    case FetchedFd(v) => v == sh.fd
    case FetchedCloseFd(v) => v == sh.closeReadFd
    case DidRead(fd, count, result) =>
      (match result
       case Moved(bytes) => fd == p.fd && sh.portOpen && |bytes| <= count && bytes <= input
       case WouldBlock => fd == p.fd && sh.portOpen
       case Failed => true)
    case DidWrite(fd, offered, result) =>
      (match result
       case Moved(bytes) => fd == p.fd && sh.portOpen && bytes <= offered
       case WouldBlock => fd == p.fd && sh.portOpen
       case Failed => true)
    case GotTime(now) => Normal(now)
    case DidPoll(fd, closeFd, timeout, outcome) =>
      (match outcome
       case TimedOut => timeout >= 0 && !Signalled(p, sh, closeFd)
       case PollFailed => true
       case Ready(port, close) =>
         && PortReport(p, sh, fd, port)
         && close == (if Signalled(p, sh, closeFd) then {POLLIN} else {})
         && (port != {} || close != {}))
  }

  function CloseStep(sh: Shared): Shared {
    match sh.pc
    case FetchFd => sh.(pc := InvalidateFd, localFd := sh.fd)
    case InvalidateFd => sh.(pc := FetchWriteFd, fd := INVALID_FD)
    case FetchWriteFd => sh.(pc := Post, localWriteFd := sh.closeWriteFd)
    case Post => sh.(pc := Flush, posted := sh.posted || sh.localWriteFd != INVALID_FD)
    case Flush => sh.(pc := ClearWriteFd)
    case ClearWriteFd => sh.(pc := ClearReadFd, closeWriteFd := INVALID_FD)
    case ClearReadFd => sh.(pc := ClosePort, closeReadFd := INVALID_FD)
    case ClosePort => sh.(pc := Done, portOpen := sh.portOpen && sh.localFd == INVALID_FD)
    case Done => sh
  }

  function IsTransfer(e: Event): nat {
    if e.DidRead? || e.DidWrite? then 1 else 0
  }

  function ReadNext(sh: Shared, call: ReadCall, e: Event): ReadCall {
    call.(reader := R.Step(call.config, call.reader, e),
          moved := call.moved + EventBytes(e),
          afterPost := call.afterPost + if sh.posted then IsTransfer(e) else 0)
  }

  function WriteNext(sh: Shared, call: WriteCall, e: Event): WriteCall {
    call.(writer := W.Step(call.config, call.writer, e),
          moved := call.moved + EventBytes(e),
          afterPost := call.afterPost + if sh.posted then IsTransfer(e) else 0)
  }

  predicate ReadEnabled(p: Port, s: State, call: ReadCall, e: Event) {
    && !R.Over(call.reader.pc)
    && R.Step(call.config, call.reader, e).pc != R.Stuck
    && Permits(p, s.sh, s.input, e)
  }

  predicate WriteEnabled(p: Port, s: State, call: WriteCall, e: Event) {
    && !W.Over(call.writer.pc)
    && W.Step(call.config, call.writer, e).pc != W.Stuck
    && Permits(p, s.sh, s.input, e)
  }

  predicate Enabled(p: Port, s: State, a: Action) {
    match a
    case Arrive(_) => s.sh.portOpen
    case Read(i, e) => i < |s.readers| && ReadEnabled(p, s, s.readers[i], e)
    case Write(i, e) => i < |s.writers| && WriteEnabled(p, s, s.writers[i], e)
    case Close(flushed) => s.sh.pc != Done && (flushed ==> s.sh.pc == Flush && s.sh.localFd == p.fd && s.sh.portOpen)
  }

  /** tcflush(fd, TCIOFLUSH): the input that nobody has read is thrown away. So is the output that
      has not been transmitted yet, but `sent` is about the bytes given to write(). */
  function Discard(s: State): State {
    s.(input := [], taken := s.taken + [Chunk(NOBODY, s.input)])
  }

  function Next(p: Port, s: State, a: Action): State
    requires Enabled(p, s, a)
  {
    match a
    case Arrive(bytes) => s.(arrived := s.arrived + bytes, input := s.input + bytes)
    case Read(i, e) =>
      s.(input := s.input[|EventBytes(e)|..],
         taken := s.taken + [Chunk(i, EventBytes(e))],
         readers := s.readers[i := ReadNext(s.sh, s.readers[i], e)])
    case Write(i, e) =>
      s.(sent := s.sent + [Chunk(i, EventBytes(e))],
         writers := s.writers[i := WriteNext(s.sh, s.writers[i], e)])
    case Close(flushed) => if flushed then Discard(s).(sh := CloseStep(s.sh)) else s.(sh := CloseStep(s.sh))
  }

  /** The port is open, close0 has not begun, and every call is yet to take its first step. */
  predicate Init(p: Port, s: State) {
    && p.Valid()
    && s.sh == Shared(p.fd, p.eventReadFd, p.eventWriteFd, true, false, FetchFd, INVALID_FD, INVALID_FD)
    && s.arrived == s.input == [] && s.taken == s.sent == []
    && (forall c <- s.readers :: c.config.Valid() && c == ReadCall(c.config, R.START, [], 0))
    && (forall c <- s.writers :: c.config.Valid() && c == WriteCall(c.config, W.START, [], 0))
  }

  /** All actions can be taken, one after the other. */
  predicate CanRun(p: Port, s: State, actions: seq<Action>)
    decreases actions
  {
    actions != [] ==> Enabled(p, s, actions[0]) && CanRun(p, Next(p, s, actions[0]), actions[1..])
  }

  function After(p: Port, s: State, actions: seq<Action>): State
    requires CanRun(p, s, actions)
    decreases actions
  {
    if actions == [] then s else After(p, Next(p, s, actions[0]), actions[1..])
  }

  // ---- What every interleaving keeps ----

  /** The fields and descriptors follow the line that close0 has reached. */
  predicate SharedOk(p: Port, sh: Shared) {
    var line := Line(sh.pc);
    && sh.fd == (if line <= 71 then p.fd else INVALID_FD)
    && sh.posted == (line > 76)
    && sh.closeWriteFd == (if line <= 84 then p.eventWriteFd else INVALID_FD)
    && sh.closeReadFd == (if line <= 85 then p.eventReadFd else INVALID_FD)
    && sh.portOpen == (line <= 87)
    && (line > 70 ==> sh.localFd == p.fd)
    && (line > 74 ==> sh.localWriteFd == p.eventWriteFd)
  }

  /** A reader that has read both descriptor fields. */
  predicate ReadFetched(pc: R.Pc) {
    pc != R.FetchFd && pc != R.FetchCloseFd
  }

  /** A writer reads the close descriptor only after its first write. */
  predicate WriteFetched(pc: W.Pc) {
    W.InLoop(pc)
  }

  /** How many reads the call still makes if the close event is posted now. */
  function ReadsLeft(pc: R.Pc): nat {
    if pc in {R.FirstRead, R.SecondRead, R.LoopRead} then 1 else 0
  }

  function WritesLeft(pc: W.Pc): nat {
    if pc == W.LoopWrite then 1 else 0
  }

  predicate ReadOk(p: Port, sh: Shared, c: ReadCall) {
    var r := c.reader;
    && r.pc != R.Stuck
    && R.Accounted(c.config, r, |c.moved|)
    && (r.closeFd == INVALID_FD || r.closeFd == p.eventReadFd)
    && (r.closeFd == INVALID_FD && ReadFetched(r.pc) ==> Line(sh.pc) > 85)
    && (!sh.posted ==> c.afterPost == 0)
    && (!ReadFetched(r.pc) ==> c.afterPost == 0 && r.closeFd == INVALID_FD)
    && (r.pc == R.StartClock ==> c.config.pollTimeout > 0)
    && (r.closeFd == p.eventReadFd ==> c.afterPost + ReadsLeft(r.pc) <= 1)
  }

  predicate WriteOk(p: Port, sh: Shared, c: WriteCall) {
    var w := c.writer;
    && w.pc != W.Stuck
    && W.Accounted(c.config, w, c.moved, w.written)
    && (w.pc in {W.FetchFd, W.FirstWrite} ==> c.afterPost == 0)
    && (w.pc in {W.StartClock, W.FetchCloseFd} ==> c.afterPost <= 1)
    && (w.closeFd == INVALID_FD || w.closeFd == p.eventReadFd)
    && (!WriteFetched(w.pc) && !W.Over(w.pc) ==> w.closeFd == INVALID_FD)
    && (w.closeFd == INVALID_FD && WriteFetched(w.pc) ==> Line(sh.pc) > 85)
    && (!sh.posted ==> c.afterPost == 0)
    && (w.closeFd == p.eventReadFd ==> c.afterPost + WritesLeft(w.pc) <= 1)
  }

  /** The bytes of all chunks, and of those of one call. */
  function Bytes(log: seq<Chunk>): seq<Byte> {
    if log == [] then [] else Bytes(log[..|log| - 1]) + log[|log| - 1].bytes
  }

  function BytesOf(log: seq<Chunk>, who: int): seq<Byte> {
    if log == [] then []
    else BytesOf(log[..|log| - 1], who) + if log[|log| - 1].who == who then log[|log| - 1].bytes else []
  }

  /** All that arrived has been taken in order by somebody, or was thrown away by close0, or is still
      there; the log of what was taken or sent, restricted to one call, is what that call moved. */
  predicate Conserved(s: State) {
    && s.arrived == Bytes(s.taken) + s.input
    && (forall i {:trigger s.readers[i]} :: 0 <= i < |s.readers| ==> BytesOf(s.taken, i) == s.readers[i].moved)
    && (forall i {:trigger s.writers[i]} :: 0 <= i < |s.writers| ==> BytesOf(s.sent, i) == s.writers[i].moved)
  }

  predicate Inv(p: Port, s: State) {
    && p.Valid()
    && SharedOk(p, s.sh)
    && (forall c <- s.readers :: c.config.Valid() && ReadOk(p, s.sh, c))
    && (forall c <- s.writers :: c.config.Valid() && WriteOk(p, s.sh, c))
    && Conserved(s)
  }

  /** Whatever the kernel permits, it can do at some time. */
  lemma SomeTime(p: Port, sh: Shared, input: seq<Byte>, e: Event) returns (env: Env, at: int)
    requires Permits(p, sh, input, e)
    ensures KernelAllows(env, Timed(e, at), 0)
  {
    at := if e.GotTime? then Nanos(e.now) else if e.DidPoll? && e.timeout > 0 then Millis(e.timeout) else 0;
    env := Env(0, at);
  }

  lemma ReadStepKeeps(p: Port, s: State, c: ReadCall, e: Event)
    requires p.Valid() && SharedOk(p, s.sh) && c.config.Valid() && ReadOk(p, s.sh, c)
    requires ReadEnabled(p, s, c, e)
    ensures ReadOk(p, s.sh, ReadNext(s.sh, c, e))
  {
    hide EndTime, Remaining, KernelAllows;
    var env, at := SomeTime(p, s.sh, s.input, e);
    R.StepIsAccounted(c.config, c.reader, env, Timed(e, at), 0);
    ReadStepKeepsCount(p, s, c, e);
  }

  lemma ReadStepKeepsCount(p: Port, s: State, c: ReadCall, e: Event)
    requires p.Valid() && SharedOk(p, s.sh) && c.config.Valid() && ReadOk(p, s.sh, c)
    requires ReadEnabled(p, s, c, e)
    ensures var c' := ReadNext(s.sh, c, e);
            && (c'.reader.closeFd == INVALID_FD || c'.reader.closeFd == p.eventReadFd)
            && (c'.reader.closeFd == INVALID_FD && ReadFetched(c'.reader.pc) ==> Line(s.sh.pc) > 85)
            && (c'.reader.closeFd == p.eventReadFd ==> c'.afterPost + ReadsLeft(c'.reader.pc) <= 1)
            && (!ReadFetched(c'.reader.pc) ==> c'.afterPost == 0 && c'.reader.closeFd == INVALID_FD)
            && (c'.reader.pc == R.StartClock ==> c.config.pollTimeout > 0)
  {
    hide EndTime, Remaining, R.Accounted;
  }

  lemma WriteStepKeeps(p: Port, s: State, c: WriteCall, e: Event)
    requires p.Valid() && SharedOk(p, s.sh) && c.config.Valid() && WriteOk(p, s.sh, c)
    requires WriteEnabled(p, s, c, e)
    ensures WriteOk(p, s.sh, WriteNext(s.sh, c, e))
  {
    hide EndTime, Remaining, KernelAllows;
    var env, at := SomeTime(p, s.sh, s.input, e);
    W.StepIsAccounted(c.config, c.writer, c.moved, c.writer.written, env, Timed(e, at), 0);
    WriteStepKeepsCount(p, s, c, e);
  }

  lemma WriteStepKeepsCount(p: Port, s: State, c: WriteCall, e: Event)
    requires p.Valid() && SharedOk(p, s.sh) && c.config.Valid() && WriteOk(p, s.sh, c)
    requires WriteEnabled(p, s, c, e)
    ensures var c' := WriteNext(s.sh, c, e);
            && c'.writer.written == (if W.IsChunk(e) then |e.result.bytes| else c.writer.written)
            && (c'.writer.pc in {W.FetchFd, W.FirstWrite} ==> c'.afterPost == 0)
            && (c'.writer.pc in {W.StartClock, W.FetchCloseFd} ==> c'.afterPost <= 1)
            && (c'.writer.closeFd == INVALID_FD || c'.writer.closeFd == p.eventReadFd)
            && (!WriteFetched(c'.writer.pc) && !W.Over(c'.writer.pc) ==> c'.writer.closeFd == INVALID_FD)
            && (c'.writer.closeFd == INVALID_FD && WriteFetched(c'.writer.pc) ==> Line(s.sh.pc) > 85)
            && (c'.writer.closeFd == p.eventReadFd ==> c'.afterPost + WritesLeft(c'.writer.pc) <= 1)
  {
    hide EndTime, Remaining;
  }

  lemma CloseStepKeeps(p: Port, sh: Shared, r: ReadCall, w: WriteCall)
    requires p.Valid() && SharedOk(p, sh) && sh.pc != Done
    ensures SharedOk(p, CloseStep(sh))
    ensures ReadOk(p, sh, r) ==> ReadOk(p, CloseStep(sh), r)
    ensures WriteOk(p, sh, w) ==> WriteOk(p, CloseStep(sh), w)
  {}

  lemma LogExtend(log: seq<Chunk>, k: Chunk, who: int)
    ensures Bytes(log + [k]) == Bytes(log) + k.bytes
    ensures BytesOf(log + [k], who) == BytesOf(log, who) + if k.who == who then k.bytes else []
  {
    assert (log + [k])[..|log|] == log;
  }

  lemma TakeKeepsConserved(p: Port, s: State, i: nat, e: Event)
    requires Enabled(p, s, Read(i, e)) && Conserved(s)
    ensures Conserved(Next(p, s, Read(i, e)))
  {
    hide R.Step, W.Step, Bytes, BytesOf;
    var s', b := Next(p, s, Read(i, e)), EventBytes(e);
    assert !e.DidWrite? by { ReadersDoNotWrite(s.readers[i].config, s.readers[i].reader, e); }
    assert s.input == b + s.input[|b|..];
    LogExtend(s.taken, Chunk(i, b), i);
    assert s.arrived == Bytes(s'.taken) + s'.input;
    forall j {:trigger s'.readers[j]} | 0 <= j < |s'.readers| ensures BytesOf(s'.taken, j) == s'.readers[j].moved {
      LogExtend(s.taken, Chunk(i, b), j);
      assert BytesOf(s.taken, j) == s.readers[j].moved;
    }
  }

  lemma ReadersDoNotWrite(c: R.Config, r: R.Reader, e: Event)
    requires R.Step(c, r, e).pc != R.Stuck
    ensures !e.DidWrite?
  {}

  lemma SendKeepsConserved(p: Port, s: State, i: nat, e: Event)
    requires Enabled(p, s, Write(i, e)) && Conserved(s)
    ensures Conserved(Next(p, s, Write(i, e)))
  {
    hide R.Step, W.Step, Bytes, BytesOf;
    var s', b := Next(p, s, Write(i, e)), EventBytes(e);
    forall j {:trigger s'.writers[j]} | 0 <= j < |s'.writers| ensures BytesOf(s'.sent, j) == s'.writers[j].moved {
      LogExtend(s.sent, Chunk(i, b), j);
      assert BytesOf(s.sent, j) == s.writers[j].moved;
    }
  }

  lemma DiscardKeepsConserved(s: State)
    requires Conserved(s)
    ensures Conserved(Discard(s))
  {
    hide Bytes, BytesOf;
    LogExtend(s.taken, Chunk(NOBODY, s.input), NOBODY);
    forall j {:trigger s.readers[j]} | 0 <= j < |s.readers| ensures BytesOf(Discard(s).taken, j) == s.readers[j].moved {
      LogExtend(s.taken, Chunk(NOBODY, s.input), j);
      assert BytesOf(s.taken, j) == s.readers[j].moved;
    }
  }

  lemma StepKeepsInv(p: Port, s: State, a: Action)
    requires Inv(p, s) && Enabled(p, s, a)
    ensures Inv(p, Next(p, s, a))
  {
    hide R.Step, W.Step, ReadOk, WriteOk, Bytes, BytesOf;
    var s' := Next(p, s, a);
    match a
    case Arrive(bytes) =>
      assert s'.arrived == Bytes(s'.taken) + s'.input;
    case Read(i, e) =>
      ReadStepKeeps(p, s, s.readers[i], e);
      TakeKeepsConserved(p, s, i, e);
    case Write(i, e) =>
      WriteStepKeeps(p, s, s.writers[i], e);
      SendKeepsConserved(p, s, i, e);
    case Close(_) =>
      DiscardKeepsConserved(s);
      forall c <- s.readers ensures ReadOk(p, s'.sh, c) {
        CloseStepKeeps(p, s.sh, c, WriteCall(W.Config([], -1), W.START, [], 0));
      }
      forall c <- s.writers ensures WriteOk(p, s'.sh, c) {
        CloseStepKeeps(p, s.sh, ReadCall(R.Config(0, -1, 0), R.START, [], 0), c);
      }
      CloseStepKeeps(p, s.sh, ReadCall(R.Config(0, -1, 0), R.START, [], 0),
                     WriteCall(W.Config([], -1), W.START, [], 0));
  }

  lemma InitInv(p: Port, s: State)
    requires Init(p, s)
    ensures Inv(p, s)
  {}

  lemma {:induction false} RunKeepsInv(p: Port, s: State, actions: seq<Action>)
    requires Inv(p, s) && CanRun(p, s, actions)
    ensures Inv(p, After(p, s, actions))
    decreases actions
  {
    if actions != [] {
      StepKeepsInv(p, s, actions[0]);
      RunKeepsInv(p, Next(p, s, actions[0]), actions[1..]);
    }
  }

  // ---- Parts of a run ----

  /** How many of the actions are steps of close0. */
  function CloseSteps(actions: seq<Action>): nat {
    if actions == [] then 0 else (if actions[0].Close? then 1 else 0) + CloseSteps(actions[1..])
  }

  function StepsDone(pc: CloserPc): nat {
    match pc
    case FetchFd => 0
    case InvalidateFd => 1
    case FetchWriteFd => 2
    case Post => 3
    case Flush => 4
    case ClearWriteFd => 5
    case ClearReadFd => 6
    case ClosePort => 7
    case Done => 8
  }

  lemma {:induction false} CloseStepsAreDone(p: Port, s: State, actions: seq<Action>)
    requires CanRun(p, s, actions)
    ensures StepsDone(After(p, s, actions).sh.pc) == StepsDone(s.sh.pc) + CloseSteps(actions)
    decreases actions
  {
    hide R.Step, W.Step, Permits, ReadNext, WriteNext, CloseStep, StepsDone;
    if actions != [] {
      OneMoreIsDone(s.sh);
      CloseStepsAreDone(p, Next(p, s, actions[0]), actions[1..]);
    }
  }

  lemma OneMoreIsDone(sh: Shared)
    ensures sh.pc != Done ==> StepsDone(CloseStep(sh).pc) == StepsDone(sh.pc) + 1
  {}

  lemma OneStepTaken(p: Port, s: State, a: Action)
    requires CanRun(p, s, [a])
    ensures Enabled(p, s, a) && After(p, s, [a]) == Next(p, s, a)
  {
    hide R.Step, W.Step, Permits;
    assert [a][1..] == [];
  }

  lemma {:induction false} RunSplit(p: Port, s: State, a: seq<Action>, b: seq<Action>)
    requires CanRun(p, s, a + b)
    ensures CanRun(p, s, a) && CanRun(p, After(p, s, a), b)
    ensures After(p, s, a + b) == After(p, After(p, s, a), b)
    decreases a
  {
    hide R.Step, W.Step, Permits, ReadNext, WriteNext;
    if a == [] {
      assert a + b == b;
    } else {
      assert (a + b)[1..] == a[1..] + b;
      RunSplit(p, Next(p, s, a[0]), a[1..], b);
    }
  }

  // ---- The theorems ----

  /** Conservation over whole runs: whatever the interleaving, the input is shared out in order and
      without duplication among the calls and the flush of close0, a reader has its own part, and
      the bytes given to write() contain of each writer a prefix of its data, all of it once the
      writer has returned. What the flush takes is the subject of NothingIsLostIff. */
  lemma EveryRunConserves(p: Port, s: State, actions: seq<Action>)
    requires Init(p, s) && CanRun(p, s, actions)
    ensures var z := After(p, s, actions);
            && z.arrived == Bytes(z.taken) + z.input
            && (forall i {:trigger z.readers[i]} :: 0 <= i < |z.readers| ==>
                  && z.readers[i].reader.total == |BytesOf(z.taken, i)|
                  && (z.readers[i].reader.pc.Returned? ==>
                        z.readers[i].reader.pc.result == |BytesOf(z.taken, i)|))
            && (forall i {:trigger z.writers[i]} :: 0 <= i < |z.writers| ==>
                  && BytesOf(z.sent, i) <= z.writers[i].config.data
                  && (z.writers[i].writer.pc.Returned? ==> BytesOf(z.sent, i) == z.writers[i].config.data))
  {
    InitInv(p, s);
    RunKeepsInv(p, s, actions);
    var z := After(p, s, actions);
    forall i | 0 <= i < |z.readers| ensures ReadOk(p, z.sh, z.readers[i]) {}
    forall i | 0 <= i < |z.writers| ensures WriteOk(p, z.sh, z.writers[i]) {}
  }

  /** Without a flush nothing is lost: what a run adds to the log is what its readers took. */
  lemma {:induction false} NoFlushNoLoss(p: Port, s: State, actions: seq<Action>) returns (more: seq<Chunk>)
    requires CanRun(p, s, actions) && Close(true) !in actions
    ensures After(p, s, actions).taken == s.taken + more
    ensures forall k <- more :: k.who != NOBODY
    decreases actions
  {
    hide R.Step, W.Step, Permits, ReadNext, WriteNext;
    more := [];
    if actions != [] {
      var a := actions[0];
      more := NoFlushNoLoss(p, Next(p, s, a), actions[1..]);
      if a.Read? {
        var k := Chunk(a.i, EventBytes(a.e));
        assert (s.taken + [k]) + more == s.taken + ([k] + more);
        more := [k] + more;
      }
    }
  }

  /** A run in which close0 has passed the flush does not flush again. */
  lemma {:induction false} NoSecondFlush(p: Port, s: State, actions: seq<Action>)
    requires CanRun(p, s, actions) && StepsDone(s.sh.pc) > 4
    ensures Close(true) !in actions
    decreases actions
  {
    hide R.Step, W.Step, Permits, ReadNext, WriteNext;
    if actions != [] {
      NoSecondFlush(p, Next(p, s, actions[0]), actions[1..]);
      assert forall a <- actions :: a == actions[0] || a in actions[1..];
    }
  }

  lemma {:induction false} BytesOfOthers(log: seq<Chunk>, more: seq<Chunk>, who: int)
    requires forall k <- more :: k.who != who
    ensures BytesOf(log + more, who) == BytesOf(log, who)
  {
    if more == [] {
      assert log + more == log;
    } else {
      var m := |more| - 1;
      BytesOfOthers(log, more[..m], who);
      assert log + more == (log + more[..m]) + [more[m]];
      assert more[m] in more;
      LogExtend(log + more[..m], more[m], who);
    }
  }

  /** A flush comes as the fifth step of close0, and it is the only one in its run. What it throws
      away is one contiguous piece of the input: all that is queued at that moment, between what was
      taken before and what arrives afterwards. */
  lemma FlushLosesOnePiece(p: Port, s: State, before: seq<Action>, after: seq<Action>) returns (more: seq<Chunk>)
    requires Init(p, s) && CanRun(p, s, before + [Close(true)] + after)
    ensures CanRun(p, s, before) && CloseSteps(before) == 4
    ensures Close(true) !in before && Close(true) !in after
    ensures var x, z := After(p, s, before), After(p, s, before + [Close(true)] + after);
            && z.taken == x.taken + [Chunk(NOBODY, x.input)] + more
            && z.arrived == Bytes(z.taken) + z.input
            && (forall k <- x.taken + more :: k.who != NOBODY)
            && BytesOf(z.taken, NOBODY) == x.input
  {
    hide CanRun, After, Inv, BytesOf, Bytes, Permits, R.Step, W.Step;
    var a := Close(true);
    RunSplit(p, s, before + [a], after);
    RunSplit(p, s, before, [a]);
    var x := After(p, s, before);
    OneStepTaken(p, x, a);
    CloseStepsAreDone(p, s, before);
    NoFlushSoFar(p, s, before);
    NoSecondFlush(p, Next(p, x, a), after);
    var first := NoFlushNoLoss(p, s, before);
    more := NoFlushNoLoss(p, Next(p, x, a), after);
    EveryRunConserves(p, s, before + [a] + after);
    assert x.taken == first;
    NobodysBytes(x.taken, x.input, more);
  }

  lemma NobodysBytes(first: seq<Chunk>, lost: seq<Byte>, more: seq<Chunk>)
    requires forall k <- first + more :: k.who != NOBODY
    ensures BytesOf(first + [Chunk(NOBODY, lost)] + more, NOBODY) == lost
  {
    hide BytesOf;
    assert forall k <- first :: k in first + more;
    assert forall k <- more :: k in first + more;
    BytesOfOthers(first + [Chunk(NOBODY, lost)], more, NOBODY);
    LogExtend(first, Chunk(NOBODY, lost), NOBODY);
    BytesOfOthers([], first, NOBODY);
    assert [] + first == first;
    EmptyLog(NOBODY);
  }

  lemma EmptyLog(who: int)
    ensures BytesOf([], who) == []
  {}

  /** Until four steps of close0 have been made there was no flush. */
  lemma {:induction false} NoFlushSoFar(p: Port, s: State, actions: seq<Action>)
    requires CanRun(p, s, actions) && StepsDone(After(p, s, actions).sh.pc) <= 4
    ensures Close(true) !in actions
    decreases actions
  {
    hide R.Step, W.Step, Permits, ReadNext, WriteNext;
    if actions != [] {
      NoFlushSoFar(p, Next(p, s, actions[0]), actions[1..]);
      CloseStepsAreDone(p, Next(p, s, actions[0]), actions[1..]);
      assert forall a <- actions :: a == actions[0] || a in actions[1..];
    }
  }

  /** Exactly when no byte of the input is lost: the queue was empty whenever close0 flushed it. In
      particular nothing is lost while close0 has made at most four of its steps. */
  lemma NothingIsLostIff(p: Port, s: State, actions: seq<Action>)
    requires Init(p, s) && CanRun(p, s, actions)
    ensures BytesOf(After(p, s, actions).taken, NOBODY) == [] <==>
            forall k | 0 <= k < |actions| && actions[k] == Close(true) ::
              CanRun(p, s, actions[..k]) && After(p, s, actions[..k]).input == []
    ensures CloseSteps(actions) <= 4 ==> BytesOf(After(p, s, actions).taken, NOBODY) == []
  {
    hide CanRun, After, Inv, BytesOf, Bytes, Permits, R.Step, W.Step;
    if Close(true) in actions {
      var k :| 0 <= k < |actions| && actions[k] == Close(true);
      var before, after := actions[..k], actions[k + 1..];
      assert actions == before + [Close(true)] + after;
      var more := FlushLosesOnePiece(p, s, before, after);
      assert forall j | 0 <= j < k :: actions[j] == before[j];
      assert forall j | k < j < |actions| :: actions[j] == after[j - k - 1];
      CloseStepsAreDone(p, s, actions);
      if CloseSteps(actions) <= 4 {
        NoFlushSoFar(p, s, actions);
      }
    } else {
      var more := NoFlushNoLoss(p, s, actions);
      BytesOfOthers([], more, NOBODY);
      assert [] + more == more;
      EmptyLog(NOBODY);
    }
  }

  /** A call that watches the close event: it read the field before close0 cleared it. */
  predicate Watches(p: Port, closeFd: int) {
    closeFd == p.eventReadFd
  }

  /** A call that has read both descriptors when close0 has not yet cleared the field watches the
      event, and goes on watching it whatever happens. */
  lemma EarlyReaderWatches(p: Port, s: State, actions: seq<Action>, i: nat)
    requires Inv(p, s) && CanRun(p, s, actions) && i < |s.readers|
    requires Line(s.sh.pc) <= 85 && ReadFetched(s.readers[i].reader.pc)
    ensures |After(p, s, actions).readers| == |s.readers|
    ensures Watches(p, After(p, s, actions).readers[i].reader.closeFd)
  {
    assert ReadOk(p, s.sh, s.readers[i]);
    ReaderKeepsWatching(p, s, actions, i);
  }

  lemma {:induction false} ReaderKeepsWatching(p: Port, s: State, actions: seq<Action>, i: nat)
    requires CanRun(p, s, actions) && i < |s.readers| && ReadFetched(s.readers[i].reader.pc)
    ensures |After(p, s, actions).readers| == |s.readers|
    ensures After(p, s, actions).readers[i].reader.closeFd == s.readers[i].reader.closeFd
    decreases actions
  {
    hide EndTime, Remaining;
    if actions != [] {
      ReaderKeepsWatching(p, Next(p, s, actions[0]), actions[1..], i);
    }
  }

  lemma EarlyWriterWatches(p: Port, s: State, actions: seq<Action>, i: nat)
    requires Inv(p, s) && CanRun(p, s, actions) && i < |s.writers|
    requires Line(s.sh.pc) <= 85 && WriteFetched(s.writers[i].writer.pc)
    ensures |After(p, s, actions).writers| == |s.writers|
    ensures Watches(p, After(p, s, actions).writers[i].writer.closeFd)
  {
    assert WriteOk(p, s.sh, s.writers[i]);
    WriterKeepsWatching(p, s, actions, i);
  }

  lemma {:induction false} WriterKeepsWatching(p: Port, s: State, actions: seq<Action>, i: nat)
    requires CanRun(p, s, actions) && i < |s.writers|
    requires WriteFetched(s.writers[i].writer.pc) || W.Over(s.writers[i].writer.pc)
    ensures |After(p, s, actions).writers| == |s.writers|
    ensures After(p, s, actions).writers[i].writer.closeFd == s.writers[i].writer.closeFd
    decreases actions
  {
    hide W.Step, R.Step, Permits, EndTime, Remaining;
    if actions != [] {
      var a := actions[0];
      if a.Write? && a.i == i {
        FetchedOnce(s.writers[i].config, s.writers[i].writer, a.e);
      }
      WriterKeepsWatching(p, Next(p, s, a), actions[1..], i);
    }
  }

  lemma FetchedOnce(c: W.Config, w: W.Writer, e: Event)
    requires WriteFetched(w.pc) && W.Step(c, w, e).pc != W.Stuck
    ensures WriteFetched(W.Step(c, w, e).pc) || W.Over(W.Step(c, w, e).pc)
    ensures W.Step(c, w, e).closeFd == w.closeFd
  {
    hide EndTime, Remaining;
  }

  predicate PollFails(e: Event) {
    e.DidPoll? && e.outcome == PollFailed
  }

  /** Once the event is posted, a poll of a watching reader, pending or begun later, can complete
      and ends the call: with AsynchronousCloseException unless the poll itself fails. It cannot
      time out or go back to reading. */
  lemma CloseWakesReaders(p: Port, s: State, i: nat, e: Event)
    requires Inv(p, s) && s.sh.posted && i < |s.readers|
    requires Watches(p, s.readers[i].reader.closeFd) && s.readers[i].reader.pc in {R.FirstPoll, R.LoopPoll}
    ensures var c := s.readers[i];
            ReadEnabled(p, s, c, DidPoll(c.reader.fd, c.reader.closeFd, R.PollTimeout(c.config, c.reader),
                                         Wakeup(p, s.sh, c.reader.fd)))
    ensures ReadEnabled(p, s, s.readers[i], e) ==>
              var r' := R.Step(s.readers[i].config, s.readers[i].reader, e);
              r'.pc == R.Threw(AsynchronousClose) ||
              (PollFails(e) && r'.pc == R.Threw(InterruptedIO(0)))
  {
    assert ReadOk(p, s.sh, s.readers[i]);
  }

  lemma CloseWakesWriters(p: Port, s: State, i: nat, e: Event)
    requires Inv(p, s) && s.sh.posted && i < |s.writers|
    requires Watches(p, s.writers[i].writer.closeFd) && s.writers[i].writer.pc == W.LoopPoll
    ensures var c := s.writers[i];
            WriteEnabled(p, s, c, DidPoll(c.writer.fd, c.writer.closeFd, c.writer.timeout,
                                          Wakeup(p, s.sh, c.writer.fd)))
    ensures WriteEnabled(p, s, s.writers[i], e) ==>
              var w' := W.Step(s.writers[i].config, s.writers[i].writer, e);
              w'.pc == W.Threw(AsynchronousClose) ||
              (PollFails(e) && w'.pc == W.Threw(InterruptedIO(s.writers[i].writer.offset)))
  {
    assert WriteOk(p, s.sh, s.writers[i]);
  }

  /** In every run each watching call makes at most one more read or write after the post. */
  lemma AtMostOneMoreTransfer(p: Port, s: State, actions: seq<Action>)
    requires Init(p, s) && CanRun(p, s, actions)
    ensures var z := After(p, s, actions);
            && (forall c <- z.readers :: Watches(p, c.reader.closeFd) ==> c.afterPost <= 1)
            && (forall c <- z.writers :: Watches(p, c.writer.closeFd) ==> c.afterPost <= 1)
  {
    InitInv(p, s);
    RunKeepsInv(p, s, actions);
    var z := After(p, s, actions);
    forall c <- z.readers ensures ReadOk(p, z.sh, c) {}
    forall c <- z.writers ensures WriteOk(p, z.sh, c) {}
  }

  /** The number of steps that a watching call still takes after the post, at most. */
  function ReadStepsLeft(pc: R.Pc): nat {
    match pc
    case FirstRead => 4
    case SecondRead => 3
    case StartClock => 3
    case LoopRead => 3
    case LoopClock => 2
    case FirstPoll => 1
    case LoopPoll => 1
    case FirstReadFailed(_) => 1
    case SecondReadFailed => 1
    case LoopReadFailed(_) => 1
    case _ => 0
  }

  function WriteStepsLeft(pc: W.Pc): nat {
    match pc
    case LoopWrite => 3
    case LoopClock => 2
    case LoopPoll => 1
    case _ => 0
  }

  /** What the kernel reports to a poll that watches the posted event. */
  function Wakeup(p: Port, sh: Shared, fd: int): PollOutcome {
    Ready(if fd < 0 || (fd == p.fd && sh.portOpen) then {} else {POLLNVAL}, {POLLIN})
  }

  /** After the post a watching reader that is not over is never blocked. */
  lemma ReaderIsNotBlocked(p: Port, s: State, i: nat) returns (e: Event)
    requires Inv(p, s) && s.sh.posted && i < |s.readers|
    requires Watches(p, s.readers[i].reader.closeFd) && !R.Over(s.readers[i].reader.pc)
    ensures Enabled(p, s, Read(i, e))
    ensures e.DidPoll? ==> e.outcome == Wakeup(p, s.sh, s.readers[i].reader.fd)
  {
    hide EndTime, Remaining;
    var c := s.readers[i];
    var r := c.reader;
    assert ReadOk(p, s.sh, c);
    if r.pc in {R.FirstPoll, R.LoopPoll} {
      e := DidPoll(r.fd, r.closeFd, R.PollTimeout(c.config, r), Wakeup(p, s.sh, r.fd));
    } else if r.pc in {R.StartClock, R.LoopClock} {
      e := GotTime(Timespec(0, 0));
    } else if r.pc in {R.FirstRead, R.SecondRead, R.LoopRead} {
      e := DidRead(r.fd, R.Count(c.config, r), Failed);
    } else {
      e := FetchedFd(s.sh.fd);
    }
  }

  lemma WriterIsNotBlocked(p: Port, s: State, i: nat) returns (e: Event)
    requires Inv(p, s) && s.sh.posted && i < |s.writers|
    requires Watches(p, s.writers[i].writer.closeFd) && !W.Over(s.writers[i].writer.pc)
    ensures Enabled(p, s, Write(i, e))
    ensures e.DidPoll? ==> e.outcome == Wakeup(p, s.sh, s.writers[i].writer.fd)
  {
    hide EndTime, Remaining;
    var c := s.writers[i];
    var w := c.writer;
    assert WriteOk(p, s.sh, c);
    if w.pc == W.LoopPoll {
      e := DidPoll(w.fd, w.closeFd, w.timeout, Wakeup(p, s.sh, w.fd));
    } else if w.pc == W.LoopClock {
      e := GotTime(Timespec(0, 0));
    } else {
      e := DidWrite(w.fd, W.Offered(c.config, w), Failed);
    }
  }

  /** How many of the actions are steps of reader or writer number `i`. */
  function OwnReads(actions: seq<Action>, i: nat): nat {
    if actions == [] then 0
    else (if actions[0].Read? && actions[0].i == i then 1 else 0) + OwnReads(actions[1..], i)
  }

  function OwnWrites(actions: seq<Action>, i: nat): nat {
    if actions == [] then 0
    else (if actions[0].Write? && actions[0].i == i then 1 else 0) + OwnWrites(actions[1..], i)
  }

  /** After the post a watching reader takes at most four more steps in any run, and it is over
      when it has no more to take. With ReaderIsNotBlocked: it ends under every fair scheduler. */
  lemma {:induction false} ReaderEndsInFourSteps(p: Port, s: State, actions: seq<Action>, i: nat)
    requires Inv(p, s) && s.sh.posted && CanRun(p, s, actions) && i < |s.readers|
    requires Watches(p, s.readers[i].reader.closeFd)
    ensures var z := After(p, s, actions);
            && |z.readers| == |s.readers|
            && OwnReads(actions, i) + ReadStepsLeft(z.readers[i].reader.pc)
               <= ReadStepsLeft(s.readers[i].reader.pc) <= 4
            && (ReadStepsLeft(z.readers[i].reader.pc) == 0 ==> R.Over(z.readers[i].reader.pc))
    decreases actions
  {
    assert ReadOk(p, s.sh, s.readers[i]);
    if actions != [] {
      var a := actions[0];
      StepKeepsInv(p, s, a);
      if a.Read? && a.i == i {
        ReadStepComesNearer(p, s, s.readers[i], a.e);
      }
      ReaderEndsInFourSteps(p, Next(p, s, a), actions[1..], i);
    }
  }

  lemma ReadStepComesNearer(p: Port, s: State, c: ReadCall, e: Event)
    requires SharedOk(p, s.sh) && s.sh.posted && ReadOk(p, s.sh, c)
    requires Watches(p, c.reader.closeFd) && ReadEnabled(p, s, c, e)
    ensures ReadStepsLeft(R.Step(c.config, c.reader, e).pc) < ReadStepsLeft(c.reader.pc)
    ensures R.Step(c.config, c.reader, e).closeFd == c.reader.closeFd
  {
    hide EndTime, Remaining;
  }

  /** The same for a watching writer, which takes at most three more steps. */
  lemma {:induction false} WriterEndsInThreeSteps(p: Port, s: State, actions: seq<Action>, i: nat)
    requires Inv(p, s) && s.sh.posted && CanRun(p, s, actions) && i < |s.writers|
    requires Watches(p, s.writers[i].writer.closeFd)
    ensures var z := After(p, s, actions);
            && |z.writers| == |s.writers|
            && OwnWrites(actions, i) + WriteStepsLeft(z.writers[i].writer.pc)
               <= WriteStepsLeft(s.writers[i].writer.pc) <= 3
            && (WriteStepsLeft(z.writers[i].writer.pc) == 0 ==> W.Over(z.writers[i].writer.pc))
    decreases actions
  {
    assert WriteOk(p, s.sh, s.writers[i]);
    if actions != [] {
      var a := actions[0];
      StepKeepsInv(p, s, a);
      if a.Write? && a.i == i {
        WriteStepComesNearer(p, s, s.writers[i], a.e);
      }
      WriterEndsInThreeSteps(p, Next(p, s, a), actions[1..], i);
    }
  }

  lemma WriteStepComesNearer(p: Port, s: State, c: WriteCall, e: Event)
    requires SharedOk(p, s.sh) && s.sh.posted && WriteOk(p, s.sh, c)
    requires Watches(p, c.writer.closeFd) && WriteEnabled(p, s, c, e)
    ensures WriteStepsLeft(W.Step(c.config, c.writer, e).pc) < WriteStepsLeft(c.writer.pc)
    ensures W.Step(c.config, c.writer, e).closeFd == c.writer.closeFd
  {
    hide EndTime, Remaining;
  }

  // ---- Hang-ups ----

  /** A hang-up ends a reader even while input is queued: it throws, nothing more is read, and what
      it had taken from the queue stays with it in every continuation of the run, reported to
      nobody. Without the POLLHUP bit the same poll would have let it go on. */
  lemma HangUpLosesBytes(p: Port, s: State, i: nat, e: Event, actions: seq<Action>)
    requires Inv(p, s) && Enabled(p, s, Read(i, e)) && CanRun(p, Next(p, s, Read(i, e)), actions)
    requires e.DidPoll? && e.outcome.Ready? && e.outcome.close != {POLLIN} && POLLHUP in e.outcome.port
    ensures Next(p, s, Read(i, e)).input == s.input
    ensures var z := After(p, Next(p, s, Read(i, e)), actions);
            && i < |z.readers| && z.readers[i].reader.pc == R.Threw(PortFdInvalid)
            && BytesOf(z.taken, i) == BytesOf(s.taken, i) && |BytesOf(z.taken, i)| == z.readers[i].reader.total
            && !R.ReturnsNormally(z.readers[i].reader)
    ensures Enabled(p, s, Read(i, e.(outcome := Ready({POLLIN}, e.outcome.close)))) && e.outcome.close == {} ==>
              Next(p, s, Read(i, e.(outcome := Ready({POLLIN}, {})))).readers[i].reader.pc in {R.SecondRead, R.LoopRead}
  {
    hide EndTime, Remaining, CanRun, After, Inv, BytesOf;
    var c, s' := s.readers[i], Next(p, s, Read(i, e));
    R.HangUpEndsTheCall(c.config, c.reader, e);
    StepKeepsInv(p, s, Read(i, e));
    RunKeepsInv(p, s', actions);
    OverStays(p, s', actions, i);
    HasItsBytes(p, s, i);
    HasItsBytes(p, After(p, s', actions), i);
    assert c.moved + [] == c.moved;
  }

  lemma HasItsBytes(p: Port, s: State, i: nat)
    requires Inv(p, s) && i < |s.readers|
    ensures BytesOf(s.taken, i) == s.readers[i].moved && |s.readers[i].moved| == s.readers[i].reader.total
  {
    hide BytesOf, Bytes;
    assert ReadOk(p, s.sh, s.readers[i]);
  }

  /** A call that is over takes no more steps. */
  lemma {:induction false} OverStays(p: Port, s: State, actions: seq<Action>, i: nat)
    requires CanRun(p, s, actions) && i < |s.readers| && R.Over(s.readers[i].reader.pc)
    ensures i < |After(p, s, actions).readers| && After(p, s, actions).readers[i] == s.readers[i]
    decreases actions
  {
    hide R.Step, W.Step, Permits;
    if actions != [] {
      OverStays(p, Next(p, s, actions[0]), actions[1..], i);
    }
  }

  // ---- Exactly which calls are woken ----

  /** Whatever the kernel may answer to the poll of this call ends it in
      AsynchronousCloseException, unless the poll itself fails. */
  ghost predicate Woken(p: Port, s: State, c: ReadCall) {
    forall e :: ReadEnabled(p, s, c, e) && !PollFails(e) ==>
      R.Step(c.config, c.reader, e).pc == R.Threw(AsynchronousClose)
  }

  ghost predicate WriterWoken(p: Port, s: State, c: WriteCall) {
    forall e :: WriteEnabled(p, s, c, e) && !PollFails(e) ==>
      W.Step(c.config, c.writer, e).pc == W.Threw(AsynchronousClose)
  }

  /** Two ways in which a poll that does not watch the event may go on. */
  lemma LateReaderMayGoOn(p: Port, s: State, c: ReadCall) returns (e: Event)
    requires p.Valid() && c.reader.pc in {R.FirstPoll, R.LoopPoll} && c.reader.fd == p.fd
    requires !Watches(p, c.reader.closeFd) && (s.sh.portOpen || R.PollTimeout(c.config, c.reader) >= 0)
    ensures ReadEnabled(p, s, c, e) && !PollFails(e)
    ensures R.Step(c.config, c.reader, e).pc != R.Threw(AsynchronousClose)
  {
    var timeout := R.PollTimeout(c.config, c.reader);
    e := DidPoll(p.fd, c.reader.closeFd, timeout, if s.sh.portOpen then Ready({POLLIN}, {}) else TimedOut);
  }

  lemma ClosedPortEndsReader(p: Port, s: State, c: ReadCall, e: Event)
    requires Inv(p, s) && !s.sh.portOpen && ReadEnabled(p, s, c, e) && !PollFails(e)
    requires c.reader.pc in {R.FirstPoll, R.LoopPoll} && c.reader.fd == p.fd
    requires R.PollTimeout(c.config, c.reader) < 0
    ensures R.Step(c.config, c.reader, e).pc == R.Threw(AsynchronousClose)
  {
    hide EndTime, Remaining, Inv;
    LateCallsFindThePortClosed(p, s, c, WriteCall(W.Config([], -1), W.START, [], 0), e);
  }

  /** Once the event is posted a poll on the port is woken iff it watches the event; or, if it is
      begun after the port itself was closed, if it has no timeout that could end it otherwise.
      A poll is one step here: of one that is pending while the port is closed under it nothing is
      said, since a kernel may go on waiting on the file that it still holds. */
  lemma ReaderIsWokenIff(p: Port, s: State, i: nat)
    requires Inv(p, s) && s.sh.posted && i < |s.readers|
    requires s.readers[i].reader.pc in {R.FirstPoll, R.LoopPoll} && s.readers[i].reader.fd == p.fd
    ensures var c := s.readers[i];
            Woken(p, s, c) <==>
              Watches(p, c.reader.closeFd) || (!s.sh.portOpen && R.PollTimeout(c.config, c.reader) < 0)
  {
    hide R.Step, ReadEnabled, R.PollTimeout, ReadOk, WriteOk, Conserved;
    var c := s.readers[i];
    if Watches(p, c.reader.closeFd) {
      forall e | ReadEnabled(p, s, c, e) && !PollFails(e)
        ensures R.Step(c.config, c.reader, e).pc == R.Threw(AsynchronousClose)
      {
        CloseWakesReaders(p, s, i, e);
      }
    } else if s.sh.portOpen || R.PollTimeout(c.config, c.reader) >= 0 {
      var e := LateReaderMayGoOn(p, s, c);
    } else {
      forall e | ReadEnabled(p, s, c, e) && !PollFails(e)
        ensures R.Step(c.config, c.reader, e).pc == R.Threw(AsynchronousClose)
      {
        ClosedPortEndsReader(p, s, c, e);
      }
    }
  }

  lemma LateWriterMayGoOn(p: Port, s: State, c: WriteCall) returns (e: Event)
    requires p.Valid() && c.writer.pc == W.LoopPoll && c.writer.fd == p.fd
    requires !Watches(p, c.writer.closeFd) && (s.sh.portOpen || c.writer.timeout >= 0)
    ensures WriteEnabled(p, s, c, e) && !PollFails(e)
    ensures W.Step(c.config, c.writer, e).pc != W.Threw(AsynchronousClose)
  {
    e := DidPoll(p.fd, c.writer.closeFd, c.writer.timeout, if s.sh.portOpen then Ready({POLLOUT}, {}) else TimedOut);
  }

  lemma ClosedPortEndsWriter(p: Port, s: State, c: WriteCall, e: Event)
    requires Inv(p, s) && !s.sh.portOpen && WriteEnabled(p, s, c, e) && !PollFails(e)
    requires c.writer.pc == W.LoopPoll && c.writer.fd == p.fd && c.writer.timeout < 0
    ensures W.Step(c.config, c.writer, e).pc == W.Threw(AsynchronousClose)
  {
    hide EndTime, Remaining, Inv;
    LateCallsFindThePortClosed(p, s, ReadCall(R.Config(0, -1, 0), R.START, [], 0), c, e);
  }

  lemma WriterIsWokenIff(p: Port, s: State, i: nat)
    requires Inv(p, s) && s.sh.posted && i < |s.writers|
    requires s.writers[i].writer.pc == W.LoopPoll && s.writers[i].writer.fd == p.fd
    ensures var c := s.writers[i];
            WriterWoken(p, s, c) <==>
              Watches(p, c.writer.closeFd) || (!s.sh.portOpen && c.writer.timeout < 0)
  {
    hide W.Step, WriteEnabled, ReadOk, WriteOk, Conserved;
    var c := s.writers[i];
    if Watches(p, c.writer.closeFd) {
      forall e | WriteEnabled(p, s, c, e) && !PollFails(e)
        ensures W.Step(c.config, c.writer, e).pc == W.Threw(AsynchronousClose)
      {
        CloseWakesWriters(p, s, i, e);
      }
    } else if s.sh.portOpen || c.writer.timeout >= 0 {
      var e := LateWriterMayGoOn(p, s, c);
    } else {
      forall e | WriteEnabled(p, s, c, e) && !PollFails(e)
        ensures W.Step(c.config, c.writer, e).pc == W.Threw(AsynchronousClose)
      {
        ClosedPortEndsWriter(p, s, c, e);
      }
    }
  }

  /** A reader watches the event, from then on and for ever, iff it read the close descriptor when
      at most six of the eight steps of close0 had been made: the seventh clears that field. */
  lemma ReaderWatchesIff(p: Port, s: State, before: seq<Action>, i: nat, fd: int, after: seq<Action>)
    requires Init(p, s) && CanRun(p, s, before + [Read(i, FetchedCloseFd(fd))] + after)
    ensures var z := After(p, s, before + [Read(i, FetchedCloseFd(fd))] + after);
            && i < |z.readers|
            && (Watches(p, z.readers[i].reader.closeFd) <==> CloseSteps(before) <= 6)
            && z.readers[i].reader.closeFd == (if CloseSteps(before) <= 6 then p.eventReadFd else INVALID_FD)
  {
    hide EndTime, Remaining, CanRun, After, Inv;
    var a := Read(i, FetchedCloseFd(fd));
    RunSplit(p, s, before + [a], after);
    RunSplit(p, s, before, [a]);
    var x := After(p, s, before);
    OneStepTaken(p, x, a);
    CloseStepsAreDone(p, s, before);
    InitInv(p, s);
    RunKeepsInv(p, s, before);
    FieldIsClearedBySeventhStep(p, x);
    ReaderKeepsWatching(p, Next(p, x, a), after, i);
  }

  lemma WriterWatchesIff(p: Port, s: State, before: seq<Action>, i: nat, fd: int, after: seq<Action>)
    requires Init(p, s) && CanRun(p, s, before + [Write(i, FetchedCloseFd(fd))] + after)
    ensures var z := After(p, s, before + [Write(i, FetchedCloseFd(fd))] + after);
            && i < |z.writers|
            && (Watches(p, z.writers[i].writer.closeFd) <==> CloseSteps(before) <= 6)
            && z.writers[i].writer.closeFd == (if CloseSteps(before) <= 6 then p.eventReadFd else INVALID_FD)
  {
    hide EndTime, Remaining, CanRun, After, Inv;
    var a := Write(i, FetchedCloseFd(fd));
    RunSplit(p, s, before + [a], after);
    RunSplit(p, s, before, [a]);
    var x := After(p, s, before);
    OneStepTaken(p, x, a);
    CloseStepsAreDone(p, s, before);
    InitInv(p, s);
    RunKeepsInv(p, s, before);
    FieldIsClearedBySeventhStep(p, x);
    WriterKeepsWatching(p, Next(p, x, a), after, i);
  }

  lemma FieldIsClearedBySeventhStep(p: Port, s: State)
    requires Inv(p, s)
    ensures p.Valid()
    ensures s.sh.closeReadFd == if StepsDone(s.sh.pc) <= 6 then p.eventReadFd else INVALID_FD
  {}

  /** A call that has not read the close descriptor when close0 has cleared the field never watches
      the event in any later state. */
  lemma {:induction false} LateReaderNeverWatches(p: Port, s: State, actions: seq<Action>, i: nat)
    requires Inv(p, s) && CanRun(p, s, actions) && i < |s.readers|
    requires Line(s.sh.pc) > 85 && s.readers[i].reader.closeFd == INVALID_FD
    ensures var z := After(p, s, actions);
            && i < |z.readers| && Line(z.sh.pc) > 85
            && z.readers[i].reader.closeFd == INVALID_FD && !Watches(p, z.readers[i].reader.closeFd)
    decreases actions
  {
    if actions != [] {
      hide EndTime, Remaining;
      var a := actions[0];
      StepKeepsInv(p, s, a);
      LateReaderStays(p, s, a, i);
      LateReaderNeverWatches(p, Next(p, s, a), actions[1..], i);
    }
  }

  lemma LateReaderStays(p: Port, s: State, a: Action, i: nat)
    requires SharedOk(p, s.sh) && Enabled(p, s, a) && i < |s.readers|
    requires Line(s.sh.pc) > 85 && s.readers[i].reader.closeFd == INVALID_FD
    ensures Line(Next(p, s, a).sh.pc) > 85 && Next(p, s, a).readers[i].reader.closeFd == INVALID_FD
  {
    hide EndTime, Remaining, Judge;
  }

  lemma {:induction false} LateWriterNeverWatches(p: Port, s: State, actions: seq<Action>, i: nat)
    requires Inv(p, s) && CanRun(p, s, actions) && i < |s.writers|
    requires Line(s.sh.pc) > 85 && s.writers[i].writer.closeFd == INVALID_FD
    ensures var z := After(p, s, actions);
            && i < |z.writers| && Line(z.sh.pc) > 85
            && z.writers[i].writer.closeFd == INVALID_FD && !Watches(p, z.writers[i].writer.closeFd)
    decreases actions
  {
    if actions != [] {
      hide EndTime, Remaining;
      var a := actions[0];
      StepKeepsInv(p, s, a);
      LateWriterStays(p, s, a, i);
      LateWriterNeverWatches(p, Next(p, s, a), actions[1..], i);
    }
  }

  lemma LateWriterStays(p: Port, s: State, a: Action, i: nat)
    requires SharedOk(p, s.sh) && Enabled(p, s, a) && i < |s.writers|
    requires Line(s.sh.pc) > 85 && s.writers[i].writer.closeFd == INVALID_FD
    ensures Line(Next(p, s, a).sh.pc) > 85 && Next(p, s, a).writers[i].writer.closeFd == INVALID_FD
  {
    hide EndTime, Remaining, Judge;
  }

  // ---- A call that reads the close descriptor too late ----

  /** Once the port itself is closed a poll that is begun finds that out, also in a late call:
      unless the poll fails or times out, the call ends in AsynchronousCloseException. */
  lemma LateCallsFindThePortClosed(p: Port, s: State, c: ReadCall, w: WriteCall, e: Event)
    requires Inv(p, s) && !s.sh.portOpen
    ensures ReadEnabled(p, s, c, e) && c.reader.fd == p.fd && e.DidPoll? && e.outcome.Ready? ==>
              R.Step(c.config, c.reader, e).pc == R.Threw(AsynchronousClose)
    ensures WriteEnabled(p, s, w, e) && w.writer.fd == p.fd && e.DidPoll? && e.outcome.Ready? ==>
              W.Step(w.config, w.writer, e).pc == W.Threw(AsynchronousClose)
  {
    assert POLLIN != POLLNVAL && POLLOUT != POLLNVAL;
    if e.DidPoll? && e.outcome.Ready? && e.outcome.port == {POLLNVAL} {
      assert POLLNVAL in e.outcome.port && POLLHUP !in e.outcome.port;
      assert e.outcome.port != {POLLIN} && e.outcome.port != {POLLOUT};
    }
  }

  /** Such a call exists: a reader that fetched the port's descriptor before close0 began but the
      close descriptor after close0 cleared it waits although the event is posted, until the
      port itself is closed. */
  lemma LateReaderIsNotWoken(p: Port) returns (s: State, actions: seq<Action>)
    requires p.Valid()
    ensures Init(p, s) && CanRun(p, s, actions)
    ensures var z := After(p, s, actions);
            && z.sh.posted && z.sh.portOpen && |z.readers| == 1
            && z.readers[0].reader.pc == R.FirstPoll && z.readers[0].reader.fd == p.fd
            && !Watches(p, z.readers[0].reader.closeFd)
            && !Enabled(p, z, Read(0, DidPoll(p.fd, INVALID_FD, -1, Ready({}, {POLLIN}))))
            && !Enabled(p, z, Read(0, DidPoll(p.fd, INVALID_FD, -1, TimedOut)))
  {
    hide R.Step, W.Step, EndTime, Remaining, CanRun, After;
    var c := R.Config(1, -1, 100);
    var r := R.START.(pc := R.FetchCloseFd, fd := p.fd);
    s := State(Shared(p.fd, p.eventReadFd, p.eventWriteFd, true, false, FetchFd, INVALID_FD, INVALID_FD),
               [], [], [], [], [ReadCall(c, R.START, [], 0)], []);
    var s1, first := EarlyFetch(p, s, c);
    var s2, closes := SevenCloseSteps(p, s1);
    RunAppend(p, s, first, closes);
    var rest := LateFetchAndRead(p, s2, c, r);
    RunAppend(p, s, first + closes, rest);
    actions := first + closes + rest;
    NotEnabled(p, After(p, s, actions));
  }

  lemma EarlyFetch(p: Port, s: State, c: R.Config) returns (z: State, actions: seq<Action>)
    requires s.sh.fd == p.fd && |s.readers| == 1 && s.readers[0].config == c && s.readers[0].reader == R.START
    ensures CanRun(p, s, actions) && After(p, s, actions) == z
    ensures z.sh == s.sh && |z.readers| == 1
    ensures z.readers[0].config == c && z.readers[0].reader == R.START.(pc := R.FetchCloseFd, fd := p.fd)
  {
    var fetch := Read(0, FetchedFd(p.fd));
    OneStep(p, s, fetch);
    z, actions := Next(p, s, fetch), [fetch];
  }

  lemma NotEnabled(p: Port, z: State)
    requires z.sh.portOpen && |z.readers| == 1 && !Watches(p, INVALID_FD)
    ensures !Enabled(p, z, Read(0, DidPoll(p.fd, INVALID_FD, -1, Ready({}, {POLLIN}))))
    ensures !Enabled(p, z, Read(0, DidPoll(p.fd, INVALID_FD, -1, TimedOut)))
  {
    hide R.Step, W.Step;
  }

  lemma LateFetchAndRead(p: Port, s: State, c: R.Config, r: R.Reader) returns (actions: seq<Action>)
    requires p.Valid() && c == R.Config(1, -1, 100) && r == R.START.(pc := R.FetchCloseFd, fd := p.fd)
    requires s.sh.posted && s.sh.portOpen && s.sh.closeReadFd == INVALID_FD
    requires |s.readers| == 1 && s.readers[0].config == c && s.readers[0].reader == r
    ensures CanRun(p, s, actions)
    ensures var z := After(p, s, actions);
            && z.sh == s.sh && |z.readers| == 1
            && z.readers[0].config == c && z.readers[0].reader == r.(pc := R.FirstPoll, closeFd := INVALID_FD)
  {
    var late, read := Read(0, FetchedCloseFd(INVALID_FD)), Read(0, DidRead(p.fd, 1, Moved([])));
    var r' := r.(pc := R.FirstRead, closeFd := INVALID_FD);
    var z := Next(p, s, late);
    OneStep(p, s, late);
    assert R.OnRead(c, r', Moved([])) == r'.(pc := R.FirstPoll);
    RunOn(p, s, [late], z, read);
    actions := [late] + [read];
  }

  lemma OneStep(p: Port, s: State, a: Action)
    requires Enabled(p, s, a)
    ensures CanRun(p, s, [a]) && After(p, s, [a]) == Next(p, s, a)
  {}

  lemma RunOn(p: Port, s: State, actions: seq<Action>, z: State, a: Action)
    requires CanRun(p, s, actions) && After(p, s, actions) == z && Enabled(p, z, a)
    ensures CanRun(p, s, actions + [a]) && After(p, s, actions + [a]) == Next(p, z, a)
  {
    RunAppend(p, s, actions, [a]);
  }

  lemma {:induction false} RunAppend(p: Port, s: State, a: seq<Action>, b: seq<Action>)
    requires CanRun(p, s, a) && CanRun(p, After(p, s, a), b)
    ensures CanRun(p, s, a + b) && After(p, s, a + b) == After(p, After(p, s, a), b)
    decreases a
  {
    hide R.Step, W.Step, Permits, ReadNext, WriteNext, CloseStep;
    if a == [] {
      assert a + b == b;
    } else {
      RunAppend(p, Next(p, s, a[0]), a[1..], b);
      assert (a + b)[1..] == a[1..] + b;
    }
  }

  lemma SevenCloseSteps(p: Port, s: State) returns (z: State, actions: seq<Action>)
    requires p.Valid() && SharedOk(p, s.sh) && s.sh.pc == FetchFd
    ensures CanRun(p, s, actions) && After(p, s, actions) == z
    ensures z.sh == Shared(INVALID_FD, INVALID_FD, INVALID_FD, true, true, ClosePort, p.fd, p.eventWriteFd)
    ensures z.readers == s.readers
  {
    hide R.Step, W.Step;
    z, actions := s, [];
    for i := 0 to 7
      invariant CanRun(p, s, actions) && After(p, s, actions) == z
      invariant SharedOk(p, z.sh) && z.readers == s.readers
      invariant z.sh.pc == [FetchFd, InvalidateFd, FetchWriteFd, Post, Flush, ClearWriteFd, ClearReadFd, ClosePort][i]
    {
      var a := Close(i == 4); // the flush succeeds
      RunOn(p, s, actions, z, a);
      actions := actions + [a];
      z := Next(p, z, a);
    }
  }
}
