# Verification of the SPSW serial-port drivers

This project models the parts of SPSW where a serial port can go wrong in interesting ways, and
proves what they promise: the POSIX read and write loops with their timeouts, the protocol by
which one thread closes a port under the feet of others, the port-parameter word and its two
backends, the comparator of port names, and the scripted mock port.

`dafny verify dfyconfig.toml` checks everything.

## How it is built

**Timed I/O** (`Deadline`, `Posix`, `ReaderProtocol`, `WriterProtocol`, `Kernel`, `ReadBuffer`,
`WriteBuffer`). `Posix.Event` has one constructor for each system call the native code makes and
each field of the socket it reads. `ReaderProtocol.Step` and `WriterProtocol.Step` say how one call
of `readBuffer` or `writeBuffer` goes on after each event; `Run` folds a history. The methods
`ReadBuffer` and `WriteBuffer` are the loops themselves, over a `Kernel` object that may answer
anything `Posix.KernelAllows` permits, and are proved to take exactly those steps; the byte buffer is
filled in place. All claims about bytes, exceptions, time and the number of polls are then proved for
every history, whatever the kernel does.

**Closing** (`CloseProtocol`, `Descriptors`). `CloseProtocol` interleaves any number of those same
readers and writers with one `close0`, at the grain of single system calls and single field accesses,
over one input queue and one output; the flush in `close0` throws the queued input away. `Descriptors` follows the descriptor table through `open0` with
each of its failure points, `close0` and the cleaner.

**Port parameters** (`LineSettings`, `LineTheorems`, `TermiosSettings`, `DcbSettings`,
`DeviceHistories`, `CommTimeouts`). A word is the record of its bit fields, and `LineSettings.PackIsInjective` says that
this is the same as its 32 bits. `LineSettings.Line` is what a word means independently of a backend.
The `Settings` classes edit a termios or a DCB in place, group by group, and each method is proved
against the abstract line; the theorems about acceptance, agreement of the backends and whole
histories are about the line, and `DeviceHistories` carries them over to devices that are given one
word after another.

**Port names** (`PortNameOrder`, `PortNameLaws`, `PortNamesComparator`). `CompareValue` is a run-wise
recursive comparison; `NameOrder` is the lexicographic order of keys. The class `Iterator` and the loop
with its virtual zeros are proved to compute `CompareValue`, and `CompareValue` to have the sign of
`NameOrder`.

**Mock port** (`MockPort`, `HexCodec`). The queue of requests and the two cursors are proved to consume
a prefix of one flat script.

## Assumptions

- `overallReadTimeout` and `overallWriteTimeout` reach the native code as -1 or a positive number, and
  the inter-byte timeout is not negative (GenericTermiosSerialPortSocket.java:162-178).
- `KernelAllows`: a poll lasts at most its timeout plus `slack`, every other call at most `slack`; a
  poll never times out early; a transfer moves no more than it is asked to. Nothing limits how small
  the chunks are. `patience` says only that the kernel does not return zero bytes for ever.
- In `CloseProtocol` poll is level-triggered, nobody reads the close event, and the number of a closed
  descriptor is not used again.
- Definitions that the code and its specification share (which characters are digits, what a flag or a
  code means, how a call ends) are pinned down by lemmas that do not use them: see the rows for
  `DecimalsAreOrdered`, `CallsEndAsTold`, `FlagsAreSet`, `WordIsASumOfConstants`, `DecodesTheNumber`.
- The clock, descriptor numbers, errors of system calls, the arrival of bytes, the moves of other
  threads and what a device does with its settings are nondeterministic choices.
- A faithful `Device` stores what it is given and no call on it fails; what holds of other devices is
  stated without that word. A faithful `CommPort` likewise.
- In `LineSettings` all optional speeds are defined. `stick` stands for PAREXT or CMSPAR, whichever the
  platform has, and may be absent.

## What the proofs found

- The int32 expression for the remaining time is safe for all starts if and only if the timeout is at
  most 2147483000 ms; the API accepts up to 2147483647.
- `writeBuffer` returns the size of its last chunk, a passed deadline reports that size too, and a
  failed write reports 0, although the API documents the number of bytes written. Each of the three
  can be relied on if and only if the call writes at most one byte; for every longer call there is
  a run that reports too little.
- An empty read inside the loop of `readBuffer` raises an exception without leaving the loop
  (TermiosIO.c:199-201), so that the native call can return bytes while its Java caller sees an
  exception and loses them. Every call that asks for a byte has such a run, even one that fills
  its buffer.
- When a call asked for bytes and none came, the API promises a TimeoutIOException. If a poll
  reports input and the read that follows is empty, the loop is entered without a byte, and the
  inter-byte timeout then ends in a normal return of 0. Every call that asks for a byte has such a
  run; without such a broken promise of poll there is none.
- A call watches the close event if and only if it read the close descriptor before close0 cleared
  that field, its seventh step. Whatever answer a poll gets ends the call, if and only if the poll
  watches the event, or is begun after the port itself was closed and has no timeout; between the
  two steps a late call can go on reading and waiting (`LateReaderIsNotWoken`). A writer reads that
  field only after its first write.
- `close0` flushes the port while readers may still be active, so input that has arrived can be lost
  in the middle: nothing is lost if and only if the queue was empty at the flush (or tcflush failed).
- When the close event cannot be created, `open0` closes the port but leaves its number in the field;
  the next `open0` on that object is then refused as already open.
- Java declares `closeFds` with the two event descriptors in the other order than C
  (GenericTermiosSerialPortSocket.java:49 and TermiosCommon.c:45). Each descriptor is still closed
  exactly once, but with a pipe the cleaner's wake-up is written to the read end.
- The two backends treat a word alike in every state if and only if RTS/CTS is set for both directions
  or none and NONE is not combined with a direction, or the word is illegal before flow control is
  looked at. Bits 8 to 11 do not matter for this.
- The comparator never looks at the first character: names of the same length that differ only there
  compare as equal.
- An empty data request blocks a mock port for ever once a single read or write has reached it.
- `MockInputStream.read` returns negative numbers for bytes above 127, and `MockOutputStream.write`
  refuses such bytes if they are given as 128 to 255: unsigned bytes written one by one to the script
  that holds them get through if and only if all are below 128.

## Model

| member | source | states |
|---|---|---|
| Deadline.EndTimeIsExact | de.ibapl.spsw.jniprovider/src/main/native/TermiosIO.c:72-83 | The end time is exactly start plus timeout, and when its nanoseconds are left at 1000000000 |
| Deadline.RemainingIsRounded | de.ibapl.spsw.jniprovider/src/main/native/TermiosIO.c:152-154 | The remaining time lies between floor and ceiling of the true remaining milliseconds |
| Deadline.RemainingIsSound | de.ibapl.spsw.jniprovider/src/main/native/TermiosIO.c:152-158 | A negative remaining time means that the deadline has passed; a check 1 ms late always gives one |
| Deadline.OverflowFreeIff | de.ibapl.spsw.jniprovider/src/main/native/TermiosIO.c:152-154 | The int32 expression overflows for no start and no check iff the timeout is at most 2147483000 |
| Deadline.LongTimeoutOverflows | de.ibapl.spsw.jniprovider/src/main/native/TermiosIO.c:152-154 | For every longer timeout, a start at which the expression overflows |
| ReaderProtocol.RemainingNeverOverflows | de.ibapl.spsw.jniprovider/src/main/native/TermiosIO.c:152-154 | In no run of a call with a safe timeout, on a kernel at most five days late, does the expression overflow |
| ReaderProtocol.CallsEndAsTold | de.ibapl.spsw.jniprovider/src/main/native/TermiosIO.c:49-210 | After every event of every run: whether the call is over, and with which return or exception, as a function of the last event, the number of polls and the bytes moved |
| ReaderProtocol.TimeoutIff | de.ibapl.spsw.jniprovider/src/main/native/TermiosIO.c:89-94 | TimeoutIOException exactly if the only poll of the call timed out and no byte had come |
| ReaderProtocol.CallsAskForTheRightThing | de.ibapl.spsw.jniprovider/src/main/native/TermiosIO.c:43-49 | Every read asks the port for just the missing bytes; every poll watches port and close event, for the overall timeout without a byte and for the smaller of the two timeouts in the loop |
| ReaderProtocol.RunIsAccounted | de.ibapl.spsw.jniprovider/src/main/native/TermiosIO.c:49-64 | At every point of every run the total is the number of bytes taken from the input, at most len |
| ReaderProtocol.ReturnReportsAllBytes | de.ibapl.spsw.jniprovider/src/main/native/TermiosIO.c:42-211 | A call that has returned reports exactly the bytes taken, for every chunking, and reaches its caller as a return iff no empty read was passed over |
| ReaderProtocol.PendingIsPassedOver | de.ibapl.spsw.jniprovider/src/main/native/TermiosIO.c:191-208 | In every run as many exceptions are pending as empty reads were passed over, those after which the field still named a descriptor |
| ReaderProtocol.ReturnsAreNormalIff | de.ibapl.spsw.jniprovider/src/main/native/TermiosIO.c:199-208 | The calls of which no run returns with an exception pending are exactly those that ask for no byte |
| ReaderProtocol.AllBytesAreLost | de.ibapl.spsw.jniprovider/src/main/native/TermiosIO.c:199-210 | For every other call a run that fills the whole buffer and is lost to its caller |
| ReaderProtocol.EmptyReadLosesAByte | de.ibapl.spsw.jniprovider/src/main/native/TermiosIO.c:163-201 | A run whose last event is a poll that timed out, and which loses a byte all the same |
| ReaderProtocol.NoByteNeedsABrokenPromise | de.ibapl.spsw.jniprovider/src/main/native/TermiosIO.c:104-165 | The loop, and a return of 0 to a call that asked for bytes, are reached without data only if a read came back empty after a poll that had reported input |
| ReaderProtocol.ReturnsHaveBytesIff | de.ibapl.spsw.jniprovider/src/main/native/TermiosIO.c:119-165 | The calls that can return 0 without data, and without an exception, are exactly those that ask for a byte |
| ReaderProtocol.ReturnOfNothing | de.ibapl.spsw.jniprovider/src/main/native/TermiosIO.c:119-165 | For each of them a run in which the inter-byte timeout ends a wait before any byte has come |
| ReaderProtocol.TimeoutLosesNothing | de.ibapl.spsw.jniprovider/src/main/native/TermiosIO.c:86-94 | TimeoutIOException only if no byte was taken, with 0 transferred, and not before the timeout is over |
| ReaderProtocol.TimeoutAfterAByteReturnsIt | de.ibapl.spsw.jniprovider/src/main/native/TermiosIO.c:145-165 | Once a byte has arrived the end of either timeout ends the call with all that was read; the caller gets it iff no empty read was passed over |
| ReaderProtocol.BytesAreLostIff | de.ibapl.spsw.jniprovider/src/main/native/TermiosIO.c:142-210 | Of the calls that took a byte, exactly those lose it that passed over an empty read or ended at a failed read or at a poll that did not time out |
| CloseProtocol.HangUpLosesBytes | de.ibapl.spsw.jniprovider/src/main/native/TermiosIO.c:171-189 | After a hang-up the queued input stays, the call throws, and in every continuation of the run the bytes it took stay with it |
| ReaderProtocol.CallEndsInTime | de.ibapl.spsw.jniprovider/src/main/native/TermiosIO.c:66-94 | A call with a positive timeout is over less than 1 ms after it, plus nine times the kernel's lateness |
| ReaderProtocol.PartialReturnIsEarned | de.ibapl.spsw.jniprovider/src/main/native/TermiosIO.c:147-165 | A short return has waited the inter-byte timeout, or less than 1 ms of the overall timeout is left |
| ReaderProtocol.PollsAreBounded | de.ibapl.spsw.jniprovider/src/main/native/TermiosIO.c:142-210 | At most len polls plus one for each empty read, and no more pending exceptions than empty reads |
| ReadBuffers.ReadBuffer | de.ibapl.spsw.jniprovider/src/main/native/TermiosIO.c:42-211 | The whole call takes a run of the protocol; the buffer starts with the bytes taken and is otherwise unchanged; how the call ends follows from the last event, and when it is a timeout; the time bound |
| ReadBuffers.ReadRest | de.ibapl.spsw.jniprovider/src/main/native/TermiosIO.c:137-210 | The loop keeps buffer, total and history in step and ends |
| ReadBuffers.ReadFirst | de.ibapl.spsw.jniprovider/src/main/native/TermiosIO.c:86-135 | The wait for the first bytes, with its dispatch on poll events |
| WriterProtocol.CallsEndAsTold | de.ibapl.spsw.jniprovider/src/main/native/TermiosIO.c:241-346 | After every event of every run: whether the call is over, and with which value or exception and byte count, as a function of the last event and the bytes handed over |
| WriterProtocol.TimeoutIff | de.ibapl.spsw.jniprovider/src/main/native/TermiosIO.c:291-308 | TimeoutIOException exactly if a poll timed out, reporting all bytes, or the clock was past the deadline, reporting the last chunk |
| WriterProtocol.CallsAskForTheRightThing | de.ibapl.spsw.jniprovider/src/main/native/TermiosIO.c:279-303 | Every write offers just the bytes that are left; every poll watches port and close event for what is left of the timeout |
| WriterProtocol.RunIsAccounted | de.ibapl.spsw.jniprovider/src/main/native/TermiosIO.c:240-347 | At every point of every run the output has grown by exactly data[0..offset] |
| WriterProtocol.WritesExactlyAPrefix | de.ibapl.spsw.jniprovider/src/main/native/TermiosIO.c:240-347 | A prefix of the data is handed over, all of it iff the call returns normally |
| WriterProtocol.PollExceptionsReportTheTotal | de.ibapl.spsw.jniprovider/src/main/native/TermiosIO.c:303-330 | Exceptions after a poll report the number of bytes handed over |
| WriterProtocol.DeadlineReportsTheTotalIff | de.ibapl.spsw.jniprovider/src/main/native/TermiosIO.c:291-298 | The exception for a passed deadline reports the bytes written in all runs of a call iff it writes at most one byte; iff at most two, if no write comes back empty |
| WriterProtocol.DeadlineReportsTheLastChunk | de.ibapl.spsw.jniprovider/src/main/native/TermiosIO.c:291-298 | What that exception leaves out is exactly the bytes written before the last chunk |
| WriterProtocol.DeadlineAfterTwoChunks | de.ibapl.spsw.jniprovider/src/main/native/TermiosIO.c:288-298 | For every longer call and every timeout a run that reports less than was written |
| WriterProtocol.DeadlineCanReportLess | de.ibapl.spsw.jniprovider/src/main/native/TermiosIO.c:295-297 | A run in which two bytes went out and one is reported |
| WriterProtocol.FailedWriteReportsTheTotalIff | de.ibapl.spsw.jniprovider/src/main/native/TermiosIO.c:332-341 | The exception of a failed write reports the bytes written in all runs of a call iff it writes at most one byte |
| WriterProtocol.FailureAfterAByte | de.ibapl.spsw.jniprovider/src/main/native/TermiosIO.c:332-341 | For every longer call a run in which one byte was written and none is reported |
| WriterProtocol.ReturnIsTheTotalIff | de.ibapl.spsw.jniprovider/src/main/native/TermiosIO.c:343-346 | The value returned is the number of bytes written in all runs of a call iff it writes at most one byte |
| WriterProtocol.ReturnIsTheLastChunk | de.ibapl.spsw.jniprovider/src/main/native/TermiosIO.c:332-346 | What the value returned leaves out is exactly the bytes written before the last chunk |
| WriterProtocol.ReturnOfTheRest | de.ibapl.spsw.jniprovider/src/main/native/TermiosIO.c:332-346 | For every longer call a run that writes all bytes and returns one less |
| WriterProtocol.CallEndsInTime | de.ibapl.spsw.jniprovider/src/main/native/TermiosIO.c:264-301 | The time bound of a write, and no timeout a whole millisecond early |
| WriterProtocol.PollsAreBounded | de.ibapl.spsw.jniprovider/src/main/native/TermiosIO.c:288-345 | At most one poll for each byte plus one for each empty write |
| WriterProtocol.RemainingNeverOverflows | de.ibapl.spsw.jniprovider/src/main/native/TermiosIO.c:292-294 | In no run of a write with a safe timeout, on a kernel at most five days late, does the expression overflow |
| WriteBuffers.WriteBuffer | de.ibapl.spsw.jniprovider/src/main/native/TermiosIO.c:240-347 | The whole call takes a run of the protocol; all data on a normal end, a proper prefix otherwise; how the call ends follows from the last event; the time bound |
| WriteBuffers.WriteRest | de.ibapl.spsw.jniprovider/src/main/native/TermiosIO.c:288-346 | The loop keeps offset, last chunk and history in step and ends |
| CloseProtocol.StepKeepsInv | de.ibapl.spsw.jniprovider/src/main/native/TermiosCommon.c:67-90 | What every step of every reader, writer and close0 keeps |
| CloseProtocol.EveryRunConserves | de.ibapl.spsw.jniprovider/src/main/native/TermiosIO.c:42-347 | In every interleaving the input is shared out in order among the calls and the flush of close0, a reader has its own part, and the bytes handed to write() hold a prefix of each writer's data; what leaves the port is not meant |
| CloseProtocol.NothingIsLostIff | de.ibapl.spsw.jniprovider/src/main/native/TermiosCommon.c:78-80 | In every run no byte of the input is thrown away iff the queue was empty at the flush, and none while close0 has made at most four of its steps |
| CloseProtocol.FlushLosesOnePiece | de.ibapl.spsw.jniprovider/src/main/native/TermiosCommon.c:78-80 | The flush is the fifth step of close0 and the only one of a run; it throws away one contiguous piece of the input, exactly what is queued at that moment |
| CloseProtocol.CloseWakesReaders | de.ibapl.spsw.jniprovider/src/main/native/TermiosIO.c:99-103 | After the post a watching reader's poll can complete and ends the call with AsynchronousCloseException unless poll itself fails |
| CloseProtocol.CloseWakesWriters | de.ibapl.spsw.jniprovider/src/main/native/TermiosIO.c:312-316 | The same for writers |
| CloseProtocol.AtMostOneMoreTransfer | de.ibapl.spsw.jniprovider/src/main/native/TermiosCommon.c:70-76 | In every run each watching call makes at most one more read or write after the post |
| CloseProtocol.ReaderIsNotBlocked | de.ibapl.spsw.jniprovider/src/main/native/TermiosCommon.c:73-76 | After the post a watching reader that is not over can take a step |
| CloseProtocol.WriterIsNotBlocked | de.ibapl.spsw.jniprovider/src/main/native/TermiosCommon.c:73-76 | The same for writers |
| CloseProtocol.ReaderEndsInFourSteps | de.ibapl.spsw.jniprovider/src/main/native/TermiosIO.c:42-211 | After the post a watching reader takes at most four more steps in any run, and is then over |
| CloseProtocol.WriterEndsInThreeSteps | de.ibapl.spsw.jniprovider/src/main/native/TermiosIO.c:288-347 | After the post a watching writer takes at most three more steps |
| CloseProtocol.EarlyReaderWatches | de.ibapl.spsw.jniprovider/src/main/native/TermiosCommon.c:82-85 | A reader that read its descriptors before close0 clears the field watches the event in every later state |
| CloseProtocol.EarlyWriterWatches | de.ibapl.spsw.jniprovider/src/main/native/TermiosIO.c:279-283 | The same for a writer, which reads the field after its first write |
| CloseProtocol.ReaderIsWokenIff | de.ibapl.spsw.jniprovider/src/main/native/TermiosCommon.c:73-87 | Once the event is posted every answer to a poll on the port ends the call in AsynchronousCloseException, iff the poll watches the event, or is begun after the port was closed and has no timeout; a poll that itself fails is left aside |
| CloseProtocol.WriterIsWokenIff | de.ibapl.spsw.jniprovider/src/main/native/TermiosCommon.c:73-87 | The same for writers |
| CloseProtocol.ReaderWatchesIff | de.ibapl.spsw.jniprovider/src/main/native/TermiosCommon.c:82-85 | A reader watches the event for ever iff it read the close descriptor when at most six of the eight steps of close0 had been made |
| CloseProtocol.WriterWatchesIff | de.ibapl.spsw.jniprovider/src/main/native/TermiosCommon.c:82-85 | The same for writers |
| CloseProtocol.LateReaderNeverWatches | de.ibapl.spsw.jniprovider/src/main/native/TermiosCommon.c:84-85 | A reader that has no close descriptor when the field is cleared watches the event in no later state |
| CloseProtocol.LateWriterNeverWatches | de.ibapl.spsw.jniprovider/src/main/native/TermiosCommon.c:84-85 | The same for writers |
| CloseProtocol.LateReaderIsNotWoken | de.ibapl.spsw.jniprovider/src/main/native/TermiosIO.c:44-46 | A run in which a reader that read the field too late waits although the event is posted, the port not yet being closed |
| CloseProtocol.LateCallsFindThePortClosed | de.ibapl.spsw.jniprovider/src/main/native/TermiosIO.c:126-128 | After the port is closed a poll that reports anything ends a late call too |
| Descriptors.Socket.Open0 | de.ibapl.spsw.jniprovider/src/main/native/TermiosCommon.c:129-246 | Which answers of the system lead to which result, each an if-and-only-if on the first call that failed; every failure restores the open descriptors; which failure leaves a stale number; on success exactly the port and the event are added |
| Descriptors.Socket.ConfigureAndCreateEvent | de.ibapl.spsw.jniprovider/src/main/native/TermiosCommon.c:164-245 | What happens once the device is open, with its four configuring calls and the close event |
| Descriptors.Socket.Configure | de.ibapl.spsw.jniprovider/src/main/native/TermiosCommon.c:167-222 | The four calls that configure a port, each made if all before it succeeded |
| Descriptors.Socket.Close0 | de.ibapl.spsw.jniprovider/src/main/native/TermiosCommon.c:67-90 | The event is signalled before the port is closed, the fields are cleared, nothing else is closed |
| Descriptors.Socket.ImplCloseChannel | de.ibapl.spsw.jniprovider/src/main/java/de/ibapl/spsw/jniprovider/GenericTermiosSerialPortSocket.java:104-110 | After a close the cleaner keeps only the event's descriptors |
| Descriptors.Socket.CloseFds | de.ibapl.spsw.jniprovider/src/main/native/TermiosCommon.c:44-60 | Closes each given descriptor once, also when both event numbers are the same |
| Descriptors.Socket.RunCleaner | de.ibapl.spsw.jniprovider/src/main/java/de/ibapl/spsw/jniprovider/GenericTermiosSerialPortSocket.java:47-60 | What the cleaner closes and signals, with its arguments in the other order |
| Descriptors.Life | de.ibapl.spsw.jniprovider/src/main/native/TermiosCommon.c:44-246 | A life begins iff no call of open0 fails. While others open and close descriptors of their own, the port's number included once it is free, open, close and the cleaner leave exactly theirs, with no close of a number that is not open, for eventfd and pipe |
| Descriptors.EachIsClosedOnce | de.ibapl.spsw.jniprovider/src/main/native/TermiosCommon.c:44-90 | In that life each descriptor is closed exactly once |
| LineSettings.PackIsInjective | de.ibapl.spsw.jniprovider/src/main/native/include/de_ibapl_spsw_jniprovider_AbstractSerialPortSocket.h:72-117 | The groups of a word are the same as its 32 bits |
| LineSettings.WordIsASumOfConstants | de.ibapl.spsw.jniprovider/src/main/native/include/de_ibapl_spsw_jniprovider_AbstractSerialPortSocket.h:10-117 | The number of a word as the sum of the constants of the header |
| LineSettings.SpeedRoundTrip | de.ibapl.spsw.jniprovider/src/main/native/WinApiSettings.c:32-202 | The two speed lookups are inverse to each other |
| LineSettings.RatesRise | de.ibapl.spsw.jniprovider/src/main/native/include/de_ibapl_spsw_jniprovider_AbstractSerialPortSocket.h:10-73 | The rates rise with the codes |
| LineSettings.CodesOfRates | de.ibapl.spsw.jniprovider/src/main/native/include/de_ibapl_spsw_jniprovider_AbstractSerialPortSocket.h:10-73 | Which rates the codes stand for |
| LineTheorems.AcceptedIffLegal | de.ibapl.spsw.jniprovider/src/main/native/TermiosSettings.c:456-676 | Exact acceptance for every line and every word, for both backends, with and without a stick bit |
| LineTheorems.AbsentGroupsAreKept | de.ibapl.spsw.jniprovider/src/main/native/TermiosSettings.c:459-611 | A group that is absent is left alone, in rejected calls too |
| LineTheorems.BackendsAgreeIff | de.ibapl.spsw.jniprovider/src/main/native/WinApiSettings.c:426-451 | Exactly which words the backends treat alike in every state |
| LineTheorems.BackendsSimulateEachOther | de.ibapl.spsw.jniprovider/src/main/native/WinApiSettings.c:318-520 | Over every history of such words both give the same answers, the same line and the same word back |
| LineTheorems.AcceptedSetsCodes | de.ibapl.spsw.jniprovider/src/main/native/TermiosSettings.c:629-675 | One accepted call: each group has the code of the word or the one it had |
| LineTheorems.LastWriterWins | de.ibapl.spsw.jniprovider/src/main/native/TermiosSettings.c:290-420 | After any history of accepted calls getParams gives the last code set for each group, stop bits according to the data bits; it fails iff the speed was never set and the first rate has no code |
| TermiosSettings.Settings.EditInPlace | de.ibapl.spsw.jniprovider/src/main/native/TermiosSettings.c:456-611 | The edit of the flags is the abstract edit of the line; no flag outside the present groups changes |
| TermiosSettings.FieldsAreTheEdit | de.ibapl.spsw.jniprovider/src/main/native/TermiosSettings.c:459-611 | The flags, field by field, mean the edited line |
| TermiosSettings.FlagsAreSet | de.ibapl.spsw.jniprovider/src/main/native/TermiosSettings.c:459-611 | Bit by bit: csize, cstopb, parenb, parodd, stick, inpck, crtscts, ixoff, ixon and the rates for every code of every group |
| TermiosSettings.LegalIsAccepts | de.ibapl.spsw.jniprovider/src/main/native/TermiosSettings.c:459-674 | Which words are accepted, in terms of codes and flags |
| TermiosSettings.GetParams | de.ibapl.spsw.jniprovider/src/main/native/TermiosSettings.c:290-420 | A success gives the encoding of the line, which is also stated flag by flag; on a faithful device exactly when it fails |
| TermiosSettings.SetParams | de.ibapl.spsw.jniprovider/src/main/native/TermiosSettings.c:456-676 | Success means that the device reports the word, whatever the device does; early rejections leave it unchanged; exact on a faithful device |
| TermiosSettings.SetParameters | de.ibapl.spsw.jniprovider/src/main/native/TermiosSettings.c:942-954 | On a faithful device the call is the abstract one, it is accepted iff the word is legal, stated also in codes and flags, and an accepted call leaves just the flags of its codes |
| DcbSettings.ReadIsEncode | de.ibapl.spsw.jniprovider/src/main/native/WinApiSettings.c:204-316 | On consistent states the DCB's own stop field reads as the line's |
| DcbSettings.Settings.EditInPlace | de.ibapl.spsw.jniprovider/src/main/native/WinApiSettings.c:318-451 | The edit of the fields is the abstract edit and keeps the stop field consistent with the data bits |
| DcbSettings.Settings.SetByteSize | de.ibapl.spsw.jniprovider/src/main/native/WinApiSettings.c:330-365 | Setting the data bits repairs the stop field |
| DcbSettings.FieldsAreTheEdit | de.ibapl.spsw.jniprovider/src/main/native/WinApiSettings.c:318-451 | The fields mean the edited line, and the new state is consistent |
| DcbSettings.FieldsAreSet | de.ibapl.spsw.jniprovider/src/main/native/WinApiSettings.c:318-451 | Field by field: what every code of every group leaves in the DCB |
| DcbSettings.LegalIsAccepts | de.ibapl.spsw.jniprovider/src/main/native/WinApiSettings.c:318-517 | Which words are accepted, in terms of codes and fields |
| DcbSettings.GetParams | de.ibapl.spsw.jniprovider/src/main/native/WinApiSettings.c:204-316 | A success gives the word of the DCB, for any DCB, also stated field by field; on a faithful device exactly when it fails |
| DcbSettings.SetParams | de.ibapl.spsw.jniprovider/src/main/native/WinApiSettings.c:318-520 | Success means that the device reports the word, whatever the device does; early rejections leave any device unchanged; exact on a faithful device in a consistent state |
| DcbSettings.SetParameters | de.ibapl.spsw.jniprovider/src/main/native/WinApiSettings.c:318-520 | On a faithful device the call is the abstract one, is accepted iff the word is legal, stated also in codes and fields, leaves just the fields of its codes, and keeps the state consistent |
| DeviceHistories.RunBoth | de.ibapl.spsw.jniprovider/src/main/native/WinApiSettings.c:204-520 | The simulation on devices: a termios and a DCB for the same line, given the same words, answer alike, stay on the same line, keep the stop field consistent, and give the same word |
| DeviceHistories.RunTermios | de.ibapl.spsw.jniprovider/src/main/native/TermiosSettings.c:290-676 | Acceptance and last-writer-wins for whole histories on a termios device |
| DeviceHistories.RunDcb | de.ibapl.spsw.jniprovider/src/main/native/WinApiSettings.c:204-520 | The same on a DCB device |
| CommTimeouts.CommPort.SetTimeouts | de.ibapl.spsw.jniprovider/src/main/native/WinApiSettings.c:725-841 | After a success the three getters return what was set, without overflow, and the total timeouts for n bytes are the values set; a negative value never gets through, and on a faithful port nothing else is refused; rejections change nothing |
| PortNamesComparator.Compare | de.ibapl.spsw.api/src/main/java/de/ibapl/spsw/api/PortnamesComparator.java:101-138 | The loop computes CompareValue, has the sign of the key order, and is 0 exactly for names equal from the second character on |
| PortNamesComparator.CompareCharacters | de.ibapl.spsw.api/src/main/java/de/ibapl/spsw/api/PortnamesComparator.java:107-130 | One round keeps the iterators in step and the answer the same |
| PortNamesComparator.LineUp | de.ibapl.spsw.api/src/main/java/de/ibapl/spsw/api/PortnamesComparator.java:107-123 | Stuffing zeros lines up two runs without changing the answer; at most one iterator feeds zeros |
| PortNamesComparator.Iterator.GetNumberOfDigits | de.ibapl.spsw.api/src/main/java/de/ibapl/spsw/api/PortnamesComparator.java:61-70 | The length of the digit run, never reading past the end |
| PortNamesComparator.Iterator.Next | de.ibapl.spsw.api/src/main/java/de/ibapl/spsw/api/PortnamesComparator.java:85-92 | Moves one character on in the name with its virtual zeros |
| PortNamesComparator.AheadStuffed | de.ibapl.spsw.api/src/main/java/de/ibapl/spsw/api/PortnamesComparator.java:113-122 | The filled-up names compare as the names did |
| PortNameOrder.EqualRunsStep | de.ibapl.spsw.api/src/main/java/de/ibapl/spsw/api/PortnamesComparator.java:110-112 | Runs of the same length may be compared character by character |
| PortNameOrder.DiffIsNumeric | de.ibapl.spsw.api/src/main/java/de/ibapl/spsw/api/PortnamesComparator.java:128-130 | Runs of the same length differ first as their numeric values do |
| PortNameLaws.CompareRefinesKeyOrder | de.ibapl.spsw.api/src/main/java/de/ibapl/spsw/api/PortnamesComparator.java:101-138 | compare has the sign of the lexicographic order of keys, then of run lengths |
| PortNameLaws.CompareIsAntisymmetric | de.ibapl.spsw.api/src/main/java/de/ibapl/spsw/api/PortnamesComparator.java:101-138 | compare(b, a) is exactly -compare(a, b) |
| PortNameLaws.CompareIsTransitive | de.ibapl.spsw.api/src/main/java/de/ibapl/spsw/api/PortnamesComparator.java:101-138 | compare is transitive, strictly where one step is strict |
| PortNameLaws.CompareIsZeroIff | de.ibapl.spsw.api/src/main/java/de/ibapl/spsw/api/PortnamesComparator.java:85-106 | compare is 0 iff the lengths match and the names agree from index 1 on |
| PortNameLaws.KeyAndRunsDetermine | de.ibapl.spsw.api/src/main/java/de/ibapl/spsw/api/PortnamesComparator.java:132-137 | Keys and run lengths together determine a name |
| PortNameLaws.NumbersAreOrderedNaturally | de.ibapl.spsw.api/src/main/java/de/ibapl/spsw/api/PortnamesComparator.java:27-35 | Numbers behind a common beginning are ordered by value, however long; equal numbers by leading zeros |
| PortNameLaws.DecimalsAreOrdered | de.ibapl.spsw.api/src/main/java/de/ibapl/spsw/api/PortnamesComparator.java:27-35 | Names that end in the decimal digits of two numbers, behind a common beginning, are ordered as the numbers are, for all numbers |
| PortNameLaws.CharactersAreOrdered | de.ibapl.spsw.api/src/main/java/de/ibapl/spsw/api/PortnamesComparator.java:128-130 | Where names differ first in characters that are no digits, compare is the difference of those |
| PortNameLaws.NumbersComeAfterCharacters | de.ibapl.spsw.api/src/main/java/de/ibapl/spsw/api/PortnamesComparator.java:107-130 | A positive number comes after every other character |
| PortNameLaws.BeginningsComeFirst | de.ibapl.spsw.api/src/main/java/de/ibapl/spsw/api/PortnamesComparator.java:132-137 | A name comes before every longer name that it begins |
| MockPort.StepConsumes | de.ibapl.spsw.api/src/main/java/de/ibapl/spsw/mock/MockSerialPortSocket.java:125-257 | Every call consumes what it has seen from the front of the script and keeps the cursors inside the head request |
| MockPort.ScriptDecides | de.ibapl.spsw.api/src/main/java/de/ibapl/spsw/mock/MockSerialPortSocket.java:156-181 | The first item of the flat script decides how single reads and writes end |
| MockPort.ScriptDecidesArrayReads | de.ibapl.spsw.api/src/main/java/de/ibapl/spsw/mock/MockSerialPortSocket.java:184-214 | The first items of the script decide how array reads end, and when a range is out of bounds |
| MockPort.WrongByteIsSkipped | de.ibapl.spsw.api/src/main/java/de/ibapl/spsw/mock/MockSerialPortSocket.java:240-250 | A wrong byte is an error, and the expected byte is skipped |
| MockPort.ClosedRefuses | de.ibapl.spsw.api/src/main/java/de/ibapl/spsw/mock/MockSerialPortSocket.java:125-255 | Nothing works on a closed socket, and nothing changes |
| MockPort.NothingAvailable | de.ibapl.spsw.api/src/main/java/de/ibapl/spsw/mock/MockSerialPortSocket.java:130-148 | available() is 0 exactly if the next item is no byte to be read |
| MockPort.RunConsumesAPrefix | de.ibapl.spsw.api/src/main/java/de/ibapl/spsw/mock/MockSerialPortSocket.java:125-257 | Any run without violations consumes exactly a prefix of the script |
| MockPort.ChunkingIsInvisible | de.ibapl.spsw.api/src/main/java/de/ibapl/spsw/mock/MockSerialPortSocket.java:184-214 | Of two runs one sees the first items of the other, however the calls are chunked |
| MockPort.AllHandledIff | de.ibapl.spsw.api/src/main/java/de/ibapl/spsw/mock/MockSerialPortFactory.java:73-75 | The queue is empty iff the whole script has been dealt with |
| MockPort.AvailableIsWhatCanBeRead | de.ibapl.spsw.api/src/main/java/de/ibapl/spsw/mock/MockSerialPortSocket.java:130-148 | available() is what an unbounded array read returns |
| MockPort.ArrayReadTakes | de.ibapl.spsw.api/src/main/java/de/ibapl/spsw/mock/MockSerialPortSocket.java:198-210 | An array read makes progress, within its bound, and stops short only at the end of a request |
| MockPort.EmptyPayloadBlocksForEver | de.ibapl.spsw.api/src/main/java/de/ibapl/spsw/mock/MockSerialPortSocket.java:156-255 | Why data requests must not be empty: after one single read or write at an empty payload no sequence of calls gets any further |
| MockPort.ReadsAreProperIff | de.ibapl.spsw.api/src/main/java/de/ibapl/spsw/mock/MockSerialPortSocket.java:156-181 | A payload read byte by byte gives values from 0 to 255 iff it has no negative byte |
| MockPort.UnsignedWritesPassIff | de.ibapl.spsw.api/src/main/java/de/ibapl/spsw/mock/MockSerialPortSocket.java:228-255 | Unsigned bytes written one by one to the script that holds them get through and use it up iff all are below 128 |
| MockPort.MockSerialPortSocket.Read | de.ibapl.spsw.api/src/main/java/de/ibapl/spsw/mock/MockSerialPortSocket.java:156-181 | The call is StepRead on the queue and the cursors |
| MockPort.MockSerialPortSocket.ReadArray | de.ibapl.spsw.api/src/main/java/de/ibapl/spsw/mock/MockSerialPortSocket.java:184-214 | The call is StepReadArray; the array gets exactly the bytes seen and is otherwise unchanged |
| MockPort.MockSerialPortSocket.Write | de.ibapl.spsw.api/src/main/java/de/ibapl/spsw/mock/MockSerialPortSocket.java:228-255 | The call is StepWrite, with the cursor moved on even after a mismatch |
| MockPort.MockSerialPortSocket.Available | de.ibapl.spsw.api/src/main/java/de/ibapl/spsw/mock/MockSerialPortSocket.java:130-148 | The call is StepAvailable and changes nothing |
| MockPort.MockSerialPortFactory.AddFailingExchanges | de.ibapl.spsw.api/src/main/java/de/ibapl/spsw/mock/MockSerialPortFactory.java:81-88 | Appends the pair of requests as often as asked, or nothing if the hex is bad |
| MockPort.MockSerialPortFactory.ExpectedWrites | de.ibapl.spsw.api/src/main/java/de/ibapl/spsw/mock/MockSerialPortFactory.java:111-116 | Appends the write as often as asked |
| MockPort.RepeatIs | de.ibapl.spsw.api/src/main/java/de/ibapl/spsw/mock/MockSerialPortFactory.java:81-116 | How long a repeated block of requests is, and what stands where |
| HexCodec.BytesRoundTrip | de.ibapl.spsw.api/src/main/java/de/ibapl/spsw/mock/MockSerialPortSocket.java:276-294 | Bytes written out and read in are the same bytes |
| HexCodec.StringRoundTripIff | de.ibapl.spsw.api/src/main/java/de/ibapl/spsw/mock/MockSerialPortSocket.java:276-294 | A script read in and written out is the same iff it has even length and lower-case digits only |
| HexCodec.DecodesTheNumber | de.ibapl.spsw.api/src/main/java/de/ibapl/spsw/mock/MockSerialPortSocket.java:276-284 | The bytes of a script are the digits to the base 256 of the number that it spells in hex |
| HexCodec.EncodesTheNumber | de.ibapl.spsw.api/src/main/java/de/ibapl/spsw/mock/MockSerialPortSocket.java:286-294 | Bytes are written out as the lower-case hex digits of their number |
| HexCodec.ScriptIsReadIff | de.ibapl.spsw.api/src/main/java/de/ibapl/spsw/mock/MockSerialPortSocket.java:276-284 | A script can be read iff every pair is a digit or sign and a digit; an odd last character is dropped |
| HexCodec.PairIsReadIff | de.ibapl.spsw.api/src/main/java/de/ibapl/spsw/mock/MockSerialPortSocket.java:276-284 | Which pairs are read, and what signs do |
| HexCodec.Ascii2Bytes | de.ibapl.spsw.api/src/main/java/de/ibapl/spsw/mock/MockSerialPortSocket.java:276-284 | The loop decodes pair by pair, and when it throws |
| HexCodec.Bytes2Ascii | de.ibapl.spsw.api/src/main/java/de/ibapl/spsw/mock/MockSerialPortSocket.java:286-294 | The loop encodes byte by byte |

## Left out

- ReaderProtocol.CallEndsInTime: computes the remaining time in unbounded integers; for timeouts above 2147483000 ms, where the C expression overflows, it says nothing about the program.
- WriterProtocol.CallEndsInTime: the same.
- A poll timeout of 0, for which the native code reads an end time that was never set; Java never passes it on.
- The value that `writeBuffer` returns together with a pending exception; Java does not see it.
- CloseProtocol.LateReaderIsNotWoken: what a pending poll does when its own descriptor is closed is not modelled; a poll is one step, which sees the descriptors as they are when it completes.
- CloseProtocol.ReaderIsWokenIff: the same, so that without the event it speaks of polls begun after the close only.
- CloseProtocol.WriterIsWokenIff: the same.
- CloseProtocol.EveryRunConserves: output that was handed to write() and not yet transmitted is thrown away by the flush too; the transmitter is not modelled. Input still queued when the port is closed is read by nobody.
- `drainOutputBuffer`: a single poll with the same dispatch, then tcdrain.
- PortNamesComparator.Compare: only ASCII digits count as digits, and lengths are unbounded, so that the int overflow of names longer than 2^30 characters does not show.
- HexCodec.Ascii2Bytes: only ASCII digits, while Integer.parseInt takes all Unicode digits.
- MockPort.RunConsumesAPrefix: one socket to a factory; several sockets sharing a queue have their own cursors and would disturb each other.
- CommTimeouts.CommPort.SetTimeouts: the getters are functions of the stored timeouts; a GetCommTimeouts that fails in a getter is not modelled.
- errno values and the texts of exceptions; failures with different errno values are one failure.
- Speeds that a platform lacks, setInSpeed0 and setOutSpeed0, line status bits, break and XON/XOFF characters.
- The Windows I/O code, the Java streams, the asynchronous and logging wrappers and the Ser2Net provider.
