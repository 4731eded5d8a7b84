/**
  The descriptors of a port over its life: open0 with every failure point, close0, and the
  cleaner that closes what close0 leaves open.
 */
module Descriptors {
  import opened Posix

  datatype Op = Signal(fd: int) | CloseOf(fd: int)

  /** The calls of open0 that may fail, and how the system answered. */
  datatype Call = OpenDevice | GetAttributes | SetExclusive | ApplySettings | FlushQueues | CreateEvent
  datatype Answer = Answer(call: Call, ok: bool)

  /** The calls of open0 in their order. */
  const CALLS := [OpenDevice, GetAttributes, SetExclusive, ApplySettings, FlushQueues, CreateEvent]

  /** Call number `n` was the first to fail, and the last to be made. */
  predicate FailedFirst(answers: seq<Answer>, n: nat)
    requires n < 6
  {
    && |answers| == n + 1
    && (forall i | 0 <= i <= n :: answers[i].call == CALLS[i])
    && (forall i | 0 <= i < n :: answers[i].ok)
    && !answers[n].ok
  }

  /** Only one of the cases can hold. */
  lemma CasesExclude(got: seq<Answer>)
    ensures forall n | 0 <= n < 6 :: FailedFirst(got, n) ==> |got| == n + 1 && !got[n].ok
    ensures NoneFailed(got) ==> |got| == 6 && got[5].ok
  {}

  /** The answers to the configuring calls, after a successful open(2). */
  predicate Configuring(got: seq<Answer>, ok: bool) {
    && 1 <= |got| <= 4 && (ok ==> |got| == 4)
    && forall i | 0 <= i < |got| :: got[i] == Answer(CALLS[1 + i], i < |got| - 1 || ok)
  }

  /** What the answers of open0 add up to. */
  lemma AfterConfiguring(before: seq<Answer>, got: seq<Answer>, ok: bool, event: bool)
    requires Configuring(got, ok)
    ensures var all := before + [Answer(OpenDevice, true)] + got;
            !ok ==> 1 <= |got| <= 4 && FailedFirst(all[|before|..], |all| - |before| - 1)
    ensures var all := before + [Answer(OpenDevice, true)] + got + [Answer(CreateEvent, event)];
            ok ==> if event then NoneFailed(all[|before|..]) else FailedFirst(all[|before|..], 5)
  {
    assert (before + [Answer(OpenDevice, true)] + got)[|before|..] == [Answer(OpenDevice, true)] + got;
    assert (before + [Answer(OpenDevice, true)] + got + [Answer(CreateEvent, event)])[|before|..]
        == [Answer(OpenDevice, true)] + got + [Answer(CreateEvent, event)];
  }

  lemma FirstAnswer()
    ensures FailedFirst([Answer(OpenDevice, false)], 0)
  {}

  predicate NoneFailed(answers: seq<Answer>) {
    && |answers| == 6
    && (forall i | 0 <= i < 6 :: answers[i] == Answer(CALLS[i], true))
  }

  /** There is always a number that is not in use. */
  lemma {:induction false} Bound(s: set<int>) returns (b: nat)
    ensures forall x :: x in s ==> x < b
    decreases |s|
  {
    if x :| x in s {
      var c := Bound(s - {x});
      b := if x >= c then x + 1 else c;
      assert forall y :: y in s ==> y == x || y in s - {x};
    } else {
      b := 0;
    }
  }

  /** The process's descriptors. `ends` maps each descriptor that can signal a close event to the
      one that becomes readable: itself for an eventfd, the read end for the write end of a pipe. */
  class DescriptorTable {
    var open: set<int>
    var ends: map<int, int>
    var readable: set<int>
    /** What was signalled and closed with success, in order. */
    var log: seq<Op>
    /** How often close() was called with a number that was not open. */
    var badCloses: nat
    /** What the calls of open0 were answered, in order. */
    var answers: seq<Answer>

    constructor ()
      ensures open == {} && ends == map[] && readable == {} && log == [] && badCloses == 0 && answers == []
    {
      open, ends, readable, log, badCloses, answers := {}, map[], {}, [], 0, [];
    }

    /** The number of a new descriptor: any one that is not in use. */
    method Allocate() returns (fd: int)
      modifies this`open
      ensures fd >= 0 && fd !in old(open) && open == old(open) + {fd}
    {
      ghost var b := Bound(open);
      assert b !in open;
      fd :| fd >= 0 && fd !in open;
      open := open + {fd};
    }

    /** A new descriptor, or INVALID_FD. */
    method NewDescriptor(call: Call) returns (fd: int)
      modifies this`open, this`answers
      ensures fd == INVALID_FD ==> open == old(open)
      ensures fd != INVALID_FD ==> fd >= 0 && fd !in old(open) && open == old(open) + {fd}
      ensures answers == old(answers) + [Answer(call, fd != INVALID_FD)]
    {
      var ok := Ask(call);
      fd := INVALID_FD;
      if ok {
        fd := Allocate();
      }
    }

    /** open(2) */
    method OpenPort() returns (fd: int)
      modifies this`open, this`answers
      ensures fd == INVALID_FD ==> open == old(open)
      ensures fd != INVALID_FD ==> fd >= 0 && fd !in old(open) && open == old(open) + {fd}
      ensures answers == old(answers) + [Answer(OpenDevice, fd != INVALID_FD)]
    {
      fd := NewDescriptor(OpenDevice);
    }

    method Eventfd() returns (fd: int)
      modifies this`open, this`ends, this`answers
      ensures fd == INVALID_FD ==> open == old(open) && ends == old(ends)
      ensures fd != INVALID_FD ==>
                fd >= 0 && fd !in old(open) && open == old(open) + {fd} && ends == old(ends)[fd := fd]
      ensures answers == old(answers) + [Answer(CreateEvent, fd != INVALID_FD)]
    {
      fd := NewDescriptor(CreateEvent);
      if fd != INVALID_FD {
        ends := ends[fd := fd];
      }
    }

    method Pipe() returns (ok: bool, r: int, w: int)
      modifies this`open, this`ends, this`answers
      ensures answers == old(answers) + [Answer(CreateEvent, ok)]
      ensures !ok ==> open == old(open) && ends == old(ends)
      ensures ok ==> r >= 0 && w >= 0 && r != w && {r, w} !! old(open) && open == old(open) + {r, w}
      ensures ok ==> ends == (old(ends) - {r})[w := r]
    {
      r, w := INVALID_FD, INVALID_FD;
      ok := Ask(CreateEvent);
      if ok {
        r := Allocate();
        w := Allocate();
        ends := (ends - {r})[w := r];
      }
    }

    /** A call that the system answers as it likes. */
    method Ask(call: Call) returns (ok: bool)
      modifies this`answers
      ensures answers == old(answers) + [Answer(call, ok)]
    {
      ok := *;
      answers := answers + [Answer(call, ok)];
    }

    /** Whatever other parts of the process do meanwhile: they open and close any descriptors but
        `ours`, and leave us with `theirs`. */
    method OthersRun(ours: set<int>) returns (theirs: set<int>)
      requires ours <= open && INVALID_FD !in ours
      modifies this`open, this`ends
      ensures open == ours + theirs && ours !! theirs && INVALID_FD !in theirs
      ensures forall fd <- ours :: (fd in ends <==> fd in old(ends)) && (fd in ends ==> ends[fd] == old(ends)[fd])
    {
      theirs := *;
      theirs := theirs - ours - {INVALID_FD};
      var e: map<int, int> := *;
      ends := (e - ours) + (map fd | fd in ends && fd in ours :: ends[fd]);
      open := ours + theirs;
    }

    /** write(2) of the close event: it has an effect on an open end that can signal. */
    method Write(fd: int)
      modifies this`readable, this`log
      ensures if fd in open && fd in ends
              then readable == old(readable) + {ends[fd]} && log == old(log) + [Signal(fd)]
              else readable == old(readable) && log == old(log)
    {
      if fd in open && fd in ends {
        readable, log := readable + {ends[fd]}, log + [Signal(fd)];
      }
    }

    method Close(fd: int) returns (ok: bool)
      modifies this`open, this`log, this`badCloses
      ensures ok == (fd in old(open)) && open == old(open) - {fd}
      ensures log == old(log) + if ok then [CloseOf(fd)] else []
      ensures badCloses == old(badCloses) + if ok then 0 else 1
    {
      ok := fd in open;
      if ok {
        open, log := open - {fd}, log + [CloseOf(fd)];
      } else {
        badCloses := badCloses + 1;
      }
    }
  }

  /** Where open0 failed. */
  datatype OpenResult = Opened | AlreadyOpen | CannotOpen | CannotConfigure | NoCloseEvent

  /** The native part of GenericTermiosSerialPortSocket, and the copies that its cleaner keeps. */
  class Socket {
    const table: DescriptorTable
    /** Whether <sys/eventfd.h> was there at build time; otherwise a pipe is used. */
    const haveEventfd: bool
    var fd: int
    var closeEventReadFd: int
    var closeEventWriteFd: int
    var cleanerFd: int
    var cleanerReadFd: int
    var cleanerWriteFd: int

    constructor (table: DescriptorTable, haveEventfd: bool)
      ensures this.table == table && this.haveEventfd == haveEventfd && Closed()
      ensures cleanerFd == cleanerReadFd == cleanerWriteFd == INVALID_FD
    {
      this.table, this.haveEventfd := table, haveEventfd;
      fd, closeEventReadFd, closeEventWriteFd := INVALID_FD, INVALID_FD, INVALID_FD;
      cleanerFd, cleanerReadFd, cleanerWriteFd := INVALID_FD, INVALID_FD, INVALID_FD;
    }

    ghost predicate Closed()
      reads this
    {
      fd == closeEventReadFd == closeEventWriteFd == INVALID_FD
    }

    /** The fields name open descriptors, and the write end signals the read end. */
    ghost predicate IsOpen()
      reads this, table
    {
      && {fd, closeEventReadFd, closeEventWriteFd} <= table.open
      && fd >= 0 && closeEventReadFd >= 0 && closeEventWriteFd >= 0
      && fd != closeEventReadFd && fd != closeEventWriteFd
      && (closeEventReadFd == closeEventWriteFd <==> haveEventfd)
      && closeEventWriteFd in table.ends && table.ends[closeEventWriteFd] == closeEventReadFd
      && (closeEventReadFd in table.ends ==> haveEventfd)
    }

    /** The four calls that configure a port, each made if all before it succeeded. */
    method Configure(port: int) returns (ok: bool)
      modifies table`answers
      ensures old(table.answers) <= table.answers
      ensures Configuring(table.answers[|old(table.answers)|..], ok)
    {
      ok := table.Ask(GetAttributes); // tcgetattr
      if ok {
        ok := table.Ask(SetExclusive); // TIOCEXCL
      }
      if ok {
        ok := table.Ask(ApplySettings); // setParams if there are any, or tcsetattr
      }
      if ok {
        ok := table.Ask(FlushQueues); // tcflush
      }
    }

    /** open0. On success exactly the port and the close event's descriptors are added. On every
        failure the descriptors are what they were; the fd field is cleared again, except when
        the close event cannot be created: then it keeps the number of the closed descriptor. */
    method Open0() returns (result: OpenResult)
      requires closeEventReadFd == closeEventWriteFd == INVALID_FD || fd != INVALID_FD
      modifies this`fd, this`closeEventReadFd, this`closeEventWriteFd
      modifies table`open, table`ends, table`log, table`badCloses, table`answers
      // Which answers of the system lead to which result.
      ensures old(table.answers) <= table.answers
      ensures var got := table.answers[|old(table.answers)|..];
              && (result == AlreadyOpen <==> old(fd) != INVALID_FD)
              && (result == AlreadyOpen <==> got == [])
              && (result == CannotOpen <==> FailedFirst(got, 0))
              && (result == CannotConfigure <==> exists n | 1 <= n <= 4 :: FailedFirst(got, n))
              && (result == NoCloseEvent <==> FailedFirst(got, 5))
              && (result == Opened <==> NoneFailed(got))
      ensures result != Opened ==> table.open == old(table.open)
      ensures result == AlreadyOpen ==> unchanged(this) && unchanged(table)
      ensures result == CannotOpen || result == CannotConfigure ==> Closed()
      ensures result == NoCloseEvent ==>
                fd >= 0 && fd !in table.open && closeEventReadFd == closeEventWriteFd == INVALID_FD
      ensures result == Opened ==>
                && IsOpen()
                && {fd, closeEventReadFd, closeEventWriteFd} !! old(table.open)
                && table.open == old(table.open) + {fd, closeEventReadFd, closeEventWriteFd}
      ensures result == Opened || result == AlreadyOpen ==> table.log == old(table.log)
      ensures table.badCloses == old(table.badCloses)
    {
      hide FailedFirst, NoneFailed, Configuring;
      ghost var before := table.answers;
      if fd != INVALID_FD {
        CasesExclude([]);
        return AlreadyOpen;
      }
      var port := table.OpenPort();
      if port == INVALID_FD {
        fd := INVALID_FD;
        FirstAnswer();
        CasesExclude([Answer(OpenDevice, false)]);
        assert table.answers[|before|..] == [Answer(OpenDevice, false)];
        return CannotOpen;
      }
      fd := port;
      result := ConfigureAndCreateEvent(port, before);
      CasesExclude(table.answers[|before|..]);
    }

    /** The rest of open0, once the device is open. */
    method ConfigureAndCreateEvent(port: int, ghost before: seq<Answer>) returns (result: OpenResult)
      requires fd == port >= 0 && port in table.open && closeEventReadFd == closeEventWriteFd == INVALID_FD
      requires table.answers == before + [Answer(OpenDevice, true)]
      modifies this`fd, this`closeEventReadFd, this`closeEventWriteFd
      modifies table`open, table`ends, table`log, table`badCloses, table`answers
      ensures before <= table.answers
      ensures var got := table.answers[|before|..];
              match result
              case CannotConfigure => 2 <= |got| <= 5 && FailedFirst(got, |got| - 1)
              case NoCloseEvent => FailedFirst(got, 5)
              case Opened => NoneFailed(got)
              case _ => false
      ensures result != Opened ==> table.open == old(table.open) - {port}
      ensures result == CannotConfigure ==> Closed()
      ensures result == NoCloseEvent ==> fd == port && closeEventReadFd == closeEventWriteFd == INVALID_FD
      ensures result == Opened ==>
                && fd == port && IsOpen() && {closeEventReadFd, closeEventWriteFd} !! old(table.open)
                && table.open == old(table.open) + {closeEventReadFd, closeEventWriteFd}
                && table.log == old(table.log)
      ensures table.badCloses == old(table.badCloses)
    {
      hide FailedFirst, NoneFailed, Configuring;
      ghost var soFar := table.answers;
      var ok := Configure(port);
      ghost var cfg := table.answers[|soFar|..];
      assert table.answers == soFar + cfg;
      if !ok {
        AfterConfiguring(before, cfg, ok, false);
        ok := table.Close(port);
        fd := INVALID_FD;
        return CannotConfigure;
      }
      ghost var configured := ok;
      ok := CreateEvent();
      AfterConfiguring(before, cfg, configured, ok);
      if !ok {
        ok := table.Close(port);
        return NoCloseEvent;
      }
      return Opened;
    }

    /** The eventfd or the pipe of the close event. */
    method CreateEvent() returns (ok: bool)
      modifies this`closeEventReadFd, this`closeEventWriteFd
      modifies table`open, table`ends, table`answers
      ensures table.answers == old(table.answers) + [Answer(Call.CreateEvent, ok)]
      ensures !ok ==> table.open == old(table.open)
                      && closeEventReadFd == old(closeEventReadFd) && closeEventWriteFd == old(closeEventWriteFd)
      ensures ok ==>
                && closeEventReadFd >= 0 && closeEventWriteFd >= 0
                && {closeEventReadFd, closeEventWriteFd} !! old(table.open)
                && table.open == old(table.open) + {closeEventReadFd, closeEventWriteFd}
                && (closeEventReadFd == closeEventWriteFd <==> haveEventfd)
                && closeEventWriteFd in table.ends && table.ends[closeEventWriteFd] == closeEventReadFd
                && (closeEventReadFd in table.ends ==> haveEventfd)
    {
      if haveEventfd {
        var event := table.Eventfd();
        if event == INVALID_FD {
          return false;
        }
        closeEventReadFd, closeEventWriteFd := event, event;
      } else {
        var r, w;
        ok, r, w := table.Pipe();
        if !ok {
          return;
        }
        closeEventReadFd, closeEventWriteFd := r, w;
      }
      return true;
    }

    /** close0: the event is signalled while the port is still open, and only the port is closed. */
    method Close0() returns (ok: bool)
      modifies this`fd, this`closeEventReadFd, this`closeEventWriteFd
      modifies table`open, table`readable, table`log, table`badCloses
      ensures Closed()
      ensures old(IsOpen()) ==>
                && ok
                && table.open == old(table.open) - {old(fd)}
                && table.log == old(table.log) + [Signal(old(closeEventWriteFd)), CloseOf(old(fd))]
                && old(closeEventReadFd) in table.readable
                && table.badCloses == old(table.badCloses)
      ensures old(fd) !in old(table.open) ==> !ok && table.open == old(table.open)
    {
      var port := fd;
      fd := INVALID_FD;
      var event := closeEventWriteFd;
      table.Write(event);
      var flushed: bool := *; // the result of tcflush is ignored
      closeEventWriteFd := INVALID_FD;
      closeEventReadFd := INVALID_FD;
      ok := table.Close(port);
    }

    /** Open in Java: open0, and on success the cleaner gets its copies. */
    method Open() returns (result: OpenResult)
      requires closeEventReadFd == closeEventWriteFd == INVALID_FD || fd != INVALID_FD
      modifies this, table
      ensures result == Opened ==>
                && IsOpen() && Registered()
                && {fd, closeEventReadFd, closeEventWriteFd} !! old(table.open)
                && table.open == old(table.open) + {fd, closeEventReadFd, closeEventWriteFd}
      ensures result == Opened ==> table.log == old(table.log)
      ensures result != Opened ==> table.open == old(table.open) && cleanerFd == old(cleanerFd)
      ensures old(table.answers) <= table.answers
      ensures result == Opened <==> NoneFailed(table.answers[|old(table.answers)|..])
      ensures table.badCloses == old(table.badCloses)
    {
      result := Open0();
      if result == Opened {
        cleanerFd, cleanerReadFd, cleanerWriteFd := fd, closeEventReadFd, closeEventWriteFd;
      }
    }

    ghost predicate Registered()
      reads this
    {
      cleanerFd == fd && cleanerReadFd == closeEventReadFd && cleanerWriteFd == closeEventWriteFd
    }

    /** implCloseChannel in Java: close0, then the cleaner forgets the port. */
    method ImplCloseChannel() returns (ok: bool)
      modifies this, table
      requires IsOpen() && Registered()
      ensures ok && Closed() && cleanerFd == INVALID_FD
      ensures cleanerReadFd == old(closeEventReadFd) && cleanerWriteFd == old(closeEventWriteFd)
      ensures table.open == old(table.open) - {old(fd)}
      ensures table.log == old(table.log) + [Signal(old(closeEventWriteFd)), CloseOf(old(fd))]
      ensures table.badCloses == old(table.badCloses) && table.ends == old(table.ends)
      ensures table.answers == old(table.answers)
    {
      ok := Close0();
      cleanerFd := INVALID_FD;
    }

    /** closeFds, with the parameters in the order of the C function. */
    method CloseFds(port: int, readFd: int, writeFd: int)
      requires {port, readFd, writeFd} - {INVALID_FD} <= table.open && INVALID_FD !in table.open
      requires port == INVALID_FD || (port != readFd && port != writeFd)
      modifies table
      ensures table.open == old(table.open) - {port, readFd, writeFd}
      ensures table.badCloses == old(table.badCloses)
      ensures table.log == old(table.log)
                + (if writeFd in table.ends && writeFd != INVALID_FD then [Signal(writeFd)] else [])
                + (if port != INVALID_FD then [CloseOf(port)] else [])
                + (if writeFd != INVALID_FD then [CloseOf(writeFd)] else [])
                + (if readFd != INVALID_FD && readFd != writeFd then [CloseOf(readFd)] else [])
      ensures table.ends == old(table.ends) && table.answers == old(table.answers)
    {
      var ok;
      ghost var l := table.log;
      if writeFd != INVALID_FD {
        table.Write(writeFd);
      }
      l := l + if writeFd in table.ends && writeFd != INVALID_FD then [Signal(writeFd)] else [];
      assert table.log == l;
      if port != INVALID_FD {
        ok := table.Close(port);
      }
      l := l + if port != INVALID_FD then [CloseOf(port)] else [];
      assert table.log == l;
      if writeFd != INVALID_FD {
        ok := table.Close(writeFd);
      }
      l := l + if writeFd != INVALID_FD then [CloseOf(writeFd)] else [];
      assert table.log == l;
      if readFd != INVALID_FD && readFd != writeFd {
        ok := table.Close(readFd);
      }
    }

    /** The cleaner's run. Java declares closeFds with the two event descriptors in the other
        order, so each arrives in the place of the other: the wake-up reaches the event only if
        both numbers are the same; in the pipe variant it goes to the read end and is lost. */
    method RunCleaner()
      modifies table
      requires {cleanerFd, cleanerReadFd, cleanerWriteFd} - {INVALID_FD} <= table.open && INVALID_FD !in table.open
      requires cleanerReadFd != INVALID_FD && cleanerWriteFd != INVALID_FD
      requires cleanerFd != cleanerReadFd && cleanerFd != cleanerWriteFd
      ensures table.open == old(table.open) - {cleanerFd, cleanerReadFd, cleanerWriteFd}
      ensures table.badCloses == old(table.badCloses) && table.ends == old(table.ends)
      ensures table.answers == old(table.answers)
      ensures table.log == old(table.log)
                + (if cleanerReadFd in table.ends then [Signal(cleanerReadFd)] else [])
                + (if cleanerFd != INVALID_FD then [CloseOf(cleanerFd)] else [])
                + [CloseOf(cleanerReadFd)]
                + (if cleanerReadFd != cleanerWriteFd then [CloseOf(cleanerWriteFd)] else [])
    {
      CloseFds(cleanerFd, cleanerWriteFd, cleanerReadFd);
    }
  }

  /** How often a descriptor was closed in a log. */
  function Closes(log: seq<Op>, fd: int): nat {
    if log == [] then 0 else One(log[0], fd) + Closes(log[1..], fd)
  }

  /** Descriptor conservation over a whole life, while other parts of the process open and close
      descriptors of their own between open, close and the cleaner's run: at the end exactly theirs
      are open, no close ever hit a number that was not open, and each of the port's descriptors was
      closed exactly once, in the eventfd and in the pipe variant. Theirs may include the port's
      number, which is free after close0: the cleaner spares it because it has forgotten it. */
  method Life(s: Socket) returns (result: OpenResult, port: int, r: int, w: int, theirs: set<int>)
    requires s.Closed() && INVALID_FD !in s.table.open
    modifies s, s.table
    ensures s.table.badCloses == old(s.table.badCloses)
    ensures old(s.table.answers) <= s.table.answers
    ensures result == Opened <==> NoneFailed(s.table.answers[|old(s.table.answers)|..])
    ensures result != Opened ==> s.table.open == old(s.table.open)
    ensures result == Opened ==>
              && s.table.open == theirs && {r, w} !! theirs
              && {port, r, w} !! old(s.table.open) && port != r && port != w && (r == w <==> s.haveEventfd)
              && s.table.log == old(s.table.log) + Lifetime(port, r, w)
  {
    result := s.Open();
    port, r, w, theirs := s.fd, s.closeEventReadFd, s.closeEventWriteFd, {};
    if result == Opened {
      theirs := s.table.OthersRun({port, r, w});
      var ok := s.ImplCloseChannel();
      assert s.table.open == theirs + {r, w};
      theirs := s.table.OthersRun({r, w});
      ghost var l := s.table.log;
      assert r in s.table.ends <==> r == w;
      s.RunCleaner();
      assert s.table.open == theirs;
      if r == w {
        assert s.table.log == l + [Signal(r)] + [] + [CloseOf(r)] + [] == l + [Signal(r), CloseOf(r)];
      } else {
        assert s.table.log == l + [] + [] + [CloseOf(r)] + [CloseOf(w)] == l + [CloseOf(r), CloseOf(w)];
      }
    }
  }

  /** What happens between open and the end, in order. */
  function Lifetime(port: int, r: int, w: int): seq<Op> {
    [Signal(w), CloseOf(port)] + if r == w then [Signal(r), CloseOf(r)] else [CloseOf(r), CloseOf(w)]
  }

  lemma ClosesOfFour(l: seq<Op>, fd: int)
    requires |l| == 4
    ensures Closes(l, fd) == One(l[0], fd) + One(l[1], fd) + One(l[2], fd) + One(l[3], fd)
  {
    assert Closes(l[3..], fd) == One(l[3], fd) + Closes([], fd) by { assert l[3..][1..] == []; }
    assert Closes(l[2..], fd) == One(l[2], fd) + Closes(l[3..], fd) by { assert l[2..][1..] == l[3..]; }
    assert Closes(l[1..], fd) == One(l[1], fd) + Closes(l[2..], fd) by { assert l[1..][1..] == l[2..]; }
  }

  function One(op: Op, fd: int): nat {
    if op == CloseOf(fd) then 1 else 0
  }

  lemma EachIsClosedOnce(port: int, r: int, w: int, fd: int)
    requires port != r && port != w
    ensures Closes(Lifetime(port, r, w), fd) == if fd in {port, r, w} then 1 else 0
  {
    var l := Lifetime(port, r, w);
    if r == w {
      assert l == [Signal(w), CloseOf(port), Signal(r), CloseOf(r)];
    } else {
      assert l == [Signal(w), CloseOf(port), CloseOf(r), CloseOf(w)];
    }
    ClosesOfFour(l, fd);
  }
}
