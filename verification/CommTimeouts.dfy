/** The Windows timeouts: three values in the five fields of a COMMTIMEOUTS, and back. */
module CommTimeouts {
  import opened Prelude

  const MAXDWORD: int := 0xFFFF_FFFF

  type Dword = x: int | 0 <= x < 0x1_0000_0000
  type Int32 = x: int | -0x8000_0000 <= x < 0x8000_0000

  datatype Timeouts = Timeouts(
    readInterval: Dword, readMultiplier: Dword, readConstant: Dword, writeMultiplier: Dword, writeConstant: Dword)

  datatype Failure = IllegalArgument | NativeError

  /** The cast from DWORD to int32_t. */
  function ToInt32(x: Dword): Int32 {
    if x < 0x8000_0000 then x else x - 0x1_0000_0000
  }

  /** How SetCommTimeouts ends: GetLastError() tells an ERROR_INVALID_PARAMETER from the rest. */
  datatype Answer = Stored | InvalidParameter | OtherError

  /** A port that stores the timeouts, or fails. A faithful one does not fail. */
  class CommPort {
    const faithful: bool
    var timeouts: Timeouts

    constructor (faithful: bool, timeouts: Timeouts)
      ensures this.faithful == faithful && this.timeouts == timeouts
    {
      this.faithful, this.timeouts := faithful, timeouts;
    }

    method GetCommTimeouts() returns (ok: bool, t: Timeouts)
      ensures t == timeouts && (faithful ==> ok)
    {
      ok, t := true, timeouts;
      if !faithful {
        ok := *;
      }
    }

    method SetCommTimeouts(t: Timeouts) returns (answer: Answer)
      modifies this
      ensures timeouts == (if answer == Stored then t else old(timeouts)) && (faithful ==> answer == Stored)
    {
      answer := Stored;
      if !faithful {
        answer := *;
      }
      if answer == Stored {
        timeouts := t;
      }
    }

    /** None is success. Nothing is changed unless all three values are accepted. A port may refuse
        legal values too, as an illegal argument or otherwise, and it may fail before the values
        are looked at; a negative value never gets through. */
    method SetTimeouts(interByteRead: Int32, overallRead: Int32, overallWrite: Int32) returns (r: Option<Failure>)
      modifies this
      ensures interByteRead < 0 || overallRead < 0 || overallWrite < 0 ==> r.Some?
      ensures faithful ==> r != Some(NativeError)
      ensures faithful ==>
                (r == Some(IllegalArgument) <==> interByteRead < 0 || overallRead < 0 || overallWrite < 0)
      ensures r.Some? ==> timeouts == old(timeouts)
      ensures r == None ==>
                && InterByteRead(timeouts) == interByteRead
                && OverallRead(timeouts) == overallRead
                && OverallWrite(timeouts) == overallWrite
                && NoOverflow(timeouts)
                && (interByteRead == 0 && overallRead > 0 <==> WaitsForFirstByteOnly(timeouts))
      // What is in force: the time allowed for a read or write does not depend on its size, except
      // for the special encoding, which Windows does not take as numbers.
      ensures r == None ==>
                && (forall n: nat :: WriteTotal(timeouts, n) == overallWrite)
                && (if interByteRead == 0 && overallRead > 0
                    then timeouts.readInterval == timeouts.readMultiplier == 0xFFFF_FFFF
                         && timeouts.readConstant == overallRead
                    else timeouts.readInterval == interByteRead
                         && forall n: nat :: ReadTotal(timeouts, n) == overallRead)
    {
      var ok, t := GetCommTimeouts();
      if !ok {
        return Some(NativeError);
      }
      if overallWrite < 0 {
        return Some(IllegalArgument);
      }
      if overallRead < 0 {
        return Some(IllegalArgument);
      }
      if interByteRead < 0 {
        return Some(IllegalArgument);
      }
      if interByteRead == 0 && overallRead > 0 {
        t := t.(readInterval := MAXDWORD, readMultiplier := MAXDWORD, readConstant := overallRead);
      } else {
        t := t.(readInterval := interByteRead, readMultiplier := 0, readConstant := overallRead);
      }
      t := t.(writeMultiplier := 0, writeConstant := overallWrite);
      var answer := SetCommTimeouts(t);
      match answer
      case Stored => return None;
      case InvalidParameter => return Some(IllegalArgument);
      case OtherError => return Some(NativeError);
    }
  }

  /** The total timeouts that Windows computes for n bytes. */
  function ReadTotal(t: Timeouts, n: nat): int {
    t.readMultiplier * n + t.readConstant
  }

  function WriteTotal(t: Timeouts, n: nat): int {
    t.writeMultiplier * n + t.writeConstant
  }

  /** The encoding for an overall timeout without an inter-byte timeout. */
  predicate WaitsForFirstByteOnly(t: Timeouts) {
    t.readInterval == MAXDWORD && t.readMultiplier == MAXDWORD
  }

  /** The values of the getters; see NoOverflow for the RuntimeException that they may throw. */
  function InterByteRead(t: Timeouts): Int32 {
    if WaitsForFirstByteOnly(t) then 0 else ToInt32(t.readInterval)
  }

  function OverallRead(t: Timeouts): Int32 {
    ToInt32(t.readConstant)
  }

  function OverallWrite(t: Timeouts): Int32 {
    ToInt32(t.writeConstant)
  }

  predicate NoOverflow(t: Timeouts) {
    InterByteRead(t) >= 0 && OverallRead(t) >= 0 && OverallWrite(t) >= 0
  }
}
