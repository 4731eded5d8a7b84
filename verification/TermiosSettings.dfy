/** setParams and getParams on termios, proved against LineSettings. */
module TermiosSettings {
  import opened Prelude
  import opened LineSettings
  import opened LineTheorems

  datatype CharSize = CS5 | CS6 | CS7 | CS8

  /** A struct termios: the flags that the code touches by name, and all others. The speeds are
      reached only through cfgetispeed and its kin; they are given as rates. */
  datatype Attrs = Attrs(
    csize: CharSize, cstopb: bool, parenb: bool, parodd: bool, stick: bool, crtscts: bool,
    inpck: bool, ixon: bool, ixoff: bool, ispeed: int, ospeed: int, others: seq<bool>)

  /** The device behind a descriptor. A faithful one stores what it is given and reports no error;
      another one may report an error or store anything else. */
  class Device {
    const faithful: bool
    var attrs: Attrs

    constructor (faithful: bool, attrs: Attrs)
      ensures this.faithful == faithful && this.attrs == attrs
    {
      this.faithful, this.attrs := faithful, attrs;
    }

    /** tcgetattr */
    method GetAttr() returns (error: bool, a: Attrs)
      ensures a == attrs && (faithful ==> !error)
    {
      error, a := false, attrs;
      if !faithful {
        error := *;
      }
    }

    /** tcsetattr(fd, TCSANOW, ...) */
    method SetAttr(a: Attrs) returns (error: bool)
      modifies this
      ensures faithful ==> !error && attrs == a
    {
      error, attrs := false, a;
      if !faithful {
        error, attrs := *, *;
      }
    }
  }

  function BitsOf(size: CharSize): DataBits {
    match size case CS5 => DB5 case CS6 => DB6 case CS7 => DB7 case CS8 => DB8
  }

  /** The parity that the flags stand for; without a stick bit that bit is not looked at. */
  function ParityOfFlags(parenb: bool, parodd: bool, stick: bool, hasStick: bool): Parity {
    if !parenb then NoParity
    else if !parodd then (if hasStick && stick then Space else Even)
    else (if hasStick && stick then Mark else Odd)
  }

  /** The line that a termios stands for. */
  function LineOf(a: Attrs, hasStick: bool): Line {
    Line(if a.ispeed == a.ospeed then CodeOf(a.ispeed) else None,
         BitsOf(a.csize), a.cstopb, ParityOfFlags(a.parenb, a.parodd, a.stick, hasStick),
         Flow(a.crtscts, a.crtscts, a.ixoff, a.ixon))
  }

  /** Everything outside the groups of a word is as before. */
  predicate Untouched(a: Attrs, b: Attrs, w: Word, hasStick: bool) {
    && b.others == a.others
    && (w.speed == 0 ==> b.ispeed == a.ispeed && b.ospeed == a.ospeed)
    && (w.dataBits == 0 ==> b.csize == a.csize)
    && (w.stopBits == 0 ==> b.cstopb == a.cstopb)
    && (w.parity == 0 ==> b.parenb == a.parenb && b.parodd == a.parodd && b.stick == a.stick && b.inpck == a.inpck)
    && (w.flow == NO_FLOW_BITS ==> b.crtscts == a.crtscts && b.ixon == a.ixon && b.ixoff == a.ixoff)
    && (!hasStick ==> b.stick == a.stick)
  }

  /** The flags after an edit, field by field. */
  predicate FieldsEdited(a: Attrs, b: Attrs, w: Word, hasStick: bool) {
    && Untouched(a, b, w, hasStick)
    && (w.speed != 0 ==> b.ispeed == b.ospeed && CodeOf(b.ispeed) == Some(w.speed))
    && (w.dataBits != 0 ==> Some(BitsOf(b.csize)) == DataOf(w.dataBits))
    && (w.stopBits != 0 ==> b.cstopb == (w.stopBits != STOP_1))
    && (w.parity != 0 ==> ParityEdited(b.parenb, b.parodd, b.stick, b.inpck, w.parity, hasStick))
    && (w.flow != NO_FLOW_BITS ==> Flow(b.crtscts, b.crtscts, b.ixoff, b.ixon) == FlowOf(w.flow))
  }

  /** The first half of an edit: only the speeds, the data bits and the stop bits change. */
  predicate FrameEdited(a: Attrs, b: Attrs, w: Word) {
    && b == a.(ispeed := b.ispeed, ospeed := b.ospeed, csize := b.csize, cstopb := b.cstopb)
    && (if w.speed != 0 then b.ispeed == b.ospeed && CodeOf(b.ispeed) == Some(w.speed)
        else b.ispeed == a.ispeed && b.ospeed == a.ospeed)
    && (if w.dataBits != 0 then Some(BitsOf(b.csize)) == DataOf(w.dataBits) else b.csize == a.csize)
    && b.cstopb == (if w.stopBits != 0 then w.stopBits != STOP_1 else a.cstopb)
  }

  /** The second half: only the other flags change. */
  predicate ModesEdited(a: Attrs, b: Attrs, w: Word, hasStick: bool) {
    && b == a.(parenb := b.parenb, parodd := b.parodd, stick := b.stick, inpck := b.inpck,
               crtscts := b.crtscts, ixon := b.ixon, ixoff := b.ixoff)
    && (!hasStick ==> b.stick == a.stick)
    && (if w.parity != 0 then ParityEdited(b.parenb, b.parodd, b.stick, b.inpck, w.parity, hasStick)
        else b.parenb == a.parenb && b.parodd == a.parodd && b.stick == a.stick && b.inpck == a.inpck)
    && (if w.flow != NO_FLOW_BITS then Flow(b.crtscts, b.crtscts, b.ixoff, b.ixon) == FlowOf(w.flow)
        else b.crtscts == a.crtscts && b.ixon == a.ixon && b.ixoff == a.ixoff)
  }

  lemma HalvesMakeTheEdit(a: Attrs, m: Attrs, b: Attrs, w: Word, hasStick: bool)
    requires FrameEdited(a, m, w) && ModesEdited(m, b, w, hasStick)
    ensures FieldsEdited(a, b, w, hasStick)
  {
    hide CodeOf, ParityEdited, BitsOf, DataOf, FlowOf;
  }

  /** Input parity checking goes with the parity, and the flags are clean without one. */
  predicate ParityEdited(parenb: bool, parodd: bool, stick: bool, inpck: bool, code: Nibble, hasStick: bool) {
    && ParityOf(code).Some?
    && ParityOfFlags(parenb, parodd, stick, hasStick) == Representable(ParityOf(code).value, hasStick)
    && inpck == parenb
    && (!parenb ==> !parodd && (hasStick ==> !stick))
  }

  // ---- The flags and the word, bit by bit ----

  /** What an edit leaves in the flags for each code that a group can have; a group that is absent
      says nothing here, see Untouched. */
  predicate FlagsSay(b: Attrs, w: Word, hasStick: bool) {
    && (1 <= w.speed <= 31 ==> b.ispeed == b.ospeed == RATES[w.speed - 1])
    && (w.dataBits == 1 ==> b.csize == CS5)
    && (w.dataBits == 2 ==> b.csize == CS6)
    && (w.dataBits == 3 ==> b.csize == CS7)
    && (w.dataBits == 4 ==> b.csize == CS8)
    && (w.stopBits == 1 ==> !b.cstopb)
    && (w.stopBits == 2 ==> b.cstopb && b.csize == CS5)
    && (w.stopBits == 3 ==> b.cstopb && b.csize != CS5)
    && (w.parity == 1 ==> !b.parenb && !b.parodd && !b.inpck && (hasStick ==> !b.stick))
    && (w.parity == 2 ==> b.parenb && b.parodd && b.inpck && (hasStick ==> !b.stick))
    && (w.parity == 3 ==> b.parenb && !b.parodd && b.inpck && (hasStick ==> !b.stick))
    && (w.parity == 4 ==> b.parenb && b.parodd && b.inpck && (hasStick ==> b.stick))
    && (w.parity == 5 ==> b.parenb && !b.parodd && b.inpck && (hasStick ==> b.stick))
    && (w.flow != NO_FLOW_BITS ==>
          b.crtscts == w.flow.rtsIn && b.crtscts == w.flow.rtsOut
          && b.ixoff == w.flow.xonIn && b.ixon == w.flow.xonOut)
  }

  /** The word that stands for the flags of the groups that are asked for. */
  predicate WordSays(a: Attrs, hasStick: bool, groups: Word, w: Word) {
    && w.unused == 0
    && (if groups.speed == 0 then w.speed == 0
        else 1 <= w.speed <= 31 && a.ispeed == a.ospeed == RATES[w.speed - 1])
    && w.dataBits == (if groups.dataBits == 0 then 0
                      else match a.csize case CS5 => 1 case CS6 => 2 case CS7 => 3 case CS8 => 4)
    && w.stopBits == (if groups.stopBits == 0 then 0
                      else if !a.cstopb then 1 else if a.csize == CS5 then 2 else 3)
    && w.parity == (if groups.parity == 0 then 0
                    else if !a.parenb then 1
                    else if hasStick && a.stick then (if a.parodd then 4 else 5)
                    else if a.parodd then 2 else 3)
    && w.flow == (if groups.flow == NO_FLOW_BITS then NO_FLOW_BITS
                  else FlowBits(!a.crtscts && !a.ixoff && !a.ixon, false, false, false,
                                a.crtscts, a.crtscts, a.ixoff, a.ixon))
  }

  /** Which words are accepted when the flags are `a`. */
  predicate Accepts(a: Attrs, hasStick: bool, w: Word) {
    && w.unused == 0 && w.speed <= 31 && w.dataBits <= 4
    && w.stopBits <= 3
    && (w.stopBits == 2 ==> w.dataBits == 1 || (w.dataBits == 0 && a.csize == CS5))
    && (w.stopBits == 3 ==> w.dataBits > 1 || (w.dataBits == 0 && a.csize != CS5))
    && w.parity <= (if hasStick then 5 else 3)
    && !w.flow.b17 && !w.flow.b18 && !w.flow.b19 && w.flow.rtsIn == w.flow.rtsOut
    && (w.flow.none ==> !w.flow.rtsIn && !w.flow.xonIn && !w.flow.xonOut)
  }

  lemma FlagsAreSet(a: Attrs, b: Attrs, w: Word, hasStick: bool)
    requires CanEdit(a, w) && FieldsEdited(a, b, w, hasStick)
    ensures FlagsSay(b, w, hasStick)
  {
    hide CodeOf;
    if w.speed != 0 {
      SpeedRoundTrip(w.speed, b.ispeed);
    }
  }

  lemma LegalIsAccepts(a: Attrs, hasStick: bool, w: Word)
    ensures Legal(Termios(hasStick), LineOf(a, hasStick), w) <==> Accepts(a, hasStick, w)
  {
    hide CodeOf;
  }

  lemma EncodeSays(a: Attrs, hasStick: bool, groups: Word)
    ensures Encode(LineOf(a, hasStick), groups).Some? ==>
              WordSays(a, hasStick, groups, Encode(LineOf(a, hasStick), groups).value)
  {
    hide CodeOf;
    SpeedRoundTrip(0, a.ispeed);
  }

  /** The edit is not rejected. */
  predicate CanEdit(a: Attrs, w: Word) {
    && w.speed <= 31 && w.dataBits <= 4 && w.parity <= 5
    && LegalStopBits(w.stopBits, if w.dataBits == 0 then BitsOf(a.csize) else DataOf(w.dataBits).value)
    && w.flow.rtsIn == w.flow.rtsOut
  }

  lemma FieldsAreTheEdit(a: Attrs, b: Attrs, w: Word, hasStick: bool)
    ensures Edit(Termios(hasStick), LineOf(a, hasStick), w).Some? <==> CanEdit(a, w)
    ensures CanEdit(a, w) && FieldsEdited(a, b, w, hasStick) ==>
              Edit(Termios(hasStick), LineOf(a, hasStick), w) == Some(LineOf(b, hasStick))
  {
    hide CodeOf, EditCommon;
    CommonEdit(LineOf(a, hasStick), w, hasStick);
  }

  /** The struct that setParams edits in place. */
  class Settings {
    const hasStick: bool // PAREXT or CMSPAR is defined
    var csize: CharSize
    var cstopb: bool
    var parenb: bool
    var parodd: bool
    var stick: bool
    var crtscts: bool
    var inpck: bool
    var ixon: bool
    var ixoff: bool
    var ispeed: int
    var ospeed: int
    var others: seq<bool>

    /** As tcgetattr has filled it. */
    constructor (a: Attrs, hasStick: bool)
      ensures Snapshot() == a && this.hasStick == hasStick
    {
      this.hasStick := hasStick;
      csize, cstopb, parenb, parodd, stick, crtscts := a.csize, a.cstopb, a.parenb, a.parodd, a.stick, a.crtscts;
      inpck, ixon, ixoff, ispeed, ospeed, others := a.inpck, a.ixon, a.ixoff, a.ispeed, a.ospeed, a.others;
    }

    function Snapshot(): Attrs
      reads this
    {
      Attrs(csize, cstopb, parenb, parodd, stick, crtscts, inpck, ixon, ixoff, ispeed, ospeed, others)
    }

    ghost function TheLine(): Line
      reads this
    {
      LineOf(Snapshot(), hasStick)
    }

    /** setParams up to the call of tcsetattr. */
    method EditInPlace(w: Word) returns (ok: bool)
      modifies this
      ensures ok <==> Edit(Termios(hasStick), old(TheLine()), w).Some?
      ensures ok ==> TheLine() == Edit(Termios(hasStick), old(TheLine()), w).value
      ensures ok ==> FieldsEdited(old(Snapshot()), Snapshot(), w, hasStick) && FlagsSay(Snapshot(), w, hasStick)
    {
      hide Edit, LineOf, FieldsEdited, FlagsSay, CanEdit;
      ghost var a := Snapshot();
      ok := EditFields(w);
      if ok {
        FlagsAreSet(a, Snapshot(), w, hasStick);
      }
      FieldsAreTheEdit(a, Snapshot(), w, hasStick);
    }

    method EditFields(w: Word) returns (ok: bool)
      modifies this
      ensures ok <==> CanEdit(old(Snapshot()), w)
      ensures ok ==> FieldsEdited(old(Snapshot()), Snapshot(), w, hasStick)
    {
      hide FrameEdited, ModesEdited, FieldsEdited, BitsOf, DataOf, LegalStopBits;
      ghost var a := Snapshot();
      ok := EditFrame(w);
      if ok {
        ghost var m := Snapshot();
        ok := EditModes(w);
        if ok {
          HalvesMakeTheEdit(a, m, Snapshot(), w, hasStick);
        }
      }
    }

    method EditModes(w: Word) returns (ok: bool)
      modifies this`parenb, this`parodd, this`stick, this`inpck, this`crtscts, this`ixon, this`ixoff
      ensures ok <==> w.parity <= 5 && w.flow.rtsIn == w.flow.rtsOut
      ensures ok ==> ModesEdited(old(Snapshot()), Snapshot(), w, hasStick)
    {
      hide ParityEdited;
      ok := EditParityFlags(w);
      if ok {
        ok := EditFlowFlags(w);
      }
    }

    method EditFrame(w: Word) returns (ok: bool)
      modifies this`ispeed, this`ospeed, this`csize, this`cstopb
      ensures ok <==>
                w.speed <= 31 && w.dataBits <= 4 &&
                LegalStopBits(w.stopBits, if w.dataBits == 0 then BitsOf(old(csize)) else DataOf(w.dataBits).value)
      ensures ok ==> FrameEdited(old(Snapshot()), Snapshot(), w)
    {
      hide CodeOf, RateOf;
      ok := EditSpeeds(w);
      if ok {
        ok := EditCharSize(w);
      }
      if ok {
        ok := EditStopFlag(w);
      }
    }

    method EditSpeeds(w: Word) returns (ok: bool)
      modifies this`ispeed, this`ospeed
      ensures ok <==> w.speed == 0 || IsSpeed(w.speed)
      ensures ok && w.speed != 0 ==> ispeed == ospeed && CodeOf(ispeed) == Some(w.speed)
      ensures ok && w.speed == 0 ==> ispeed == old(ispeed) && ospeed == old(ospeed)
    {
      hide CodeOf, RateOf;
      if w.speed != 0 {
        if !IsSpeed(w.speed) {
          return false;
        }
        SpeedRoundTrip(w.speed, 0);
        ispeed, ospeed := RateOf(w.speed), RateOf(w.speed);
      }
      return true;
    }

    method EditCharSize(w: Word) returns (ok: bool)
      modifies this`csize
      ensures ok <==> w.dataBits <= 4
      ensures ok ==> BitsOf(csize) == if w.dataBits == 0 then BitsOf(old(csize)) else DataOf(w.dataBits).value
    {
      if w.dataBits != 0 {
        csize := CS5; // clears the bits of the mask
        match w.dataBits {
          case 1 => csize := CS5;
          case 2 => csize := CS6;
          case 3 => csize := CS7;
          case 4 => csize := CS8;
          case _ => return false;
        }
      }
      return true;
    }

    method EditStopFlag(w: Word) returns (ok: bool)
      modifies this`cstopb
      ensures ok <==> LegalStopBits(w.stopBits, BitsOf(csize))
      ensures ok ==> cstopb == if w.stopBits == 0 then old(cstopb) else w.stopBits != STOP_1
    {
      if w.stopBits != 0 {
        if w.stopBits == STOP_1 {
          cstopb := false;
        } else if w.stopBits == STOP_1_5 {
          if csize != CS5 {
            return false;
          }
          cstopb := true;
        } else if w.stopBits == STOP_2 {
          if csize == CS5 {
            return false;
          }
          cstopb := true;
        } else {
          return false;
        }
      }
      return true;
    }

    method EditParityFlags(w: Word) returns (ok: bool)
      modifies this`parenb, this`parodd, this`stick, this`inpck
      ensures ok <==> w.parity <= 5
      ensures ok && w.parity != 0 ==> ParityEdited(parenb, parodd, stick, inpck, w.parity, hasStick)
      ensures ok && w.parity == 0 ==>
                parenb == old(parenb) && parodd == old(parodd) && stick == old(stick) && inpck == old(inpck)
      ensures !hasStick ==> stick == old(stick)
    {
      if w.parity == 0 {
        return true;
      }
      parenb, parodd, stick := false, false, stick && !hasStick;
      match w.parity {
        case 1 => inpck := false;
        case 2 => parenb, parodd, inpck := true, true, true;
        case 3 => parenb, inpck := true, true;
        // Without a stick bit MARK and SPACE are set as ODD and EVEN, and fail when read back.
        case 4 => inpck, parenb, parodd, stick := true, true, true, stick || hasStick;
        case 5 => inpck, parenb, stick := true, true, stick || hasStick;
        case _ => return false;
      }
      return true;
    }

    method EditFlowFlags(w: Word) returns (ok: bool)
      modifies this`crtscts, this`ixon, this`ixoff
      ensures ok <==> w.flow == NO_FLOW_BITS || w.flow.rtsIn == w.flow.rtsOut
      ensures ok && w.flow == NO_FLOW_BITS ==>
                crtscts == old(crtscts) && ixon == old(ixon) && ixoff == old(ixoff)
      ensures ok && w.flow != NO_FLOW_BITS ==> Flow(crtscts, crtscts, ixoff, ixon) == FlowOf(w.flow)
    {
      if w.flow != NO_FLOW_BITS {
        crtscts := false;
        ixon, ixoff := false, false;
        if w.flow != FlowCode(FLOW_OFF) {
          if w.flow.rtsIn || w.flow.rtsOut {
            if w.flow.rtsIn && w.flow.rtsOut {
              crtscts := true;
            } else {
              return false;
            }
          }
          if w.flow.xonIn {
            ixoff := true;
          }
          if w.flow.xonOut {
            ixon := true;
          }
        }
      }
      return true;
    }
  }

  /** The word is collected group by group; a mismatch of the two speeds or a rate without a code
      is an error if the speed is asked for. */
  method GetParams(dev: Device, hasStick: bool, groups: Word) returns (ok: bool, word: Word)
    ensures ok ==> Some(word) == Encode(LineOf(dev.attrs, hasStick), groups)
    ensures dev.faithful ==> (ok <==> Encode(LineOf(dev.attrs, hasStick), groups).Some?)
    ensures ok ==> WordSays(dev.attrs, hasStick, groups, word)
  {
    hide CodeOf, ParityOfFlags, WordSays;
    EncodeSays(dev.attrs, hasStick, groups);
    var error, a := dev.GetAttr();
    word := NO_PARAMS;
    if error {
      return false, word;
    }
    var speed: Byte, dataBits: Nibble, stopBits: Nibble, parity: Nibble, flow := 0, 0, 0, 0, NO_FLOW_BITS;
    if groups.speed != 0 {
      if a.ispeed != a.ospeed {
        return false, word;
      }
      match CodeOf(a.ispeed) {
        case None => return false, word;
        case Some(code) => speed := code;
      }
    }
    if groups.dataBits != 0 {
      match a.csize {
        case CS5 => dataBits := 1;
        case CS6 => dataBits := 2;
        case CS7 => dataBits := 3;
        case CS8 => dataBits := 4;
      }
    }
    if groups.stopBits != 0 {
      stopBits := if !a.cstopb then STOP_1 else if a.csize == CS5 then STOP_1_5 else STOP_2;
    }
    if groups.parity != 0 {
      parity := ReadParity(a, hasStick);
    }
    if groups.flow != NO_FLOW_BITS {
      flow := ReadFlow(a);
    }
    return true, Word(speed, 0, dataBits, flow, stopBits, parity);
  }

  method ReadParity(a: Attrs, hasStick: bool) returns (code: Nibble)
    ensures code == ParityCode(ParityOfFlags(a.parenb, a.parodd, a.stick, hasStick))
  {
    if !a.parenb {
      code := 1;
    } else if !a.parodd {
      code := if hasStick && a.stick then 5 else 3;
    } else {
      code := if hasStick && a.stick then 4 else 2;
    }
  }

  /** NONE is set first and cleared by each of the others. */
  method ReadFlow(a: Attrs) returns (flow: FlowBits)
    ensures flow == FlowCode(Flow(a.crtscts, a.crtscts, a.ixoff, a.ixon))
  {
    flow := NO_FLOW_BITS.(none := true);
    if a.crtscts {
      flow := flow.(none := false, rtsIn := true, rtsOut := true);
    }
    if a.ixoff {
      flow := flow.(none := false, xonIn := true);
    }
    if a.ixon {
      flow := flow.(none := false, xonOut := true);
    }
  }

  /** setParams: edit the settings, write them, read the present groups back and compare. */
  method SetParams(settings: Settings, dev: Device, w: Word) returns (ok: bool)
    modifies settings, dev
    // Whatever the device does, success means that it reports the word that was asked for.
    ensures ok ==> Encode(LineOf(dev.attrs, settings.hasStick), w) == Some(w)
    // A rejection before tcsetattr leaves the device alone.
    ensures Edit(Termios(settings.hasStick), old(settings.TheLine()), w) == None ==> !ok && dev.attrs == old(dev.attrs)
    // On a device that stores what it is given the call is the abstract one.
    ensures dev.faithful && Edit(Termios(settings.hasStick), old(settings.TheLine()), w).Some? ==>
              && ok == LineSettings.SetParams(Termios(settings.hasStick), old(settings.TheLine()), w).ok
              && LineOf(dev.attrs, settings.hasStick)
                 == LineSettings.SetParams(Termios(settings.hasStick), old(settings.TheLine()), w).line
              && Untouched(old(settings.Snapshot()), dev.attrs, w, settings.hasStick)
              && FlagsSay(dev.attrs, w, settings.hasStick)
  {
    hide CodeOf, Edit, FlagsSay, WordSays;
    ok := settings.EditInPlace(w);
    if !ok {
      return;
    }
    var error := dev.SetAttr(settings.Snapshot());
    if error {
      return false;
    }
    var read;
    ok, read := GetParams(dev, settings.hasStick, w);
    ok := ok && read == w;
  }

  /** The Java method setParameters: the settings are those of the device. On a faithful device the
      call is the abstract one, and so it is accepted iff the word is legal for the line. */
  method SetParameters(dev: Device, hasStick: bool, w: Word) returns (ok: bool)
    modifies dev
    ensures ok ==> Encode(LineOf(dev.attrs, hasStick), w) == Some(w)
    ensures dev.faithful ==>
              && (ok <==> Legal(Termios(hasStick), old(LineOf(dev.attrs, hasStick)), w))
              && (ok <==> Accepts(old(dev.attrs), hasStick, w))
              && (ok ==> FlagsSay(dev.attrs, w, hasStick))
              && LineSettings.SetParams(Termios(hasStick), old(LineOf(dev.attrs, hasStick)), w)
                 == Result(ok, LineOf(dev.attrs, hasStick))
              && Untouched(old(dev.attrs), dev.attrs, w, hasStick)
  {
    hide CodeOf, Edit, Legal, Accepts, FlagsSay;
    var error, a := dev.GetAttr();
    if error {
      return false;
    }
    var settings := new Settings(a, hasStick);
    ok := SetParams(settings, dev, w);
    LinesAreValid(a, hasStick);
    AcceptedIffLegal(Termios(hasStick), LineOf(a, hasStick), w);
    LegalIsAccepts(a, hasStick, w);
  }

  lemma LinesAreValid(a: Attrs, hasStick: bool)
    ensures ValidLine(LineOf(a, hasStick))
  {
    SpeedRoundTrip(0, a.ispeed);
  }
}
