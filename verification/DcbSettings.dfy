/** setParams and getParams on a Windows DCB, proved against LineSettings. */
module DcbSettings {
  import opened Prelude
  import opened LineSettings
  import opened LineTheorems

  datatype StopField = OneStopBit | One5StopBits | TwoStopBits | OtherStopBits(value: int)
  datatype RtsControl = Disable | Enable | Handshake | Toggle

  /** A struct DCB: the fields that the code touches, and all others. `parity` counts from
      NOPARITY == 0 to SPACEPARITY == 4. */
  datatype Attrs = Attrs(
    baudRate: int, byteSize: int, stopBits: StopField, parity: int,
    rtsControl: RtsControl, outxCtsFlow: bool, inX: bool, outX: bool, others: seq<bool>)

  /** The states in which the stop field fits the data bits. Every call keeps this. */
  predicate Consistent(d: Attrs) {
    && 5 <= d.byteSize <= 8
    && 0 <= d.parity <= 4
    && !d.stopBits.OtherStopBits?
    && (d.byteSize == 5 ==> d.stopBits != TwoStopBits)
    && (d.byteSize != 5 ==> d.stopBits != One5StopBits)
  }

  function BitsOf(byteSize: int): DataBits {
    if byteSize == 5 then DB5 else if byteSize == 6 then DB6 else if byteSize == 7 then DB7 else DB8
  }

  function ParityOfField(parity: int): Parity {
    if parity == 0 then NoParity else if parity == 1 then Odd else if parity == 2 then Even
    else if parity == 3 then Mark else Space
  }

  /** The line that a DCB stands for. */
  function LineOf(d: Attrs): Line {
    Line(CodeOf(d.baudRate), BitsOf(d.byteSize), d.stopBits != OneStopBit, ParityOfField(d.parity),
         Flow(d.rtsControl == Handshake, d.outxCtsFlow, d.inX, d.outX))
  }

  /** What getParams gives for any DCB, consistent or not: the stop field stands for itself. */
  function Read(d: Attrs, groups: Word): Option<Word> {
    if (groups.speed != 0 && CodeOf(d.baudRate) == None)
       || (groups.dataBits != 0 && !(5 <= d.byteSize <= 8))
       || (groups.stopBits != 0 && d.stopBits.OtherStopBits?)
       || (groups.parity != 0 && !(0 <= d.parity <= 4))
    then None
    else Some(Word(if groups.speed != 0 then CodeOf(d.baudRate).value else 0,
                   0,
                   if groups.dataBits != 0 then d.byteSize - 4 else 0,
                   if groups.flow != NO_FLOW_BITS then FlowCode(LineOf(d).flow) else NO_FLOW_BITS,
                   if groups.stopBits != 0 then StopNibble(d.stopBits) else 0,
                   if groups.parity != 0 then d.parity + 1 else 0))
  }

  function StopNibble(s: StopField): Nibble
    requires !s.OtherStopBits?
  {
    match s case OneStopBit => STOP_1 case One5StopBits => STOP_1_5 case TwoStopBits => STOP_2
  }

  /** On consistent states that is the word of the line. */
  lemma ReadIsEncode(d: Attrs, groups: Word)
    requires Consistent(d)
    ensures Read(d, groups) == Encode(LineOf(d), groups)
  {
    hide CodeOf;
  }

  class Device {
    const faithful: bool
    var attrs: Attrs

    constructor (faithful: bool, attrs: Attrs)
      ensures this.faithful == faithful && this.attrs == attrs
    {
      this.faithful, this.attrs := faithful, attrs;
    }

    /** GetCommState */
    method GetState() returns (error: bool, d: Attrs)
      ensures d == attrs && (faithful ==> !error)
    {
      error, d := false, attrs;
      if !faithful {
        error := *;
      }
    }

    /** SetCommState */
    method SetState(d: Attrs) returns (error: bool)
      modifies this
      ensures faithful ==> !error && attrs == d
    {
      error, attrs := false, d;
      if !faithful {
        error, attrs := *, *;
      }
    }
  }

  /** The fields after an edit. Setting the data bits repairs the stop field: two becomes one and
      a half for five data bits, and the other way round for more. */
  predicate FieldsEdited(a: Attrs, b: Attrs, w: Word) {
    && b.others == a.others
    && (if w.speed != 0 then CodeOf(b.baudRate) == Some(w.speed) else b.baudRate == a.baudRate)
    && b.byteSize == (if w.dataBits != 0 then w.dataBits + 4 else a.byteSize)
    && b.stopBits == (if w.stopBits != 0 then StopFor(w.stopBits)
                      else if w.dataBits != 0 then Repaired(a.stopBits, b.byteSize) else a.stopBits)
    && b.parity == (if w.parity != 0 then w.parity - 1 else a.parity)
    && (if w.flow == NO_FLOW_BITS
        then b.rtsControl == a.rtsControl && b.outxCtsFlow == a.outxCtsFlow && b.inX == a.inX && b.outX == a.outX
        else Flow(b.rtsControl == Handshake, b.outxCtsFlow, b.inX, b.outX)
             == (if w.flow.none then FLOW_OFF else FlowOf(w.flow))
             && b.rtsControl in {Disable, Handshake})
  }

  function StopFor(code: Nibble): StopField {
    if code == STOP_1 then OneStopBit else if code == STOP_1_5 then One5StopBits else TwoStopBits
  }

  function Repaired(s: StopField, byteSize: int): StopField {
    if s == TwoStopBits && byteSize == 5 then One5StopBits
    else if s == One5StopBits && byteSize != 5 then TwoStopBits
    else s
  }

  predicate CanEdit(a: Attrs, w: Word) {
    && w.speed <= 31 && w.dataBits <= 4 && w.parity <= 5
    && LegalStopBits(w.stopBits, if w.dataBits == 0 then BitsOf(a.byteSize) else DataOf(w.dataBits).value)
  }

  // ---- The fields and the word, bit by bit ----

  /** What an edit leaves in the fields for each code that a group can have. */
  predicate FieldsSay(a: Attrs, b: Attrs, w: Word) {
    && b.others == a.others
    && (if w.speed == 0 then b.baudRate == a.baudRate else 1 <= w.speed <= 31 && b.baudRate == RATES[w.speed - 1])
    && b.byteSize == (if w.dataBits == 0 then a.byteSize else 4 + w.dataBits)
    && (w.stopBits == 1 ==> b.stopBits == OneStopBit)
    && (w.stopBits == 2 ==> b.stopBits == One5StopBits && b.byteSize == 5)
    && (w.stopBits == 3 ==> b.stopBits == TwoStopBits && b.byteSize != 5)
    && (w.stopBits == 0 && w.dataBits == 0 ==> b.stopBits == a.stopBits)
    && (w.stopBits == 0 && w.dataBits == 1 ==>
          b.stopBits == if a.stopBits == TwoStopBits then One5StopBits else a.stopBits)
    && (w.stopBits == 0 && w.dataBits > 1 ==>
          b.stopBits == if a.stopBits == One5StopBits then TwoStopBits else a.stopBits)
    && b.parity == (if w.parity == 0 then a.parity else w.parity - 1)
    && (if w.flow == NO_FLOW_BITS
        then b.rtsControl == a.rtsControl && b.outxCtsFlow == a.outxCtsFlow && b.inX == a.inX && b.outX == a.outX
        else
          && b.rtsControl == (if !w.flow.none && w.flow.rtsIn then Handshake else Disable)
          && b.outxCtsFlow == (!w.flow.none && w.flow.rtsOut)
          && b.inX == (!w.flow.none && w.flow.xonIn)
          && b.outX == (!w.flow.none && w.flow.xonOut))
  }

  /** The word that stands for the fields of the groups that are asked for. */
  predicate WordSays(d: Attrs, groups: Word, w: Word) {
    && w.unused == 0
    && (if groups.speed == 0 then w.speed == 0 else 1 <= w.speed <= 31 && d.baudRate == RATES[w.speed - 1])
    && (if groups.dataBits == 0 then w.dataBits == 0 else d.byteSize == 4 + w.dataBits)
    && (if groups.stopBits == 0 then w.stopBits == 0
        else match d.stopBits
          case OneStopBit => w.stopBits == 1
          case One5StopBits => w.stopBits == 2
          case TwoStopBits => w.stopBits == 3
          case OtherStopBits(_) => false)
    && (if groups.parity == 0 then w.parity == 0 else d.parity == w.parity - 1)
    && w.flow == (if groups.flow == NO_FLOW_BITS then NO_FLOW_BITS
                  else FlowBits(d.rtsControl != Handshake && !d.outxCtsFlow && !d.inX && !d.outX, false, false, false,
                                d.rtsControl == Handshake, d.outxCtsFlow, d.inX, d.outX))
  }

  /** Which words are accepted when the fields are `a`. */
  predicate Accepts(a: Attrs, w: Word) {
    && w.unused == 0 && w.speed <= 31 && w.dataBits <= 4
    && w.stopBits <= 3
    && (w.stopBits == 2 ==> w.dataBits == 1 || (w.dataBits == 0 && a.byteSize == 5))
    && (w.stopBits == 3 ==> w.dataBits > 1 || (w.dataBits == 0 && a.byteSize != 5))
    && w.parity <= 5
    && !w.flow.b17 && !w.flow.b18 && !w.flow.b19
    && (w.flow.none ==> !w.flow.rtsIn && !w.flow.rtsOut && !w.flow.xonIn && !w.flow.xonOut)
  }

  lemma FieldsAreSet(a: Attrs, b: Attrs, w: Word)
    requires CanEdit(a, w) && FieldsEdited(a, b, w)
    ensures FieldsSay(a, b, w)
  {
    hide CodeOf;
    if w.speed != 0 {
      SpeedRoundTrip(w.speed, b.baudRate);
    }
  }

  lemma LegalIsAccepts(a: Attrs, w: Word)
    ensures Legal(Dcb, LineOf(a), w) <==> Accepts(a, w)
  {
    hide CodeOf;
  }

  lemma ReadSays(d: Attrs, groups: Word)
    ensures Read(d, groups).Some? ==> WordSays(d, groups, Read(d, groups).value)
  {
    hide CodeOf;
    SpeedRoundTrip(0, d.baudRate);
  }

  lemma FieldsAreTheEdit(a: Attrs, b: Attrs, w: Word)
    requires Consistent(a)
    ensures Edit(Dcb, LineOf(a), w).Some? <==> CanEdit(a, w)
    ensures CanEdit(a, w) && FieldsEdited(a, b, w) ==> Consistent(b) && Edit(Dcb, LineOf(a), w) == Some(LineOf(b))
  {
    hide CodeOf, EditCommon, Repaired, StopFor, Consistent;
    CommonEdit(LineOf(a), w, true);
    if CanEdit(a, w) && FieldsEdited(a, b, w) {
      StopFieldFits(a, b, w);
    }
    assert Consistent(a) ==> 5 <= a.byteSize <= 8 by { SizeFits(a); }
  }

  lemma SizeFits(a: Attrs)
    ensures Consistent(a) ==> 5 <= a.byteSize <= 8
  {}

  /** After an edit the stop field fits the data bits again, and is as wide as it should be. */
  lemma StopFieldFits(a: Attrs, b: Attrs, w: Word)
    requires Consistent(a) && CanEdit(a, w) && FieldsEdited(a, b, w)
    ensures Consistent(b)
    ensures b.stopBits != OneStopBit <==> if w.stopBits != 0 then w.stopBits != STOP_1 else a.stopBits != OneStopBit
  {
    hide CodeOf, FlowOf;
  }

  /** The struct that setParams edits in place. */
  class Settings {
    var baudRate: int
    var byteSize: int
    var stopBits: StopField
    var parity: int
    var rtsControl: RtsControl
    var outxCtsFlow: bool
    var inX: bool
    var outX: bool
    var others: seq<bool>

    /** As GetCommState has filled it. */
    constructor (a: Attrs)
      ensures Snapshot() == a
    {
      baudRate, byteSize, stopBits, parity := a.baudRate, a.byteSize, a.stopBits, a.parity;
      rtsControl, outxCtsFlow, inX, outX, others := a.rtsControl, a.outxCtsFlow, a.inX, a.outX, a.others;
    }

    function Snapshot(): Attrs
      reads this
    {
      Attrs(baudRate, byteSize, stopBits, parity, rtsControl, outxCtsFlow, inX, outX, others)
    }

    /** setParams up to the call of SetCommState. */
    method EditInPlace(w: Word) returns (ok: bool)
      modifies this
      ensures ok <==> CanEdit(old(Snapshot()), w)
      ensures ok ==> FieldsEdited(old(Snapshot()), Snapshot(), w) && FieldsSay(old(Snapshot()), Snapshot(), w)
      ensures Consistent(old(Snapshot())) ==>
                && (ok <==> Edit(Dcb, LineOf(old(Snapshot())), w).Some?)
                && (ok ==> Consistent(Snapshot()) && Edit(Dcb, LineOf(old(Snapshot())), w) == Some(LineOf(Snapshot())))
    {
      hide Edit, LineOf, FieldsEdited, FieldsSay, CanEdit;
      ghost var a := Snapshot();
      ok := EditFields(w);
      if ok {
        FieldsAreSet(a, Snapshot(), w);
      }
      if Consistent(a) {
        FieldsAreTheEdit(a, Snapshot(), w);
      }
    }

    method EditFields(w: Word) returns (ok: bool)
      modifies this
      ensures ok <==> CanEdit(old(Snapshot()), w)
      ensures ok ==> FieldsEdited(old(Snapshot()), Snapshot(), w)
    {
      hide CodeOf, Repaired, StopFor, DataOf, FlowOf;
      ok := EditFrame(w);
      if ok {
        ok := EditModes(w);
      }
    }

    method EditFrame(w: Word) returns (ok: bool)
      modifies this`baudRate, this`byteSize, this`stopBits
      ensures ok <==> w.speed <= 31 && w.dataBits <= 4 &&
                      LegalStopBits(w.stopBits, if w.dataBits == 0 then if old(byteSize) == 5 then DB5 else DB8
                                                else DataOf(w.dataBits).value)
      ensures ok ==>
                && (if w.speed != 0 then CodeOf(baudRate) == Some(w.speed) else baudRate == old(baudRate))
                && byteSize == (if w.dataBits != 0 then w.dataBits + 4 else old(byteSize))
                && stopBits == (if w.stopBits != 0 then StopFor(w.stopBits)
                                else if w.dataBits != 0 then Repaired(old(stopBits), byteSize) else old(stopBits))
    {
      hide CodeOf, RateOf;
      if w.speed != 0 {
        if !IsSpeed(w.speed) {
          return false;
        }
        SpeedRoundTrip(w.speed, 0);
        baudRate := RateOf(w.speed);
      }
      if w.dataBits != 0 {
        match w.dataBits {
          case 1 => SetByteSize(5);
          case 2 => SetByteSize(6);
          case 3 => SetByteSize(7);
          case 4 => SetByteSize(8);
          case _ => return false;
        }
      }
      if w.stopBits != 0 {
        if w.stopBits == STOP_1 {
          stopBits := OneStopBit;
        } else if w.stopBits == STOP_1_5 {
          if byteSize != 5 {
            return false;
          }
          stopBits := One5StopBits;
        } else if w.stopBits == STOP_2 {
          if byteSize == 5 {
            return false;
          }
          stopBits := TwoStopBits;
        } else {
          return false;
        }
      }
      return true;
    }

    /** Set the data bits and repair the stop field. */
    method SetByteSize(size: int)
      modifies this`byteSize, this`stopBits
      ensures byteSize == size && stopBits == Repaired(old(stopBits), size)
    {
      byteSize := size;
      if size == 5 {
        if stopBits == TwoStopBits {
          stopBits := One5StopBits;
        }
      } else if stopBits == One5StopBits {
        stopBits := TwoStopBits;
      }
    }

    method EditModes(w: Word) returns (ok: bool)
      modifies this`parity, this`rtsControl, this`outxCtsFlow, this`inX, this`outX
      ensures ok <==> w.parity <= 5
      ensures ok ==>
                && parity == (if w.parity != 0 then w.parity - 1 else old(parity))
                && (if w.flow == NO_FLOW_BITS
                    then rtsControl == old(rtsControl) && outxCtsFlow == old(outxCtsFlow)
                         && inX == old(inX) && outX == old(outX)
                    else Flow(rtsControl == Handshake, outxCtsFlow, inX, outX)
                         == (if w.flow.none then FLOW_OFF else FlowOf(w.flow))
                         && rtsControl in {Disable, Handshake})
    {
      if w.parity != 0 {
        match w.parity {
          case 1 => parity := 0;
          case 2 => parity := 1;
          case 3 => parity := 2;
          case 4 => parity := 3;
          case 5 => parity := 4;
          case _ => return false;
        }
      }
      if w.flow != NO_FLOW_BITS {
        rtsControl, outxCtsFlow, outX, inX := Disable, false, false, false;
        if !w.flow.none {
          if w.flow.rtsIn {
            rtsControl := Handshake;
          }
          if w.flow.rtsOut {
            outxCtsFlow := true;
          }
          if w.flow.xonIn {
            inX := true;
          }
          if w.flow.xonOut {
            outX := true;
          }
        }
      }
      return true;
    }
  }

  /** The word is collected group by group; a value that no code stands for is an error. */
  method GetParams(dev: Device, groups: Word) returns (ok: bool, word: Word)
    ensures ok ==> Some(word) == Read(dev.attrs, groups)
    ensures dev.faithful ==> (ok <==> Read(dev.attrs, groups).Some?)
    ensures ok ==> WordSays(dev.attrs, groups, word)
  {
    hide CodeOf, WordSays;
    ReadSays(dev.attrs, groups);
    var error, d := dev.GetState();
    word := NO_PARAMS;
    if error {
      return false, word;
    }
    var speed: Byte, dataBits: Nibble, stopBits: Nibble, parity: Nibble, flow := 0, 0, 0, 0, NO_FLOW_BITS;
    if groups.speed != 0 {
      match CodeOf(d.baudRate) {
        case None => return false, word;
        case Some(code) => speed := code;
      }
    }
    if groups.dataBits != 0 {
      if !(5 <= d.byteSize <= 8) {
        return false, word;
      }
      dataBits := d.byteSize - 4;
    }
    if groups.stopBits != 0 {
      match d.stopBits {
        case OneStopBit => stopBits := STOP_1;
        case One5StopBits => stopBits := STOP_1_5;
        case TwoStopBits => stopBits := STOP_2;
        case OtherStopBits(_) => return false, word;
      }
    }
    if groups.parity != 0 {
      if !(0 <= d.parity <= 4) {
        return false, word;
      }
      parity := d.parity + 1;
    }
    if groups.flow != NO_FLOW_BITS {
      flow := ReadFlow(d);
    }
    return true, Word(speed, 0, dataBits, flow, stopBits, parity);
  }

  method ReadFlow(d: Attrs) returns (flow: FlowBits)
    ensures flow == FlowCode(LineOf(d).flow)
  {
    hide CodeOf;
    flow := NO_FLOW_BITS.(none := true);
    if d.rtsControl == Handshake {
      flow := flow.(none := false, rtsIn := true);
    }
    if d.outxCtsFlow {
      flow := flow.(none := false, rtsOut := true);
    }
    if d.inX {
      flow := flow.(none := false, xonIn := true);
    }
    if d.outX {
      flow := flow.(none := false, xonOut := true);
    }
  }

  /** setParams: edit the settings, write them, read the present groups back and compare. */
  method SetParams(settings: Settings, dev: Device, w: Word) returns (ok: bool)
    modifies settings, dev
    // Whatever the device does, success means that it reports the word that was asked for.
    ensures ok ==> Read(dev.attrs, w) == Some(w)
    // A rejection before SetCommState leaves the device alone.
    ensures !CanEdit(old(settings.Snapshot()), w) ==> !ok && dev.attrs == old(dev.attrs)
    // On a device that stores what it is given the call is the abstract one.
    ensures dev.faithful && Consistent(old(settings.Snapshot())) ==>
              var r := LineSettings.SetParams(Dcb, LineOf(old(settings.Snapshot())), w);
              && ok == r.ok
              && (if Edit(Dcb, LineOf(old(settings.Snapshot())), w) == None then dev.attrs == old(dev.attrs)
                  else Consistent(dev.attrs) && LineOf(dev.attrs) == r.line
                       && FieldsEdited(old(settings.Snapshot()), dev.attrs, w))
    ensures dev.faithful && CanEdit(old(settings.Snapshot()), w) ==>
              FieldsSay(old(settings.Snapshot()), dev.attrs, w)
  {
    hide FieldsSay, WordSays, CodeOf, Edit, LineOf, FieldsEdited, Read, CanEdit;
    ok := settings.EditInPlace(w);
    if !ok {
      return;
    }
    var error := dev.SetState(settings.Snapshot());
    if error {
      return false;
    }
    var read;
    ok, read := GetParams(dev, w);
    ok := ok && read == w;
    if Consistent(dev.attrs) {
      ReadIsEncode(dev.attrs, w);
    }
  }

  /** The Java method setParameters: the settings are those of the device. On a faithful device the
      call is the abstract one, and so it is accepted iff the word is legal for the line. */
  method SetParameters(dev: Device, w: Word) returns (ok: bool)
    modifies dev
    ensures ok ==> Read(dev.attrs, w) == Some(w)
    ensures !CanEdit(old(dev.attrs), w) ==> !ok && dev.attrs == old(dev.attrs)
    ensures dev.faithful && old(Consistent(dev.attrs)) ==>
              && Consistent(dev.attrs)
              && (ok <==> Legal(Dcb, old(LineOf(dev.attrs)), w))
              && (ok <==> Accepts(old(dev.attrs), w))
              && (ok ==> FieldsSay(old(dev.attrs), dev.attrs, w))
              && LineSettings.SetParams(Dcb, old(LineOf(dev.attrs)), w) == Result(ok, LineOf(dev.attrs))
  {
    hide CodeOf, Edit, LineOf, FieldsEdited, FieldsSay, Read, Legal, Accepts, CanEdit;
    var error, a := dev.GetState();
    if error {
      return false;
    }
    var settings := new Settings(a);
    ok := SetParams(settings, dev, w);
    LinesAreValid(a);
    AcceptedIffLegal(Dcb, LineOf(a), w);
    LegalIsAccepts(a, w);
    AcceptedCanEdit(a, w);
  }

  lemma AcceptedCanEdit(a: Attrs, w: Word)
    ensures Accepts(a, w) ==> CanEdit(a, w)
  {}

  lemma LinesAreValid(d: Attrs)
    ensures ValidLine(LineOf(d))
  {
    SpeedRoundTrip(0, d.baudRate);
  }
}
