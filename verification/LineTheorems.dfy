/** What setParams and getParams promise, for both backends and for whole histories of calls. */
module LineTheorems {
  import opened Prelude
  import opened LineSettings

  // ---- Which words are accepted ----

  function BitsAfter(line: Line, w: Word): DataBits {
    match DataOf(w.dataBits) case Some(bits) => bits case None => line.bits
  }

  /** 1.5 stop bits go with five data bits only, 2 stop bits with all others only. */
  predicate LegalStopBits(code: Nibble, bits: DataBits) {
    code == 0 || code == STOP_1 || code == if bits == DB5 then STOP_1_5 else STOP_2
  }

  predicate LegalParity(code: Nibble, stick: bool) {
    code <= if stick then 5 else 3
  }

  /** The flow group is absent, exactly NONE, or made of the four direction bits only. */
  predicate LegalFlow(f: FlowBits) {
    !f.b17 && !f.b18 && !f.b19 && (f.none ==> FlowOf(f) == FLOW_OFF)
  }

  predicate RtsTogether(w: Word) {
    w.flow.rtsIn == w.flow.rtsOut
  }

  predicate Legal(b: Backend, line: Line, w: Word) {
    && w.unused == 0
    && w.speed <= 31
    && w.dataBits <= 4
    && LegalStopBits(w.stopBits, BitsAfter(line, w))
    && LegalParity(w.parity, b.HasStick())
    && LegalFlow(w.flow)
    && (b.Termios? ==> RtsTogether(w))
  }

  /** What the steps before the flow group do, in one go. */
  lemma CommonEdit(line: Line, w: Word, stick: bool)
    ensures EditCommon(line, w, stick) ==
            if w.speed <= 31 && w.dataBits <= 4 && LegalStopBits(w.stopBits, BitsAfter(line, w)) && w.parity <= 5
            then Some(Line(if w.speed == 0 then line.speed else Some(w.speed),
                           BitsAfter(line, w),
                           if w.stopBits == 0 then line.wide else w.stopBits != STOP_1,
                           if w.parity == 0 then line.parity else Representable(ParityOf(w.parity).value, stick),
                           line.flow))
            else None
  {
    assert DataOf(w.dataBits) == None <==> w.dataBits == 0 || w.dataBits > 4;
    assert ParityOf(w.parity) == None <==> w.parity == 0 || w.parity > 5;
  }

  /** Exact acceptance, for every line and every one of the 2^32 words. */
  lemma AcceptedIffLegal(b: Backend, line: Line, w: Word)
    requires ValidLine(line)
    ensures SetParams(b, line, w).ok <==> Legal(b, line, w)
  {
    hide EditCommon;
    CommonEdit(line, w, b.HasStick());
    if Edit(b, line, w).Some? {
      ReadBackIff(Edit(b, line, w).value, w);
    }
  }

  lemma ReadBackIff(l: Line, w: Word)
    requires ValidLine(l)
    ensures Encode(l, w) == Some(w) <==>
            && w.unused == 0
            && (w.speed != 0 ==> l.speed == Some(w.speed))
            && (w.dataBits != 0 ==> DataCode(l.bits) == w.dataBits)
            && (w.stopBits != 0 ==> StopCode(l) == w.stopBits)
            && (w.parity != 0 ==> ParityCode(l.parity) == w.parity)
            && (w.flow != NO_FLOW_BITS ==> FlowCode(l.flow) == w.flow)
  {}

  /** A group that is absent is left alone, in a rejected call too. */
  lemma AbsentGroupsAreKept(b: Backend, line: Line, w: Word)
    ensures var l := SetParams(b, line, w).line;
            && (w.speed == 0 ==> l.speed == line.speed)
            && (w.dataBits == 0 ==> l.bits == line.bits)
            && (w.stopBits == 0 ==> l.wide == line.wide)
            && (w.parity == 0 ==> l.parity == line.parity)
            && (w.flow == NO_FLOW_BITS ==> l.flow == line.flow)
            && (ValidLine(line) ==> ValidLine(l))
  {
    hide EditCommon;
    CommonEdit(line, w, b.HasStick());
  }

  // ---- The two backends ----

  /** RTS/CTS for both directions or none, and NONE alone. */
  predicate FlowAgrees(w: Word) {
    RtsTogether(w) && (w.flow.none ==> FlowOf(w.flow) == FLOW_OFF)
  }

  /** A group is illegal whatever the state of the line. */
  predicate HopelessBeforeFlow(w: Word) {
    || w.speed > 31
    || w.dataBits > 4
    || w.stopBits > 3
    || (w.dataBits != 0 && w.dataBits <= 4 && !LegalStopBits(w.stopBits, DataOf(w.dataBits).value))
    || w.parity > 5
  }

  /** Exactly which words the two backends treat alike, in whatever state: they answer the same
      and leave the same line behind, accepted or not, unused bits set or not. */
  lemma BackendsAgreeIff(w: Word)
    ensures (forall line :: SetParams(Termios(true), line, w) == SetParams(Dcb, line, w))
       <==> FlowAgrees(w) || HopelessBeforeFlow(w)
  {
    hide EditCommon;
    if FlowAgrees(w) || HopelessBeforeFlow(w) {
      forall line ensures SetParams(Termios(true), line, w) == SetParams(Dcb, line, w) {
        CommonEdit(line, w, true);
      }
    } else {
      var bits := if w.stopBits == STOP_1_5 then DB5 else DB8;
      var line := Line(None, bits, false, NoParity, Flow(false, false, w.flow.none, false));
      CommonEdit(line, w, true);
      assert SetParams(Termios(true), line, w) != SetParams(Dcb, line, w);
    }
  }

  /** The answers to a history of calls, and the line after it. */
  datatype History = History(answers: seq<bool>, line: Line)

  function Run(b: Backend, line: Line, ws: seq<Word>): History {
    if ws == [] then History([], line)
    else
      var before := Run(b, line, ws[..|ws| - 1]);
      var r := SetParams(b, before.line, ws[|ws| - 1]);
      History(before.answers + [r.ok], r.line)
  }

  /** The simulation: over every history of such words both backends, started on the same line,
      accept and reject the same calls and are left with the same line, so that getParams gives
      the same word from both for any groups. */
  lemma {:induction false} BackendsSimulateEachOther(line: Line, ws: seq<Word>, groups: Word)
    requires forall w <- ws :: FlowAgrees(w) || HopelessBeforeFlow(w)
    ensures Run(Termios(true), line, ws) == Run(Dcb, line, ws)
    ensures Encode(Run(Termios(true), line, ws).line, groups) == Encode(Run(Dcb, line, ws).line, groups)
  {
    if ws != [] {
      var w := ws[|ws| - 1];
      assert w in ws;
      BackendsSimulateEachOther(line, ws[..|ws| - 1], groups);
      BackendsAgreeIff(w);
    }
  }

  // ---- Last writer wins ----

  /** The last group code that is present in a history, or what there was before. */
  function LastCode(ws: seq<Word>, group: Word -> int, initial: int): int {
    if ws == [] then initial
    else if group(ws[|ws| - 1]) != 0 then group(ws[|ws| - 1])
    else LastCode(ws[..|ws| - 1], group, initial)
  }

  function LastFlow(ws: seq<Word>, initial: FlowBits): FlowBits {
    if ws == [] then initial
    else if ws[|ws| - 1].flow != NO_FLOW_BITS then ws[|ws| - 1].flow
    else LastFlow(ws[..|ws| - 1], initial)
  }

  /** The last speed code that is present, or the one before, if the rate had one. */
  function LastSpeed(ws: seq<Word>, initial: Option<Byte>): Option<Byte> {
    if ws == [] then initial
    else if ws[|ws| - 1].speed != 0 then Some(ws[|ws| - 1].speed)
    else LastSpeed(ws[..|ws| - 1], initial)
  }

  /** All groups present. */
  const ALL_GROUPS := Word(255, 15, 15, FlowBits(true, true, true, true, true, true, true, true), 15, 15)

  /** What all groups are after a history of accepted calls: the code that was set last, or the
      initial one; a wide stop setting is 1.5 or 2 according to the data bits that were set last.
      None if the speed was never set and the initial rate has no code. */
  function LastCodes(line: Line, ws: seq<Word>): Option<Word> {
    var bits := LastCode(ws, (w: Word) => w.dataBits, DataCode(line.bits));
    var stop := LastCode(ws, (w: Word) => w.stopBits, StopCode(line));
    var parity := LastCode(ws, (w: Word) => w.parity, ParityCode(line.parity));
    match LastSpeed(ws, line.speed)
    case None => None
    case Some(speed) =>
      if !(0 <= bits < 16 && 0 <= parity < 16) then None
      else Some(Word(speed, 0, bits, LastFlow(ws, FlowCode(line.flow)),
                     if stop == STOP_1 then STOP_1 else if bits == DataCode(DB5) then STOP_1_5 else STOP_2,
                     parity))
  }

  /** After any history of accepted calls getParams gives exactly the last codes, and fails exactly
      if there is none for the speed. */
  lemma LastWriterWins(b: Backend, line: Line, ws: seq<Word>)
    requires ValidLine(line) && AllAccepted(b, line, ws)
    ensures Encode(Run(b, line, ws).line, ALL_GROUPS) == LastCodes(line, ws)
    ensures LastCodes(line, ws) == None <==> line.speed == None && forall w <- ws :: w.speed == 0
  {
    LineHasLastCodes(b, line, ws);
    LastSpeedIsNone(ws, line.speed);
  }

  lemma {:induction false} LastSpeedIsNone(ws: seq<Word>, initial: Option<Byte>)
    ensures LastSpeed(ws, initial) == None <==> initial == None && forall w <- ws :: w.speed == 0
  {
    if ws != [] {
      var front, w := ws[..|ws| - 1], ws[|ws| - 1];
      LastSpeedIsNone(front, initial);
      assert forall x :: x in ws <==> x in front || x == w;
    }
  }

  lemma {:induction false} LineHasLastCodes(b: Backend, line: Line, ws: seq<Word>)
    requires ValidLine(line) && AllAccepted(b, line, ws)
    ensures var z := Run(b, line, ws).line;
            && ValidLine(z)
            && z.speed == LastSpeed(ws, line.speed)
            && DataCode(z.bits) == LastCode(ws, (w: Word) => w.dataBits, DataCode(line.bits))
            && z.wide == (LastCode(ws, (w: Word) => w.stopBits, StopCode(line)) != STOP_1)
            && ParityCode(z.parity) == LastCode(ws, (w: Word) => w.parity, ParityCode(line.parity))
            && FlowCode(z.flow) == LastFlow(ws, FlowCode(line.flow))
  {
    hide SetParams;
    if ws != [] {
      var front, w := ws[..|ws| - 1], ws[|ws| - 1];
      var before := Run(b, line, front).line;
      LineHasLastCodes(b, line, front);
      AcceptedSetsCodes(b, before, w);
    }
  }

  predicate AllAccepted(b: Backend, line: Line, ws: seq<Word>) {
    ws != [] ==>
      && AllAccepted(b, line, ws[..|ws| - 1])
      && SetParams(b, Run(b, line, ws[..|ws| - 1]).line, ws[|ws| - 1]).ok
  }

  /** All calls of a history are accepted iff all its answers say so. */
  lemma {:induction false} AllAcceptedIff(b: Backend, line: Line, ws: seq<Word>)
    ensures |Run(b, line, ws).answers| == |ws|
    ensures AllAccepted(b, line, ws) <==> forall ok <- Run(b, line, ws).answers :: ok
  {
    hide SetParams;
    if ws != [] {
      var front := ws[..|ws| - 1];
      AllAcceptedIff(b, line, front);
      var answers, ok := Run(b, line, front).answers, SetParams(b, Run(b, line, front).line, ws[|ws| - 1]).ok;
      assert Run(b, line, ws).answers == answers + [ok];
      assert forall x <- answers :: x in answers + [ok];
      assert ok in answers + [ok];
    }
  }

  /** One accepted call: each group is now what the word says, or what it was. */
  lemma AcceptedSetsCodes(b: Backend, line: Line, w: Word)
    requires ValidLine(line) && SetParams(b, line, w).ok
    ensures var l := SetParams(b, line, w).line;
            && ValidLine(l)
            && l.speed == (if w.speed == 0 then line.speed else Some(w.speed))
            && DataCode(l.bits) == (if w.dataBits == 0 then DataCode(line.bits) else w.dataBits)
            && l.wide == (if w.stopBits == 0 then line.wide else w.stopBits != STOP_1)
            && ParityCode(l.parity) == (if w.parity == 0 then ParityCode(line.parity) else w.parity)
            && FlowCode(l.flow) == (if w.flow == NO_FLOW_BITS then FlowCode(line.flow) else w.flow)
  {
    hide EditCommon;
    CommonEdit(line, w, b.HasStick());
  }
}
