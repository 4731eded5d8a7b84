/**
  The port-parameter word and what it means for a line, independently of how a backend stores
  it. Five groups of bits select speed, data bits, flow control, stop bits and parity; a group
  of zero leaves its setting alone. Both backends are proved against this module.
 */
module LineSettings {
  import opened Prelude

  // ---- The word ----

  /** Bits 16 to 23 of the word, from the lowest. Bits 17 to 19 have no meaning. */
  datatype FlowBits = FlowBits(
    none: bool, b17: bool, b18: bool, b19: bool, rtsIn: bool, rtsOut: bool, xonIn: bool, xonOut: bool)

  type Nibble = x: int | 0 <= x < 16

  /** The 32 bits of the word, group by group: bits 0-7, 8-11 (unused), 12-15, 16-23, 24-27, 28-31. */
  datatype Word = Word(
    speed: Byte, unused: Nibble, dataBits: Nibble, flow: FlowBits, stopBits: Nibble, parity: Nibble)

  /** A number in binary, lowest digit first. */
  function PackBits(bits: seq<bool>): nat {
    if bits == [] then 0 else (if bits[0] then 1 else 0) + 2 * PackBits(bits[1..])
  }

  function FlowSeq(f: FlowBits): seq<bool> {
    [f.none, f.b17, f.b18, f.b19, f.rtsIn, f.rtsOut, f.xonIn, f.xonOut]
  }

  /** The word as an unsigned number. */
  function Pack(w: Word): nat {
    w.speed + 0x100 * (w.unused + 0x10 * (w.dataBits + 0x10 * (PackBits(FlowSeq(w.flow))
    + 0x100 * (w.stopBits + 0x10 * w.parity))))
  }

  lemma {:induction false} PackBitsInjective(a: seq<bool>, b: seq<bool>)
    requires |a| == |b|
    ensures PackBits(a) == PackBits(b) ==> a == b
  {
    if a != [] {
      PackBitsInjective(a[1..], b[1..]);
      assert a == [a[0]] + a[1..] && b == [b[0]] + b[1..];
    }
  }

  function TwoTo(n: nat): nat {
    if n == 0 then 1 else 2 * TwoTo(n - 1)
  }

  lemma {:induction false} PackBitsFits(bits: seq<bool>)
    ensures PackBits(bits) < TwoTo(|bits|)
  {
    if bits != [] {
      PackBitsFits(bits[1..]);
    }
  }

  lemma FlowIsAByte(f: FlowBits, g: FlowBits)
    ensures PackBits(FlowSeq(f)) < 0x100
    ensures PackBits(FlowSeq(f)) == PackBits(FlowSeq(g)) ==> f == g
  {
    hide PackBits;
    PackBitsFits(FlowSeq(f));
    assert TwoTo(8) == 2 * (2 * (2 * (2 * TwoTo(4)))) && TwoTo(4) == 16;
    PackBitsInjective(FlowSeq(f), FlowSeq(g));
    var s, t := FlowSeq(f), FlowSeq(g);
    assert s == t ==> s[0] == t[0] && s[1] == t[1] && s[2] == t[2] && s[3] == t[3];
    assert s == t ==> s[4] == t[4] && s[5] == t[5] && s[6] == t[6] && s[7] == t[7];
  }

  /** A digit and the rest of a number determine each other. */
  lemma SplitDigit(base: nat, a: nat, r: nat, b: nat, s: nat)
    requires (base == 0x10 || base == 0x100) && a < base && b < base
    ensures a + base * r == b + base * s ==> a == b && r == s
    ensures r < 0x100_0000 ==> a + base * r < base * 0x100_0000
  {}

  /** Every word is a 32-bit number, and no two words are the same number. */
  lemma PackIsInjective(v: Word, w: Word)
    ensures 0 <= Pack(w) < 0x1_0000_0000
    ensures Pack(v) == Pack(w) ==> v == w
  {
    hide PackBits;
    FlowIsAByte(v.flow, w.flow);
    FlowIsAByte(w.flow, v.flow);
    var f, g := PackBits(FlowSeq(v.flow)), PackBits(FlowSeq(w.flow));
    var v1, w1 := v.stopBits + 0x10 * v.parity, w.stopBits + 0x10 * w.parity;
    var v2, w2 := f + 0x100 * v1, g + 0x100 * w1;
    var v3, w3 := v.dataBits + 0x10 * v2, w.dataBits + 0x10 * w2;
    var v4, w4 := v.unused + 0x10 * v3, w.unused + 0x10 * w3;
    SplitDigit(0x100, v.speed, v4, w.speed, w4);
    SplitDigit(0x10, v.unused, v3, w.unused, w3);
    SplitDigit(0x10, v.dataBits, v2, w.dataBits, w2);
    SplitDigit(0x100, f, v1, g, w1);
    SplitDigit(0x10, v.stopBits, v.parity, w.stopBits, w.parity);
  }

  /** The word as a sum of the constants that the native header defines for it. */
  lemma WordIsASumOfConstants(w: Word)
    ensures Pack(w) ==
            w.speed + 256 * w.unused + 4096 * w.dataBits
            + 65536 * Bit(w.flow.none)
            + 131072 * Bit(w.flow.b17) + 262144 * Bit(w.flow.b18) + 524288 * Bit(w.flow.b19)
            + 1048576 * Bit(w.flow.rtsIn) + 2097152 * Bit(w.flow.rtsOut)
            + 4194304 * Bit(w.flow.xonIn) + 8388608 * Bit(w.flow.xonOut)
            + 16777216 * w.stopBits + 268435456 * w.parity
  {
    hide PackBits, Bit;
    FlowIsASum(w.flow);
  }

  function Bit(b: bool): nat {
    if b then 1 else 0
  }

  lemma FlowIsASum(f: FlowBits)
    ensures PackBits(FlowSeq(f)) ==
            Bit(f.none) + 2 * Bit(f.b17) + 4 * Bit(f.b18) + 8 * Bit(f.b19)
            + 16 * Bit(f.rtsIn) + 32 * Bit(f.rtsOut) + 64 * Bit(f.xonIn) + 128 * Bit(f.xonOut)
  {
    hide PackBits, Bit;
    FourBits(f.rtsIn, f.rtsOut, f.xonIn, f.xonOut, []);
    FourBits(f.none, f.b17, f.b18, f.b19, [f.rtsIn, f.rtsOut, f.xonIn, f.xonOut] + []);
    assert FlowSeq(f) == [f.none, f.b17, f.b18, f.b19] + ([f.rtsIn, f.rtsOut, f.xonIn, f.xonOut] + []);
    assert PackBits([]) == 0 by { NoBits(); }
  }

  lemma NoBits()
    ensures PackBits([]) == 0
  {}

  lemma FourBits(a: bool, b: bool, c: bool, d: bool, rest: seq<bool>)
    ensures PackBits([a, b, c, d] + rest) == Bit(a) + 2 * Bit(b) + 4 * Bit(c) + 8 * Bit(d) + 16 * PackBits(rest)
  {
    hide PackBits, Bit;
    FirstBit(d, rest);
    FirstBit(c, [d] + rest);
    FirstBit(b, [c] + ([d] + rest));
    FirstBit(a, [b] + ([c] + ([d] + rest)));
    assert [a, b, c, d] + rest == [a] + ([b] + ([c] + ([d] + rest)));
  }

  lemma FirstBit(b: bool, rest: seq<bool>)
    ensures PackBits([b] + rest) == Bit(b) + 2 * PackBits(rest)
  {
    assert ([b] + rest)[1..] == rest;
  }

  const NO_FLOW_BITS := FlowBits(false, false, false, false, false, false, false, false)

  /** NO_PARAMS_TO_SET: all groups absent. */
  const NO_PARAMS := Word(0, 0, 0, NO_FLOW_BITS, 0, 0)

  // ---- The line ----

  datatype DataBits = DB5 | DB6 | DB7 | DB8
  datatype Parity = NoParity | Odd | Even | Mark | Space
  datatype Flow = Flow(rtsIn: bool, rtsOut: bool, xonIn: bool, xonOut: bool)

  /** The settings of a line. `speed` is a speed code, or None if the device runs at a rate that
      has no code. `wide` stands for 1.5 stop bits with five data bits and for 2 otherwise. */
  datatype Line = Line(speed: Option<Byte>, bits: DataBits, wide: bool, parity: Parity, flow: Flow)

  predicate IsSpeed(code: int) {
    1 <= code <= 31
  }

  predicate ValidLine(line: Line) {
    line.speed.Some? ==> IsSpeed(line.speed.value)
  }

  /** The rates of the speed codes 1 to 31 in bits per second. */
  const RATES: seq<int> := [
    0, 50, 75, 110, 134, 150, 200, 300, 600, 1200, 1800, 2400, 4800, 9600, 19200, 38400, 57600, 115200, 230400,
    460800, 500000, 576000, 921600, 1000000, 1152000, 1500000, 2000000, 2500000, 3000000, 3500000, 4000000]

  function RateOf(code: int): int
    requires IsSpeed(code)
  {
    RATES[code - 1]
  }

  /** The code of a rate, if there is one. */
  function CodeOf(rate: int): Option<Byte> {
    match rate
    case 0 => Some(1) case 50 => Some(2) case 75 => Some(3) case 110 => Some(4) case 134 => Some(5)
    case 150 => Some(6) case 200 => Some(7) case 300 => Some(8) case 600 => Some(9) case 1200 => Some(10)
    case 1800 => Some(11) case 2400 => Some(12) case 4800 => Some(13) case 9600 => Some(14)
    case 19200 => Some(15) case 38400 => Some(16) case 57600 => Some(17) case 115200 => Some(18)
    case 230400 => Some(19) case 460800 => Some(20) case 500000 => Some(21) case 576000 => Some(22)
    case 921600 => Some(23) case 1000000 => Some(24) case 1152000 => Some(25) case 1500000 => Some(26)
    case 2000000 => Some(27) case 2500000 => Some(28) case 3000000 => Some(29) case 3500000 => Some(30)
    case 4000000 => Some(31)
    case _ => None
  }

  /** The two lookups are inverse to each other. */
  lemma SpeedRoundTrip(code: int, rate: int)
    ensures IsSpeed(code) ==> CodeOf(RateOf(code)) == Some(code)
    ensures CodeOf(rate).Some? ==> IsSpeed(CodeOf(rate).value) && RateOf(CodeOf(rate).value) == rate
  {}

  /** The rates rise with the codes. */
  lemma {:induction false} RatesRise(i: int, j: int)
    requires 1 <= i < j <= 31
    ensures RateOf(i) < RateOf(j)
    decreases j
  {
    hide RateOf;
    NextRate(j - 1);
    if i < j - 1 {
      RatesRise(i, j - 1);
    }
  }

  lemma NextRate(i: int)
    requires 1 <= i <= 30
    ensures RateOf(i) < RateOf(i + 1)
  {}

  /** The codes of the rates that double from 300, from 2400 and from 57600 on, of the last ones, which
      go by half millions, and of those in between. */
  lemma CodesOfRates(rate: int, k: int)
    ensures CodeOf(0) == Some(1) && CodeOf(300) == Some(8) && CodeOf(2400) == Some(12) && CodeOf(57_600) == Some(17)
    ensures rate in {300, 600, 2400, 4800, 9600, 19_200, 57_600, 115_200, 230_400} ==>
              CodeOf(2 * rate) == Some(CodeOf(rate).value + 1)
    ensures CodeOf(1_000_000) == Some(24) && (3 <= k <= 8 ==> CodeOf(500_000 * k) == Some(23 + k))
    ensures CodeOf(50) == Some(2) && CodeOf(75) == Some(3) && CodeOf(110) == Some(4) && CodeOf(134) == Some(5)
    ensures CodeOf(150) == Some(6) && CodeOf(200) == Some(7) && CodeOf(1800) == Some(11)
    ensures CodeOf(500_000) == Some(21) && CodeOf(576_000) == Some(22) && CodeOf(921_600) == Some(23)
    ensures CodeOf(1_152_000) == Some(25)
  {}

  // ---- Group codes ----

  function DataCode(bits: DataBits): Nibble {
    match bits case DB5 => 1 case DB6 => 2 case DB7 => 3 case DB8 => 4
  }

  function DataOf(code: Nibble): Option<DataBits> {
    match code case 1 => Some(DB5) case 2 => Some(DB6) case 3 => Some(DB7) case 4 => Some(DB8) case _ => None
  }

  const STOP_1: Nibble := 1
  const STOP_1_5: Nibble := 2
  const STOP_2: Nibble := 3

  function StopCode(line: Line): Nibble {
    if !line.wide then STOP_1 else if line.bits == DB5 then STOP_1_5 else STOP_2
  }

  function ParityCode(parity: Parity): Nibble {
    match parity case NoParity => 1 case Odd => 2 case Even => 3 case Mark => 4 case Space => 5
  }

  function ParityOf(code: Nibble): Option<Parity> {
    match code
    case 1 => Some(NoParity) case 2 => Some(Odd) case 3 => Some(Even) case 4 => Some(Mark) case 5 => Some(Space)
    case _ => None
  }

  const FLOW_OFF := Flow(false, false, false, false)

  /** NONE is set exactly if nothing else is. */
  function FlowCode(f: Flow): FlowBits {
    FlowBits(f == FLOW_OFF, false, false, false, f.rtsIn, f.rtsOut, f.xonIn, f.xonOut)
  }

  function FlowOf(f: FlowBits): Flow {
    Flow(f.rtsIn, f.rtsOut, f.xonIn, f.xonOut)
  }

  // ---- Reading a line back ----

  /** The word for the groups of a line that are present in `groups`. */
  function Encode(line: Line, groups: Word): Option<Word> {
    if groups.speed != 0 && line.speed == None then None
    else Some(Word(if groups.speed != 0 then line.speed.value else 0,
                   0,
                   if groups.dataBits != 0 then DataCode(line.bits) else 0,
                   if groups.flow != NO_FLOW_BITS then FlowCode(line.flow) else NO_FLOW_BITS,
                   if groups.stopBits != 0 then StopCode(line) else 0,
                   if groups.parity != 0 then ParityCode(line.parity) else 0))
  }

  // ---- Setting a line: the steps before the device is written ----

  /** Each step gives the new line, or None if the call is rejected there. */
  function EditSpeed(line: Line, w: Word): Option<Line> {
    if w.speed == 0 then Some(line)
    else if IsSpeed(w.speed) then Some(line.(speed := Some(w.speed)))
    else None
  }

  function EditDataBits(line: Line, w: Word): Option<Line> {
    if w.dataBits == 0 then Some(line)
    else match DataOf(w.dataBits)
      case Some(bits) => Some(line.(bits := bits))
      case None => None
  }

  function EditStopBits(line: Line, w: Word): Option<Line> {
    if w.stopBits == 0 then Some(line)
    else if w.stopBits == STOP_1 then Some(line.(wide := false))
    else if w.stopBits == STOP_1_5 && line.bits == DB5 then Some(line.(wide := true))
    else if w.stopBits == STOP_2 && line.bits != DB5 then Some(line.(wide := true))
    else None
  }

  /** Without a stick bit a device cannot tell MARK from ODD nor SPACE from EVEN. */
  function Representable(parity: Parity, stick: bool): Parity {
    if stick then parity else match parity case Mark => Odd case Space => Even case _ => parity
  }

  function EditParity(line: Line, w: Word, stick: bool): Option<Line> {
    if w.parity == 0 then Some(line)
    else match ParityOf(w.parity)
      case Some(parity) => Some(line.(parity := Representable(parity, stick)))
      case None => None
  }

  function EditCommon(line: Line, w: Word, stick: bool): Option<Line> {
    match EditSpeed(line, w)
    case None => None
    case Some(l1) =>
      match EditDataBits(l1, w)
      case None => None
      case Some(l2) =>
        match EditStopBits(l2, w)
        case None => None
        case Some(l3) => EditParity(l3, w, stick)
  }

  datatype Backend = Termios(stick: bool) | Dcb {
    /** MARK and SPACE need PAREXT or CMSPAR in termios. */
    predicate HasStick() {
      Termios? ==> stick
    }
  }

  /** termios has one RTS/CTS bit, and looks at the direction bits unless the group is exactly
      NONE. The DCB has a field for each direction, and ignores the other bits if NONE is set. */
  function EditFlow(b: Backend, line: Line, w: Word): Option<Line> {
    if w.flow == NO_FLOW_BITS then Some(line)
    else if b.Dcb? then Some(line.(flow := if w.flow.none then FLOW_OFF else FlowOf(w.flow)))
    else if w.flow.rtsIn != w.flow.rtsOut then None
    else Some(line.(flow := FlowOf(w.flow)))
  }

  function Edit(b: Backend, line: Line, w: Word): Option<Line> {
    match EditCommon(line, w, b.HasStick())
    case None => None
    case Some(l) => EditFlow(b, l, w)
  }

  /** What a call of setParams does on a device that stores what it is given: it succeeds if the
      groups of the word, read back, give the word again. A word that fails only then has
      already changed the device. */
  datatype Result = Result(ok: bool, line: Line)

  function SetParams(b: Backend, line: Line, w: Word): Result {
    match Edit(b, line, w)
    case None => Result(false, line)
    case Some(l) => Result(Encode(l, w) == Some(w), l)
  }
}
