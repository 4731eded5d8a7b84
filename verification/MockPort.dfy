/**
  The scripted mock port: a queue of requests shared by the factory, and a socket whose two
  streams consume it. The script can be read as one flat sequence of items, and the streams
  consume exactly a prefix of it however the calls are chunked.
 */
module MockPort {
  import opened Prelude
  import opened HexCodec

  datatype Kind = READ | WRITE

  /** Data, or the number of the IOException that is to be thrown. */
  datatype Payload = Data(bytes: seq<SByte>) | Fault(id: int)

  datatype Request = Request(payload: Payload, kind: Kind)

  /** How a call on a stream ends. UnexpectedRequest is the error that a script violation raises;
      IndexOutOfBounds comes from a cursor or a range that does not fit. */
  datatype Outcome =
    | Got(value: int) | Count(n: int) | Done
    | IOFault(id: int) | PortClosed | UnexpectedRequest | IndexOutOfBounds

  // ---- The flat script ----

  /** One byte that the reader gets or the writer must supply, or a fault for one of them. */
  datatype Item = Take(b: SByte) | TakeFault(id: int) | Expect(b: SByte) | ExpectFault(id: int)

  function ItemsOfBytes(bytes: seq<SByte>, kind: Kind): seq<Item> {
    seq(|bytes|, i requires 0 <= i < |bytes| => if kind == READ then Take(bytes[i]) else Expect(bytes[i]))
  }

  function Items(r: Request): seq<Item> {
    match r.payload
    case Data(bytes) => ItemsOfBytes(bytes, r.kind)
    case Fault(id) => [if r.kind == READ then TakeFault(id) else ExpectFault(id)]
  }

  function Flatten(data: seq<Request>): seq<Item> {
    if data == [] then [] else Items(data[0]) + Flatten(data[1..])
  }

  // ---- The state and its steps ----

  datatype State = State(data: seq<Request>, readPtr: nat, writePtr: nat, open: bool) {
    /** The cursor that belongs to the head of the queue. */
    function Cursor(): nat {
      if data == [] then 0 else if data[0].kind == READ then readPtr else writePtr
    }
  }

  predicate IsData(r: Request, kind: Kind) {
    r.kind == kind && r.payload.Data?
  }

  /** No data request is empty; a cursor that is not 0 points strictly inside a data request of
      its own kind at the head. */
  predicate Valid(s: State) {
    && (forall r <- s.data :: r.payload.Data? ==> r.payload.bytes != [])
    && (s.readPtr > 0 ==> s.data != [] && IsData(s.data[0], READ) && s.readPtr < |s.data[0].payload.bytes|)
    && (s.writePtr > 0 ==> s.data != [] && IsData(s.data[0], WRITE) && s.writePtr < |s.data[0].payload.bytes|)
  }

  /** What is left of the script. */
  function Remaining(s: State): seq<Item>
    requires Valid(s)
  {
    if s.data == [] then [] else Items(s.data[0])[s.Cursor()..] + Flatten(s.data[1..])
  }

  datatype Op = Read | ReadArray(off: int, len: int, room: nat) | Write(b: int) | Available

  /** The state after a call, how it ended, and the items of the script that it dealt with. */
  datatype Result = Result(state: State, out: Outcome, seen: seq<Item>)

  /** How a call ends that does not get to the bytes of a request of its kind. */
  function Refused(s: State, kind: Kind): Option<Result> {
    if !s.open then Some(Result(s, PortClosed, []))
    else if s.data == [] then Some(Result(s, UnexpectedRequest, []))
    else if s.data[0].kind != kind then Some(Result(s, UnexpectedRequest, []))
    else match s.data[0].payload
      case Fault(id) => Some(Result(s.(data := s.data[1..]), IOFault(id), Items(s.data[0])))
      case Data(_) => None
  }

  /** Move the cursor of the head's kind on; a request that is used up is removed. */
  function Advance(s: State, n: nat): State
    requires s.data != [] && s.data[0].payload.Data?
  {
    var used := s.Cursor() + n == |s.data[0].payload.bytes|;
    var ptr := if used then 0 else s.Cursor() + n;
    var data := if used then s.data[1..] else s.data;
    if s.data[0].kind == READ then s.(data := data, readPtr := ptr) else s.(data := data, writePtr := ptr)
  }

  function StepRead(s: State): Result {
    match Refused(s, READ)
    case Some(r) => r
    case None =>
      var bytes := s.data[0].payload.bytes;
      // The cursor is moved before the index is checked.
      if s.readPtr >= |bytes| then Result(s.(readPtr := s.readPtr + 1), IndexOutOfBounds, [])
      else Result(Advance(s, 1), Got(bytes[s.readPtr]), [Take(bytes[s.readPtr])])
  }

  function StepReadArray(s: State, off: int, len: int, room: nat): Result {
    match Refused(s, READ)
    case Some(r) => r
    case None =>
      var bytes := s.data[0].payload.bytes;
      var left := |bytes| - s.readPtr;
      var count := if len < left then len else left;
      if count < 0 || off < 0 || off + count > room then Result(s, IndexOutOfBounds, [])
      else Result(Advance(s, count), Count(count),
                  ItemsOfBytes(bytes[s.readPtr..s.readPtr + count], READ))
  }

  function StepWrite(s: State, b: int): Result {
    match Refused(s, WRITE)
    case Some(r) => r
    case None =>
      var bytes := s.data[0].payload.bytes;
      // The cursor is moved before the comparison, and stays there after a mismatch.
      if s.writePtr >= |bytes| then Result(s.(writePtr := s.writePtr + 1), IndexOutOfBounds, [])
      else if b != bytes[s.writePtr] then Result(s.(writePtr := s.writePtr + 1), UnexpectedRequest, [])
      else Result(Advance(s, 1), Done, [Expect(bytes[s.writePtr])])
  }

  function StepAvailable(s: State): Result {
    Result(s,
           if !s.open then PortClosed
           else if s.data == [] || !IsData(s.data[0], READ) then Count(0)
           else Count(|s.data[0].payload.bytes| - s.readPtr),
           [])
  }

  function Step(s: State, op: Op): Result {
    match op
    case Read => StepRead(s)
    case ReadArray(off, len, room) => StepReadArray(s, off, len, room)
    case Write(b) => StepWrite(s, b)
    case Available => StepAvailable(s)
  }

  /** The call did not violate the script and its cursor and range were in bounds. */
  predicate Fine(out: Outcome) {
    !out.UnexpectedRequest? && !out.IndexOutOfBounds?
  }

  // ---- One call ----

  lemma AdvanceKeepsValid(s: State, n: nat)
    requires Valid(s) && s.data != [] && s.data[0].payload.Data?
    requires s.Cursor() + n <= |s.data[0].payload.bytes|
    ensures Valid(Advance(s, n))
    ensures var z, used := Advance(s, n), s.Cursor() + n == |s.data[0].payload.bytes|;
            && (used ==> z.data == s.data[1..] && z.readPtr == z.writePtr == 0)
            && (!used ==> z.data == s.data && z.Cursor() == s.Cursor() + n)
  {
    assert forall r <- s.data[1..] :: r in s.data;
  }

  lemma AdvanceConsumes(s: State, n: nat)
    requires Valid(s) && s.data != [] && s.data[0].payload.Data?
    requires s.Cursor() + n <= |s.data[0].payload.bytes|
    ensures Valid(Advance(s, n))
    ensures var bytes := s.data[0].payload.bytes;
            Remaining(s) == ItemsOfBytes(bytes[s.Cursor()..s.Cursor() + n], s.data[0].kind) + Remaining(Advance(s, n))
  {
    AdvanceKeepsValid(s, n);
    hide ItemsOfBytes, Flatten, Advance, Valid;
    var bytes, c, kind := s.data[0].payload.bytes, s.Cursor(), s.data[0].kind;
    SplitItems(bytes, c, n, kind);
    var front, back := ItemsOfBytes(bytes[c..c + n], kind), ItemsOfBytes(bytes, kind)[c + n..];
    var z := Advance(s, n);
    if c + n == |bytes| {
      StartOfRequest(z);
      assert front + [] == front;
    } else {
      assert Remaining(z) == back + Flatten(s.data[1..]);
      assert (front + back) + Flatten(s.data[1..]) == front + (back + Flatten(s.data[1..]));
    }
  }

  lemma SplitItems(bytes: seq<SByte>, c: nat, n: nat, kind: Kind)
    requires c + n <= |bytes|
    ensures |ItemsOfBytes(bytes, kind)| == |bytes|
    ensures ItemsOfBytes(bytes, kind)[c..] == ItemsOfBytes(bytes[c..c + n], kind) + ItemsOfBytes(bytes, kind)[c + n..]
    ensures c + n == |bytes| ==> ItemsOfBytes(bytes, kind)[c + n..] == []
  {}

  /** Behind a request that was used up the rest of the script starts with whole requests. */
  lemma StartOfRequest(s: State)
    requires Valid(s) && s.readPtr == s.writePtr == 0
    ensures Remaining(s) == Flatten(s.data)
  {
    if s.data != [] {
      assert Items(s.data[0])[0..] == Items(s.data[0]);
    }
  }

  /** Every call that is fine consumes what it has seen from the front of the script, and keeps the
      cursors where they belong; the others leave the script alone, except a write of the wrong
      byte. */
  lemma StepConsumes(s: State, op: Op)
    requires Valid(s)
    ensures var r := Step(s, op);
            if Fine(r.out) then Valid(r.state) && Remaining(s) == r.seen + Remaining(r.state)
            else r.seen == [] && (r.state == s || (op.Write? && r.state == s.(writePtr := s.writePtr + 1)))
  {
    hide Flatten, ItemsOfBytes, Remaining, Advance;
    var r := Step(s, op);
    if op.Available? {
      assert [] + Remaining(s) == Remaining(s);
    } else if Refused(s, if op.Write? then WRITE else READ).Some? {
      RefusedConsumes(s, if op.Write? then WRITE else READ);
    } else if Fine(r.out) {
      var n := if op.ReadArray? then r.out.n else 1;
      AdvanceConsumes(s, n);
      ItemsOfOne(s.data[0].payload.bytes, s.Cursor(), s.data[0].kind);
    }
  }

  /** A refused call consumes nothing but the fault that it throws. */
  lemma RefusedConsumes(s: State, kind: Kind)
    requires Valid(s) && Refused(s, kind).Some?
    ensures var r := Refused(s, kind).value;
            && (Fine(r.out) ==> Valid(r.state) && Remaining(s) == r.seen + Remaining(r.state))
            && (!Fine(r.out) ==> r.seen == [] && r.state == s)
  {
    hide Flatten, ItemsOfBytes;
    var r := Refused(s, kind).value;
    if r.out.IOFault? {
      StartOfRequest(r.state);
      assert Items(s.data[0])[0..] == Items(s.data[0]);
    } else {
      assert [] + Remaining(s) == Remaining(s);
    }
  }

  lemma ItemsOfOne(bytes: seq<SByte>, c: nat, kind: Kind)
    requires c < |bytes|
    ensures ItemsOfBytes(bytes[c..c + 1], kind) == [if kind == READ then Take(bytes[c]) else Expect(bytes[c])]
  {
    assert bytes[c..c + 1] == [bytes[c]];
  }

  /** The head of the script alone decides how single reads and writes end. */
  lemma ScriptDecides(s: State, b: int)
    requires Valid(s) && s.open
    ensures var rest := Remaining(s);
            && Step(s, Read).out == (if rest == [] then UnexpectedRequest
                                     else match rest[0]
                                       case Take(v) => Got(v)
                                       case TakeFault(id) => IOFault(id)
                                       case _ => UnexpectedRequest)
            && Step(s, Write(b)).out == (if rest == [] then UnexpectedRequest
                                         else match rest[0]
                                           case Expect(v) => if b == v then Done else UnexpectedRequest
                                           case ExpectFault(id) => IOFault(id)
                                           case _ => UnexpectedRequest)
  {
    if s.data != [] {
      var head := Items(s.data[0])[s.Cursor()..];
      assert Remaining(s)[0] == head[0];
    }
  }

  /** available() is what an array read without a bound returns, if the next item is a byte. */
  lemma AvailableIsWhatCanBeRead(s: State, len: int, room: nat)
    requires Valid(s) && s.open && s.data != [] && IsData(s.data[0], READ)
    requires |s.data[0].payload.bytes| <= len && len <= room
    ensures Step(s, Available).out == Step(s, ReadArray(0, len, room)).out
    ensures Step(s, Available).out.n > 0
  {}

  /** A wrong byte is an error, and the byte that was expected in its place is skipped: the next single
      write is compared with the one after it, or is out of bounds if there is none in the request. */
  lemma WrongByteIsSkipped(s: State, b: int, next: int)
    requires Valid(s) && s.open && s.data != [] && IsData(s.data[0], WRITE)
    requires b != s.data[0].payload.bytes[s.writePtr]
    ensures var bytes, r := s.data[0].payload.bytes, Step(s, Write(b));
            && r.out == UnexpectedRequest && r.state.data == s.data
            && Step(r.state, Write(next)).out ==
               if s.writePtr + 1 == |bytes| then IndexOutOfBounds
               else if next == bytes[s.writePtr + 1] then Done else UnexpectedRequest
  {}

  /** available() is 0 if the next request is none for data that is to be read: a write is expected, a
      fault is due, or the script is at its end. */
  lemma NothingAvailable(s: State)
    requires Valid(s) && s.open
    ensures Step(s, Available).out == Count(0) <==> Remaining(s) == [] || !Remaining(s)[0].Take?
    ensures Step(s, Available).out.Count? && Step(s, Available).out.n >= 0
  {
    hide Flatten;
    if s.data != [] {
      var head := Items(s.data[0])[s.Cursor()..];
      assert Remaining(s)[0] == head[0];
    }
  }

  /** Nothing works on a closed socket, and nothing changes. */
  lemma ClosedRefuses(s: State, op: Op)
    requires !s.open
    ensures Step(s, op) == Result(s, PortClosed, [])
  {}

  /** The script decides how an array read ends too: it gives the first bytes of the script, or throws
      the fault, or is an error; and a range that does not fit is found out only if there are bytes. */
  lemma ScriptDecidesArrayReads(s: State, off: int, len: int, room: nat)
    requires Valid(s) && s.open
    ensures var rest, r := Remaining(s), Step(s, ReadArray(off, len, room));
            if rest == [] then r.out == UnexpectedRequest
            else match rest[0]
              case TakeFault(id) => r.out == IOFault(id)
              case Take(_) =>
                var left := Step(s, Available).out.n;
                var n := if len < left then len else left;
                if 0 <= n && 0 <= off <= room - n
                then r.out == Count(n) && n <= |rest| && r.seen == rest[..n]
                else r.out == IndexOutOfBounds
              case _ => r.out == UnexpectedRequest
  {
    hide Flatten, ItemsOfBytes, Remaining, Advance;
    NothingRemains(s);
    if s.data != [] {
      HeadItem(s);
      var left := if IsData(s.data[0], READ) then |s.data[0].payload.bytes| - s.readPtr else 0;
      var n := if len < left then len else left;
      if IsData(s.data[0], READ) && n >= 0 {
        FirstBytes(s, n);
      }
    }
  }

  /** The next bytes of a payload are the next items of the script. */
  lemma FirstBytes(s: State, n: nat)
    requires Valid(s) && s.data != [] && IsData(s.data[0], READ) && s.readPtr + n <= |s.data[0].payload.bytes|
    ensures n <= |Remaining(s)|
    ensures Remaining(s)[..n] == ItemsOfBytes(s.data[0].payload.bytes[s.readPtr..s.readPtr + n], READ)
  {
    hide Flatten, ItemsOfBytes, Remaining, Advance;
    AdvanceConsumes(s, n);
    SplitItems(s.data[0].payload.bytes[s.readPtr..s.readPtr + n], 0, n, READ);
  }

  lemma HeadItem(s: State)
    requires Valid(s) && s.data != []
    ensures Remaining(s) != []
    ensures var r, head := s.data[0], Remaining(s)[0];
            if r.payload.Data? then (if r.kind == READ then head.Take? else head.Expect?)
            else head == if r.kind == READ then TakeFault(r.payload.id) else ExpectFault(r.payload.id)
  {
    hide Flatten, ItemsOfBytes, Valid;
    var r := s.data[0];
    CursorFits(s);
    if r.payload.Data? {
      ItemAt(r.payload.bytes, s.Cursor(), r.kind);
    }
    var rest := Items(r)[s.Cursor()..];
    assert Remaining(s) == rest + Flatten(s.data[1..]) && rest != [];
    assert rest[0] == Items(r)[s.Cursor()];
  }

  lemma CursorFits(s: State)
    requires Valid(s) && s.data != []
    ensures if s.data[0].payload.Data? then s.Cursor() < |s.data[0].payload.bytes| else s.Cursor() == 0
  {}

  lemma ItemAt(bytes: seq<SByte>, k: nat, kind: Kind)
    requires k < |bytes|
    ensures |ItemsOfBytes(bytes, kind)| == |bytes|
    ensures ItemsOfBytes(bytes, kind)[k] == if kind == READ then Take(bytes[k]) else Expect(bytes[k])
  {}

  /** An array read of at least one byte makes progress, and takes no more than it was asked for. */
  lemma ArrayReadTakes(s: State, off: nat, len: int, room: nat)
    requires Valid(s) && s.open && s.data != [] && IsData(s.data[0], READ) && 0 < len && off + len <= room
    ensures var r := Step(s, ReadArray(off, len, room));
            && r.out.Count? && 1 <= r.out.n <= len && |r.seen| == r.out.n
            && (r.out.n < len ==> r.out.n == Step(s, Available).out.n)
  {}

  // ---- Whole runs ----

  function Run(s: State, ops: seq<Op>): State {
    if ops == [] then s else Step(Run(s, ops[..|ops| - 1]), ops[|ops| - 1]).state
  }

  /** All items that the calls of a run have dealt with. */
  function Seen(s: State, ops: seq<Op>): seq<Item> {
    if ops == [] then []
    else Seen(s, ops[..|ops| - 1]) + Step(Run(s, ops[..|ops| - 1]), ops[|ops| - 1]).seen
  }

  predicate AllFine(s: State, ops: seq<Op>) {
    ops != [] ==>
      && AllFine(s, ops[..|ops| - 1])
      && Fine(Step(Run(s, ops[..|ops| - 1]), ops[|ops| - 1]).out)
  }

  /** The refinement: a run that violates nothing consumes exactly a prefix of the flat script,
      whatever the kinds, sizes and number of its calls, and leaves the cursors in place. */
  lemma {:induction false} RunConsumesAPrefix(s: State, ops: seq<Op>)
    requires Valid(s) && AllFine(s, ops)
    ensures Valid(Run(s, ops))
    ensures Remaining(s) == Seen(s, ops) + Remaining(Run(s, ops))
  {
    hide Step, Valid, Remaining;
    if ops != [] {
      var front, op := ops[..|ops| - 1], ops[|ops| - 1];
      RunConsumesAPrefix(s, front);
      StepConsumes(Run(s, front), op);
      var r := Step(Run(s, front), op);
      assert Seen(s, ops) == Seen(s, front) + r.seen;
      assert (Seen(s, front) + r.seen) + Remaining(r.state) == Seen(s, front) + (r.seen + Remaining(r.state));
    } else {
      assert [] + Remaining(s) == Remaining(s);
    }
  }

  lemma NothingRemains(s: State)
    requires Valid(s)
    ensures Remaining(s) == [] <==> s.data == []
  {}

  /** allRequestsHandled() holds exactly when the run has dealt with the whole script. */
  lemma AllHandledIff(s: State, ops: seq<Op>)
    requires Valid(s) && AllFine(s, ops)
    ensures Run(s, ops).data == [] <==> Seen(s, ops) == Remaining(s)
  {
    RunConsumesAPrefix(s, ops);
    NothingRemains(Run(s, ops));
    if Run(s, ops).data == [] {
      assert Seen(s, ops) + [] == Seen(s, ops);
    } else {
      assert |Remaining(s)| == |Seen(s, ops)| + |Remaining(Run(s, ops))|;
    }
  }

  /** Chunking has no influence: of two runs the one that has dealt with fewer items has dealt
      with the first items of the other one. */
  lemma ChunkingIsInvisible(s: State, xs: seq<Op>, ys: seq<Op>)
    requires Valid(s) && AllFine(s, xs) && AllFine(s, ys) && |Seen(s, xs)| <= |Seen(s, ys)|
    ensures Seen(s, xs) <= Seen(s, ys)
  {
    RunConsumesAPrefix(s, xs);
    RunConsumesAPrefix(s, ys);
    var x, y := Seen(s, xs), Seen(s, ys);
    assert x == Remaining(s)[..|x|] && y == Remaining(s)[..|y|];
  }

  /** Why data requests must not be empty: once one single read or write has reached an empty payload
      of its kind, the script stays where it is whatever is called from then on, and all later calls
      that are not refused for their kind fail with an index out of bounds. */
  lemma {:induction false} EmptyPayloadBlocksForEver(s: State, b: int, ops: seq<Op>)
    requires s.open && s.data != [] && s.data[0].payload == Data([])
    ensures var z := Run(Step(s, if s.data[0].kind == READ then Read else Write(b)).state, ops);
            && z.data == s.data && z.open && z.Cursor() > 0
            && forall op: Op :: !op.Available? ==>
                 Step(z, op).out == if op.Write? == (s.data[0].kind == WRITE) then IndexOutOfBounds else UnexpectedRequest
  {
    if ops != [] {
      EmptyPayloadBlocksForEver(s, b, ops[..|ops| - 1]);
    }
  }

  // ---- Bytes are signed on both sides ----

  /** A socket at the start of a script of one request. */
  function Fresh(payload: seq<SByte>, kind: Kind): State {
    State([Request(Data(payload), kind)], 0, 0, true)
  }

  function Reads(n: nat): seq<Op> {
    seq(n, _ => Read)
  }

  function Writes(bytes: seq<Byte>): seq<Op> {
    seq(|bytes|, i requires 0 <= i < |bytes| => Write(bytes[i]))
  }

  /** What single read number `k` of a payload returns. */
  function ReadResult(payload: seq<SByte>, k: nat): Outcome {
    Step(Run(Fresh(payload, READ), Reads(k)), Read).out
  }

  lemma {:induction false} ReadsInOrder(payload: seq<SByte>, k: nat)
    requires k < |payload|
    ensures Run(Fresh(payload, READ), Reads(k)) == Fresh(payload, READ).(readPtr := k)
    ensures ReadResult(payload, k) == Got(payload[k])
  {
    if k > 0 {
      ReadsInOrder(payload, k - 1);
      assert Reads(k)[..k - 1] == Reads(k - 1);
    }
  }

  /** A payload that is read byte by byte gives 0 to 255, as an InputStream should, iff it has no
      negative byte. */
  lemma ReadsAreProperIff(payload: seq<SByte>)
    ensures (forall k: nat | k < |payload| :: ReadResult(payload, k).Got? && 0 <= ReadResult(payload, k).value < 256)
       <==> forall k | 0 <= k < |payload| :: payload[k] >= 0
  {
    hide ReadResult;
    forall k: nat | k < |payload| ensures ReadResult(payload, k) == Got(payload[k]) {
      ReadsInOrder(payload, k);
    }
    if forall k: nat | k < |payload| :: ReadResult(payload, k).Got? && 0 <= ReadResult(payload, k).value < 256 {
      forall k: nat | k < |payload| ensures payload[k] >= 0 {
        assert ReadResult(payload, k).Got?;
      }
    }
  }

  /** The payload that a script holds for unsigned bytes. */
  function Signed(bytes: seq<Byte>): seq<SByte> {
    seq(|bytes|, i requires 0 <= i < |bytes| => ToByte(bytes[i]))
  }

  lemma {:induction false} WritesInOrder(bytes: seq<Byte>, k: nat)
    requires k <= |bytes| && bytes != []
    ensures var s := Fresh(Signed(bytes), WRITE);
            && (AllFine(s, Writes(bytes[..k])) <==> forall i | 0 <= i < k :: bytes[i] < 128)
            && (AllFine(s, Writes(bytes[..k])) ==>
                  Run(s, Writes(bytes[..k])) == if k == |bytes| then State([], 0, 0, true) else s.(writePtr := k))
  {
    if k > 0 {
      WritesInOrder(bytes, k - 1);
      assert Writes(bytes[..k])[..k - 1] == Writes(bytes[..k - 1]);
    }
  }

  /** Unsigned bytes that are written one by one to the script that holds them get through, and use
      it up, iff they are all below 128. */
  lemma UnsignedWritesPassIff(bytes: seq<Byte>)
    requires bytes != []
    ensures AllFine(Fresh(Signed(bytes), WRITE), Writes(bytes)) <==> forall i | 0 <= i < |bytes| :: bytes[i] < 128
    ensures (forall i | 0 <= i < |bytes| :: bytes[i] < 128) ==> Run(Fresh(Signed(bytes), WRITE), Writes(bytes)).data == []
  {
    WritesInOrder(bytes, |bytes|);
    assert bytes[..|bytes|] == bytes;
  }

  // ---- The classes ----

  class MockSerialPortFactory {
    var data: seq<Request>

    constructor ()
      ensures data == []
    {
      data := [];
    }

    method AllRequestsHandled() returns (r: bool)
      ensures r <==> data == []
    {
      r := data == [];
    }

    method AddRequest(d: Request)
      modifies this
      ensures data == old(data) + [d]
    {
      data := data + [d];
    }

    /** The data of a request in hex; nothing is added if it cannot be read in. */
    method Expected(kind: Kind, hex: string) returns (ok: bool)
      modifies this
      ensures ok <==> Decode(hex).Some?
      ensures data == if ok then old(data) + [Request(Data(Decode(hex).value), kind)] else old(data)
    {
      var bytes;
      ok, bytes := Ascii2Bytes(hex);
      if ok {
        AddRequest(Request(Data(bytes[..]), kind));
      }
    }

    /** addRequest(writeData, readIOException, times) */
    method AddFailingExchanges(hex: string, fault: int, times: int) returns (ok: bool)
      modifies this
      ensures ok <==> Decode(hex).Some?
      ensures data == if ok
                      then old(data) + Repeat([Request(Data(Decode(hex).value), WRITE),
                                               Request(Fault(fault), READ)], times)
                      else old(data)
    {
      var bytes;
      ok, bytes := Ascii2Bytes(hex);
      if ok {
        var write, read := Request(Data(bytes[..]), WRITE), Request(Fault(fault), READ);
        ghost var before := data;
        var i := 0;
        while i < times
          invariant 0 <= i && (i <= times || i == 0)
          invariant data == before + Repeat([write, read], i)
        {
          AddRequest(write);
          AddRequest(read);
          RepeatMore([write, read], i);
          i := i + 1;
        }
        assert Repeat([write, read], i) == Repeat([write, read], times);
      }
    }

    /** expectedWrite(data, times) */
    method ExpectedWrites(hex: string, times: int) returns (ok: bool)
      modifies this
      ensures ok <==> Decode(hex).Some?
      ensures data == if ok then old(data) + Repeat([Request(Data(Decode(hex).value), WRITE)], times) else old(data)
    {
      var bytes;
      ok, bytes := Ascii2Bytes(hex);
      if ok {
        var r := Request(Data(bytes[..]), WRITE);
        ghost var before := data;
        var i := 0;
        while i < times
          invariant 0 <= i && (i <= times || i == 0)
          invariant data == before + Repeat([r], i)
        {
          AddRequest(r);
          RepeatMore([r], i);
          i := i + 1;
        }
        assert Repeat([r], i) == Repeat([r], times);
      }
    }

    method RemoveDataFirst()
      requires data != []
      modifies this
      ensures data == old(data)[1..]
    {
      data := data[1..];
    }
  }

  function Repeat(block: seq<Request>, times: int): seq<Request> {
    if times <= 0 then [] else Repeat(block, times - 1) + block
  }

  lemma RepeatMore(block: seq<Request>, times: int)
    requires times >= 0
    ensures Repeat(block, times + 1) == Repeat(block, times) + block
  {}

  /** A block that is repeated: how long it is, and what stands where in each copy. */
  lemma {:induction false} RepeatIs(block: seq<Request>, times: nat, copy: nat, k: nat)
    ensures |Repeat(block, times)| == times * |block|
    ensures copy < times && k < |block| ==>
              copy * |block| + k < times * |block| && Repeat(block, times)[copy * |block| + k] == block[k]
  {
    if times > 0 {
      RepeatIs(block, times - 1, copy, k);
      assert times * |block| == (times - 1) * |block| + |block|;
    }
  }

  /** Both streams of a mock socket with their cursors. */
  class MockSerialPortSocket {
    const factory: MockSerialPortFactory
    var readPtr: nat
    var writePtr: nat
    var open: bool

    constructor (factory: MockSerialPortFactory)
      ensures this.factory == factory && Snapshot() == State(factory.data, 0, 0, true)
    {
      this.factory := factory;
      readPtr, writePtr, open := 0, 0, true;
    }

    function Snapshot(): State
      reads this, factory
    {
      State(factory.data, readPtr, writePtr, open)
    }

    method Read() returns (out: Outcome)
      modifies this, factory
      ensures Snapshot() == StepRead(old(Snapshot())).state && out == StepRead(old(Snapshot())).out
    {
      if !open {
        return PortClosed;
      }
      if factory.data == [] {
        return UnexpectedRequest;
      }
      var first := factory.data[0];
      if first.kind != READ {
        return UnexpectedRequest;
      }
      match first.payload {
        case Fault(id) =>
          factory.RemoveDataFirst();
          return IOFault(id);
        case Data(payload) =>
          var i := readPtr;
          readPtr := readPtr + 1;
          if i >= |payload| {
            return IndexOutOfBounds;
          }
          out := Got(payload[i]);
          if readPtr == |payload| {
            readPtr := 0;
            factory.RemoveDataFirst();
          }
      }
    }

    method ReadArray(b: array<SByte>, off: int, len: int) returns (out: Outcome)
      modifies this, factory, b
      ensures var r := StepReadArray(old(Snapshot()), off, len, b.Length);
              && Snapshot() == r.state && out == r.out
              && (if out.Count?
                  then ItemsOfBytes(b[off..off + out.n], READ) == r.seen
                       && b[..off] == old(b[..off]) && b[off + out.n..] == old(b[off + out.n..])
                  else b[..] == old(b[..]))
    {
      if !open {
        return PortClosed;
      }
      if factory.data == [] {
        return UnexpectedRequest;
      }
      var first := factory.data[0];
      if first.kind != READ {
        return UnexpectedRequest;
      }
      match first.payload {
        case Fault(id) =>
          factory.RemoveDataFirst();
          return IOFault(id);
        case Data(payload) =>
          var count := |payload| - readPtr;
          if len < count {
            count := len;
          }
          if count < 0 || off < 0 || off + count > b.Length {
            return IndexOutOfBounds;
          }
          var chunk := payload[readPtr..readPtr + count];
          forall i | off <= i < off + count {
            b[i] := chunk[i - off];
          }
          assert b[off..off + count] == chunk;
          readPtr := readPtr + count;
          if readPtr == |payload| {
            readPtr := 0;
            factory.RemoveDataFirst();
          }
          return Count(count);
      }
    }

    method Write(b: int) returns (out: Outcome)
      modifies this, factory
      ensures Snapshot() == StepWrite(old(Snapshot()), b).state && out == StepWrite(old(Snapshot()), b).out
    {
      if !open {
        return PortClosed;
      }
      if factory.data == [] {
        return UnexpectedRequest;
      }
      var first := factory.data[0];
      if first.kind != WRITE {
        return UnexpectedRequest;
      }
      match first.payload {
        case Fault(id) =>
          factory.RemoveDataFirst();
          return IOFault(id);
        case Data(payload) =>
          var i := writePtr;
          writePtr := writePtr + 1;
          if i >= |payload| {
            return IndexOutOfBounds;
          }
          if b != payload[i] {
            return UnexpectedRequest;
          }
          if writePtr == |payload| {
            writePtr := 0;
            factory.RemoveDataFirst();
          }
          return Done;
      }
    }

    method Available() returns (out: Outcome)
      ensures out == StepAvailable(Snapshot()).out
    {
      if !open {
        return PortClosed;
      }
      if factory.data == [] {
        return Count(0);
      }
      var first := factory.data[0];
      if first.kind != READ || first.payload.Fault? {
        return Count(0);
      }
      return Count(|first.payload.bytes| - readPtr);
    }

    method Close()
      modifies this`open
      ensures Snapshot() == old(Snapshot()).(open := false)
    {
      open := false;
    }
  }
}
