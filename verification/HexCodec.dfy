/** The hex codec that scripts for the mock port are written in. */
module HexCodec {
  import opened Prelude

  /** A Java byte. */
  type SByte = b: int | -128 <= b < 128

  function HexValue(c: char): Option<int> {
    if '0' <= c <= '9' then Some(c as int - '0' as int)
    else if 'a' <= c <= 'f' then Some(c as int - 'a' as int + 10)
    else if 'A' <= c <= 'F' then Some(c as int - 'A' as int + 10)
    else None
  }

  function HexChar(v: int): char
    requires 0 <= v < 16
  {
    if v < 10 then '0' + v as char else 'a' + (v - 10) as char
  }

  /** Integer.parseInt of two characters in base 16; the first one may be a sign. */
  function ParsePair(c: char, d: char): (r: Option<int>)
    ensures r.Some? ==> -15 <= r.value < 256
  {
    match HexValue(d)
    case None => None
    case Some(low) =>
      if c == '+' then Some(low)
      else if c == '-' then Some(-low)
      else match HexValue(c)
        case None => None
        case Some(high) => Some(16 * high + low)
  }

  /** The cast from int to byte. */
  function ToByte(x: int): SByte
    requires -15 <= x < 256
  {
    if x >= 128 then x - 256 else x
  }

  /** What a script denotes, pair by pair; an odd last character is dropped. */
  function Decode(s: string): Option<seq<SByte>>
  {
    if |s| < 2 then Some([])
    else match ParsePair(s[0], s[1])
      case None => None
      case Some(v) =>
        Prefixed([ToByte(v)], Decode(s[2..]))
  }

  /** Two lower-case digits for each byte. */
  function Encode(bytes: seq<SByte>): string {
    if bytes == [] then "" else EncodeByte(bytes[0]) + Encode(bytes[1..])
  }

  function EncodeByte(b: SByte): string {
    var u := if b < 0 then b + 256 else b;
    [HexChar(u / 16), HexChar(u % 16)]
  }

  predicate LowerHex(c: char) {
    '0' <= c <= '9' || 'a' <= c <= 'f'
  }

  predicate Canonical(s: string) {
    |s| % 2 == 0 && forall c <- s :: LowerHex(c)
  }

  lemma HexDigits(v: int, c: char)
    ensures 0 <= v < 16 ==> LowerHex(HexChar(v)) && HexValue(HexChar(v)) == Some(v)
    ensures HexValue(c).Some? ==> 0 <= HexValue(c).value < 16
    ensures HexValue(c).Some? ==> (HexChar(HexValue(c).value) == c <==> LowerHex(c))
    ensures LowerHex(c) ==> HexValue(c).Some? && c != '+' && c != '-'
  {}

  /** One byte, written out and read in. */
  lemma ByteRoundTrip(b: SByte)
    ensures var e := EncodeByte(b);
            |e| == 2 && LowerHex(e[0]) && LowerHex(e[1])
            && ParsePair(e[0], e[1]).Some? && ToByte(ParsePair(e[0], e[1]).value) == b
  {
    hide HexValue, HexChar, LowerHex;
    var u := if b < 0 then b + 256 else b;
    HexDigits(u / 16, HexChar(u / 16));
    HexDigits(u % 16, HexChar(u % 16));
  }

  /** One pair, read in and written out. */
  lemma PairRoundTrip(c: char, d: char)
    requires ParsePair(c, d).Some?
    ensures EncodeByte(ToByte(ParsePair(c, d).value)) == [c, d] <==> LowerHex(c) && LowerHex(d)
  {
    hide HexValue, HexChar, LowerHex;
    var x := EncodeByte(ToByte(ParsePair(c, d).value));
    ByteRoundTrip(ToByte(ParsePair(c, d).value));
    assert x == [x[0], x[1]];
    HexDigits(0, c);
    HexDigits(HexValue(d).value, d);
    if HexValue(c).Some? {
      HexDigits(HexValue(c).value, c);
      assert c == '+' || c == '-' || x == [HexChar(HexValue(c).value), HexChar(HexValue(d).value)];
    }
  }

  /** Every byte sequence survives being written out and read in. */
  lemma {:induction false} BytesRoundTrip(bytes: seq<SByte>)
    ensures Decode(Encode(bytes)) == Some(bytes)
  {
    if bytes != [] {
      hide ParsePair, EncodeByte;
      var s := Encode(bytes);
      ByteRoundTrip(bytes[0]);
      assert s[..2] == EncodeByte(bytes[0]) && s[2..] == Encode(bytes[1..]);
      assert s[0] == EncodeByte(bytes[0])[0] && s[1] == EncodeByte(bytes[0])[1];
      BytesRoundTrip(bytes[1..]);
      assert bytes == [bytes[0]] + bytes[1..];
    }
  }

  /** Of the scripts that can be read in, exactly those of an even number of lower-case digits are
      written out as they were. */
  lemma {:induction false} StringRoundTripIff(s: string)
    requires Decode(s).Some?
    ensures Encode(Decode(s).value) == s <==> Canonical(s)
  {
    hide ParsePair, EncodeByte, LowerHex;
    if |s| >= 2 {
      hide Encode, Canonical, ToByte;
      var v := ParsePair(s[0], s[1]).value;
      var rest := Decode(s[2..]).value;
      PairRoundTrip(s[0], s[1]);
      StringRoundTripIff(s[2..]);
      FirstByteEncoded(ToByte(v), rest);
      FirstPairCanonical(s);
      var e := Encode([ToByte(v)] + rest);
      assert e == e[..2] + e[2..];
      assert s == [s[0], s[1]] + s[2..];
    }
  }

  lemma FirstPairCanonical(s: string)
    requires |s| >= 2
    ensures Canonical(s) <==> LowerHex(s[0]) && LowerHex(s[1]) && Canonical(s[2..])
  {
    hide LowerHex;
    assert s == [s[0], s[1]] + s[2..];
  }

  lemma FirstByteEncoded(b: SByte, rest: seq<SByte>)
    ensures var e := Encode([b] + rest);
            |EncodeByte(b)| == 2 && |e| >= 2 && e[..2] == EncodeByte(b) && e[2..] == Encode(rest)
  {
    hide ParsePair, EncodeByte;
    ByteRoundTrip(b);
    assert ([b] + rest)[1..] == rest;
  }

  /** ascii2Bytes; ok is false where it throws NumberFormatException. */
  method Ascii2Bytes(s: string) returns (ok: bool, result: array<SByte>)
    ensures fresh(result)
    ensures ok <==> Decode(s).Some?
    ensures ok ==> Decode(s) == Some(result[..])
  {
    result := new SByte[|s| / 2](_ => 0);
    var i := 0;
    PrefixedNothing(Decode(s));
    assert s[0..] == s;
    while i < |s| / 2
      invariant 0 <= i <= |s| / 2
      invariant Decode(s) == Prefixed(result[..i], Decode(s[2 * i..]))
    {
      var pair := ParsePair(s[2 * i], s[2 * i + 1]);
      assert s[2 * i..][2..] == s[2 * (i + 1)..];
      if pair == None {
        return false, result;
      }
      ghost var front := result[..i];
      PrefixedMore(front, ToByte(pair.value), Decode(s[2 * (i + 1)..]));
      result[i] := ToByte(pair.value);
      i := i + 1;
      assert result[..i] == front + [result[i - 1]];
    }
    assert s[2 * i..] == [] || |s[2 * i..]| == 1;
    assert result[..i] + [] == result[..];
    ok := true;
  }

  function Prefixed(front: seq<SByte>, rest: Option<seq<SByte>>): Option<seq<SByte>> {
    match rest case None => None case Some(bytes) => Some(front + bytes)
  }

  lemma PrefixedNothing(rest: Option<seq<SByte>>)
    ensures Prefixed([], rest) == rest
  {
    if rest.Some? {
      assert [] + rest.value == rest.value;
    }
  }

  lemma PrefixedMore(front: seq<SByte>, b: SByte, rest: Option<seq<SByte>>)
    ensures Prefixed(front, Prefixed([b], rest)) == Prefixed(front + [b], rest)
  {
    if rest.Some? {
      assert front + ([b] + rest.value) == front + [b] + rest.value;
    }
  }

  /** bytes2Ascii */
  method Bytes2Ascii(bytes: seq<SByte>) returns (s: string)
    ensures s == Encode(bytes)
  {
    s := "";
    for i := 0 to |bytes|
      invariant s + Encode(bytes[i..]) == Encode(bytes)
    {
      assert bytes[i..][1..] == bytes[i + 1..];
      s := s + EncodeByte(bytes[i]);
    }
    assert bytes[|bytes|..] == [];
  }

  // ---- What a script says, as numbers ----

  const LOWER := "0123456789abcdef"
  const UPPER := "0123456789ABCDEF"

  type Digit = d: int | 0 <= d < 16

  /** The digits of a number to the base 16, in characters. */
  function Spelled(digits: seq<Digit>): string {
    seq(|digits|, i requires 0 <= i < |digits| => LOWER[digits[i]])
  }

  /** A character stands for a digit, in either case. */
  predicate Spells(c: char, d: Digit) {
    c == LOWER[d] || c == UPPER[d]
  }

  function Pair(high: int, low: int): int {
    16 * high + low
  }

  function Unsigned(b: SByte): int {
    if b < 0 then b + 256 else b
  }

  /** The number that a sequence of digits stands for, the most significant one first. */
  function Number(digits: seq<int>, base: int): int {
    if digits == [] then 0 else Number(digits[..|digits| - 1], base) * base + digits[|digits| - 1]
  }

  function UnsignedBytes(bytes: seq<SByte>): seq<int> {
    seq(|bytes|, i requires 0 <= i < |bytes| => Unsigned(bytes[i]))
  }

  lemma PairSpells(c: char, d: char, high: Digit, low: Digit)
    requires Spells(c, high) && Spells(d, low)
    ensures ParsePair(c, d) == Some(Pair(high, low))
    ensures Unsigned(ToByte(Pair(high, low))) == Pair(high, low)
  {
    DigitSpells(c, high);
    DigitSpells(d, low);
  }

  lemma DigitSpells(c: char, d: Digit)
    requires Spells(c, d)
    ensures HexValue(c) == Some(d) && c != '+' && c != '-'
  {}

  /** Byte number i of a script is 16 times its digit 2i plus its digit 2i + 1, so that the bytes are
      the digits to the base 256 of the number that the script spells. */
  lemma {:induction false} DecodesTheNumber(s: string, digits: seq<Digit>)
    requires |s| == |digits| && |s| % 2 == 0
    requires forall i | 0 <= i < |s| :: Spells(s[i], digits[i])
    ensures Decode(s).Some? && 2 * |Decode(s).value| == |s|
    ensures forall i | 0 <= i < |Decode(s).value| ::
              Unsigned(Decode(s).value[i]) == Pair(digits[2 * i], digits[2 * i + 1])
    ensures Number(UnsignedBytes(Decode(s).value), 256) == Number(digits, 16)
  {
    hide ParsePair, ToByte, Spells, Number;
    BytesSpell(s, digits);
    SameNumber(UnsignedBytes(Decode(s).value), digits);
  }

  lemma {:induction false} BytesSpell(s: string, digits: seq<Digit>)
    requires |s| == |digits| && |s| % 2 == 0
    requires forall i | 0 <= i < |s| :: Spells(s[i], digits[i])
    ensures Decode(s).Some? && 2 * |Decode(s).value| == |s|
    ensures forall i | 0 <= i < |Decode(s).value| ::
              Unsigned(Decode(s).value[i]) == Pair(digits[2 * i], digits[2 * i + 1])
  {
    hide ParsePair, ToByte, Spells;
    if s != [] {
      PairSpells(s[0], s[1], digits[0], digits[1]);
      BytesSpell(s[2..], digits[2..]);
      var bytes, rest := Decode(s).value, Decode(s[2..]).value;
      assert bytes == [ToByte(Pair(digits[0], digits[1]))] + rest;
      forall i | 0 <= i < |bytes| ensures Unsigned(bytes[i]) == Pair(digits[2 * i], digits[2 * i + 1]) {
        if i > 0 {
          assert bytes[i] == rest[i - 1];
          assert digits[2..][2 * (i - 1)] == digits[2 * i] && digits[2..][2 * (i - 1) + 1] == digits[2 * i + 1];
        }
      }
    }
  }

  lemma {:induction false} SameNumber(bytes: seq<int>, digits: seq<int>)
    requires 2 * |bytes| == |digits|
    requires forall i | 0 <= i < |bytes| :: bytes[i] == Pair(digits[2 * i], digits[2 * i + 1])
    ensures Number(bytes, 256) == Number(digits, 16)
  {
    if bytes != [] {
      var n := |digits|;
      SameNumber(bytes[..|bytes| - 1], digits[..n - 2]);
      assert digits[..n - 1][..n - 2] == digits[..n - 2];
      assert Number(digits[..n - 1], 16) == Number(digits[..n - 2], 16) * 16 + digits[n - 2];
    }
  }

  /** Bytes are written out as the lower-case digits of just that number. */
  lemma {:induction false} EncodesTheNumber(bytes: seq<SByte>, digits: seq<Digit>)
    requires 2 * |bytes| == |digits|
    requires forall i | 0 <= i < |bytes| :: Unsigned(bytes[i]) == Pair(digits[2 * i], digits[2 * i + 1])
    ensures Encode(bytes) == Spelled(digits)
  {
    hide EncodeByte;
    if bytes == [] {
    } else {
      ByteSpells(bytes[0], digits[0], digits[1]);
      EncodesTheNumber(bytes[1..], digits[2..]);
      assert Spelled(digits) == [LOWER[digits[0]], LOWER[digits[1]]] + Spelled(digits[2..]);
    }
  }

  lemma ByteSpells(b: SByte, high: Digit, low: Digit)
    requires Unsigned(b) == Pair(high, low)
    ensures EncodeByte(b) == [LOWER[high], LOWER[low]]
  {
    assert Pair(high, low) / 16 == high && Pair(high, low) % 16 == low;
    CharSpells(high);
    CharSpells(low);
  }

  lemma CharSpells(d: Digit)
    ensures HexChar(d) == LOWER[d]
  {}

  /** Which pairs are read: a digit in front of a digit, or a sign, which makes the digit positive or
      negative. */
  predicate IsPair(c: char, d: char) {
    (c == '+' || c == '-' || exists high: Digit :: Spells(c, high)) && exists low: Digit :: Spells(d, low)
  }

  lemma PairIsReadIff(c: char, d: char)
    ensures ParsePair(c, d).Some? <==> IsPair(c, d)
    ensures forall low: Digit :: Spells(d, low) ==>
              ParsePair('+', d) == Some(low) && ParsePair('-', d) == Some(-(low as int))
  {
    hide Spells;
    CharIsReadIff(c);
    CharIsReadIff(d);
    forall low: Digit | Spells(d, low) ensures HexValue(d) == Some(low) {
      DigitSpells(d, low);
    }
  }

  lemma CharIsReadIff(c: char)
    ensures HexValue(c).Some? <==> exists d: Digit :: Spells(c, d)
  {
    hide Spells;
    if HexValue(c).Some? {
      CharIsItsDigit(c, HexValue(c).value);
    }
    forall d: Digit | Spells(c, d) ensures HexValue(c).Some? {
      DigitSpells(c, d);
    }
  }

  lemma CharIsItsDigit(c: char, d: int)
    requires HexValue(c) == Some(d)
    ensures 0 <= d < 16 && Spells(c, d)
  {}

  /** Exactly when a script cannot be read: one of its pairs is none. A last character without a
      partner does not count. */
  lemma {:induction false} ScriptIsReadIff(s: string)
    ensures Decode(s).Some? <==> forall i | 0 <= i < |s| / 2 :: IsPair(s[2 * i], s[2 * i + 1])
    ensures |s| % 2 == 1 ==> Decode(s) == Decode(s[..|s| - 1])
  {
    hide ParsePair, ToByte, IsPair;
    if |s| >= 2 {
      PairIsReadIff(s[0], s[1]);
      ScriptIsReadIff(s[2..]);
      var rest := s[2..];
      assert |s| % 2 == 1 ==> s[..|s| - 1][2..] == rest[..|rest| - 1];
      assert forall i | 0 <= i < |rest| / 2 :: rest[2 * i] == s[2 * (i + 1)] && rest[2 * i + 1] == s[2 * (i + 1) + 1];
      PairsBehindTheFirst(s);
    }
  }

  lemma PairsBehindTheFirst(s: string)
    requires |s| >= 2
    ensures (forall i | 0 <= i < |s| / 2 :: IsPair(s[2 * i], s[2 * i + 1])) <==>
            IsPair(s[0], s[1]) && forall i | 0 <= i < |s[2..]| / 2 :: IsPair(s[2..][2 * i], s[2..][2 * i + 1])
  {
    hide IsPair;
    var rest := s[2..];
    forall i | 0 <= i < |rest| / 2
      ensures IsPair(rest[2 * i], rest[2 * i + 1]) == IsPair(s[2 * (i + 1)], s[2 * (i + 1) + 1])
    {
      assert rest[2 * i] == s[2 * (i + 1)] && rest[2 * i + 1] == s[2 * (i + 1) + 1];
    }
    if forall i | 0 <= i < |s| / 2 :: IsPair(s[2 * i], s[2 * i + 1]) {
      assert IsPair(s[2 * 0], s[2 * 0 + 1]);
    } else {
      var k :| 0 <= k < |s| / 2 && !IsPair(s[2 * k], s[2 * k + 1]);
      if k > 0 {
        var j := k - 1;
        assert 0 <= j < |rest| / 2 && !IsPair(rest[2 * j], rest[2 * j + 1]);
      }
    }
  }
}
